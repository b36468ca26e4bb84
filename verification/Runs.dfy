/** Whole runs of the privileged worker: recover, then reconcile, over and over, with crashes. */
module Runs {
  import opened Prelude
  import opened Desired
  import opened Recovery
  import opened Transaction
  import opened Reconcile
  import opened Planning
  import opened Adapter

  /** The active managed cores are exactly the published ones. */
  ghost predicate ActiveMatches(live: Live, applied: AppliedState) {
    && (forall c :: c in live ==> (live[c].active <==> c in applied.activeCoreIds))
    && (forall c :: c in applied.activeCoreIds ==> c in live)
  }

  /** The live state that recovery leaves: what the durable state stands for. */
  function Stands(d: Durable): Live {
    Recovered(d).live
  }

  /** What holds of the durable state between two calls, whatever happened before. */
  ghost predicate Orderly(d: Durable) {
    d.journal.Some? && !Terminal(d.journal.value.status) ==>
      Undoable(d, Undo(d), d.applied) || Published(d, d.live, d.applied)
  }

  /** What holds between two calls as long as no rollback was cut short. */
  ghost predicate Consistent(d: Durable) {
    Orderly(d) && !RollingBack(d.journal) && ActiveMatches(Stands(d), d.applied)
  }

  lemma {:induction false} ActiveIdsMembers(plans: seq<CorePlan>)
    ensures forall c :: c in ActiveIds(plans) <==> exists i :: 0 <= i < |plans| && plans[i].coreId == c && plans[i].fragments != []
  {
    if plans != [] {
      var n := |plans| - 1;
      ActiveIdsMembers(plans[..n]);
      forall c | exists i :: 0 <= i < |plans| && plans[i].coreId == c && plans[i].fragments != []
        ensures c in ActiveIds(plans)
      {
        var i :| 0 <= i < |plans| && plans[i].coreId == c && plans[i].fragments != [];
        if i < n {
          assert plans[..n][i] == plans[i];
        }
      }
      forall c | c in ActiveIds(plans)
        ensures exists i :: 0 <= i < |plans| && plans[i].coreId == c && plans[i].fragments != []
      {
        if c in ActiveIds(plans[..n]) {
          var i :| 0 <= i < |plans[..n]| && plans[..n][i].coreId == c && plans[..n][i].fragments != [];
          assert plans[i].coreId == c;
        } else {
          assert plans[n].coreId == c;
        }
      }
    }
  }

  /** Because every core that was active has a plan, an empty one when it is no longer needed, the new
      state has exactly the cores active that the desired state needs, and these are the published ones. */
  lemma NewStateActive(protocols: map<string, Protocol>, cores: seq<Core>, desired: DesiredState, prev: AppliedState,
                       plans: seq<CorePlan>, base: Live, live: Live, compose: CorePlan -> Config)
    requires Sorted(cores) && PlansFor(protocols, cores, desired, prev, plans)
    requires ActiveMatches(base, prev) && NewState(live, base, plans, compose)
    ensures ActiveMatches(live, Next(plans, desired.generation))
    ensures forall c :: c in live ==> (live[c].active <==> Needed(protocols, cores, desired, c))
  {
    hide PlansFor, Needed;
    ActiveIdsMembers(plans);
    PlanReasons(protocols, cores, desired, prev, plans);
    forall c | c in live
      ensures live[c].active <==> Needed(protocols, cores, desired, c)
      ensures live[c].active <==> c in ActiveIds(plans)
    {
      if Planned(plans, |plans|, c) {
        PlannedCore(protocols, cores, desired, prev, plans, live, compose, c);
      } else {
        assert !exists p :: p in plans && p.coreId == c;
      }
    }
    forall c | c in ActiveIds(plans) ensures c in live {
      var i :| 0 <= i < |plans| && plans[i].coreId == c && plans[i].fragments != [];
      assert AtGoal(live, plans[i], compose);
    }
  }

  lemma PlannedCore(protocols: map<string, Protocol>, cores: seq<Core>, desired: DesiredState, prev: AppliedState,
                    plans: seq<CorePlan>, live: Live, compose: CorePlan -> Config, c: CoreId)
    requires Sorted(cores) && PlansFor(protocols, cores, desired, prev, plans) && Planned(plans, |plans|, c)
    requires forall i :: 0 <= i < |plans| ==> AtGoal(live, plans[i], compose)
    ensures c in live && (live[c].active <==> Needed(protocols, cores, desired, c)) && (live[c].active <==> c in ActiveIds(plans))
  {
    hide PlansFor, Needed, ActiveIds;
    ActiveIdsMembers(plans);
    PlanReasons(protocols, cores, desired, prev, plans);
    PlanMeaning(protocols, cores, desired, prev, plans);
    var i :| 0 <= i < |plans| && plans[i].coreId == c;
    assert plans[i] in plans && AtGoal(live, plans[i], compose);
  }

  // ------------------------------------------------------------------
  // What a durable state stands for

  lemma UndoableStands(d: Durable, base: Live, prev: AppliedState)
    requires Undoable(d, base, prev)
    ensures Stands(d) == base && Orderly(d) && !RollingBack(d.journal)
  {
    if MutatedNewestFirst(d.journal.value.resources) == [] {
      NothingToUndo(d);
    }
  }

  lemma PublishedStands(d: Durable)
    requires Published(d, d.live, d.applied)
    ensures Stands(d) == d.live && Orderly(d) && !RollingBack(d.journal)
  {
    if d.journal.value.resources != [] {
      assert d.journal.value.resources[0] in d.journal.value.resources;
    }
  }

  /** An attempt starts from what the durable state stands for. */
  lemma AttemptStartsStanding(d: Durable, desired: DesiredState)
    requires Orderly(d) && Attempts(desired, d)
    ensures Stands(d) == d.live
  {
    if d.journal.Some? && d.journal.value.status == Pending {
      NothingToUndo(d);
    }
  }

  /** Recovery finds its snapshots and has nothing to unpublish. */
  lemma OrderlyIsSound(d: Durable)
    requires Orderly(d)
    ensures Sound(d)
  {
    hide Undo;
    var rs := if d.journal.Some? then d.journal.value.resources else [];
    assert rs != [] ==> rs[0] in rs;
  }

  /** Interrupted, failing and complete recoveries change neither the applied state nor what the
      durable state stands for. */
  lemma RecoveryKeepsStanding(d: Durable, e: Durable)
    requires Orderly(d) && RecoveryStep(d, e)
    ensures Orderly(e) && Stands(e) == Stands(d) && e.applied == d.applied && (RollingBack(e.journal) <==> RollingBack(d.journal))
  {
    hide Undoable, Published, TouchesOnlyMutated, Undo;
    if d.journal.Some? && !Terminal(d.journal.value.status) {
      if Undoable(d, Undo(d), d.applied) {
        RecoveryOfUndoable(d, e);
      } else {
        RecoveryOfPublished(d, e);
      }
    }
  }

  lemma RecoveryKeepsConsistency(d: Durable, e: Durable)
    requires Consistent(d) && RecoveryStep(d, e)
    ensures Consistent(e) && e.applied == d.applied
  {
    hide Orderly, Stands, RecoveryStep;
    RecoveryKeepsStanding(d, e);
  }

  /** A complete recovery of an orderly state settles it, so nothing stands in the way of the next attempt. */
  lemma CompleteRecoverySettles(d: Durable, e: Durable)
    requires Orderly(d) && SameButFiles(e, Recovered(d))
    ensures e.journal.Some? <==> d.journal.Some?
    ensures e.journal.Some? ==> Terminal(e.journal.value.status)
  {
    hide Undo, Restorable;
  }

  lemma RecoveryOfUndoable(d: Durable, e: Durable)
    requires Undoable(d, Undo(d), d.applied) && RecoveryStep(d, e)
    ensures Orderly(e) && Stands(e) == Stands(d) && e.applied == d.applied && !RollingBack(e.journal) && !RollingBack(d.journal)
  {
    hide Undo, RecoveryStep, Restorable;
    UndoableStands(d, Undo(d), d.applied);
    RecoveryStepKeepsOutcome(d, e, Undo(d), d.applied);
    if Undoable(e, Undo(d), d.applied) {
      UndoableStands(e, Undo(d), d.applied);
    }
  }

  lemma RecoveryOfPublished(d: Durable, e: Durable)
    requires Published(d, d.live, d.applied) && RecoveryStep(d, e)
    ensures Orderly(e) && Stands(e) == Stands(d) && e.applied == d.applied && !RollingBack(e.journal) && !RollingBack(d.journal)
  {
    PublishedStands(d);
    var rs := d.journal.value.resources;
    assert rs != [] ==> rs[0] in rs;
  }

  /** Every way a transaction may end leaves an orderly state that stands for the state before it, or for
      its plans, or the journal of a cut rollback with everything needed to undo it. */
  lemma EndStands(d: Durable, tx: Tx, r: Outcome, t: seq<Call>)
    requires tx.Valid() && Ended(d, tx, r, t)
    ensures Orderly(d)
    ensures PublishedNew(d, tx) ==>
              !RollingBack(d.journal) && NewState(Stands(d), tx.base, tx.plans, tx.compose) && d.applied == Next(tx.plans, tx.generation)
    ensures !PublishedNew(d, tx) ==>
              d.applied == tx.prev && if RollingBack(d.journal) then Restorable(d) && Undo(d) == tx.base else Stands(d) == tx.base
  {
    hide Undo, Restorable, NewState, LegalCalls, Installed, Script, FullRollback;
    if PublishedNew(d, tx) {
      PublishedStands(d);
    } else if Undoable(d, tx.base, tx.prev) {
      UndoableStands(d, tx.base, tx.prev);
    }
  }

  // ------------------------------------------------------------------
  // One transaction, crashed anywhere and recovered

  ghost predicate AllOld(d: Durable, tx: Tx) {
    d.live == tx.base && d.applied == tx.prev
  }

  ghost predicate AllNew(d: Durable, tx: Tx) {
    NewState(d.live, tx.base, tx.plans, tx.compose) && d.applied == Next(tx.plans, tx.generation)
  }

  predicate Settled(d: Durable) {
    d.journal.None? || Terminal(d.journal.value.status)
  }

  /** The transaction can still be undone, or it is settled one way or the other. */
  ghost predicate Fate(d: Durable, tx: Tx) {
    Undoable(d, tx.base, tx.prev) || PublishedNew(d, tx) || (Settled(d) && (AllOld(d, tx) || AllNew(d, tx)))
  }

  lemma FateIsSound(d: Durable, tx: Tx)
    requires Fate(d, tx)
    ensures Sound(d)
  {
    if d.journal.Some? && d.journal.value.resources != [] {
      assert d.journal.value.resources[0] in d.journal.value.resources;
    }
  }

  /** A failing or crashing recovery does not seal a different fate. */
  lemma RecoveryKeepsFate(d: Durable, e: Durable, tx: Tx)
    requires Fate(d, tx) && RecoveryStep(d, e)
    ensures Fate(e, tx) && e.applied == d.applied
  {
    if Undoable(d, tx.base, tx.prev) {
      RecoveryStepKeepsOutcome(d, e, tx.base, tx.prev);
    } else if d.journal.Some? && d.journal.value.resources != [] {
      assert d.journal.value.resources[0] in d.journal.value.resources;
    }
  }

  /** A complete recovery leaves all cores and the applied state old, or all new. */
  lemma RecoveryIsAtomic(d: Durable, e: Durable, tx: Tx)
    requires Fate(d, tx) && SameButFiles(e, Recovered(d))
    ensures Settled(e) && (AllOld(e, tx) || AllNew(e, tx))
    ensures d.applied == tx.prev && tx.prev.generation < tx.generation ==> AllOld(e, tx)
  {
    if Undoable(d, tx.base, tx.prev) {
      if MutatedNewestFirst(d.journal.value.resources) == [] {
        NothingToUndo(d);
      }
    } else if d.journal.Some? && d.journal.value.resources != [] {
      assert d.journal.value.resources[0] in d.journal.value.resources;
    }
  }

  lemma EndDecidesFate(d: Durable, tx: Tx, r: Outcome, t: seq<Call>)
    requires Ended(d, tx, r, t)
    ensures Fate(d, tx) || WindowState(d, tx.base, tx.prev)
    ensures d.applied == tx.prev || PublishedNew(d, tx)
  {
  }

  // ------------------------------------------------------------------

  /** What the privileged worker does, and the generations it published so far. */
  class Worker {
    const reconciler: Reconciler
    ghost var published: seq<nat>

    constructor (reconciler: Reconciler)
      ensures this.reconciler == reconciler && published == []
    {
      this.reconciler := reconciler;
      published := [];
    }

    /** Published generations strictly increase, so none is published twice. */
    ghost predicate Valid()
      reads this, reconciler, reconciler.planner.cores
    {
      && reconciler.Valid()
      && (forall i, k :: 0 <= i < k < |published| ==> published[i] < published[k])
      && (forall i :: 0 <= i < |published| ==> published[i] <= reconciler.applied.generation)
    }

    /** From `d` to `e` the plans of `desired` were published: every planned core runs its plan, every other
        core is untouched. */
    ghost predicate Publishes(desired: DesiredState, d: Durable, e: Durable, plans: seq<CorePlan>)
      reads reconciler.planner.cores
    {
      && reconciler.Plan(desired, d.applied, plans) && d.applied.generation < desired.generation
      && NewState(Stands(e), Stands(d), plans, reconciler.compose) && e.applied == Next(plans, desired.generation)
    }

    /** From `d` to `e` nothing changed, or `desired` was published, or a rollback was cut short whose journal
        still suffices to undo it. */
    ghost predicate Advances(desired: DesiredState, d: Durable, e: Durable)
      reads reconciler.planner.cores
    {
      && Orderly(e)
      && (|| (e.applied == d.applied && Stands(e) == Stands(d) && (RollingBack(e.journal) ==> RollingBack(d.journal)))
          || (e.applied == d.applied && RollingBack(e.journal) && Restorable(e) && Undo(e) == Stands(d))
          || (!RollingBack(e.journal) && exists plans :: Publishes(desired, d, e, plans)))
    }

    /** The desired state is accepted and has plans without conflicts. */
    ghost predicate Placeable(desired: DesiredState, applied: AppliedState)
      reads reconciler.planner.cores
    {
      && Accepts(reconciler.planner.protocols, reconciler.planner.cores.adapters, desired, applied)
      && HasPlans(reconciler.planner.protocols, reconciler.planner.cores.adapters, desired, applied)
    }

    /** Without faults a newer desired state is published if and only if it can be placed. */
    ghost predicate Progresses(desired: DesiredState, d: Durable, e: Durable, clean: bool)
      reads reconciler.planner.cores
    {
      clean && desired.generation > d.applied.generation ==>
        (e.applied.generation == desired.generation <==> Placeable(desired, d.applied))
    }

    /** One wake-up: recover first, reconcile only if that did not leave a recovery pending. Without
        faults it publishes a newer desired state if and only if that can be placed. */
    method Pass(desired: DesiredState) returns (r: Outcome)
      requires Valid() && Orderly(reconciler.Disk())
      modifies this, reconciler
      ensures Valid() && Advances(desired, old(reconciler.Disk()), reconciler.Disk())
      ensures published == if reconciler.applied == old(reconciler.applied) then old(published) else old(published) + [desired.generation]
      ensures reconciler.applied.generation >= old(reconciler.applied.generation)
      ensures Progresses(desired, old(reconciler.Disk()), reconciler.Disk(), reconciler.faults == old(reconciler.faults))
    {
      hide Orderly, Stands, RecoveryStep, Sound, Recovered, RollingBack, Advances, Reconciler.Valid, Placeable;
      ghost var before := reconciler.Disk();
      OrderlyIsSound(before);
      r := reconciler.Recover();
      ghost var middle := reconciler.Disk();
      RecoveryKeepsStanding(before, middle);
      if reconciler.faults == old(reconciler.faults) {
        CompleteRecoverySettles(before, middle);
      }
      StandingAdvances(desired, before, middle);
      if r.Interrupted? || (r.Finished? && r.status == RecoveryRequired) {
        return;
      }
      if desired.generation > reconciler.applied.generation {
        r := Attempt(desired);
        AdvancesFrom(desired, before, middle, reconciler.Disk());
      }
    }

    lemma StandingAdvances(desired: DesiredState, d: Durable, e: Durable)
      requires Orderly(e) && Stands(e) == Stands(d) && e.applied == d.applied && (RollingBack(e.journal) <==> RollingBack(d.journal))
      ensures Advances(desired, d, e)
    {
    }

    lemma AdvancesFrom(desired: DesiredState, d: Durable, m: Durable, e: Durable)
      requires Stands(m) == Stands(d) && m.applied == d.applied && (RollingBack(m.journal) <==> RollingBack(d.journal))
      requires Advances(desired, m, e)
      ensures Advances(desired, d, e)
    {
      hide Stands, Orderly, RollingBack, Restorable, NewState;
      if plans :| Publishes(desired, m, e, plans) {
        assert Publishes(desired, d, e, plans);
      }
    }

    method Attempt(desired: DesiredState) returns (r: Outcome)
      requires Valid() && Orderly(reconciler.Disk()) && desired.generation > reconciler.applied.generation
      modifies this, reconciler
      ensures Valid() && Advances(desired, old(reconciler.Disk()), reconciler.Disk())
      ensures published == if reconciler.applied == old(reconciler.applied) then old(published) else old(published) + [desired.generation]
      ensures reconciler.applied.generation >= old(reconciler.applied.generation)
      ensures reconciler.faults >= old(reconciler.faults)
      ensures Attempts(desired, old(reconciler.Disk())) && reconciler.faults == old(reconciler.faults) ==>
                (reconciler.applied.generation == desired.generation <==> Placeable(desired, old(reconciler.applied)))
    {
      hide Orderly, Ended, PublishedNew, Advances, RollingBack, Stands, Tx.Valid, Accepts, HasPlans;
      hide Reconciler.Plan, Reconciler.Valid;
      ghost var tx, t;
      ghost var before := reconciler.Disk();
      StandingAdvances(desired, before, before);
      r, tx, t := reconciler.Reconcile(desired);
      if Attempts(desired, before) && reconciler.Disk() != before {
        AttemptAdvances(desired, before, reconciler.Disk(), tx, r, t);
      }
      if Attempts(desired, before) && r.Finished? {
        AppliedStatus(reconciler.Disk(), tx, r, t);
      }
      if reconciler.applied != before.applied {
        published := published + [desired.generation];
      }
    }

    lemma AppliedStatus(d: Durable, tx: Tx, r: Outcome, t: seq<Call>)
      requires Ended(d, tx, r, t) && r.Finished? && tx.Valid()
      ensures d.applied.generation == tx.generation <==> r.status == Applied
    {
      hide LegalCalls, FullRollback, NewState, Undo, Restorable, Script, Installed;
    }

    lemma AttemptAdvances(desired: DesiredState, d: Durable, e: Durable, tx: Tx, r: Outcome, t: seq<Call>)
      requires Orderly(d) && Attempts(desired, d) && tx.Valid() && Ended(e, tx, r, t)
      requires tx.base == d.live && tx.prev == d.applied && tx.generation == desired.generation && tx.compose == reconciler.compose
      requires PublishedNew(e, tx) ==> reconciler.Plan(desired, d.applied, tx.plans)
      ensures Advances(desired, d, e)
      ensures e.applied == d.applied || e.applied.generation == desired.generation
    {
      hide Orderly, Ended, PublishedNew, Stands, Restorable, NewState, RollingBack;
      AttemptStartsStanding(d, desired);
      EndStands(e, tx, r, t);
      if PublishedNew(e, tx) {
        assert Publishes(desired, d, e, tx.plans);
      }
    }

    /** Any run of wake-ups with any desired states, failures and crashes, also inside a rollback: the applied
        generation never decreases and no generation is published twice. `trace` are the durable states
        between the wake-ups. */
    method Run(wakeups: seq<DesiredState>) returns (ghost trace: seq<Durable>, ghost faults: seq<nat>)
      requires Valid() && Orderly(reconciler.Disk())
      modifies this, reconciler
      ensures Valid() && Orderly(reconciler.Disk())
      ensures old(published) <= published && reconciler.applied.generation >= old(reconciler.applied.generation)
      ensures IsRun(trace, wakeups) && trace[0] == old(reconciler.Disk()) && trace[|wakeups|] == reconciler.Disk()
      ensures |faults| == |trace| && faults[0] == old(reconciler.faults) && faults[|wakeups|] == reconciler.faults
      ensures forall i :: 0 <= i < |wakeups| ==> Progresses(wakeups[i], trace[i], trace[i + 1], faults[i] == faults[i + 1])
    {
      hide Advances, Orderly, Reconciler.Valid, Placeable;
      trace, faults := [reconciler.Disk()], [reconciler.faults];
      for i := 0 to |wakeups|
        invariant Valid() && Orderly(reconciler.Disk())
        invariant old(published) <= published && reconciler.applied.generation >= old(reconciler.applied.generation)
        invariant |trace| == i + 1 && trace[0] == old(reconciler.Disk()) && trace[i] == reconciler.Disk()
        invariant forall k :: 0 <= k < i ==> Advances(wakeups[k], trace[k], trace[k + 1])
        invariant |faults| == i + 1 && faults[0] == old(reconciler.faults) && faults[i] == reconciler.faults
        invariant forall k :: 0 <= k < i ==> Progresses(wakeups[k], trace[k], trace[k + 1], faults[k] == faults[k + 1])
      {
        var r := Pass(wakeups[i]);
        assert Orderly(reconciler.Disk()) by {
          AdvancesOrderly(wakeups[i], trace[i], reconciler.Disk());
        }
        trace, faults := trace + [reconciler.Disk()], faults + [reconciler.faults];
      }
    }

    lemma AdvancesOrderly(desired: DesiredState, d: Durable, e: Durable)
      requires Advances(desired, d, e)
      ensures Orderly(e)
      ensures e.applied == d.applied || (e.applied.generation == desired.generation > d.applied.generation)
    {
    }

    ghost predicate IsRun(trace: seq<Durable>, wakeups: seq<DesiredState>)
      reads reconciler.planner.cores
    {
      |trace| == |wakeups| + 1 && forall k :: 0 <= k < |wakeups| ==> Advances(wakeups[k], trace[k], trace[k + 1])
    }

    /** No rollback is cut short from `i` to `k`. */
    ghost predicate NoWindow(trace: seq<Durable>, i: int, k: int)
      requires 0 <= i && k < |trace|
    {
      forall n :: i <= n <= k ==> !RollingBack(trace[n].journal)
    }

    /** Over whole runs generations never decrease, and one generation is one applied state. */
    lemma {:induction false} OneGenerationOneApplied(trace: seq<Durable>, wakeups: seq<DesiredState>, i: nat, k: nat)
      requires IsRun(trace, wakeups) && i <= k < |trace|
      ensures trace[i].applied.generation <= trace[k].applied.generation
      ensures trace[i].applied.generation == trace[k].applied.generation ==> trace[i].applied == trace[k].applied
    {
      hide Advances;
      if i < k {
        OneGenerationOneApplied(trace, wakeups, i, k - 1);
        assert Advances(wakeups[k - 1], trace[k - 1], trace[k - 1 + 1]);
        AdvancesOrderly(wakeups[k - 1], trace[k - 1], trace[k]);
      }
    }

    /** Over whole runs one applied generation stands for one live state: between two publications every
        failure, rollback, crash and recovery leaves all cores as they were published. */
    lemma {:induction false} OneGenerationOneStanding(trace: seq<Durable>, wakeups: seq<DesiredState>, i: nat, k: nat)
      requires IsRun(trace, wakeups) && i <= k < |trace| && NoWindow(trace, i, k)
      requires trace[i].applied.generation == trace[k].applied.generation
      ensures Stands(trace[i]) == Stands(trace[k])
    {
      hide Advances, RollingBack, Stands;
      if i < k {
        OneGenerationOneApplied(trace, wakeups, i, k - 1);
        OneGenerationOneApplied(trace, wakeups, k - 1, k);
        OneGenerationOneStanding(trace, wakeups, i, k - 1);
        assert Advances(wakeups[k - 1], trace[k - 1], trace[k - 1 + 1]);
        SameAppliedSameStanding(wakeups[k - 1], trace[k - 1], trace[k]);
      }
    }

    lemma SameAppliedSameStanding(desired: DesiredState, d: Durable, e: Durable)
      requires Advances(desired, d, e) && !RollingBack(e.journal) && e.applied.generation == d.applied.generation
      ensures Stands(e) == Stands(d)
    {
      hide Stands, Orderly, RollingBack, NewState;
    }

    /** A wake-up outside the window keeps the published cores the active ones, and after a publication these are
        the cores that the desired state needs. */
    lemma AdvanceKeepsConsistency(desired: DesiredState, d: Durable, e: Durable)
      requires reconciler.planner.cores.Valid() && Consistent(d) && Advances(desired, d, e) && !RollingBack(e.journal)
      ensures Consistent(e)
      ensures e.applied != d.applied ==> Serves(desired, Stands(e))
    {
      hide Stands, Orderly, RollingBack, NewState, ActiveMatches, PlansFor;
      if e.applied != d.applied {
        var plans :| Publishes(desired, d, e, plans);
        NewStateActive(reconciler.planner.protocols, reconciler.planner.cores.adapters, desired, d.applied, plans, Stands(d), Stands(e),
          reconciler.compose);
      }
    }

    /** Exactly the cores that the desired state needs are active. */
    ghost predicate Serves(desired: DesiredState, live: Live)
      reads reconciler.planner.cores
    {
      forall c :: c in live ==>
        (live[c].active <==> Needed(reconciler.planner.protocols, reconciler.planner.cores.adapters, desired, c))
    }

    /** Until a rollback is cut short, the active cores of every state of a run are the published ones. */
    lemma {:induction false} RunIsConsistent(trace: seq<Durable>, wakeups: seq<DesiredState>, k: nat)
      requires reconciler.planner.cores.Valid() && IsRun(trace, wakeups) && k < |trace| && Consistent(trace[0]) && NoWindow(trace, 0, k)
      ensures Consistent(trace[k])
    {
      hide Advances, Consistent;
      if k > 0 {
        RunIsConsistent(trace, wakeups, k - 1);
        assert Advances(wakeups[k - 1], trace[k - 1], trace[k - 1 + 1]);
        AdvanceKeepsConsistency(wakeups[k - 1], trace[k - 1], trace[k]);
      }
    }

    /** As long as the generation published by wake-up `i` is the applied one, recovery and every later wake-up leave
        the cores active that this desired state needs, each on the configuration of its plan. */
    lemma PublishedIsServed(trace: seq<Durable>, wakeups: seq<DesiredState>, i: nat, k: nat)
      requires reconciler.planner.cores.Valid() && IsRun(trace, wakeups) && i < k < |trace|
      requires Consistent(trace[0]) && NoWindow(trace, 0, k)
      requires trace[i].applied != trace[i + 1].applied && trace[k].applied.generation == wakeups[i].generation
      ensures Serves(wakeups[i], Stands(trace[k]))
      ensures exists plans :: reconciler.Plan(wakeups[i], trace[i].applied, plans) && trace[k].applied == Next(plans, wakeups[i].generation)
                              && NewState(Stands(trace[k]), Stands(trace[i]), plans, reconciler.compose)
    {
      hide Consistent, RollingBack, NewState, Reconciler.Plan, Stands, Serves;
      RunIsConsistent(trace, wakeups, i);
      assert Advances(wakeups[i], trace[i], trace[i + 1]);
      AdvanceKeepsConsistency(wakeups[i], trace[i], trace[i + 1]);
      AdvancesOrderly(wakeups[i], trace[i], trace[i + 1]);
      var plans :| Publishes(wakeups[i], trace[i], trace[i + 1], plans);
      OneGenerationOneStanding(trace, wakeups, i + 1, k);
      OneGenerationOneApplied(trace, wakeups, i + 1, k);
    }

    /** Crash atomicity end to end: an attempt stopped anywhere in its forward path, then any number
        of failing or crashing recoveries, then one recovery without faults (`clean`): everything is as before,
        or every core planned for `desired` runs its plan and every other core is untouched. */
    method AttemptAndRecover(desired: DesiredState, retries: nat) returns (ghost tx: Tx, ghost clean: bool)
      requires Valid() && Orderly(reconciler.Disk()) && Attempts(desired, reconciler.Disk())
      modifies reconciler
      ensures tx.base == old(reconciler.live) && tx.prev == old(reconciler.applied) && tx.generation == desired.generation
      ensures tx.compose == reconciler.compose
      ensures reconciler.applied != old(reconciler.applied) ==> reconciler.Plan(desired, old(reconciler.applied), tx.plans)
      ensures clean ==> Settled(reconciler.Disk()) && (AllOld(reconciler.Disk(), tx) || AllNew(reconciler.Disk(), tx))
    {
      hide Orderly, Ended, Fate, WindowState, AllOld, AllNew, RecoveryStep, Sound, PublishedNew, Reconciler.Plan;
      ghost var t;
      ghost var before := reconciler.Disk();
      var outcome;
      outcome, tx, t := reconciler.Reconcile(desired);
      clean := false;
      ghost var landed := reconciler.applied;
      if reconciler.Disk() != before {
        EndDecidesFate(reconciler.Disk(), tx, outcome, t);
      }
      if RollingBack(reconciler.journal) {
        return;
      }
      if reconciler.Disk() == before {
        AttemptUntouched(before, desired, tx);
      } else {
        NotInWindow(reconciler.Disk(), tx);
      }
      for i := 0 to retries
        invariant reconciler.Valid() && Fate(reconciler.Disk(), tx) && reconciler.applied == landed
      {
        ghost var d := reconciler.Disk();
        FateIsSound(d, tx);
        outcome := reconciler.Recover();
        RecoveryKeepsFate(d, reconciler.Disk(), tx);
      }
      ghost var last, faults := reconciler.Disk(), reconciler.faults;
      FateIsSound(last, tx);
      outcome := reconciler.Recover();
      clean := reconciler.faults == faults;
      RecoveryKeepsFate(last, reconciler.Disk(), tx);
      if clean {
        RecoveryIsAtomic(last, reconciler.Disk(), tx);
      }
    }
  }

  lemma NotInWindow(d: Durable, tx: Tx)
    requires !RollingBack(d.journal)
    ensures !WindowState(d, tx.base, tx.prev)
  {
  }

  lemma AttemptUntouched(d: Durable, desired: DesiredState, tx: Tx)
    requires Orderly(d) && Attempts(desired, d) && tx.base == d.live && tx.prev == d.applied
    ensures Fate(d, tx)
  {
    if d.journal.Some? && d.journal.value.status == Pending {
      NothingToUndo(d);
    }
  }
}
