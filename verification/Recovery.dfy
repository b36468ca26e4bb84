/** What crash recovery does to the durable state, as a function of that state,
    and the theorems that hold for every durable state. */
module Recovery {
  import opened Prelude
  import opened Desired

  predicate Terminal(s: Status) {
    s in {Applied, Failed, RolledBack, Unsupported}
  }

  /** The resource whose snapshot recovery restores last for core `c`. */
  function Saved(resources: seq<JournalResource>, c: CoreId): Option<JournalResource> {
    if resources == [] then None
    else if resources[0].mutationStarted && resources[0].coreId == c then Some(resources[0])
    else Saved(resources[1..], c)
  }

  /** Resources whose durable marker says they may have been mutated, newest first. */
  function MutatedNewestFirst(resources: seq<JournalResource>): (r: seq<JournalResource>)
    ensures forall x :: x in r <==> x in resources && x.mutationStarted
    ensures |r| <= |resources|
  {
    if resources == [] then []
    else
      var tail := MutatedNewestFirst(resources[1..]);
      assert resources == [resources[0]] + resources[1..];
      if resources[0].mutationStarted then tail + [resources[0]] else tail
  }

  predicate FullyVerified(j: Journal) {
    j.resources != [] && forall r :: r in j.resources && r.mutationStarted ==> r.verified
  }

  ghost predicate DistinctCores(resources: seq<JournalResource>) {
    forall i, k :: 0 <= i < k < |resources| ==> resources[i].coreId != resources[k].coreId
  }

  /** Everything a restore of the journalled mutations needs is there. */
  ghost predicate Restorable(d: Durable)
    requires d.journal.Some?
  {
    var j := d.journal.value;
    && DistinctCores(j.resources)
    && forall r :: r in j.resources && r.mutationStarted ==>
         r.path == SnapshotPath(j.generation, r.coreId) && r.path in d.files && r.coreId in d.live
  }

  function SnapshotOf(r: JournalResource, files: map<SnapshotPath, Config>): Runtime
    requires r.path in files
  {
    Runtime(files[r.path], r.wasEnabled, r.wasActive)
  }

  /** The live state with every journalled mutation undone. */
  function Undo(d: Durable): map<CoreId, Runtime> {
    map c | c in d.live ::
      if d.journal.None? then d.live[c]
      else match Saved(d.journal.value.resources, c)
        case Some(r) => if r.path in d.files then SnapshotOf(r, d.files) else d.live[c]
        case None => d.live[c]
  }

  function RolledBackJournal(j: Journal): Journal {
    j.(phase := RolledBackPhase, status := RolledBack, current := None)
  }

  /** The state an uninterrupted `recover` with succeeding restores leaves, snapshots aside. */
  function Recovered(d: Durable): Durable {
    if d.journal.None? || Terminal(d.journal.value.status) then d
    else
      var j := d.journal.value;
      if d.applied.generation == j.generation && (j.phase == PublishedPhase || FullyVerified(j)) then
        d.(journal := Some(j.(phase := PublishedPhase, status := Applied)))
      else if MutatedNewestFirst(j.resources) == [] then
        d.(journal := Some(j.(status := Failed)))
      else if d.applied.generation == j.generation then
        d.(journal := Some(RolledBackJournal(j)), live := Undo(d),
           applied := AppliedState(j.previousGeneration, j.previousActive))
      else if d.applied.generation == j.previousGeneration then
        d.(journal := Some(RolledBackJournal(j)), live := Undo(d))
      else
        d.(journal := Some(j.(phase := RecoveryPhase, status := RecoveryRequired, current := None)), live := Undo(d))
  }

  /** Equal apart from the transaction directories. */
  predicate SameButFiles(a: Durable, b: Durable) {
    a.journal == b.journal && a.applied == b.applied && a.live == b.live
  }

  lemma {:induction false} SavedMember(resources: seq<JournalResource>, c: CoreId)
    ensures Saved(resources, c).Some? ==>
              Saved(resources, c).value in resources && Saved(resources, c).value.mutationStarted
              && Saved(resources, c).value.coreId == c
    ensures Saved(resources, c).None? ==> forall r :: r in resources && r.mutationStarted ==> r.coreId != c
  {
    if resources != [] {
      SavedMember(resources[1..], c);
    }
  }

  lemma SavedUnique(resources: seq<JournalResource>, r: JournalResource)
    requires DistinctCores(resources) && r in resources && r.mutationStarted
    ensures Saved(resources, r.coreId) == Some(r)
  {
    SavedMember(resources, r.coreId);
  }

  // ------------------------------------------------------------------
  // Durable states around one transaction

  /** A transaction from `base` and `prev` is in flight and its journal suffices to undo it. */
  ghost predicate Undoable(d: Durable, base: map<CoreId, Runtime>, prev: AppliedState) {
    && d.journal.Some?
    && var j := d.journal.value;
    && j.status in {Pending, Applying, RecoveryRequired}
    && j.previousGeneration == prev.generation && j.previousActive == prev.activeCoreIds
    && prev.generation < j.generation
    && (j.phase == RollbackStarted ==> MutatedNewestFirst(j.resources) != [])
    && (j.status == Pending ==> j.resources == [])
    && d.applied == prev
    && Restorable(d)
    && Undo(d) == base
  }

  /** The transaction is over and left nothing behind. */
  ghost predicate Abandoned(d: Durable, base: map<CoreId, Runtime>, prev: AppliedState) {
    && d.journal.Some?
    && d.journal.value.status in {Failed, RolledBack, Unsupported}
    && d.journal.value.phase != RollbackStarted
    && d.applied == prev && d.live == base
  }

  /** The new state is published; only the terminal journal entry may be missing. */
  ghost predicate Published(d: Durable, goal: map<CoreId, Runtime>, next: AppliedState) {
    && d.journal.Some?
    && var j := d.journal.value;
    && d.live == goal && d.applied == next && j.generation == next.generation
    && (j.status == Applied ||
        (j.status == Applying && j.phase == PublishingPhase && forall r :: r in j.resources ==> r.mutationStarted && r.verified))
  }

  /** The window of the in-process rollback: the journal says failed, restores may be outstanding. */
  predicate RollingBack(journal: Option<Journal>) {
    journal.Some? && journal.value.status == Failed && journal.value.phase == RollbackStarted
  }

  /** Every way one transaction from `base` towards `goal` may be found after a crash of its forward path. */
  ghost predicate CrashState(d: Durable, base: map<CoreId, Runtime>, prev: AppliedState,
                             goal: map<CoreId, Runtime>, next: AppliedState) {
    Undoable(d, base, prev) || Abandoned(d, base, prev) || Published(d, goal, next)
  }

  /** Crash atomicity: recovery leaves all cores old with the old applied state or, exactly
      when the compare-and-set had landed, all cores new with the new applied state. */
  lemma CrashAtomicity(d: Durable, base: map<CoreId, Runtime>, prev: AppliedState,
                       goal: map<CoreId, Runtime>, next: AppliedState)
    requires CrashState(d, base, prev, goal, next) && prev.generation < next.generation
    ensures var e := Recovered(d);
            if d.applied.generation == next.generation
            then e.live == goal && e.applied == next
            else e.live == base && e.applied == prev && e.journal.value.status in {Failed, RolledBack, Unsupported}
  {
    if Undoable(d, base, prev) && MutatedNewestFirst(d.journal.value.resources) == [] {
      NothingToUndo(d);
    }
    if Published(d, goal, next) && d.journal.value.resources != [] {
      assert d.journal.value.resources[0] in d.journal.value.resources;
    }
  }

  lemma NothingToUndo(d: Durable)
    requires d.journal.Some? && MutatedNewestFirst(d.journal.value.resources) == []
    ensures Undo(d) == d.live
  {
    var rs := d.journal.value.resources;
    assert forall r :: r in rs && r.mutationStarted ==> r in MutatedNewestFirst(rs);
    forall c | c in d.live ensures Undo(d)[c] == d.live[c] {
      SavedMember(rs, c);
    }
  }

  /** After the compare-and-set, recovery reports success exactly when a core was planned:
      with an empty plan it records a failure although the generation advanced. */
  lemma PublishedStatus(d: Durable, goal: map<CoreId, Runtime>, next: AppliedState)
    requires Published(d, goal, next) && d.journal.value.status == Applying
    ensures Recovered(d).journal.value.status == (if d.journal.value.resources != [] then Applied else Failed)
  {
    if d.journal.value.resources != [] {
      assert d.journal.value.resources[0] in d.journal.value.resources;
    }
  }

  /** Recovery never moves the applied generation backwards: its compare-and-set back to the
      previous generation is not reachable from any crash of the forward path. */
  lemma NeverPublishesBackwards(d: Durable, base: map<CoreId, Runtime>, prev: AppliedState,
                                goal: map<CoreId, Runtime>, next: AppliedState)
    requires CrashState(d, base, prev, goal, next) && prev.generation < next.generation
    requires !Terminal(d.journal.value.status)
    ensures !(d.applied.generation == d.journal.value.generation
              && MutatedNewestFirst(d.journal.value.resources) != []
              && !(d.journal.value.phase == PublishedPhase || FullyVerified(d.journal.value)))
    ensures Recovered(d).applied == d.applied
  {
    if Undoable(d, base, prev) && MutatedNewestFirst(d.journal.value.resources) == [] {
      NothingToUndo(d);
    }
  }

  /** The recorded outcome, from every durable state: published if that is proven, failed if no core was touched, rolled
      back if the applied state belongs to this transaction, and otherwise left to the operator. */
  lemma RecoveredJournal(d: Durable)
    requires d.journal.Some?
    ensures var j, e := d.journal.value, Recovered(d);
            var terminal := j.status == Applied || j.status == Failed || j.status == RolledBack || j.status == Unsupported;
            var touched := exists r :: r in j.resources && r.mutationStarted;
            var proven := d.applied.generation == j.generation
                          && (j.phase == PublishedPhase
                              || (j.resources != [] && forall r :: r in j.resources && r.mutationStarted ==> r.verified));
            if terminal then e == d
            else
              && e.journal.Some? && e.files == d.files
              && var k := e.journal.value;
              && k.(status := j.status, phase := j.phase, current := j.current) == j
              && k.status == (if proven then Applied else if !touched then Failed
                              else if d.applied.generation in {j.generation, j.previousGeneration} then RolledBack else RecoveryRequired)
              && k.phase == (if proven then PublishedPhase else if !touched then j.phase
                             else if d.applied.generation in {j.generation, j.previousGeneration} then RolledBackPhase else RecoveryPhase)
              && e.applied == (if !proven && touched && d.applied.generation == j.generation
                               then AppliedState(j.previousGeneration, j.previousActive) else d.applied)
              && (proven || !touched ==> e.live == d.live)
  {
    hide Undo;
    var rs := d.journal.value.resources;
    assert MutatedNewestFirst(rs) == [] <==> !exists r :: r in rs && r.mutationStarted by {
      if MutatedNewestFirst(rs) != [] {
        assert MutatedNewestFirst(rs)[0] in MutatedNewestFirst(rs);
      }
    }
  }

  /** A transaction that can be undone ends rolled back if a core was touched and failed otherwise. */
  lemma UndoableOutcome(d: Durable, base: map<CoreId, Runtime>, prev: AppliedState)
    requires Undoable(d, base, prev)
    ensures var k := Recovered(d).journal.value;
            if exists r :: r in d.journal.value.resources && r.mutationStarted
            then k.status == RolledBack && k.phase == RolledBackPhase && k.current == None else k.status == Failed
  {
    RecoveredJournal(d);
  }

  // ------------------------------------------------------------------
  // Recovery can be interrupted and repeated

  /** The live state differs from `d` only at cores the journal marks as mutated. */
  ghost predicate TouchesOnlyMutated(d: Durable, live: map<CoreId, Runtime>)
    requires d.journal.Some?
  {
    && live.Keys == d.live.Keys
    && forall c :: c in live && live[c] != d.live[c] ==> Saved(d.journal.value.resources, c).Some?
  }

  /** One call of `recover`, stopped anywhere: nothing durable happened, or it is between the first
      restore and its terminal journal entry, or it gave up, or it finished. */
  ghost predicate RecoveryStep(d: Durable, e: Durable) {
    || e == d
    || (SameButFiles(e, Recovered(d))
        && (e.files == d.files || (d.journal.Some? && Terminal(Recovered(d).journal.value.status))))
    || (d.journal.Some? && !Terminal(d.journal.value.status)
        && MutatedNewestFirst(d.journal.value.resources) != []
        && !(d.applied.generation == d.journal.value.generation
             && (d.journal.value.phase == PublishedPhase || FullyVerified(d.journal.value)))
        && TouchesOnlyMutated(d, e.live) && e.applied == d.applied && e.files == d.files
        && (e.journal == Some(d.journal.value.(phase := RollbackStarted, status := Applying))
            || e.journal == Some(d.journal.value.(phase := RecoveryPhase, status := RecoveryRequired, current := None))))
  }

  lemma UndoIgnoresTouched(d: Durable, e: Durable)
    requires d.journal.Some? && e.journal.Some? && e.journal.value.resources == d.journal.value.resources
    requires TouchesOnlyMutated(d, e.live) && e.files == d.files && Restorable(d)
    ensures Undo(e) == Undo(d)
  {
    forall c | c in d.live ensures Undo(e)[c] == Undo(d)[c] {
      SavedMember(d.journal.value.resources, c);
    }
  }

  /** Whatever one interrupted or failing recovery did, the next uninterrupted one ends where the
      first would have ended. */
  lemma RecoveryStepKeepsOutcome(d: Durable, e: Durable, base: map<CoreId, Runtime>, prev: AppliedState)
    requires Undoable(d, base, prev) && RecoveryStep(d, e)
    ensures Undoable(e, base, prev) || Abandoned(e, base, prev)
    ensures SameButFiles(Recovered(e), Recovered(d))
  {
    var j := d.journal.value;
    if MutatedNewestFirst(j.resources) == [] {
      NothingToUndo(d);
    } else if !SameButFiles(e, Recovered(d)) && e != d {
      UndoIgnoresTouched(d, e);
    }
  }

  /** Any number of interrupted or failing recoveries followed by one complete recovery ends in
      the journal, applied state and live cores of one uninterrupted recovery. */
  lemma {:induction false} RecoveryIsRestartable(run: seq<Durable>, base: map<CoreId, Runtime>, prev: AppliedState)
    requires run != [] && (Undoable(run[0], base, prev) || Abandoned(run[0], base, prev))
    requires forall i :: 0 <= i < |run| - 1 ==> RecoveryStep(run[i], run[i + 1])
    ensures SameButFiles(Recovered(run[|run| - 1]), Recovered(run[0]))
    ensures Recovered(run[|run| - 1]).live == base && Recovered(run[|run| - 1]).applied == prev
  {
    if |run| == 1 {
      if Undoable(run[0], base, prev) && MutatedNewestFirst(run[0].journal.value.resources) == [] {
        NothingToUndo(run[0]);
      }
    } else {
      assert RecoveryStep(run[0], run[1]);
      if Undoable(run[0], base, prev) {
        RecoveryStepKeepsOutcome(run[0], run[1], base, prev);
      }
      forall i | 0 <= i < |run| - 2 ensures RecoveryStep(run[1..][i], run[1..][i + 1]) {
        assert run[1..][i] == run[i + 1] && run[1..][i + 1] == run[i + 2];
      }
      RecoveryIsRestartable(run[1..], base, prev);
    }
  }

  /** The cores restored by recovery are distinct and each goes back to its snapshot. */
  lemma RestoreTargets(d: Durable, k: nat)
    requires d.journal.Some? && Restorable(d) && k < |MutatedNewestFirst(d.journal.value.resources)|
    ensures var r := MutatedNewestFirst(d.journal.value.resources)[k];
            r.path == SnapshotPath(d.journal.value.generation, r.coreId) && r.path in d.files && r.coreId in d.live
            && Saved(d.journal.value.resources, r.coreId) == Some(r) && Undo(d)[r.coreId] == SnapshotOf(r, d.files)
  {
    var rs := MutatedNewestFirst(d.journal.value.resources);
    assert rs[k] in rs;
    SavedUnique(d.journal.value.resources, rs[k]);
  }

  lemma {:induction false} NewestFirstDistinct(resources: seq<JournalResource>)
    requires DistinctCores(resources)
    ensures DistinctCores(MutatedNewestFirst(resources))
  {
    if resources != [] {
      NewestFirstDistinct(resources[1..]);
      var tail := MutatedNewestFirst(resources[1..]);
      forall i | 0 <= i < |tail| ensures tail[i].coreId != resources[0].coreId {
        assert tail[i] in tail;
      }
    }
  }

  // ------------------------------------------------------------------
  // The window of the in-process rollback

  /** Inside the rollback window the journal still names every snapshot needed to undo the
      transaction, but recovery does not use it: it restores the old state from every live state
      the journal could undo if and only if the persisted status is not a terminal one. */
  lemma RollbackWindowIsNotRecovered(d: Durable, c: CoreId)
    requires d.journal.Some? && d.journal.value.phase == RollbackStarted && Restorable(d)
    requires d.journal.value.status in {Applying, Failed} && c in d.live && Saved(d.journal.value.resources, c).Some?
    requires d.applied.generation == d.journal.value.previousGeneration < d.journal.value.generation
    ensures (forall live :: TouchesOnlyMutated(d, live) ==> Recovered(d.(live := live)).live == Undo(d))
            <==> d.journal.value.status != Failed
  {
    var j := d.journal.value;
    SavedMember(j.resources, c);
    assert MutatedNewestFirst(j.resources) != [] by {
      assert Saved(j.resources, c).value in MutatedNewestFirst(j.resources);
    }
    forall live | TouchesOnlyMutated(d, live) ensures Undo(d.(live := live)) == Undo(d) {
      UndoIgnoresTouched(d, d.(live := live));
    }
    if j.status == Failed {
      var undone := Undo(d)[c];
      var broken := d.live[c := undone.(active := !undone.active)];
      assert TouchesOnlyMutated(d, broken);
      assert Recovered(d.(live := broken)).live[c] != Undo(d)[c];
    }
  }
}
