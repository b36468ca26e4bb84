/** The atomic reconciler: staging, snapshots, journalled mutation, publication, rollback, recovery.

    Every durable effect and adapter call may succeed, be refused, or be the last thing the
    process does: a crash between two effects is an effect that reports `Stopped`. */
module Reconcile {
  import opened Prelude
  import opened Text
  import opened Desired
  import opened Recovery
  import opened Transaction
  import opened Calls
  import opened Adapter
  import opened Planning

  datatype Reply = Done | Refused | Stopped

  /** What a call reports; `Interrupted` is a crash or an error of the state store. */
  datatype Outcome = Finished(generation: nat, status: Status) | Nothing | Interrupted

  datatype CoreSnapshot = CoreSnapshot(path: SnapshotPath, wasEnabled: bool, wasActive: bool)

  datatype PreparedCore = PreparedCore(plan: CorePlan, candidate: Config, snapshot: CoreSnapshot)

  class Reconciler {
    const planner: Planner
    const compose: CorePlan -> Config

    var journal: Option<Journal>
    var applied: AppliedState
    var live: map<CoreId, Runtime>
    var files: map<SnapshotPath, Config>

    /** How often the environment refused a request, failed or crashed the process. */
    ghost var faults: nat
    /** Every request that reached a runtime, and every question for the newest generation, in order. */
    ghost var calls: seq<Call>

    ghost function Disk(): Durable
      reads this
    {
      Durable(journal, applied, live, files)
    }

    /** The registry is in order and its cores are the managed runtimes. */
    ghost predicate Valid()
      reads this, planner.cores
    {
      && planner.cores.Valid()
      && forall c :: c in live <==> Lookup(planner.cores.adapters, c).Some?
    }

    constructor (planner: Planner, compose: CorePlan -> Config, live: map<CoreId, Runtime>)
      requires planner.cores.Valid() && forall c :: c in live <==> Lookup(planner.cores.adapters, c).Some?
      ensures Valid() && this.planner == planner && this.compose == compose
      ensures Disk() == Durable(None, AppliedState(0, []), live, map[]) && faults == 0 && calls == []
    {
      this.planner, this.compose, this.live := planner, compose, live;
      journal, applied, files := None, AppliedState(0, []), map[];
      faults, calls := 0, [];
    }

    // ----------------------------------------------------------------
    // The state store

    method SaveJournal(j: Journal) returns (ok: bool)
      modifies this`journal, this`faults
      ensures ok ==> journal == Some(j) && faults == old(faults)
      ensures !ok ==> (journal == old(journal) || journal == Some(j)) && faults > old(faults)
    {
      ok := *;
      var written: bool := *;
      if ok || written {
        journal := Some(j);
      }
      if !ok {
        faults := faults + 1;
      }
    }

    /** Compare-and-set of the applied state; the store may also refuse without reason. */
    method CompareAndSetApplied(expected: nat, next: AppliedState) returns (r: Reply)
      modifies this`applied, this`faults
      ensures r.Done? ==> old(applied).generation == expected && applied == next && faults == old(faults)
      ensures r.Refused? ==> applied == old(applied) && faults > old(faults)
      ensures r.Stopped? ==> (applied == old(applied) || (old(applied).generation == expected && applied == next)) && faults > old(faults)
    {
      r := *;
      var written: bool := *;
      if applied.generation != expected && r.Done? {
        r := Refused;
      }
      if r.Done? || (r.Stopped? && written && applied.generation == expected) {
        applied := next;
      }
      if !r.Done? {
        faults := faults + 1;
      }
    }

    /** Whether the desired generation is still the newest one; a stale one is refused. */
    method DesiredGenerationIsCurrent(generation: nat) returns (r: Reply)
      modifies this`faults, this`calls
      ensures calls == old(calls) + [Current]
      ensures r.Done? ==> faults == old(faults)
      ensures !r.Done? ==> faults > old(faults)
    {
      r := Ask(Current);
    }

    /** Empties the transaction directory of a generation, possibly only in part. */
    method ClearDirectory(generation: nat) returns (ok: bool)
      modifies this`files, this`faults
      ensures forall p :: p in files ==> p in old(files) && files[p] == old(files)[p]
      ensures forall p :: p in old(files) && p.generation != generation ==> p in files
      ensures ok ==> faults == old(faults)
      ensures !ok ==> faults > old(faults)
    {
      ok := *;
      var kept: set<SnapshotPath> := *;
      files := map p | p in files && (p.generation != generation || (!ok && p in kept)) :: files[p];
      if !ok {
        faults := faults + 1;
      }
    }

    /** Best-effort removal after a terminal journal entry; its result is ignored. */
    method CleanupTransactionDirectory(generation: nat)
      modifies this`files
      ensures forall p :: p in files ==> p in old(files) && files[p] == old(files)[p]
      ensures forall p :: p in old(files) && p.generation != generation ==> p in files
    {
      var kept: set<SnapshotPath> := *;
      files := map p | p in files && (p.generation != generation || p in kept) :: files[p];
    }

    // ----------------------------------------------------------------
    // Runtime adapters

    /** A call that leaves every runtime as it is. */
    method Ask(call: Call) returns (r: Reply)
      modifies this`faults, this`calls
      ensures calls == old(calls) + [call]
      ensures r.Done? ==> faults == old(faults)
      ensures !r.Done? ==> faults > old(faults)
    {
      r := *;
      calls := calls + [call];
      if !r.Done? {
        faults := faults + 1;
      }
    }

    method StageConfig(plan: CorePlan) returns (r: Reply, candidate: Config)
      modifies this`faults, this`calls
      ensures calls == old(calls) + [Stage(plan.coreId)]
      ensures r.Done? ==> candidate == compose(plan) && faults == old(faults)
      ensures !r.Done? ==> faults > old(faults)
    {
      r := Ask(Stage(plan.coreId));
      candidate := compose(plan);
    }

    method SnapshotConfig(id: CoreId, path: SnapshotPath) returns (r: Reply, snapshot: CoreSnapshot)
      requires id in live
      modifies this`files, this`faults, this`calls
      ensures calls == old(calls) + [Snapshot(id)]
      ensures r.Done? ==> files == old(files)[path := live[id].config] && faults == old(faults)
                          && snapshot == CoreSnapshot(path, live[id].enabled, live[id].active)
      ensures !r.Done? ==> faults > old(faults)
      ensures forall p :: p in old(files) && p != path ==> p in files && files[p] == old(files)[p]
    {
      r := Ask(Snapshot(id));
      var partial: Config := *;
      files := files[path := if r.Done? then live[id].config else partial];
      snapshot := CoreSnapshot(path, live[id].enabled, live[id].active);
    }

    /** A failing installation may leave anything live, for this core only. */
    method InstallConfig(id: CoreId, candidate: Config) returns (r: Reply)
      requires id in live
      modifies this`live, this`faults, this`calls
      ensures calls == old(calls) + [Install(id)]
      ensures id in live && live == old(live)[id := live[id]]
      ensures r.Done? ==> live[id].config == candidate && faults == old(faults)
      ensures !r.Done? ==> faults > old(faults)
    {
      r := Ask(Install(id));
      var after: Runtime := *;
      live := live[id := if r.Done? then after.(config := candidate) else after];
    }

    method ActivateConfig(plan: CorePlan) returns (r: Reply)
      requires plan.coreId in live
      modifies this`live, this`faults, this`calls
      ensures calls == old(calls) + [Activate(plan.coreId)]
      ensures plan.coreId in live && live == old(live)[plan.coreId := live[plan.coreId]]
      ensures r.Done? ==> live[plan.coreId].config == old(live)[plan.coreId].config
                          && live[plan.coreId].active == (plan.fragments != []) && faults == old(faults)
      ensures !r.Done? ==> faults > old(faults)
    {
      r := Ask(Activate(plan.coreId));
      var after: Runtime := *;
      live := live[plan.coreId :=
        if r.Done? then Runtime(live[plan.coreId].config, after.enabled, plan.fragments != []) else after];
    }

    /** Restores a snapshot; without its file that cannot succeed. */
    method RollbackConfig(id: CoreId, snapshot: CoreSnapshot) returns (r: Reply)
      requires id in live
      modifies this`live, this`faults, this`calls
      ensures calls == old(calls) + [Restore(id)]
      ensures id in live && live == old(live)[id := live[id]]
      ensures r.Done? ==> snapshot.path in files && faults == old(faults)
                          && live[id] == Runtime(files[snapshot.path], snapshot.wasEnabled, snapshot.wasActive)
      ensures !r.Done? ==> faults > old(faults)
    {
      r := Ask(Restore(id));
      var after: Runtime := *;
      if r.Done? && snapshot.path !in files {
        r := Refused;
        faults := faults + 1;
      }
      live := live[id :=
        if r.Done? then Runtime(files[snapshot.path], snapshot.wasEnabled, snapshot.wasActive) else after];
    }

    // ----------------------------------------------------------------
    // The forward path

    /** Persists the journal of the next point of the forward path. */
    method Record(j: Journal, ghost tx: Tx, ghost n: nat, ghost started: nat, ghost verified: nat) returns (ok: bool)
      requires tx.Valid() && n <= |tx.plans| && started <= |tx.plans| && verified <= |tx.plans|
      requires Undoable(Disk(), tx.base, tx.prev)
      requires InFlight(Disk().(journal := Some(j)), j, tx, n, started, verified)
      modifies this`journal, this`faults
      ensures ok ==> InFlight(Disk(), j, tx, n, started, verified) && faults == old(faults)
      ensures Undoable(Disk(), tx.base, tx.prev) && (journal == Some(j) || journal == old(journal))
      ensures !ok ==> faults > old(faults)
    {
      InFlightUndoable(Disk().(journal := Some(j)), j, tx, n, started, verified);
      ok := SaveJournal(j);
    }

    /** Persists a change of phase and current core. */
    method Advance(from: Journal, phase: Phase, ghost tx: Tx, ghost n: nat, ghost started: nat, ghost verified: nat)
      returns (ok: bool, j: Journal)
      requires tx.Valid() && n <= |tx.plans| && started <= |tx.plans| && verified <= |tx.plans|
      requires journal.Some? && InFlight(Disk(), journal.value, tx, n, started, verified)
      requires Header(from, tx) && from.resources == journal.value.resources && phase != RollbackStarted
      modifies this`journal, this`faults
      ensures j == from.(phase := phase)
      ensures ok ==> InFlight(Disk(), j, tx, n, started, verified) && faults == old(faults)
      ensures Undoable(Disk(), tx.base, tx.prev) && (journal == Some(j) || journal == old(journal))
      ensures !ok ==> faults > old(faults)
    {
      j := from.(phase := phase);
      InFlightUndoable(Disk(), journal.value, tx, n, started, verified);
      Rephrase(Disk(), journal.value, j, tx, n, started, verified);
      ok := Record(j, tx, n, started, verified);
    }

    /** Ends a transaction that has not mutated anything. */
    method FailWithoutMutation(from: Journal, ghost base: Live, ghost prev: AppliedState) returns (r: Outcome)
      requires Undoable(Disk(), base, prev) && live == base && from.phase != RollbackStarted
      modifies this`journal, this`files, this`faults
      ensures r == Finished(from.generation, Failed) || r == Interrupted
      ensures r.Finished? ==> Abandoned(Disk(), base, prev) && journal.value.status == Failed && faults == old(faults)
      ensures r.Interrupted? ==> (Undoable(Disk(), base, prev) || Abandoned(Disk(), base, prev)) && faults > old(faults)
      ensures journal == old(journal) || (journal.Some? && journal.value.resources == from.resources)
    {
      var j := from.(status := Failed, current := None);
      var ok := SaveJournal(j);
      if !ok {
        return Interrupted;
      }
      CleanupTransactionDirectory(j.generation);
      return Finished(j.generation, Failed);
    }

    /** Nothing has been mutated yet; `t` are the adapter calls of this step. */
    twostate predicate Prepares(tx: Tx, t: seq<Call>, all: seq<Call>)
      reads this
    {
      && Undoable(Disk(), tx.base, tx.prev) && live == tx.base && Unverified(journal)
      && calls == old(calls) + t && t <= all
    }

    method StageOne(from: Journal, ghost tx: Tx, plan: CorePlan) returns (r: Reply, j: Journal, candidate: Config)
      requires tx.Valid() && journal.Some? && InFlight(Disk(), journal.value, tx, 0, 0, 0)
      requires Header(from, tx) && from.resources == []
      modifies this`journal, this`faults, this`calls
      ensures Undoable(Disk(), tx.base, tx.prev) && Header(j, tx) && j.resources == [] && calls == old(calls) + [Stage(plan.coreId)]
      ensures Unverified(journal)
      ensures r.Done? ==> InFlight(Disk(), j, tx, 0, 0, 0) && journal == Some(j) && candidate == compose(plan)
      ensures if r.Done? then faults == old(faults) else faults > old(faults)
    {
      hide InFlight, Undoable;
      HeaderOf(Disk(), journal.value, tx, 0, 0, 0);
      InFlightVerified(Disk(), journal.value, tx, 0, 0, 0);
      InFlightUndoable(Disk(), journal.value, tx, 0, 0, 0);
      j := from.(current := Some(plan.coreId));
      r, candidate := StageConfig(plan);
      if r.Done? {
        var ok;
        ok, j := Advance(j, StagedPhase, tx, 0, 0, 0);
        r := if ok then Done else Stopped;
        if ok {
          HeaderOf(Disk(), j, tx, 0, 0, 0);
        }
      }
    }

    method StageAll(from: Journal, ghost tx: Tx, plans: seq<CorePlan>)
      returns (r: Reply, j: Journal, candidates: seq<Config>, ghost t: seq<Call>)
      requires tx.Valid() && tx.plans == plans && tx.compose == compose
      requires InFlight(Disk(), from, tx, 0, 0, 0) && live == tx.base
      modifies this`journal, this`faults, this`calls
      ensures Prepares(tx, t, Stages(plans, |plans|)) && Header(j, tx) && j.resources == []
      ensures r.Done? ==> journal.Some? && InFlight(Disk(), journal.value, tx, 0, 0, 0) && t == Stages(plans, |plans|)
                          && |candidates| == |plans| && forall i :: 0 <= i < |plans| ==> candidates[i] == compose(plans[i])
      ensures if r.Done? then faults == old(faults) else faults > old(faults)
    {
      hide InFlight, Undoable, Stages;
      j, candidates, t := from, [], [];
      NoCalls(plans);
      HeaderOf(Disk(), j, tx, 0, 0, 0);
      InFlightVerified(Disk(), j, tx, 0, 0, 0);
      InFlightUndoable(Disk(), j, tx, 0, 0, 0);
      for i := 0 to |plans|
        invariant Unverified(journal)
        invariant journal.Some? && InFlight(Disk(), journal.value, tx, 0, 0, 0) && Undoable(Disk(), tx.base, tx.prev)
        invariant live == tx.base && Header(j, tx) && j.resources == [] && faults == old(faults)
        invariant |candidates| == i && forall k :: 0 <= k < i ==> candidates[k] == compose(plans[k])
        invariant t == Stages(plans, i) && calls == old(calls) + t
      {
        var candidate;
        r, j, candidate := StageOne(j, tx, plans[i]);
        t := t + [Stage(plans[i].coreId)];
        CallsGrow(plans, i);
        if !r.Done? {
          return;
        }
        candidates := candidates + [candidate];
      }
      r := Done;
    }

    method ValidateAll(from: Journal, ghost tx: Tx, plans: seq<CorePlan>)
      returns (r: Reply, j: Journal, ghost t: seq<Call>)
      requires tx.Valid() && tx.plans == plans
      requires journal.Some? && InFlight(Disk(), journal.value, tx, 0, 0, 0) && live == tx.base
      requires Header(from, tx) && from.resources == []
      modifies this`journal, this`faults, this`calls
      ensures Prepares(tx, t, Validates(plans, |plans|)) && Header(j, tx) && j.resources == []
      ensures r.Done? ==> InFlight(Disk(), j, tx, 0, 0, 0) && t == Validates(plans, |plans|)
      ensures if r.Done? then faults == old(faults) else faults > old(faults)
    {
      j, t := from, [];
      InFlightVerified(Disk(), journal.value, tx, 0, 0, 0);
      InFlightUndoable(Disk(), journal.value, tx, 0, 0, 0);
      for i := 0 to |plans|
        invariant journal == old(journal) && InFlight(Disk(), journal.value, tx, 0, 0, 0) && Undoable(Disk(), tx.base, tx.prev)
        invariant live == tx.base && Header(j, tx) && j.resources == [] && faults == old(faults)
        invariant t == Validates(plans, i) && calls == old(calls) + t
      {
        j := j.(current := Some(plans[i].coreId));
        r := Ask(Validate(plans[i].coreId));
        t := t + [Validate(plans[i].coreId)];
        CallsGrow(plans, i);
        if !r.Done? {
          return;
        }
      }
      var ok;
      ok, j := Advance(j, ValidatedPhase, tx, 0, 0, 0);
      r := if ok then Done else Stopped;
    }

    method SnapshotOne(from: Journal, ghost tx: Tx, ghost i: nat, plan: CorePlan, candidate: Config)
      returns (r: Reply, j: Journal, prepared: PreparedCore)
      requires tx.Valid() && i < |tx.plans| && plan == tx.plans[i] && candidate == tx.compose(plan)
      requires journal.Some? && InFlight(Disk(), journal.value, tx, i, 0, 0) && live == tx.base
      requires Header(from, tx) && from.resources == journal.value.resources
      modifies this`journal, this`files, this`faults, this`calls
      ensures Undoable(Disk(), tx.base, tx.prev) && Header(j, tx) && calls == old(calls) + [Snapshot(plan.coreId)]
      ensures Unverified(journal) && Unverified(Some(j))
      ensures r.Done? ==> InFlight(Disk(), j, tx, i + 1, 0, 0) && PreparedAt(prepared, tx, i)
      ensures if r.Done? then faults == old(faults) else faults > old(faults)
    {
      j := from.(current := Some(plan.coreId));
      ghost var before, k := Disk(), journal.value;
      var snapshot;
      r, snapshot := SnapshotConfig(plan.coreId, SnapshotPath(j.generation, plan.coreId));
      prepared := PreparedCore(plan, candidate, snapshot);
      InFlightVerified(before, k, tx, i, 0, 0);
      SnapshotWritten(before, k, tx, i, files);
      InFlightUndoable(Disk(), k, tx, i, 0, 0);
      if r.Done? {
        j := j.(resources := j.resources +
          [JournalResource(plan.coreId, snapshot.path, snapshot.wasEnabled, snapshot.wasActive, false, false)]);
        SnapshotJournalled(Disk(), k, j, tx, i);
        var ok := Record(j, tx, i + 1, 0, 0);
        r := if ok then Done else Stopped;
      }
    }

    method SnapshotAll(from: Journal, ghost tx: Tx, plans: seq<CorePlan>, candidates: seq<Config>)
      returns (r: Reply, j: Journal, prepared: seq<PreparedCore>, ghost t: seq<Call>)
      requires tx.Valid() && tx.plans == plans && |candidates| == |plans|
      requires forall i :: 0 <= i < |plans| ==> candidates[i] == tx.compose(plans[i])
      requires InFlight(Disk(), from, tx, 0, 0, 0) && live == tx.base
      modifies this`journal, this`files, this`faults, this`calls
      ensures Prepares(tx, t, Snapshots(plans, |plans|)) && Header(j, tx) && Unverified(Some(j))
      ensures r.Done? ==> InFlight(Disk(), j, tx, |plans|, 0, 0) && t == Snapshots(plans, |plans|) && PreparedFor(prepared, tx, |plans|)
      ensures if r.Done? then faults == old(faults) else faults > old(faults)
    {
      j, prepared, t := from, [], [];
      InFlightVerified(Disk(), j, tx, 0, 0, 0);
      InFlightUndoable(Disk(), j, tx, 0, 0, 0);
      for i := 0 to |plans|
        invariant Unverified(journal) && Unverified(Some(j)) && journal == Some(j)
        invariant InFlight(Disk(), j, tx, i, 0, 0) && Undoable(Disk(), tx.base, tx.prev)
        invariant live == tx.base && faults == old(faults)
        invariant PreparedFor(prepared, tx, i)
        invariant t == Snapshots(plans, i) && calls == old(calls) + t
      {
        var core;
        r, j, core := SnapshotOne(j, tx, i, plans[i], candidates[i]);
        t := t + [Snapshot(plans[i].coreId)];
        CallsGrow(plans, i);
        if !r.Done? {
          return;
        }
        PreparedGrows(prepared, tx, i, core);
        prepared := prepared + [core];
      }
      var ok;
      ok, j := Advance(j, SnapshottedPhase, tx, |plans|, 0, 0);
      r := if ok then Done else Stopped;
    }

    /** The read-only checks of an activated core. */
    method CheckCore(plan: CorePlan) returns (r: Reply, ghost t: seq<Call>)
      modifies this`faults, this`calls
      ensures calls == old(calls) + t && t <= Checks(plan)
      ensures r.Done? ==> t == Checks(plan)
      ensures if r.Done? then faults == old(faults) else faults > old(faults)
    {
      t := [];
      r := Done;
      if plan.fragments != [] {
        r := Ask(Health(plan.coreId));
        t := [Health(plan.coreId)];
        if !r.Done? {
          return;
        }
      }
      r := Ask(Verify(plan.coreId));
      t := t + [Verify(plan.coreId)];
      if !r.Done? {
        return;
      }
      if HasIndividualUsers(plan) {
        r := Ask(Observe(plan.coreId));
        t := t + [Observe(plan.coreId)];
      }
    }

    /** Persists the mutation marker of core `i` before the core is touched. */
    method MarkCore(from: Journal, ghost tx: Tx, ghost i: nat, id: CoreId) returns (ok: bool, j: Journal)
      requires tx.Valid() && i < |tx.plans| && id == tx.plans[i].coreId
      requires InFlight(Disk(), from, tx, |tx.plans|, i, i)
      modifies this`journal, this`faults
      ensures ok ==> InFlight(Disk(), j, tx, |tx.plans|, i + 1, i)
      ensures Undoable(Disk(), tx.base, tx.prev) && VerifiedBelow(journal, tx.plans, i)
      ensures if ok then faults == old(faults) else faults > old(faults)
    {
      hide InFlight, Undoable;
      j := from.(current := Some(id), resources := MarkStarted(from.resources, id));
      HeaderOf(Disk(), from, tx, |tx.plans|, i, i);
      InFlightVerified(Disk(), from, tx, |tx.plans|, i, i);
      StartJournalled(Disk(), from, j, tx, i);
      InFlightVerified(Disk().(journal := Some(j)), j, tx, |tx.plans|, i + 1, i);
      InFlightUndoable(Disk(), from, tx, |tx.plans|, i, i);
      ok := Record(j, tx, |tx.plans|, i + 1, i);
    }

    method InstallCore(from: Journal, ghost tx: Tx, ghost i: nat, core: PreparedCore) returns (r: Reply, j: Journal)
      requires tx.Valid() && i < |tx.plans| && PreparedAt(core, tx, i)
      requires InFlight(Disk(), from, tx, |tx.plans|, i + 1, i)
      modifies this`journal, this`live, this`faults, this`calls
      ensures calls == old(calls) + [Install(core.plan.coreId)]
      ensures !r.Stopped? ==> InFlight(Disk(), j, tx, |tx.plans|, i + 1, i)
      ensures r.Done? ==> core.plan.coreId in live && live[core.plan.coreId].config == core.candidate
      ensures r.Stopped? ==> Undoable(Disk(), tx.base, tx.prev)
      ensures VerifiedBelow(journal, tx.plans, i)
      ensures if r.Done? then faults == old(faults) else faults > old(faults)
    {
      hide InFlight, Undoable;
      InFlightVerified(Disk(), from, tx, |tx.plans|, i + 1, i);
      j := from;
      HeaderOf(Disk(), from, tx, |tx.plans|, i + 1, i);
      ghost var before := Disk();
      r := InstallConfig(core.plan.coreId, core.candidate);
      MutatingMarked(before, j, tx, i, live);
      InFlightUndoable(Disk(), j, tx, |tx.plans|, i + 1, i);
      if !r.Done? {
        return;
      }
      var ok;
      ok, j := Advance(j, InstalledPhase, tx, |tx.plans|, i + 1, i);
      r := if ok then Done else Stopped;
    }

    method ActivateCore(from: Journal, ghost tx: Tx, ghost i: nat, core: PreparedCore)
      returns (r: Reply, j: Journal, ghost t: seq<Call>)
      requires tx.Valid() && i < |tx.plans| && PreparedAt(core, tx, i)
      requires InFlight(Disk(), from, tx, |tx.plans|, i, i)
      modifies this`journal, this`live, this`faults, this`calls
      ensures calls == old(calls) + t && t <= [Install(core.plan.coreId), Activate(core.plan.coreId)]
      ensures r.Done? ==> InFlight(Disk(), j, tx, |tx.plans|, i + 1, i) && AtGoal(live, core.plan, tx.compose) && |t| == 2
      ensures r.Refused? ==> InFlight(Disk(), j, tx, |tx.plans|, i + 1, i) && t != []
      ensures r.Stopped? ==> Undoable(Disk(), tx.base, tx.prev)
      ensures VerifiedBelow(journal, tx.plans, i)
      ensures if r.Done? then faults == old(faults) else faults > old(faults)
    {
      hide InFlight, Undoable;
      t := [];
      var ok;
      ok, j := MarkCore(from, tx, i, core.plan.coreId);
      if !ok {
        return Stopped, j, t;
      }
      r, j := InstallCore(j, tx, i, core);
      t := [Install(core.plan.coreId)];
      if !r.Done? {
        return;
      }
      HeaderOf(Disk(), j, tx, |tx.plans|, i + 1, i);
      InFlightVerified(Disk(), j, tx, |tx.plans|, i + 1, i);
      ghost var before := Disk();
      r := ActivateConfig(core.plan);
      t := [Install(core.plan.coreId), Activate(core.plan.coreId)];
      MutatingMarked(before, j, tx, i, live);
      InFlightUndoable(Disk(), j, tx, |tx.plans|, i + 1, i);
      if !r.Done? {
        return;
      }
      ok, j := Advance(j, ActivatedPhase, tx, |tx.plans|, i + 1, i);
      r := if ok then Done else Stopped;
    }

    /** Mark, install, activate and check one core. */
    method MutateOne(from: Journal, ghost tx: Tx, ghost i: nat, core: PreparedCore)
      returns (r: Reply, j: Journal, ghost t: seq<Call>)
      requires tx.Valid() && i < |tx.plans| && PreparedAt(core, tx, i)
      requires InFlight(Disk(), from, tx, |tx.plans|, i, i)
      modifies this`journal, this`live, this`faults, this`calls
      ensures calls == old(calls) + t && t <= CoreCalls(core.plan)
      ensures r.Done? ==> InFlight(Disk(), j, tx, |tx.plans|, i + 1, i + 1) && t == CoreCalls(core.plan)
      ensures r.Refused? ==> InFlight(Disk(), j, tx, |tx.plans|, i + 1, i) && t != []
      ensures r.Stopped? ==> Undoable(Disk(), tx.base, tx.prev)
      ensures VerifiedBelow(journal, tx.plans, if t == CoreCalls(core.plan) then i + 1 else i)
      ensures if r.Done? then faults == old(faults) else faults > old(faults)
    {
      hide InFlight, Undoable, AtGoal, MarkVerified, Tx.Valid, Checks, VerifiedBelow;
      r, j, t := ActivateCore(from, tx, i, core);
      VerifiedMore(journal, tx.plans, i, i + 1);
      if !r.Done? {
        return;
      }
      InFlightUndoable(Disk(), j, tx, |tx.plans|, i + 1, i);
      ghost var checks;
      r, checks := CheckCore(core.plan);
      t := t + checks;
      if !r.Done? {
        return;
      }
      ghost var before := j;
      HeaderOf(Disk(), j, tx, |tx.plans|, i + 1, i);
      j := j.(resources := MarkVerified(j.resources, core.plan.coreId), phase := HealthyPhase);
      VerificationJournalled(Disk(), before, j, tx, i);
      InFlightVerified(Disk().(journal := Some(j)), j, tx, |tx.plans|, i + 1, i + 1);
      var ok := Record(j, tx, |tx.plans|, i + 1, i + 1);
      r := if ok then Done else Stopped;
    }

    method MutateAll(from: Journal, ghost tx: Tx, prepared: seq<PreparedCore>)
      returns (r: Reply, j: Journal, ghost t: seq<Call>, ghost started: nat)
      requires tx.Valid() && PreparedFor(prepared, tx, |tx.plans|)
      requires InFlight(Disk(), from, tx, |tx.plans|, 0, 0)
      modifies this`journal, this`live, this`faults, this`calls
      ensures calls == old(calls) + t && started <= |tx.plans|
      ensures Preparation(tx.plans) + t <= Script(tx.plans)
      ensures r.Done? ==> InFlight(Disk(), j, tx, |tx.plans|, |tx.plans|, |tx.plans|) && t == Mutations(tx.plans, |tx.plans|)
      ensures r.Refused? ==> 0 < started && InFlight(Disk(), j, tx, |tx.plans|, started, started - 1)
                             && Installed(Preparation(tx.plans) + t) == CoreIds(tx.plans, started)
      ensures r.Stopped? ==> Undoable(Disk(), tx.base, tx.prev)
      ensures MarkersHold(journal, tx.plans, t)
      ensures if r.Done? then faults == old(faults) else faults > old(faults)
    {
      hide InFlight, Undoable, Preparation, Script, Installed, CoreCalls, CoreIds, VerifiedBelow, MarkersHold, Checked;
      j, t, started := from, [], 0;
      InFlightVerified(Disk(), from, tx, |tx.plans|, 0, 0);
      for i := 0 to |prepared|
        invariant InFlight(Disk(), j, tx, |tx.plans|, i, i) && started == i
        invariant calls == old(calls) + t && t == Mutations(tx.plans, i) && faults == old(faults)
        invariant VerifiedBelow(journal, tx.plans, i)
      {
        ghost var part;
        ghost var done := t;
        r, j, part := MutateOne(j, tx, i, prepared[i]);
        t := t + part;
        started := i + 1;
        assert Preparation(tx.plans) + t == Preparation(tx.plans) + done + part;
        ForwardPrefix(tx.plans, i, part);
        if !r.Done? {
          ForwardInstalled(tx.plans, i, part);
          ChecksSoFar(journal, tx.plans, i, part);
          return;
        }
      }
      ScriptParts(tx.plans);
      AllChecks(journal, tx.plans);
      r := Done;
    }

    // ----------------------------------------------------------------
    // In-process rollback

    /** Restores one core from its in-memory snapshot; `d` is the state when the rollback began. */
    method RestoreOne(core: PreparedCore, ghost d: Durable, ghost tx: Tx, ghost started: nat, ghost verified: nat, ghost n: nat)
      returns (r: Reply)
      requires tx.Valid() && n < started <= |tx.plans| && PreparedAt(core, tx, n)
      requires d.journal.Some? && d.journal.value.resources == tx.Resources(|tx.plans|, started, verified)
      requires WindowState(d, tx.base, tx.prev)
      requires TouchesOnlyMutated(d, live) && files == d.files
      modifies this`live, this`faults, this`calls
      ensures TouchesOnlyMutated(d, live) && calls == old(calls) + [Restore(tx.plans[n].coreId)]
      ensures forall c :: c != tx.plans[n].coreId && RestoredTo(old(live), tx.base, c) ==> RestoredTo(live, tx.base, c)
      ensures r.Done? ==> RestoredTo(live, tx.base, tx.plans[n].coreId)
      ensures if r.Done? then faults == old(faults) else faults > old(faults)
    {
      hide WindowState, TouchesOnlyMutated;
      SnapshotIsBase(d, tx, started, verified, n);
      TouchedKeys(d, live);
      r := RollbackConfig(core.plan.coreId, core.snapshot);
      TouchMore(d, old(live), core.plan.coreId, live);
    }

    /** Restores the mutated cores in reverse order from the in-memory snapshots. */
    method RestoreMutated(j: Journal, ghost tx: Tx, ghost started: nat, ghost verified: nat, prepared: seq<PreparedCore>)
      returns (r: Reply, ghost m: nat)
      requires tx.Valid() && started <= |tx.plans| && PreparedFor(prepared, tx, |tx.plans|)
      requires journal == Some(j) && WindowState(Disk(), tx.base, tx.prev)
      requires j.resources == tx.Resources(|tx.plans|, started, verified)
      modifies this`live, this`faults, this`calls
      ensures WindowState(Disk(), tx.base, tx.prev)
      ensures m <= started && calls == old(calls) + Restores(CoreIds(tx.plans, started))[..m]
      ensures !r.Stopped? ==> m == started
      ensures r.Done? ==> live == tx.base
      ensures if r.Done? then faults == old(faults) else faults > old(faults)
    {
      hide WindowState, TouchesOnlyMutated, RestoredTo, Restores, SnapshotsLeft, MutatedNewestFirst, ByCore, PreparedFor, PreparedAt, CoreIds;
      var resources := MutatedNewestFirst(j.resources);
      var snapshots := ByCore(prepared);
      ghost var d := Disk();
      MutatedAreStarted(tx, |tx.plans|, started, verified);
      AllPrepared(prepared, tx, started);
      var failed := false;
      m := 0;
      TouchNothing(d);
      for i := 0 to |resources|
        invariant m == i && calls == old(calls) + Restores(CoreIds(tx.plans, started))[..i]
        invariant TouchesOnlyMutated(d, live)
        invariant !failed ==> RestoredFrom(live, tx, started - i, started)
        invariant failed <==> faults != old(faults)
        invariant faults >= old(faults)
        invariant SnapshotsLeft(snapshots, tx, started - i)
      {
        var id := resources[i].coreId;
        ghost var n := started - 1 - i;
        if id in snapshots {
          var core := snapshots[id];
          TakeSnapshot(snapshots, tx, n);
          snapshots := snapshots - {id};
          RestoresGrow(tx, started, i);
          ghost var before := live;
          var reply := RestoreOne(core, d, tx, started, verified, n);
          m := i + 1;
          if reply.Stopped? {
            WindowKept(d, live, tx.base, tx.prev);
            return reply, m;
          }
          if reply.Refused? {
            failed := true;
          }
          if !failed {
            OneMoreRestored(before, live, tx, n, started);
          }
        } else {
          TakeSnapshot(snapshots, tx, n);
          failed := true;
        }
      }
      WindowKept(d, live, tx.base, tx.prev);
      if !failed {
        RestoredIsBase(d, live, tx, started, verified);
      }
      r := if failed then Refused else Done;
    }

    /** Undoes the mutations of a failed transaction. */
    method Rollback(generation: nat, from: Journal, ghost tx: Tx, ghost started: nat, ghost verified: nat, prepared: seq<PreparedCore>)
      returns (r: Outcome, ghost m: nat)
      requires tx.Valid() && started <= |tx.plans| && verified <= |tx.plans| && PreparedFor(prepared, tx, |tx.plans|)
      requires InFlight(Disk(), from, tx, |tx.plans|, started, verified) && generation == tx.generation
      modifies this
      ensures m <= started && calls == old(calls) + Restores(CoreIds(tx.plans, started))[..m]
      ensures r.Finished? ==> m == started && r.generation == generation && journal.Some? && journal.value.status == r.status
      ensures r.Finished? ==> r.status in {RolledBack, RecoveryRequired} && (r.status == RolledBack <==> faults == old(faults))
      ensures faults >= old(faults) && journal.Some? && journal.value.resources == from.resources
      ensures r.Finished? && r.status == RolledBack ==> Abandoned(Disk(), tx.base, tx.prev)
      ensures r.Finished? && r.status == RecoveryRequired ==> Undoable(Disk(), tx.base, tx.prev) && files == old(files)
      ensures !r.Finished? ==> r.Interrupted? && faults > old(faults)
                               && (CrashPoint(Disk(), tx) || WindowState(Disk(), tx.base, tx.prev))
    {
      hide InFlight, WindowState, Undoable, Abandoned, PublishedNew, PreparedFor, CoreIds, Restores;
      m := 0;
      InFlightUndoable(Disk(), from, tx, |tx.plans|, started, verified);
      UndoneLive(Disk(), from, tx, started, verified);
      HeaderOf(Disk(), from, tx, |tx.plans|, started, verified);
      var j := from.(phase := RollbackStarted, status := Failed);
      var ok := SaveJournal(j);
      if !ok {
        return Interrupted, m;
      }
      var reply;
      reply, m := RestoreMutated(j, tx, started, verified, prepared);
      if reply.Stopped? {
        return Interrupted, m;
      }
      j := if reply.Refused? then j.(phase := RecoveryPhase, status := RecoveryRequired)
           else j.(phase := RolledBackPhase, status := RolledBack);
      WindowCloses(Disk(), j, tx.base, tx.prev);
      ok := SaveJournal(j);
      if !ok {
        return Interrupted, m;
      }
      if j.status == RolledBack {
        ghost var before := Disk();
        CleanupTransactionDirectory(j.generation);
        AbandonedForgetsFiles(before, Disk(), tx.base, tx.prev);
      }
      return Finished(generation, j.status), m;
    }

    // ----------------------------------------------------------------
    // One transaction

    /** Stages, validates and snapshots every planned core, up to the first failure. */
    method Gather(from: Journal, ghost tx: Tx, plans: seq<CorePlan>)
      returns (r: Reply, j: Journal, prepared: seq<PreparedCore>, ghost t: seq<Call>)
      requires tx.Valid() && tx.plans == plans && tx.compose == compose
      requires InFlight(Disk(), from, tx, 0, 0, 0) && live == tx.base
      modifies this`journal, this`files, this`faults, this`calls
      ensures Undoable(Disk(), tx.base, tx.prev) && live == tx.base && Header(j, tx)
      ensures Unverified(journal) && Unverified(Some(j))
      ensures calls == old(calls) + t && LegalCalls(t, plans) && Installed(t) == []
      ensures r.Done? ==> InFlight(Disk(), j, tx, |plans|, 0, 0) && PreparedFor(prepared, tx, |plans|) && t + [Current] == Preparation(plans)
      ensures if r.Done? then faults == old(faults) else faults > old(faults)
    {
      hide InFlight, Undoable, LegalCalls, Installed, Stages, Validates, Snapshots, Preparation, PreparedFor;
      ghost var a, b, c: seq<Call> := [], [], [];
      prepared := [];
      var candidates;
      r, j, candidates, a := StageAll(from, tx, plans);
      if r.Done? {
        r, j, b := ValidateAll(j, tx, plans);
      }
      if r.Done? {
        r, j, prepared, c := SnapshotAll(j, tx, plans, candidates);
      }
      t := a + b + c;
      PreparationCalls(plans, a, b, c);
    }

    /** Prepares the transaction without touching a runtime; a failure ends it. */
    method Prepare(from: Journal, ghost tx: Tx, plans: seq<CorePlan>)
      returns (r: Outcome, j: Journal, prepared: seq<PreparedCore>, ghost t: seq<Call>)
      requires tx.Valid() && tx.plans == plans && tx.compose == compose
      requires InFlight(Disk(), from, tx, 0, 0, 0) && live == tx.base
      modifies this`journal, this`files, this`faults, this`calls
      ensures calls == old(calls) + t
      ensures r.Nothing? ==> InFlight(Disk(), j, tx, |plans|, 0, 0) && PreparedFor(prepared, tx, |plans|) && t == Preparation(plans)
      ensures !r.Nothing? ==> Ended(Disk(), tx, r, t) && (r.Interrupted? || r.status == Failed)
      ensures if r.Nothing? then faults == old(faults) else faults > old(faults)
    {
      hide InFlight, Undoable, Abandoned, LegalCalls, Script, Installed, Preparation, PreparedFor;
      ghost var before := Disk();
      j, prepared, t := from, [], [];
      InFlightVerified(before, from, tx, 0, 0, 0);
      InFlightUndoable(before, from, tx, 0, 0, 0);
      var ok := ClearDirectory(from.generation);
      FilesIrrelevant(before, from, tx, files);
      InFlightUndoable(Disk(), from, tx, 0, 0, 0);
      if !ok {
        LegalForward(t, plans);
        NothingVerified(journal, plans, t);
        return Interrupted, j, prepared, t;
      }
      var reply;
      reply, j, prepared, t := Gather(from, tx, plans);
      if reply.Done? {
        reply := DesiredGenerationIsCurrent(j.generation);
        t := t + [Current];
        PreparationIsLegal(plans);
      }
      match reply {
        case Stopped =>
          r := Interrupted;
        case Refused =>
          r := FailWithoutMutation(j, tx.base, tx.prev);
        case Done =>
          r := Nothing;
      }
      NothingVerified(journal, plans, t);
    }

    /** Publishes the verified transaction; `Nothing` means that it has to be rolled back instead. */
    method Publish(from: Journal, ghost tx: Tx, expected: nat, next: AppliedState) returns (r: Outcome, j: Journal)
      requires tx.Valid() && expected == tx.prev.generation && next == Next(tx.plans, tx.generation)
      requires InFlight(Disk(), from, tx, |tx.plans|, |tx.plans|, |tx.plans|)
      modifies this`journal, this`applied, this`files, this`faults, this`calls
      ensures r == Finished(tx.generation, Applied) || r == Nothing || r == Interrupted
      ensures calls == old(calls) + [Current] && journal.Some? && journal.value.resources == from.resources
      ensures r.Nothing? ==> j.resources == from.resources
      ensures r.Finished? ==> PublishedNew(Disk(), tx) && journal.Some? && journal.value.status == Applied && faults == old(faults)
      ensures r.Nothing? ==> InFlight(Disk(), j, tx, |tx.plans|, |tx.plans|, |tx.plans|) && files == old(files)
      ensures r.Interrupted? ==> CrashPoint(Disk(), tx)
      ensures !r.Finished? ==> faults > old(faults)
    {
      hide InFlight, Undoable, PublishedNew, Tx.Valid, Next;
      HeaderOf(Disk(), from, tx, |tx.plans|, |tx.plans|, |tx.plans|);
      InFlightUndoable(Disk(), from, tx, |tx.plans|, |tx.plans|, |tx.plans|);
      j := from;
      var reply := DesiredGenerationIsCurrent(from.generation);
      if reply.Stopped? {
        return Interrupted, j;
      }
      if reply.Refused? {
        return Nothing, j;
      }
      var ok;
      ok, j := Advance(j, PublishingPhase, tx, |tx.plans|, |tx.plans|, |tx.plans|);
      if !ok {
        return Interrupted, j;
      }
      PublicationLands(Disk(), j, tx);
      HeaderOf(Disk(), j, tx, |tx.plans|, |tx.plans|, |tx.plans|);
      reply := CompareAndSetApplied(expected, next);
      if reply.Stopped? {
        return Interrupted, j;
      }
      if reply.Refused? {
        return Nothing, j;
      }
      j := j.(phase := PublishedPhase, status := Applied, current := None);
      PublicationRecorded(Disk(), j, tx);
      ok := SaveJournal(j);
      if !ok {
        return Interrupted, j;
      }
      ghost var before := Disk();
      CleanupTransactionDirectory(j.generation);
      PublicationForgetsFiles(before, Disk(), tx);
      return Finished(j.generation, Applied), j;
    }

    /** From the first mutated core to the terminal journal entry, after the preparation. */
    method Execute(from: Journal, ghost tx: Tx, plans: seq<CorePlan>, expected: nat, prepared: seq<PreparedCore>)
      returns (r: Outcome, ghost t: seq<Call>)
      requires tx.Valid() && tx.plans == plans && expected == tx.prev.generation && from.generation == tx.generation
      requires InFlight(Disk(), from, tx, |plans|, 0, 0) && PreparedFor(prepared, tx, |plans|)
      modifies this
      ensures calls == old(calls) + t && Ended(Disk(), tx, r, Preparation(plans) + t)
      ensures faults >= old(faults) && (faults == old(faults) <==> r == Finished(tx.generation, Applied))
      ensures r.Finished? ==> r.status in {Applied, RolledBack, RecoveryRequired}
    {
      hide InFlight, Undoable, Abandoned, LegalCalls, Script, Installed, Mutations, Preparation, PublishedNew, PreparedFor,
           FullRollback, CoreIds, Restores, WindowState, MarkersHold;
      ghost var m, started := 0, |tx.plans|;
      var reply, j;
      reply, j, t, started := MutateAll(from, tx, prepared);
      ghost var mutations := t;
      ghost var f := Preparation(plans) + t;
      LegalForward(f, plans);
      MarkersKept(journal, plans, Preparation(plans), mutations, []);
      assert f + [] == f;
      if reply.Stopped? {
        return Interrupted, t;
      }
      ghost var marked := journal;
      started := if reply.Done? then |tx.plans| else started;
      JournalOf(Disk(), j, tx, |tx.plans|, started, if reply.Done? then started else started - 1);
      if reply.Done? {
        ScriptInstalled(plans);
        ScriptParts(plans);
        r, j := Publish(j, tx, expected, Next(plans, from.generation));
        t := t + [Current];
        f := f + [Current];
        assert Preparation(plans) + t == f;
        LegalForward(f, plans);
        SameMarkers(marked, journal, plans, Preparation(plans), mutations, [Current]);
        if !r.Nothing? {
          return;
        }
        r, m := Rollback(from.generation, j, tx, |tx.plans|, |tx.plans|, prepared);
      } else {
        r, m := Rollback(from.generation, j, tx, started, started - 1, prepared);
      }
      ghost var restores := Restores(CoreIds(tx.plans, started))[..m];
      assert Preparation(plans) + (t + restores) == f + restores;
      t := t + restores;
      LegalRollback(f, plans, m);
      RollbackInstalled(f, plans, started, m);
      ghost var rest := (if f == Preparation(plans) + mutations then [] else [Current]) + restores;
      assert Preparation(plans) + t == Preparation(plans) + mutations + rest;
      SameMarkers(marked, journal, plans, Preparation(plans), mutations, rest);
    }

    /** Everything from the first staged candidate to the terminal journal entry. */
    method Transact(from: Journal, ghost tx: Tx, plans: seq<CorePlan>, expected: nat) returns (r: Outcome, ghost t: seq<Call>)
      requires tx.Valid() && tx.plans == plans && tx.compose == compose && expected == tx.prev.generation
      requires InFlight(Disk(), from, tx, 0, 0, 0) && live == tx.base
      modifies this
      ensures calls == old(calls) + t && Ended(Disk(), tx, r, t)
      ensures faults >= old(faults) && (faults == old(faults) <==> r == Finished(tx.generation, Applied))
      ensures r.Finished? ==> r.status != Unsupported
    {
      hide InFlight, Ended, Preparation, PreparedFor;
      var j, prepared;
      r, j, prepared, t := Prepare(from, tx, plans);
      if r.Nothing? {
        HeaderOf(Disk(), j, tx, |plans|, 0, 0);
        ghost var more;
        r, more := Execute(j, tx, plans, expected, prepared);
        t := t + more;
      }
    }

    /** A plan set without listener conflicts. */
    ghost predicate Plan(desired: DesiredState, applied: AppliedState, plans: seq<CorePlan>)
      reads planner.cores
    {
      ConflictFree(planner.protocols, planner.cores.adapters, desired, applied, plans)
    }

    lemma PlansValid(desired: DesiredState, tx: Tx)
      requires Valid() && Plan(desired, tx.prev, tx.plans) && tx.base == live
      requires tx.prev.generation < tx.generation
      ensures tx.Valid()
    {
      PlanMeaning(planner.protocols, planner.cores.adapters, desired, tx.prev, tx.plans);
      forall i | 0 <= i < |tx.plans| ensures tx.plans[i].coreId in tx.base {
        assert tx.plans[i] in tx.plans;
      }
    }

    lemma ConflictingPlan(desired: DesiredState, applied: AppliedState, plans: seq<CorePlan>)
      requires planner.cores.Valid() && PlansFor(planner.protocols, planner.cores.adapters, desired, applied, plans)
      requires !NoDuplicates(AllListeners(plans))
      ensures !HasPlans(planner.protocols, planner.cores.adapters, desired, applied)
    {
      forall other | ConflictFree(planner.protocols, planner.cores.adapters, desired, applied, other) ensures false {
        PlansUnique(planner.protocols, planner.cores.adapters, desired, applied, plans, other);
      }
    }

    /** Validates the desired state and builds its plans. */
    method MakePlans(desired: DesiredState, before: AppliedState) returns (accepted: bool, plans: Option<seq<CorePlan>>)
      requires planner.cores.Valid()
      ensures accepted <==> Accepts(planner.protocols, planner.cores.adapters, desired, before)
      ensures plans.Some? ==> accepted && Plan(desired, before, plans.value)
      ensures accepted ==> (plans.Some? <==> HasPlans(planner.protocols, planner.cores.adapters, desired, before))
    {
      plans := None;
      accepted := planner.ValidateGraph(desired, before);
      if accepted {
        plans := planner.BuildPlans(desired, before);
        if plans.Some? {
          var free := ValidateListeners(plans.value);
          if !free {
            ConflictingPlan(desired, before, plans.value);
            plans := None;
          }
        }
      }
    }

    /** What a call of `Reconcile` may do: `tx` is the attempted transaction, `t` its adapter calls. */
    twostate predicate Reconciled(desired: DesiredState, r: Outcome, tx: Tx, t: seq<Call>)
      reads this, planner.cores
    {
      && tx.base == old(live) && tx.prev == old(applied) && tx.generation == desired.generation && tx.compose == compose
      && tx.Valid() && calls == old(calls) + t && live.Keys == old(live).Keys && faults >= old(faults)
      && (Ended(Disk(), tx, r, t) || (Disk() == old(Disk()) && r.Interrupted? && t == []))
      && Decided(desired, r, tx, t)
    }

    /** Applies a desired generation or refuses without touching anything. */
    method Reconcile(desired: DesiredState) returns (r: Outcome, ghost tx: Tx, ghost t: seq<Call>)
      requires Valid()
      modifies this
      ensures Valid()
      ensures !Attempts(desired, old(Disk())) ==>
                Disk() == old(Disk()) && calls == old(calls) && faults == old(faults)
                && r == if desired.generation <= old(applied).generation
                        then Finished(old(applied).generation, Applied) else Finished(desired.generation, RecoveryRequired)
      ensures Attempts(desired, old(Disk())) ==> Reconciled(desired, r, tx, t)
    {
      hide InFlight, Undoable, Abandoned, PublishedNew, Ended, LegalCalls, ConflictFree, HasPlans, Accepts;
      t := [];
      tx := Tx([], desired.generation, live, applied, compose);
      var before := applied;
      if desired.generation <= before.generation {
        return Finished(before.generation, Applied), tx, t;
      }
      if journal.Some? && journal.value.status in {Applying, RecoveryRequired} {
        return Finished(desired.generation, RecoveryRequired), tx, t;
      }
      var j := Prepared(desired.generation, before);
      BeginUndoable(Disk(), desired.generation);
      var ok := SaveJournal(j);
      if !ok {
        if journal == Some(j) {
          NothingCalled(Disk(), tx, Interrupted);
        }
        NotPublished(Disk(), tx);
        return Interrupted, tx, t;
      }
      r, tx, t := Proceed(j, desired, before, tx);
    }

    /** How the placement of the desired state decides the end of the transaction. */
    twostate predicate Decided(desired: DesiredState, r: Outcome, tx: Tx, t: seq<Call>)
      reads this, planner.cores
    {
      && (r.Finished? ==> (r.status == Unsupported <==>
                           !Accepts(planner.protocols, planner.cores.adapters, desired, tx.prev)))
      && (t != [] || PublishedNew(Disk(), tx) ==> Plan(desired, tx.prev, tx.plans))
      && (r.Finished? && r.status == Applied ==> faults == old(faults))
      && (faults == old(faults) ==>
            r.Finished? && r.status ==
              if !Accepts(planner.protocols, planner.cores.adapters, desired, tx.prev) then Unsupported
              else if !HasPlans(planner.protocols, planner.cores.adapters, desired, tx.prev) then Failed
              else Applied)
    }

    /** With two enabled resources that claim a common listener nothing is ever published or even asked of a runtime. */
    twostate lemma CommonListenerFails(desired: DesiredState, r: Outcome, tx: Tx, t: seq<Call>, i: nat, k: nat, claim: ListenerClaim)
      requires Reconciled(desired, r, tx, t) && r.Finished?
      requires i < k < |desired.infrastructure| && desired.infrastructure[i].enabled && desired.infrastructure[k].enabled
      requires claim in desired.infrastructure[i].listeners && claim in desired.infrastructure[k].listeners
      ensures r.status != Applied && t == []
      ensures faults == old(faults) && Accepts(planner.protocols, planner.cores.adapters, desired, tx.prev) ==> r.status == Failed
    {
      hide Ended, Accepts, ConflictFree;
      CommonListenerBlocks(planner.protocols, planner.cores.adapters, desired, tx.prev, i, k, claim);
      if Plan(desired, tx.prev, tx.plans) {
        NoPlanWithoutPlans(planner.protocols, planner.cores.adapters, desired, tx.prev, tx.plans);
      }
    }

    /** Places the desired state and carries the transaction out. */
    method Proceed(from: Journal, desired: DesiredState, before: AppliedState, ghost start: Tx)
      returns (r: Outcome, ghost tx: Tx, ghost t: seq<Call>)
      requires Valid() && start.Valid() && start.plans == [] && start.compose == compose && start.prev == before == applied
      requires start.generation == desired.generation && start.base == live
      requires from == Prepared(start.generation, start.prev) && journal == Some(from) && Undoable(Disk(), start.base, start.prev)
      modifies this
      ensures tx == start.(plans := tx.plans) && tx.Valid() && Ended(Disk(), tx, r, t)
      ensures calls == old(calls) + t && live.Keys == tx.base.Keys && faults >= old(faults) && Decided(desired, r, tx, t)
    {
      hide InFlight, Undoable, Abandoned, PublishedNew, Ended, LegalCalls, ConflictFree, HasPlans, Accepts;
      tx, t := start, [];
      var accepted, plans := MakePlans(desired, before);
      if !accepted {
        r := Refuse(from, tx);
        return;
      }
      if plans.None? {
        r := GiveUp(from, tx);
        return;
      }
      tx := tx.(plans := plans.value);
      PlansValid(desired, tx);
      r, t := Begin(from, tx, plans.value, before.generation);
    }

    /** Records that the desired state cannot be placed. */
    method Refuse(from: Journal, ghost tx: Tx) returns (r: Outcome)
      requires tx.Valid() && from == Prepared(tx.generation, tx.prev) && Undoable(Disk(), tx.base, tx.prev)
      requires journal == Some(from)
      requires live == tx.base && applied == tx.prev
      modifies this`journal, this`faults
      ensures Ended(Disk(), tx, r, []) && !PublishedNew(Disk(), tx) && faults >= old(faults)
      ensures r.Finished? ==> r.status == Unsupported
      ensures faults == old(faults) ==> r.Finished?
    {
      hide Undoable, Abandoned, PublishedNew, Ended;
      var j := from.(status := Unsupported);
      UnsupportedAbandoned(Disk(), j, tx);
      var ok := SaveJournal(j);
      r := if ok then Finished(j.generation, Unsupported) else Interrupted;
      NothingCalled(Disk(), tx, r);
    }

    /** Records that the plans cannot be made. */
    method GiveUp(from: Journal, ghost tx: Tx) returns (r: Outcome)
      requires tx.Valid() && from == Prepared(tx.generation, tx.prev) && Undoable(Disk(), tx.base, tx.prev)
      requires journal == Some(from)
      requires live == tx.base && applied == tx.prev
      modifies this`journal, this`files, this`faults
      ensures Ended(Disk(), tx, r, []) && !PublishedNew(Disk(), tx) && faults >= old(faults)
      ensures r.Finished? ==> r.status == Failed
      ensures faults == old(faults) ==> r.Finished?
    {
      hide Undoable, PublishedNew, Ended;
      r := FailWithoutMutation(from, tx.base, tx.prev);
      NothingCalled(Disk(), tx, r);
    }

    /** Marks the transaction as running and carries it out. */
    method Begin(from: Journal, ghost tx: Tx, plans: seq<CorePlan>, expected: nat) returns (r: Outcome, ghost t: seq<Call>)
      requires tx.Valid() && tx.plans == plans && tx.compose == compose && expected == tx.prev.generation
      requires from == Prepared(tx.generation, tx.prev) && journal == Some(from) && Undoable(Disk(), tx.base, tx.prev)
      requires live == tx.base && applied == tx.prev
      modifies this
      ensures calls == old(calls) + t && Ended(Disk(), tx, r, t) && live.Keys == tx.base.Keys
      ensures faults >= old(faults) && (faults == old(faults) <==> r == Finished(tx.generation, Applied))
      ensures r.Finished? ==> r.status != Unsupported && r.generation == tx.generation
    {
      hide InFlight, Undoable, Abandoned, PublishedNew, Ended, LegalCalls;
      t := [];
      var j := from.(coreIds := CoreIds(plans, |plans|), status := Applying);
      BeginInFlight(Disk(), j, tx);
      InFlightUndoable(Disk().(journal := Some(j)), j, tx, 0, 0, 0);
      var ok := SaveJournal(j);
      if !ok {
        NothingCalled(Disk(), tx, Interrupted);
        return Interrupted, t;
      }
      r, t := Transact(j, tx, plans, expected);
      EndedKeys(Disk(), tx, r, t);
    }

    // ----------------------------------------------------------------
    // Crash recovery

    /** Restores one journalled core after checking its ID, snapshot location and registration. */
    method RestoreEntry(generation: nat, resource: JournalResource) returns (r: Reply)
      requires Valid()
      modifies this`live, this`faults, this`calls
      ensures live.Keys == old(live).Keys && faults >= old(faults)
      ensures resource.coreId !in live ==> live == old(live)
      ensures resource.coreId in live ==> live == old(live)[resource.coreId := live[resource.coreId]]
      ensures resource.coreId in live && resource.path == SnapshotPath(generation, resource.coreId) ==>
                calls == old(calls) + [Restore(resource.coreId)] && (r.Done? <==> faults == old(faults))
                && (r.Done? ==> resource.path in files && live[resource.coreId] == SnapshotOf(resource, files))
    {
      if resource.coreId in live {
        RegisteredIdsValid(resource.coreId);
      }
      if !ValidResourceId(resource.coreId)
         || resource.path.generation != generation || resource.path.coreId != resource.coreId {
        return Refused;
      }
      if Lookup(planner.cores.adapters, resource.coreId).None? {
        return Refused;
      }
      r := RollbackConfig(resource.coreId, CoreSnapshot(resource.path, resource.wasEnabled, resource.wasActive));
    }

    /** Restores the next journalled core; `d` is the state when the restores began. */
    method RestoreNext(j: Journal, resources: seq<JournalResource>, i: nat, ghost d: Durable) returns (r: Reply)
      requires Valid() && d.journal == Some(j) && resources == MutatedNewestFirst(j.resources) && i < |resources|
      requires files == d.files && live.Keys == d.live.Keys
      modifies this`live, this`faults, this`calls
      ensures live.Keys == old(live).Keys && faults >= old(faults)
      ensures Restorable(d) ==> (r.Done? <==> faults == old(faults)) && calls == old(calls) + [Restore(resources[i].coreId)]
      ensures Restorable(d) && TouchesOnlyMutated(d, old(live)) ==> TouchesOnlyMutated(d, live)
      ensures Restorable(d) && r.Done? && UndoneAt(d, old(live), resources, i) ==> UndoneAt(d, live, resources, i + 1)
    {
      hide TouchesOnlyMutated, Restorable, Undo, MutatedNewestFirst, UndoneAt, SnapshotOf;
      ghost var before := live;
      r := RestoreEntry(j.generation, resources[i]);
      if Restorable(d) {
        RestoreTargets(d, i);
        if TouchesOnlyMutated(d, before) {
          TouchMore(d, before, resources[i].coreId, live);
        }
        if r.Done? && UndoneAt(d, before, resources, i) {
          OneMoreUndone(d, before, live, i);
        }
      }
    }

    /** Restores every journalled mutation, newest first, from the transaction directory. */
    method RestoreJournalled(j: Journal) returns (r: Reply)
      requires Valid() && journal == Some(j)
      modifies this`live, this`faults, this`calls
      ensures live.Keys == old(live).Keys && faults >= old(faults)
      ensures Restorable(old(Disk())) ==> TouchesOnlyMutated(old(Disk()), live)
      ensures Restorable(old(Disk())) ==> (r.Done? <==> faults == old(faults))
      ensures Restorable(old(Disk())) && r.Done? ==> live == Undo(old(Disk()))
      ensures Restorable(old(Disk())) && r.Done? ==> calls == old(calls) + RestoreCalls(MutatedNewestFirst(j.resources))
    {
      hide TouchesOnlyMutated, Restorable, Undo, MutatedNewestFirst, UndoneAt, RestoreCalls, SnapshotOf;
      ghost var d := Disk();
      ghost var good := Restorable(d);
      var resources := MutatedNewestFirst(j.resources);
      var failed := false;
      TouchNothing(d);
      NothingUndone(d, resources);
      for i := 0 to |resources|
        invariant live.Keys == old(live).Keys && faults >= old(faults)
        invariant good ==> TouchesOnlyMutated(d, live)
        invariant good ==> (failed <==> faults != old(faults))
        invariant good && !failed ==> UndoneAt(d, live, resources, i) && calls == old(calls) + RestoreCalls(resources)[..i]
      {
        r := RestoreNext(j, resources, i, d);
        if good {
          RestoreCallsGrow(resources, i);
        }
        if r.Stopped? {
          return;
        }
        if r.Refused? {
          failed := true;
        }
      }
      if good && !failed {
        AllUndone(d, live);
        RestoreCallsAll(resources);
      }
      r := if failed then Refused else Done;
    }

    lemma RegisteredIdsValid(id: CoreId)
      requires Valid() && id in live
      ensures ValidResourceId(id) && Lookup(planner.cores.adapters, id).Some?
    {
      assert ValidManifest(Lookup(planner.cores.adapters, id).value);
    }

    /** Recovers an interrupted transaction from its journal. */
    method Recover() returns (r: Outcome)
      requires Valid()
      modifies this
      ensures Valid() && faults >= old(faults)
      ensures r.Nothing? <==> old(journal).None? || Terminal(old(journal).value.status)
      ensures Sound(old(Disk())) ==> RecoveryStep(old(Disk()), Disk())
      ensures Sound(old(Disk())) && faults == old(faults) ==>
                !r.Interrupted? && SameButFiles(Disk(), Recovered(old(Disk())))
                && (r.Finished? ==> r == Finished(journal.value.generation, journal.value.status))
      ensures Sound(old(Disk())) && r.Finished? && faults > old(faults) ==> r.status == RecoveryRequired
      ensures !NeedsRestore(old(Disk())) ==> calls == old(calls)
      ensures Sound(old(Disk())) && faults == old(faults) && NeedsRestore(old(Disk())) ==>
                RestoresNewestFirst(old(journal).value.resources, old(calls), calls)
    {
      if journal.None? {
        return Nothing;
      }
      var j := journal.value;
      if Terminal(j.status) {
        CleanupTransactionDirectory(j.generation);
        return Nothing;
      }
      var before := applied;
      if before.generation == j.generation && (j.phase == PublishedPhase || FullyVerified(j)) {
        j := j.(phase := PublishedPhase, status := Applied);
        r := Conclude(j);
        return;
      }
      if MutatedNewestFirst(j.resources) == [] {
        j := j.(status := Failed);
        r := Conclude(j);
        return;
      }
      r := RecoverMutated(j);
    }

    /** Restores the journalled mutations and records the outcome. */
    method RecoverMutated(from: Journal) returns (r: Outcome)
      requires Valid() && journal == Some(from) && NeedsRestore(Disk())
      modifies this
      ensures Valid() && faults >= old(faults) && !r.Nothing?
      ensures Sound(old(Disk())) ==> RecoveryStep(old(Disk()), Disk())
      ensures Sound(old(Disk())) && faults == old(faults) ==>
                !r.Interrupted? && SameButFiles(Disk(), Recovered(old(Disk())))
                && (r.Finished? ==> r == Finished(journal.value.generation, journal.value.status))
      ensures Sound(old(Disk())) && r.Finished? && faults > old(faults) ==> r.status == RecoveryRequired
      ensures Sound(old(Disk())) && faults == old(faults) ==> RestoresNewestFirst(from.resources, old(calls), calls)
    {
      hide Undo, Restorable, TouchesOnlyMutated, MutatedNewestFirst, FullyVerified, RestoreCalls, RestoresNewestFirst;
      var before := applied;
      var j := from.(phase := RollbackStarted, status := Applying);
      var ok := SaveJournal(j);
      ghost var middle := Disk();
      TouchNothing(old(Disk()));
      if !ok {
        return Interrupted;
      }
      UndoSameResources(old(Disk()), middle);
      var reply := RestoreJournalled(j);
      RestoresInOrder(from.resources, old(calls));
      if reply.Stopped? {
        return Interrupted;
      }
      j := j.(current := None);
      if reply.Done? {
        if before.generation == j.generation {
          reply := CompareAndSetApplied(j.generation, AppliedState(j.previousGeneration, j.previousActive));
          if reply.Stopped? {
            return Interrupted;
          }
        } else if before.generation != j.previousGeneration {
          reply := Refused;
        }
      }
      j := if reply.Done? then j.(phase := RolledBackPhase, status := RolledBack)
           else j.(phase := RecoveryPhase, status := RecoveryRequired);
      r := Conclude(j);
    }

    /** Persists the outcome of a recovery; snapshots go only after a terminal entry is saved. */
    method Conclude(j: Journal) returns (r: Outcome)
      requires journal.Some?
      modifies this`journal, this`files, this`faults
      ensures r == Finished(j.generation, j.status) || r == Interrupted
      ensures r.Finished? ==> journal == Some(j) && faults == old(faults)
      ensures r.Interrupted? ==> (journal == old(journal) || journal == Some(j)) && faults > old(faults)
      ensures !Terminal(j.status) || r.Interrupted? ==> files == old(files)
    {
      var ok := SaveJournal(j);
      if !ok {
        return Interrupted;
      }
      if j.status in {Applied, Failed, RolledBack} {
        CleanupTransactionDirectory(j.generation);
      }
      return Finished(j.generation, j.status);
    }
  }

  /** Recovery will restore snapshots. */
  predicate NeedsRestore(d: Durable) {
    d.journal.Some?
    && var j := d.journal.value;
    && !Terminal(j.status)
    && !(d.applied.generation == j.generation && (j.phase == PublishedPhase || FullyVerified(j)))
    && MutatedNewestFirst(j.resources) != []
  }

  /** When it does, the snapshots are there and nothing has to be unpublished. */
  ghost predicate Sound(d: Durable) {
    NeedsRestore(d) ==> Restorable(d) && d.applied.generation != d.journal.value.generation
  }

  lemma UndoSameResources(d: Durable, e: Durable)
    requires d.journal.Some? && e.journal.Some? && e == d.(journal := e.journal)
    requires e.journal.value.resources == d.journal.value.resources && e.journal.value.generation == d.journal.value.generation
    ensures Undo(e) == Undo(d) && (Restorable(d) <==> Restorable(e))
    ensures forall live :: TouchesOnlyMutated(d, live) <==> TouchesOnlyMutated(e, live)
  {
  }

  /** The first `i` of the restored resources are back at their snapshots. */
  ghost predicate UndoneAt(d: Durable, live: Live, resources: seq<JournalResource>, i: nat)
    requires i <= |resources|
  {
    forall k :: 0 <= k < i ==> resources[k].coreId in live && resources[k].coreId in Undo(d)
                               && live[resources[k].coreId] == Undo(d)[resources[k].coreId]
  }

  lemma OneMoreUndone(d: Durable, before: Live, live: Live, i: nat)
    requires d.journal.Some? && Restorable(d)
    requires var rs := MutatedNewestFirst(d.journal.value.resources);
             i < |rs| && UndoneAt(d, before, rs, i) && rs[i].coreId in live && rs[i].path in d.files
             && live == before[rs[i].coreId := SnapshotOf(rs[i], d.files)]
    ensures UndoneAt(d, live, MutatedNewestFirst(d.journal.value.resources), i + 1)
  {
    RestoreTargets(d, i);
    NewestFirstDistinct(d.journal.value.resources);
  }

  lemma AllUndone(d: Durable, live: Live)
    requires d.journal.Some? && Restorable(d) && TouchesOnlyMutated(d, live)
    requires var rs := MutatedNewestFirst(d.journal.value.resources); UndoneAt(d, live, rs, |rs|)
    ensures live == Undo(d)
  {
    var rs := MutatedNewestFirst(d.journal.value.resources);
    forall r | r in rs ensures live[r.coreId] == Undo(d)[r.coreId] {
      var k :| 0 <= k < |rs| && rs[k] == r;
    }
    AllRestored(d, live);
  }

  function RestoreCalls(resources: seq<JournalResource>): (r: seq<Call>)
    ensures |r| == |resources|
  {
    seq(|resources|, i requires 0 <= i < |resources| => Restore(resources[i].coreId))
  }

  /** One restore for every journalled mutation, the newest first. */
  ghost predicate RestoresNewestFirst(resources: seq<JournalResource>, before: seq<Call>, after: seq<Call>) {
    exists at: seq<int> ::
      && after == before + RestoreCallsAt(resources, at)
      && (forall i, k :: 0 <= i < k < |at| ==> at[i] > at[k])
      && forall i :: i in at <==> 0 <= i < |resources| && resources[i].mutationStarted
  }

  function RestoreCallsAt(resources: seq<JournalResource>, at: seq<int>): (r: seq<Call>)
    ensures |r| == |at|
    ensures forall k :: 0 <= k < |at| && 0 <= at[k] < |resources| ==> r[k] == Restore(resources[at[k]].coreId)
  {
    seq(|at|, k requires 0 <= k < |at| => if 0 <= at[k] < |resources| then Restore(resources[at[k]].coreId) else Current)
  }

  /** `newest` are the mutated resources at the decreasing positions `at`. */
  ghost predicate NewestAt(resources: seq<JournalResource>, newest: seq<JournalResource>, at: seq<int>) {
    && |at| == |newest| && (forall i, k :: 0 <= i < k < |at| ==> at[i] > at[k])
    && (forall i :: i in at <==> 0 <= i < |resources| && resources[i].mutationStarted)
    && forall k :: 0 <= k < |at| ==> 0 <= at[k] < |resources| && newest[k] == resources[at[k]]
  }

  lemma {:induction false} NewestFirstAt(resources: seq<JournalResource>) returns (at: seq<int>)
    ensures NewestAt(resources, MutatedNewestFirst(resources), at)
  {
    if resources == [] {
      at := [];
    } else {
      hide NewestAt;
      var rest := NewestFirstAt(resources[1..]);
      var shifted := ShiftedUp(rest);
      at := shifted + (if resources[0].mutationStarted then [0] else []);
      NewestShifted(resources, MutatedNewestFirst(resources[1..]), rest, shifted);
    }
  }

  lemma NewestShifted(resources: seq<JournalResource>, newest: seq<JournalResource>, rest: seq<int>, shifted: seq<int>)
    requires resources != [] && NewestAt(resources[1..], newest, rest)
    requires |shifted| == |rest| && forall k :: 0 <= k < |rest| ==> shifted[k] == rest[k] + 1
    requires forall i :: i in shifted <==> i - 1 in rest
    ensures var started := resources[0].mutationStarted;
            NewestAt(resources, if started then newest + [resources[0]] else newest, shifted + (if started then [0] else []))
  {
    assert forall k :: 0 <= k < |rest| ==> resources[1..][rest[k]] == resources[shifted[k]];
    assert forall i :: 0 < i < |resources| ==> resources[i] == resources[1..][i - 1];
    assert shifted + [] == shifted;
  }

  lemma ShiftedUp(rest: seq<int>) returns (shifted: seq<int>)
    ensures |shifted| == |rest| && forall k :: 0 <= k < |rest| ==> shifted[k] == rest[k] + 1
    ensures forall i :: i in shifted <==> i - 1 in rest
  {
    shifted := seq(|rest|, k requires 0 <= k < |rest| => rest[k] + 1);
    forall i ensures i in shifted <==> i - 1 in rest {
      if i - 1 in rest {
        var k :| 0 <= k < |rest| && rest[k] == i - 1;
        assert shifted[k] == i;
      }
    }
  }

  lemma RestoresInOrder(resources: seq<JournalResource>, before: seq<Call>)
    ensures RestoresNewestFirst(resources, before, before + RestoreCalls(MutatedNewestFirst(resources)))
  {
    var at := NewestFirstAt(resources);
    assert RestoreCalls(MutatedNewestFirst(resources)) == RestoreCallsAt(resources, at);
  }

  lemma NothingUndone(d: Durable, resources: seq<JournalResource>)
    ensures UndoneAt(d, d.live, resources, 0) && RestoreCalls(resources)[..0] == []
  {
  }

  lemma RestoreCallsGrow(resources: seq<JournalResource>, i: nat)
    requires i < |resources|
    ensures RestoreCalls(resources)[..i] + [Restore(resources[i].coreId)] == RestoreCalls(resources)[..i + 1]
  {
  }

  lemma RestoreCallsAll(resources: seq<JournalResource>)
    ensures RestoreCalls(resources)[..|resources|] == RestoreCalls(resources)
  {
  }

  /** How an attempted transaction may have ended, with the adapter calls `t` it made. The rollback window
      is reached only after a core was installed, or when there was none to install. */
  ghost predicate Ended(d: Durable, tx: Tx, r: Outcome, t: seq<Call>) {
    && LegalCalls(t, tx.plans) && MarkersHold(d.journal, tx.plans, t)
    && match r
       case Finished(g, s) =>
         && g == tx.generation && d.journal.Some? && d.journal.value.status == s
         && s in {Applied, Failed, Unsupported, RolledBack, RecoveryRequired}
         && (s == Applied ==> PublishedNew(d, tx) && t == Script(tx.plans))
         && (s in {Failed, Unsupported} ==> Abandoned(d, tx.base, tx.prev) && Installed(t) == [])
         && (s == RolledBack ==> Abandoned(d, tx.base, tx.prev) && FullRollback(t, tx.plans))
         && (s == RecoveryRequired ==> Undoable(d, tx.base, tx.prev) && FullRollback(t, tx.plans))
       case Interrupted => CrashPoint(d, tx) || (WindowState(d, tx.base, tx.prev) && (Installed(t) != [] || tx.plans == []))
       case Nothing => false
  }

  /** `Applied` means that every planned core was installed, activated and then checked, and the generation confirmed after that. */
  lemma AppliedMeansChecked(d: Durable, tx: Tx, r: Outcome, t: seq<Call>, p: CorePlan)
    requires Ended(d, tx, r, t) && r.Finished? && r.status == Applied && p in tx.plans
    ensures exists n :: 0 <= n < |t| && t[n] == Current && Checked(t[..n], p)
  {
    hide LegalCalls, MarkersHold, PublishedNew, Script, Checked;
    AppliedIsChecked(tx.plans, p);
  }

  /** However a transaction ended, no core was installed before every planned one was ready, nor before the earlier ones were checked. */
  lemma EndedIsCareful(d: Durable, tx: Tx, r: Outcome, t: seq<Call>, x: nat, k: nat, i: nat)
    requires Ended(d, tx, r, t) && tx.Valid() && x < |t| && k < |tx.plans| && t[x] == Install(tx.plans[k].coreId) && i < |tx.plans|
    ensures ReadyBefore(t, x, tx.plans[i]) && (i < k ==> Checked(t[..x], tx.plans[i]))
  {
    hide LegalCalls, MarkersHold, ReadyBefore, Checked;
    InstalledOnlyWhenReady(t, tx.plans, x, tx.plans[i]);
    if i < k {
      InstalledOnlyWhenCheckedSoFar(t, tx.plans, x, k, i);
    }
  }

  /** The desired generation is newer than the applied one and no recovery is pending. */
  predicate Attempts(desired: DesiredState, d: Durable) {
    && desired.generation > d.applied.generation
    && !(d.journal.Some? && d.journal.value.status in {Applying, RecoveryRequired})
  }

  lemma BeginUndoable(d: Durable, g: nat)
    requires d.applied.generation < g
    ensures Undoable(d.(journal := Some(Prepared(g, d.applied))), d.live, d.applied)
  {
  }

  lemma UnsupportedAbandoned(d: Durable, j: Journal, tx: Tx)
    requires d.live == tx.base && d.applied == tx.prev && j.status == Unsupported && j.phase != RollbackStarted
    ensures Abandoned(d.(journal := Some(j)), tx.base, tx.prev)
  {
  }

  lemma BeginInFlight(d: Durable, j: Journal, tx: Tx)
    requires tx.Valid() && Header(j, tx) && j.resources == [] && d.applied == tx.prev && d.live == tx.base
    ensures InFlight(d.(journal := Some(j)), j, tx, 0, 0, 0)
  {
  }

  lemma NothingCalled(d: Durable, tx: Tx, r: Outcome)
    requires r.Interrupted? ==> Undoable(d, tx.base, tx.prev) || Abandoned(d, tx.base, tx.prev)
    requires r.Finished? ==> Abandoned(d, tx.base, tx.prev) && d.journal.value.status == r.status
                             && r.generation == tx.generation && r.status in {Failed, Unsupported}
    requires !r.Nothing? && tx.prev.generation < tx.generation && Unverified(d.journal)
    ensures Ended(d, tx, r, []) && d.live.Keys == tx.base.Keys && !PublishedNew(d, tx)
  {
    NothingVerified(d.journal, tx.plans, []);
    LegalForward([], tx.plans);
  }

  lemma NotPublished(d: Durable, tx: Tx)
    requires d.applied == tx.prev && tx.prev.generation < tx.generation
    ensures !PublishedNew(d, tx)
  {
  }

  lemma EndedKeys(d: Durable, tx: Tx, r: Outcome, t: seq<Call>)
    requires Ended(d, tx, r, t)
    ensures d.live.Keys == tx.base.Keys && (r.Finished? ==> r.generation == tx.generation)
  {
  }

  lemma AbandonedForgetsFiles(d: Durable, e: Durable, base: Live, prev: AppliedState)
    requires Abandoned(d, base, prev) && SameButFiles(d, e)
    ensures Abandoned(e, base, prev)
  {
  }

  ghost predicate RestoredTo(live: Live, base: Live, c: CoreId) {
    c in live && c in base && live[c] == base[c]
  }

  lemma TouchNothing(d: Durable)
    requires d.journal.Some?
    ensures TouchesOnlyMutated(d, d.live)
  {
  }

  lemma TouchedKeys(d: Durable, live: Live)
    requires d.journal.Some? && TouchesOnlyMutated(d, live)
    ensures live.Keys == d.live.Keys
  {
  }

  /** The planned cores from `n` up to `started` are as before the transaction. */
  ghost predicate RestoredFrom(live: Live, tx: Tx, n: nat, started: nat)
    requires started <= |tx.plans|
  {
    forall k :: n <= k < started ==> RestoredTo(live, tx.base, tx.plans[k].coreId)
  }

  lemma OneMoreRestored(before: Live, live: Live, tx: Tx, n: nat, started: nat)
    requires n < started <= |tx.plans| && RestoredFrom(before, tx, n + 1, started)
    requires forall c :: c != tx.plans[n].coreId && RestoredTo(before, tx.base, c) ==> RestoredTo(live, tx.base, c)
    requires RestoredTo(live, tx.base, tx.plans[n].coreId)
    ensures RestoredFrom(live, tx, n, started)
  {
    forall k | n <= k < started ensures RestoredTo(live, tx.base, tx.plans[k].coreId) {
      if tx.plans[k].coreId != tx.plans[n].coreId {
        assert RestoredTo(before, tx.base, tx.plans[k].coreId);
      }
    }
  }

  lemma RestoredIsBase(d: Durable, live: Live, tx: Tx, started: nat, verified: nat)
    requires tx.Valid() && started <= |tx.plans| && WindowState(d, tx.base, tx.prev) && TouchesOnlyMutated(d, live)
    requires d.journal.value.resources == tx.Resources(|tx.plans|, started, verified)
    requires RestoredFrom(live, tx, 0, started)
    ensures live == tx.base
  {
    var rs := MutatedNewestFirst(d.journal.value.resources);
    MutatedAreStarted(tx, |tx.plans|, started, verified);
    forall r | r in rs ensures live[r.coreId] == Undo(d)[r.coreId] {
      var k :| 0 <= k < |rs| && rs[k] == r;
      assert RestoredTo(live, tx.base, tx.plans[started - 1 - k].coreId);
    }
    AllRestored(d, live);
  }

  /** The in-memory snapshots of the first `n` planned cores are still there. */
  ghost predicate SnapshotsLeft(snapshots: map<CoreId, PreparedCore>, tx: Tx, n: int)
    requires tx.Valid() && n <= |tx.plans|
  {
    forall k :: 0 <= k < n ==> tx.plans[k].coreId in snapshots && PreparedAt(snapshots[tx.plans[k].coreId], tx, k)
  }

  lemma TakeSnapshot(snapshots: map<CoreId, PreparedCore>, tx: Tx, n: nat)
    requires tx.Valid() && n < |tx.plans| && SnapshotsLeft(snapshots, tx, n + 1)
    ensures tx.plans[n].coreId in snapshots && PreparedAt(snapshots[tx.plans[n].coreId], tx, n)
    ensures SnapshotsLeft(snapshots - {tx.plans[n].coreId}, tx, n)
  {
  }

  lemma AllPrepared(prepared: seq<PreparedCore>, tx: Tx, n: nat)
    requires tx.Valid() && n <= |tx.plans| && PreparedFor(prepared, tx, |tx.plans|)
    ensures SnapshotsLeft(ByCore(prepared), tx, n)
  {
    ByCoreEntries(prepared, tx, |tx.plans|);
    forall k | 0 <= k < n ensures PreparedAt(ByCore(prepared)[tx.plans[k].coreId], tx, k) {
      assert PreparedAt(prepared[k], tx, k);
    }
  }

  /** The prepared cores by ID. */
  function ByCore(prepared: seq<PreparedCore>): map<CoreId, PreparedCore> {
    if prepared == [] then map[]
    else ByCore(prepared[..|prepared| - 1])[prepared[|prepared| - 1].plan.coreId := prepared[|prepared| - 1]]
  }

  lemma {:induction false} ByCoreEntries(prepared: seq<PreparedCore>, tx: Tx, n: nat)
    requires tx.Valid() && n <= |tx.plans| && PreparedFor(prepared, tx, n)
    ensures forall i :: 0 <= i < n ==> tx.plans[i].coreId in ByCore(prepared) && ByCore(prepared)[tx.plans[i].coreId] == prepared[i]
  {
    if n > 0 {
      ByCoreEntries(prepared[..n - 1], tx, n - 1);
      assert PreparedAt(prepared[n - 1], tx, n - 1);
    }
  }

  ghost predicate PreparedAt(p: PreparedCore, tx: Tx, i: nat)
    requires tx.Valid() && i < |tx.plans|
  {
    p.plan == tx.plans[i] && p.candidate == tx.compose(tx.plans[i])
    && var c := tx.plans[i].coreId;
    p.snapshot == CoreSnapshot(tx.Path(i), tx.base[c].enabled, tx.base[c].active)
  }

  /** The first `n` planned cores have their candidates and snapshots. */
  ghost predicate PreparedFor(prepared: seq<PreparedCore>, tx: Tx, n: nat)
    requires tx.Valid() && n <= |tx.plans|
  {
    |prepared| == n && forall i :: 0 <= i < n ==> PreparedAt(prepared[i], tx, i)
  }

  lemma PreparedGrows(prepared: seq<PreparedCore>, tx: Tx, n: nat, p: PreparedCore)
    requires tx.Valid() && n < |tx.plans| && PreparedFor(prepared, tx, n) && PreparedAt(p, tx, n)
    ensures PreparedFor(prepared + [p], tx, n + 1)
  {
  }
}
