/** The states and adapter calls of one transaction, as values. */
module Transaction {
  import opened Prelude
  import opened Desired
  import opened Recovery

  type Live = map<CoreId, Runtime>

  /** One transaction: its plans, generation, the state before it and how runtimes compose configurations. */
  datatype Tx = Tx(plans: seq<CorePlan>, generation: nat, base: Live, prev: AppliedState, compose: CorePlan -> Config) {
    ghost predicate Valid() {
      && prev.generation < generation
      && (forall i, k :: 0 <= i < k < |plans| ==> plans[i].coreId != plans[k].coreId)
      && forall i :: 0 <= i < |plans| ==> plans[i].coreId in base
    }

    function Path(i: nat): SnapshotPath
      requires i < |plans|
    {
      SnapshotPath(generation, plans[i].coreId)
    }

    /** Journal resources after `n` snapshots, `started` mutation markers and `verified` verifications. */
    ghost function Resources(n: nat, started: nat, verified: nat): (r: seq<JournalResource>)
      requires Valid() && n <= |plans|
      ensures |r| == n
    {
      seq(n, i requires 0 <= i < n =>
        var c := plans[i].coreId;
        JournalResource(c, Path(i), base[c].enabled, base[c].active, i < started, i < verified))
    }
  }

  /** The core runs what its plan asks for. */
  ghost predicate AtGoal(live: Live, plan: CorePlan, compose: CorePlan -> Config) {
    plan.coreId in live
    && live[plan.coreId].config == compose(plan) && live[plan.coreId].active == (plan.fragments != [])
  }

  predicate Planned(plans: seq<CorePlan>, n: nat, c: CoreId)
    requires n <= |plans|
  {
    exists i :: 0 <= i < n && plans[i].coreId == c
  }

  /** Every planned core runs its plan, every other core is as it was. */
  ghost predicate NewState(live: Live, base: Live, plans: seq<CorePlan>, compose: CorePlan -> Config) {
    && live.Keys == base.Keys
    && (forall i :: 0 <= i < |plans| ==> AtGoal(live, plans[i], compose))
    && (forall c :: c in base && !Planned(plans, |plans|, c) ==> live[c] == base[c])
  }

  function ActiveIds(plans: seq<CorePlan>): seq<CoreId> {
    if plans == [] then []
    else ActiveIds(plans[..|plans| - 1]) + if plans[|plans| - 1].fragments != [] then [plans[|plans| - 1].coreId] else []
  }

  /** The published IDs are those of the plans with fragments, in the order of the plans. */
  lemma {:induction false} ActiveIdsListed(plans: seq<CorePlan>, n: nat) returns (at: seq<int>)
    requires n <= |plans|
    ensures Listed(CoreIds(plans, n), ActiveIds(plans[..n]), at)
    ensures forall i :: i in at <==> 0 <= i < n && plans[i].fragments != []
  {
    hide Listed;
    if n == 0 {
      at := [];
      ListedNothing<CoreId>();
      assert CoreIds(plans, 0) == [] && ActiveIds(plans[..0]) == [];
    } else {
      var before := ActiveIdsListed(plans, n - 1);
      assert plans[..n][..n - 1] == plans[..n - 1];
      at := ListedSnoc(CoreIds(plans, n - 1), plans[n - 1].coreId, ActiveIds(plans[..n - 1]), before, plans[n - 1].fragments != []);
      assert CoreIds(plans, n) == CoreIds(plans, n - 1) + [plans[n - 1].coreId];
    }
  }

  function Next(plans: seq<CorePlan>, g: nat): AppliedState {
    AppliedState(g, ActiveIds(plans))
  }

  /** The journal belongs to the running transaction. */
  ghost predicate Header(j: Journal, tx: Tx) {
    && j.status == Applying && j.phase != RollbackStarted && j.generation == tx.generation
    && j.previousGeneration == tx.prev.generation && j.previousActive == tx.prev.activeCoreIds
  }

  ghost predicate Snapshotted(d: Durable, tx: Tx, n: nat)
    requires tx.Valid() && n <= |tx.plans|
  {
    forall i :: 0 <= i < n ==> tx.Path(i) in d.files && d.files[tx.Path(i)] == tx.base[tx.plans[i].coreId].config
  }

  /** The durable state and the in-memory journal in the middle of the forward path. */
  ghost predicate InFlight(d: Durable, j: Journal, tx: Tx, n: nat, started: nat, verified: nat)
    requires tx.Valid() && n <= |tx.plans| && started <= |tx.plans| && verified <= |tx.plans|
  {
    && started <= n
    && d.journal == Some(j) && Header(j, tx)
    && d.applied == tx.prev && d.live.Keys == tx.base.Keys
    && j.resources == tx.Resources(n, started, verified)
    && Snapshotted(d, tx, n)
    && (forall c :: c in tx.base && !Planned(tx.plans, started, c) ==> d.live[c] == tx.base[c])
    && (forall i :: 0 <= i < verified ==> AtGoal(d.live, tx.plans[i], tx.compose))
  }

  lemma InFlightRestorable(d: Durable, j: Journal, tx: Tx, n: nat, started: nat, verified: nat)
    requires tx.Valid() && n <= |tx.plans| && started <= |tx.plans| && verified <= |tx.plans|
    requires InFlight(d, j, tx, n, started, verified)
    ensures Restorable(d) && (started == 0 ==> MutatedNewestFirst(j.resources) == [])
  {
    hide AtGoal, Undo, Saved;
    forall r | r in j.resources ensures r.mutationStarted ==> started > 0 {
      var i :| 0 <= i < n && j.resources[i] == r;
    }
    if started == 0 && MutatedNewestFirst(j.resources) != [] {
      assert MutatedNewestFirst(j.resources)[0] in MutatedNewestFirst(j.resources);
    }
  }

  lemma InFlightUndo(d: Durable, j: Journal, tx: Tx, n: nat, started: nat, verified: nat, c: CoreId)
    requires tx.Valid() && n <= |tx.plans| && started <= |tx.plans| && verified <= |tx.plans|
    requires InFlight(d, j, tx, n, started, verified) && c in tx.base
    ensures c in d.live && Undo(d)[c] == tx.base[c]
  {
    hide AtGoal, Saved, MutatedNewestFirst;
    SavedMember(j.resources, c);
    if Planned(tx.plans, started, c) {
      var i :| 0 <= i < started && tx.plans[i].coreId == c;
      SavedUnique(j.resources, j.resources[i]);
    }
  }

  /** Write-ahead invariant: from every point of the forward path the persisted journal and
      snapshots suffice to restore exactly the state before the transaction. */
  lemma InFlightUndoable(d: Durable, j: Journal, tx: Tx, n: nat, started: nat, verified: nat)
    requires tx.Valid() && n <= |tx.plans| && started <= |tx.plans| && verified <= |tx.plans|
    requires InFlight(d, j, tx, n, started, verified)
    ensures Undoable(d, tx.base, tx.prev)
  {
    hide Restorable, Tx.Resources, AtGoal, Snapshotted, Planned;
    InFlightRestorable(d, j, tx, n, started, verified);
    forall c | c in tx.base ensures c in d.live && Undo(d)[c] == tx.base[c] {
      InFlightUndo(d, j, tx, n, started, verified, c);
    }
    assert Undo(d).Keys == d.live.Keys;
  }

  /** A journal that differs in phase and current core only describes the same point. */
  lemma Rephrase(d: Durable, j: Journal, k: Journal, tx: Tx, n: nat, started: nat, verified: nat)
    requires tx.Valid() && n <= |tx.plans| && started <= |tx.plans| && verified <= |tx.plans|
    requires InFlight(d, j, tx, n, started, verified) && Header(k, tx) && k.resources == j.resources
    ensures InFlight(d.(journal := Some(k)), k, tx, n, started, verified)
  {
  }

  /** Writing the snapshot of the next core disturbs none of the earlier ones. */
  lemma SnapshotWritten(d: Durable, j: Journal, tx: Tx, i: nat, files: map<SnapshotPath, Config>)
    requires tx.Valid() && i < |tx.plans| && InFlight(d, j, tx, i, 0, 0)
    requires forall p :: p in d.files && p != tx.Path(i) ==> p in files && files[p] == d.files[p]
    ensures InFlight(d.(files := files), j, tx, i, 0, 0)
  {
  }

  /** Journalling a complete snapshot of the next core. */
  lemma SnapshotJournalled(d: Durable, j: Journal, k: Journal, tx: Tx, i: nat)
    requires tx.Valid() && i < |tx.plans| && InFlight(d, j, tx, i, 0, 0) && Header(k, tx)
    requires tx.Path(i) in d.files && d.files[tx.Path(i)] == tx.base[tx.plans[i].coreId].config
    requires var c := tx.plans[i].coreId;
             k.resources == j.resources + [JournalResource(c, tx.Path(i), tx.base[c].enabled, tx.base[c].active, false, false)]
    ensures InFlight(d.(journal := Some(k)), k, tx, i + 1, 0, 0)
  {
    assert k.resources == tx.Resources(i + 1, 0, 0);
  }

  /** Changing the core whose mutation is marked disturbs nothing the journal relies on. */
  lemma MutatingMarked(d: Durable, j: Journal, tx: Tx, i: nat, live: Live)
    requires tx.Valid() && i < |tx.plans| && InFlight(d, j, tx, |tx.plans|, i + 1, i)
    requires tx.plans[i].coreId in live && live == d.live[tx.plans[i].coreId := live[tx.plans[i].coreId]]
    ensures InFlight(d.(live := live), j, tx, |tx.plans|, i + 1, i)
  {
    hide Tx.Resources, Header;
    assert Planned(tx.plans, i + 1, tx.plans[i].coreId);
  }

  lemma StartJournalled(d: Durable, j: Journal, k: Journal, tx: Tx, i: nat)
    requires tx.Valid() && i < |tx.plans| && InFlight(d, j, tx, |tx.plans|, i, i) && Header(k, tx)
    requires k.resources == MarkStarted(j.resources, tx.plans[i].coreId)
    ensures InFlight(d.(journal := Some(k)), k, tx, |tx.plans|, i + 1, i)
  {
    hide AtGoal, MarkStarted, Tx.Resources;
    StartAdvances(tx, i, i);
    forall c | Planned(tx.plans, i, c) ensures Planned(tx.plans, i + 1, c) {
      var n :| 0 <= n < i && tx.plans[n].coreId == c;
    }
  }

  lemma VerificationJournalled(d: Durable, j: Journal, k: Journal, tx: Tx, i: nat)
    requires tx.Valid() && i < |tx.plans| && InFlight(d, j, tx, |tx.plans|, i + 1, i) && Header(k, tx)
    requires k.resources == MarkVerified(j.resources, tx.plans[i].coreId) && AtGoal(d.live, tx.plans[i], tx.compose)
    ensures InFlight(d.(journal := Some(k)), k, tx, |tx.plans|, i + 1, i + 1)
  {
    VerifyAdvances(tx, i + 1, i);
  }

  lemma HeaderOf(d: Durable, j: Journal, tx: Tx, n: nat, started: nat, verified: nat)
    requires tx.Valid() && n <= |tx.plans| && started <= |tx.plans| && verified <= |tx.plans|
    requires InFlight(d, j, tx, n, started, verified)
    ensures Header(j, tx) && d.journal == Some(j) && d.live.Keys == tx.base.Keys && d.applied == tx.prev
    ensures j.resources == tx.Resources(n, started, verified)
  {
  }

  /** Where a crash of the forward path can leave the durable state. */
  ghost predicate CrashPoint(d: Durable, tx: Tx) {
    || Undoable(d, tx.base, tx.prev)
    || Abandoned(d, tx.base, tx.prev)
    || PublishedNew(d, tx)
  }

  /** Everything runs the new plans and the new generation is the applied one. */
  ghost predicate PublishedNew(d: Durable, tx: Tx) {
    Published(d, d.live, Next(tx.plans, tx.generation)) && NewState(d.live, tx.base, tx.plans, tx.compose)
  }

  /** A crash inside the in-process rollback: undo information is there, but marked as finished. */
  ghost predicate WindowState(d: Durable, base: Live, prev: AppliedState) {
    RollingBack(d.journal) && Restorable(d) && Undo(d) == base && d.applied == prev
  }

  /** Restoring every mutated core restores the undone state. */
  lemma AllRestored(d: Durable, live: Live)
    requires d.journal.Some? && Restorable(d) && TouchesOnlyMutated(d, live)
    requires forall r :: r in MutatedNewestFirst(d.journal.value.resources) ==> live[r.coreId] == Undo(d)[r.coreId]
    ensures live == Undo(d)
  {
    var rs := d.journal.value.resources;
    forall c | c in live ensures live[c] == Undo(d)[c] {
      SavedMember(rs, c);
      if Saved(rs, c).Some? {
        assert Saved(rs, c).value in MutatedNewestFirst(rs);
      }
    }
  }

  lemma UndoneLive(d: Durable, j: Journal, tx: Tx, started: nat, verified: nat)
    requires tx.Valid() && started <= |tx.plans| && verified <= |tx.plans|
    requires InFlight(d, j, tx, |tx.plans|, started, verified)
    ensures var e := d.(journal := Some(j.(phase := RollbackStarted, status := Failed)));
            WindowState(e, tx.base, tx.prev)
  {
    InFlightUndoable(d, j, tx, |tx.plans|, started, verified);
  }

  /** After the first save of a rollback, recovery leaves every core as the crash left it: it gives the old
      state back if and only if no core differed from it. */
  lemma CutRollbackIsNotRecovered(d: Durable, j: Journal, tx: Tx, started: nat, verified: nat)
    requires tx.Valid() && started <= |tx.plans| && verified <= |tx.plans|
    requires InFlight(d, j, tx, |tx.plans|, started, verified)
    ensures var e := d.(journal := Some(j.(phase := RollbackStarted, status := Failed)));
            Recovered(e).live == d.live && Undo(e) == tx.base && (Recovered(e).live == tx.base <==> d.live == tx.base)
  {
    UndoneLive(d, j, tx, started, verified);
  }

  /** One core that was installed when its activation failed. */
  lemma CutRollbackWitness(d: Durable, tx: Tx)
    requires tx == Tx([CorePlan(1, "a", [])], 1, map["a" := Runtime("old", true, true)], AppliedState(0, ["a"]), (p: CorePlan) => "new")
    requires var path := SnapshotPath(1, "a");
             d == Durable(
               Some(Journal(1, 0, ["a"], InstalledPhase, Applying, ["a"], Some("a"), [JournalResource("a", path, true, true, true, false)])),
               tx.prev, map["a" := Runtime("new", true, true)], map[path := "old"])
    ensures tx.Valid() && InFlight(d, d.journal.value, tx, 1, 1, 0)
    ensures var e := d.(journal := Some(d.journal.value.(phase := RollbackStarted, status := Failed)));
            WindowState(e, tx.base, tx.prev) && Recovered(e).live != tx.base
  {
    assert tx.Resources(1, 1, 0) == d.journal.value.resources;
    assert tx.plans[0].coreId == "a" && Planned(tx.plans, 1, "a");
    UndoneLive(d, d.journal.value, tx, 1, 0);
    assert d.live["a"] != tx.base["a"];
  }

  /** A published transaction without plans, crashed before its terminal journal entry. */
  lemma EmptyPlanWitness(d: Durable, tx: Tx)
    requires tx == Tx([], 1, map[], AppliedState(0, []), (p: CorePlan) => "")
    requires d == Durable(Some(Journal(1, 0, [], PublishingPhase, Applying, [], None, [])), AppliedState(1, []), map[], map[])
    ensures tx.Valid() && PublishedNew(d, tx) && Recovered(d).journal.value.status == Failed
  {
    PublishedStatus(d, d.live, Next(tx.plans, tx.generation));
  }

  /** A window state that recorded its outcome. */
  lemma WindowCloses(d: Durable, k: Journal, base: Live, prev: AppliedState)
    requires WindowState(d, base, prev) && k.resources == d.journal.value.resources
    requires k.generation == d.journal.value.generation
    ensures k.status == RolledBack && k.phase == RolledBackPhase && d.live == base ==>
              Abandoned(d.(journal := Some(k)), base, prev)
    ensures k.status == RecoveryRequired && k.phase == RecoveryPhase && prev.generation < k.generation
            && k.previousGeneration == prev.generation && k.previousActive == prev.activeCoreIds ==>
              Undoable(d.(journal := Some(k)), base, prev)
  {
  }

  lemma WindowKept(d: Durable, live: Live, base: Live, prev: AppliedState)
    requires WindowState(d, base, prev) && TouchesOnlyMutated(d, live)
    ensures WindowState(d.(live := live), base, prev)
  {
    UndoIgnoresTouched(d, d.(live := live));
  }

  /** The snapshot of a mutated core is its state before the transaction. */
  lemma SnapshotIsBase(d: Durable, tx: Tx, started: nat, verified: nat, n: nat)
    requires tx.Valid() && n < started <= |tx.plans| && WindowState(d, tx.base, tx.prev)
    requires d.journal.value.resources == tx.Resources(|tx.plans|, started, verified)
    ensures var c := tx.plans[n].coreId;
            c in d.live && Saved(d.journal.value.resources, c).Some?
            && Undo(d)[c] == tx.base[c]
            && tx.Path(n) in d.files && Runtime(d.files[tx.Path(n)], tx.base[c].enabled, tx.base[c].active) == tx.base[c]
  {
    var r := d.journal.value.resources[n];
    SavedUnique(d.journal.value.resources, r);
    assert Undo(d)[r.coreId] == SnapshotOf(r, d.files);
  }

  lemma TouchMore(d: Durable, live: Live, c: CoreId, after: Live)
    requires d.journal.Some? && TouchesOnlyMutated(d, live) && Saved(d.journal.value.resources, c).Some?
    requires c in live && c in after && after == live[c := after[c]]
    ensures TouchesOnlyMutated(d, after)
  {
  }

  lemma RestoresGrow(tx: Tx, started: nat, i: nat)
    requires i < started <= |tx.plans|
    ensures Restores(CoreIds(tx.plans, started))[..i] + [Restore(tx.plans[started - 1 - i].coreId)]
              == Restores(CoreIds(tx.plans, started))[..i + 1]
  {
  }

  /** A transaction whose every core is verified and whose applied state landed is published. */
  lemma PublicationLands(d: Durable, j: Journal, tx: Tx)
    requires tx.Valid() && InFlight(d, j, tx, |tx.plans|, |tx.plans|, |tx.plans|) && j.phase == PublishingPhase
    ensures PublishedNew(d.(applied := Next(tx.plans, tx.generation)), tx)
  {
    forall r | r in j.resources ensures r.mutationStarted && r.verified {
      var i :| 0 <= i < |j.resources| && j.resources[i] == r;
    }
  }

  /** The terminal entry of a published transaction. */
  lemma PublicationRecorded(d: Durable, j: Journal, tx: Tx)
    requires PublishedNew(d, tx) && j.status == Applied && j.generation == tx.generation
    ensures PublishedNew(d.(journal := Some(j)), tx)
  {
  }

  lemma PublicationForgetsFiles(d: Durable, e: Durable, tx: Tx)
    requires PublishedNew(d, tx) && SameButFiles(d, e)
    ensures PublishedNew(e, tx)
  {
  }

  lemma FilesIrrelevant(d: Durable, j: Journal, tx: Tx, files: map<SnapshotPath, Config>)
    requires tx.Valid() && InFlight(d, j, tx, 0, 0, 0)
    ensures InFlight(d.(files := files), j, tx, 0, 0, 0)
  {
  }

  // ------------------------------------------------------------------
  // Adapter calls

  /** A request to a runtime, or the question whether the desired generation is still the newest one. */
  datatype Call =
    | Current | Stage(core: CoreId) | Validate(core: CoreId) | Snapshot(core: CoreId)
    | Install(core: CoreId) | Activate(core: CoreId) | Health(core: CoreId) | Verify(core: CoreId) | Observe(core: CoreId)
    | Restore(core: CoreId)

  predicate HasIndividualUsers(plan: CorePlan) {
    exists f :: f in plan.fragments && f.expectedUserIds.Some?
  }

  function Checks(plan: CorePlan): seq<Call> {
    var c := plan.coreId;
    (if plan.fragments != [] then [Health(c)] else []) + [Verify(c)]
    + (if HasIndividualUsers(plan) then [Observe(c)] else [])
  }

  function CoreCalls(plan: CorePlan): seq<Call> {
    [Install(plan.coreId), Activate(plan.coreId)] + Checks(plan)
  }

  function Mutations(plans: seq<CorePlan>, n: nat): seq<Call>
    requires n <= |plans|
  {
    if n == 0 then [] else Mutations(plans, n - 1) + CoreCalls(plans[n - 1])
  }

  function Stages(plans: seq<CorePlan>, n: nat): seq<Call>
    requires n <= |plans|
  {
    seq(n, i requires 0 <= i < n => Stage(plans[i].coreId))
  }

  function Validates(plans: seq<CorePlan>, n: nat): seq<Call>
    requires n <= |plans|
  {
    seq(n, i requires 0 <= i < n => Validate(plans[i].coreId))
  }

  function Snapshots(plans: seq<CorePlan>, n: nat): seq<Call>
    requires n <= |plans|
  {
    seq(n, i requires 0 <= i < n => Snapshot(plans[i].coreId))
  }

  lemma NoCalls(plans: seq<CorePlan>)
    ensures Stages(plans, 0) == [] && Validates(plans, 0) == [] && Snapshots(plans, 0) == []
  {
  }

  lemma CallsGrow(plans: seq<CorePlan>, i: nat)
    requires i < |plans|
    ensures Stages(plans, i) + [Stage(plans[i].coreId)] == Stages(plans, i + 1) <= Stages(plans, |plans|)
    ensures Validates(plans, i) + [Validate(plans[i].coreId)] == Validates(plans, i + 1) <= Validates(plans, |plans|)
    ensures Snapshots(plans, i) + [Snapshot(plans[i].coreId)] == Snapshots(plans, i + 1) <= Snapshots(plans, |plans|)
  {
  }

  /** The whole forward path. */
  function Script(plans: seq<CorePlan>): seq<Call> {
    Preparation(plans) + Mutations(plans, |plans|) + [Current]
  }

  function Installed(calls: seq<Call>): seq<CoreId> {
    if calls == [] then []
    else Installed(calls[..|calls| - 1]) + if calls[|calls| - 1].Install? then [calls[|calls| - 1].core] else []
  }

  function CoreIds(plans: seq<CorePlan>, n: nat): (r: seq<CoreId>)
    requires n <= |plans|
    ensures |r| == n
  {
    seq(n, i requires 0 <= i < n => plans[i].coreId)
  }

  /** Restores of the installed cores, newest first. */
  function Restores(cores: seq<CoreId>): (r: seq<Call>)
    ensures |r| == |cores|
  {
    seq(|cores|, i requires 0 <= i < |cores| => Restore(cores[|cores| - 1 - i]))
  }

  /** A prefix of the forward path, then some of the restores of what it installed, newest first. */
  ghost predicate LegalCalls(t: seq<Call>, plans: seq<CorePlan>) {
    exists f, m: nat :: m <= |Installed(f)| && f <= Script(plans) && t == f + Restores(Installed(f))[..m]
  }

  /** The forward calls of a failed transaction and the restores of all it installed. */
  ghost predicate FullRollback(t: seq<Call>, plans: seq<CorePlan>) {
    exists f :: f <= Script(plans) && t == f + Restores(Installed(f))
  }

  lemma LegalForward(f: seq<Call>, plans: seq<CorePlan>)
    requires f <= Script(plans)
    ensures LegalCalls(f, plans)
  {
    assert f == f + Restores(Installed(f))[..0];
  }

  lemma LegalRollback(f: seq<Call>, plans: seq<CorePlan>, m: nat)
    requires f <= Script(plans) && m <= |Installed(f)|
    ensures LegalCalls(f + Restores(Installed(f))[..m], plans)
    ensures m == |Installed(f)| ==> FullRollback(f + Restores(Installed(f))[..m], plans)
  {
    if m == |Installed(f)| {
      assert Restores(Installed(f))[..m] == Restores(Installed(f));
    }
  }

  /** The read-only part of the script comes first: until it is complete, nothing is installed. */
  lemma PreparationCalls(plans: seq<CorePlan>, a: seq<Call>, b: seq<Call>, c: seq<Call>)
    requires a <= Stages(plans, |plans|) && b <= Validates(plans, |plans|) && c <= Snapshots(plans, |plans|)
    requires b != [] ==> a == Stages(plans, |plans|)
    requires c != [] ==> a == Stages(plans, |plans|) && b == Validates(plans, |plans|)
    ensures LegalCalls(a + b + c, plans) && Installed(a + b + c) == []
    ensures a == Stages(plans, |plans|) && b == Validates(plans, |plans|) && c == Snapshots(plans, |plans|) ==>
              a + b + c + [Current] == Preparation(plans)
  {
    NothingInstalled(a + b + c);
    assert a + b + c <= Script(plans);
    LegalForward(a + b + c, plans);
  }

  lemma PreparationIsLegal(plans: seq<CorePlan>)
    ensures LegalCalls(Preparation(plans), plans) && Installed(Preparation(plans)) == []
  {
    PreparationInstallsNothing(plans);
    LegalForward(Preparation(plans), plans);
  }

  lemma {:induction false} MutationsPrefix(plans: seq<CorePlan>, i: nat, n: nat)
    requires i <= n <= |plans|
    ensures Mutations(plans, i) <= Mutations(plans, n)
  {
    if i < n {
      MutationsPrefix(plans, i, n - 1);
    }
  }

  lemma {:induction false} InstalledSplit(a: seq<Call>, b: seq<Call>)
    ensures Installed(a + b) == Installed(a) + Installed(b)
  {
    if b == [] {
      assert a + b == a;
    } else {
      assert (a + b)[..|a + b| - 1] == a + b[..|b| - 1];
      InstalledSplit(a, b[..|b| - 1]);
    }
  }

  lemma {:induction false} NothingInstalled(calls: seq<Call>)
    requires forall i :: 0 <= i < |calls| ==> !calls[i].Install?
    ensures Installed(calls) == []
  {
    if calls != [] {
      NothingInstalled(calls[..|calls| - 1]);
    }
  }

  /** A core's own calls install it first and nothing else. */
  lemma InstalledPart(plan: CorePlan, part: seq<Call>)
    requires part <= CoreCalls(plan)
    ensures Installed(part) == if part == [] then [] else [plan.coreId]
  {
    hide Installed;
    if part == [] {
      NothingInstalled(part);
    } else {
      assert part == [Install(plan.coreId)] + part[1..];
      forall i | 0 <= i < |part[1..]| ensures !part[1..][i].Install? {
        assert part[1..][i] == CoreCalls(plan)[i + 1];
      }
      NothingInstalled(part[1..]);
      InstalledSplit([Install(plan.coreId)], part[1..]);
      InstalledOne(plan.coreId);
    }
  }

  lemma InstalledOne(id: CoreId)
    ensures Installed([Install(id)]) == [id]
  {
    assert [Install(id)][..0] == [] && [] + [id] == [id];
  }

  lemma {:induction false} InstalledMutations(plans: seq<CorePlan>, n: nat)
    requires n <= |plans|
    ensures Installed(Mutations(plans, n)) == CoreIds(plans, n)
  {
    hide Installed, CoreCalls;
    if n == 0 {
      NothingInstalled([]);
    } else {
      InstalledMutations(plans, n - 1);
      InstalledSplit(Mutations(plans, n - 1), CoreCalls(plans[n - 1]));
      CallsInstall(plans[n - 1]);
      assert CoreIds(plans, n) == CoreIds(plans, n - 1) + [plans[n - 1].coreId];
    }
  }

  lemma CallsInstall(plan: CorePlan)
    ensures Installed(CoreCalls(plan)) == [plan.coreId]
  {
    hide Installed, Checks;
    InstalledPart(plan, CoreCalls(plan));
  }

  lemma RestoresInstallNothing(cores: seq<CoreId>, m: nat)
    requires m <= |cores|
    ensures Installed(Restores(cores)[..m]) == []
  {
    NothingInstalled(Restores(cores)[..m]);
  }

  /** A rollback adds no installation. */
  lemma RollbackInstalled(f: seq<Call>, plans: seq<CorePlan>, started: nat, m: nat)
    requires m <= started <= |plans| && Installed(f) == CoreIds(plans, started)
    ensures |Installed(f + Restores(CoreIds(plans, started))[..m])| == started
  {
    hide Installed, Restores;
    InstalledSplit(f, Restores(CoreIds(plans, started))[..m]);
    RestoresInstallNothing(CoreIds(plans, started), m);
  }

  function Preparation(plans: seq<CorePlan>): seq<Call> {
    Stages(plans, |plans|) + Validates(plans, |plans|) + Snapshots(plans, |plans|) + [Current]
  }

  lemma ScriptParts(plans: seq<CorePlan>)
    ensures Script(plans) == Preparation(plans) + Mutations(plans, |plans|) + [Current]
    ensures Preparation(plans) + Mutations(plans, |plans|) <= Script(plans)
  {
  }

  /** In the middle of core `n` the calls so far are a prefix of the script. */
  lemma ForwardPrefix(plans: seq<CorePlan>, n: nat, part: seq<Call>)
    requires n < |plans| && part <= CoreCalls(plans[n])
    ensures Preparation(plans) + Mutations(plans, n) + part <= Script(plans)
  {
    var a, b, c := Preparation(plans), Mutations(plans, n), CoreCalls(plans[n]);
    MutationsPrefix(plans, n + 1, |plans|);
    var rest := Mutations(plans, |plans|);
    assert b + c <= rest;
    PrefixOfConcat(a, b, part, c, rest);
  }

  lemma PrefixOfConcat<T>(a: seq<T>, b: seq<T>, part: seq<T>, c: seq<T>, rest: seq<T>)
    requires part <= c && b + c <= rest
    ensures a + b + part <= a + rest
  {
    assert a + b + part == a + (b + part);
    forall i | 0 <= i < |b + part| ensures (b + part)[i] == rest[i] {
      assert (b + c)[i] == rest[i];
    }
  }

  /** ... and they installed exactly the cores before `n` and, once begun, core `n`. */
  lemma ForwardInstalled(plans: seq<CorePlan>, n: nat, part: seq<Call>)
    requires n < |plans| && part <= CoreCalls(plans[n])
    ensures Installed(Preparation(plans) + Mutations(plans, n) + part) == CoreIds(plans, if part == [] then n else n + 1)
  {
    hide Installed, Mutations, CoreCalls, Preparation, Stages, Validates, Snapshots;
    var a, b := Preparation(plans), Mutations(plans, n);
    PreparationInstallsNothing(plans);
    InstalledMutations(plans, n);
    InstalledSplit(a, b);
    InstalledSplit(a + b, part);
    InstalledPart(plans[n], part);
    assert [] + CoreIds(plans, n) == CoreIds(plans, n);
    assert part != [] ==> CoreIds(plans, n) + [plans[n].coreId] == CoreIds(plans, n + 1);
  }

  lemma PreparationInstallsNothing(plans: seq<CorePlan>)
    ensures Installed(Preparation(plans)) == []
  {
    NothingInstalled(Preparation(plans));
  }

  lemma ScriptInstalled(plans: seq<CorePlan>)
    ensures Installed(Script(plans)) == CoreIds(plans, |plans|)
  {
    hide Installed, Mutations, Preparation;
    PreparationInstallsNothing(plans);
    ScriptParts(plans);
    InstalledMutations(plans, |plans|);
    InstalledSplit(Preparation(plans), Mutations(plans, |plans|));
    InstalledSplit(Preparation(plans) + Mutations(plans, |plans|), [Current]);
    NothingInstalled([Current]);
  }

  /** The journal lists the mutated cores in exactly the order the script installed them. */
  lemma MutatedAreStarted(tx: Tx, n: nat, started: nat, verified: nat)
    requires tx.Valid() && started <= n <= |tx.plans|
    ensures var rs := MutatedNewestFirst(tx.Resources(n, started, verified));
            |rs| == started && forall i :: 0 <= i < started ==> rs[i].coreId == tx.plans[started - 1 - i].coreId
  {
    NewestFirstFrom(tx, n, started, verified, 0);
    var all := tx.Resources(n, started, verified);
    assert all[0..] == all;
  }

  lemma ResourceAt(tx: Tx, n: nat, started: nat, verified: nat, k: nat)
    requires tx.Valid() && k < n <= |tx.plans|
    ensures var r := tx.Resources(n, started, verified)[k];
            r.coreId == tx.plans[k].coreId && (r.mutationStarted <==> k < started)
  {
  }

  lemma NewestFirstStep(resources: seq<JournalResource>, k: nat)
    requires k < |resources|
    ensures MutatedNewestFirst(resources[k..]) ==
              MutatedNewestFirst(resources[k + 1..]) + (if resources[k].mutationStarted then [resources[k]] else [])
  {
    assert resources[k..][1..] == resources[k + 1..] && resources[k..][0] == resources[k];
  }

  lemma {:induction false} NewestFirstFrom(tx: Tx, n: nat, started: nat, verified: nat, k: nat)
    requires tx.Valid() && started <= n <= |tx.plans| && k <= n
    ensures var rs := MutatedNewestFirst(tx.Resources(n, started, verified)[k..]);
            |rs| == (if k <= started then started - k else 0)
            && forall i :: 0 <= i < |rs| ==> rs[i].coreId == tx.plans[started - 1 - i].coreId
    decreases n - k
  {
    var all := tx.Resources(n, started, verified);
    if k == n {
      assert all[k..] == [];
    } else {
      hide MutatedNewestFirst, Tx.Valid, Tx.Resources;
      NewestFirstFrom(tx, n, started, verified, k + 1);
      NewestFirstStep(all, k);
      ResourceAt(tx, n, started, verified, k);
    }
  }

  /** The first resource of core `id`, with its mutation marker set. */
  function MarkStarted(resources: seq<JournalResource>, id: CoreId): seq<JournalResource> {
    if resources == [] then []
    else if resources[0].coreId == id then [resources[0].(mutationStarted := true)] + resources[1..]
    else [resources[0]] + MarkStarted(resources[1..], id)
  }

  function MarkVerified(resources: seq<JournalResource>, id: CoreId): seq<JournalResource> {
    if resources == [] then []
    else if resources[0].coreId == id then [resources[0].(verified := true)] + resources[1..]
    else [resources[0]] + MarkVerified(resources[1..], id)
  }

  lemma {:induction false} MarksAt(resources: seq<JournalResource>, i: nat)
    requires i < |resources| && DistinctCores(resources)
    ensures MarkStarted(resources, resources[i].coreId) == resources[i := resources[i].(mutationStarted := true)]
    ensures MarkVerified(resources, resources[i].coreId) == resources[i := resources[i].(verified := true)]
  {
    if i > 0 {
      MarksAt(resources[1..], i - 1);
      assert resources == [resources[0]] + resources[1..];
    }
  }

  lemma StartAdvances(tx: Tx, started: nat, verified: nat)
    requires tx.Valid() && started < |tx.plans|
    ensures MarkStarted(tx.Resources(|tx.plans|, started, verified), tx.plans[started].coreId)
              == tx.Resources(|tx.plans|, started + 1, verified)
  {
    MarksAt(tx.Resources(|tx.plans|, started, verified), started);
  }

  lemma VerifyAdvances(tx: Tx, started: nat, verified: nat)
    requires tx.Valid() && verified < |tx.plans|
    ensures MarkVerified(tx.Resources(|tx.plans|, started, verified), tx.plans[verified].coreId)
              == tx.Resources(|tx.plans|, started, verified + 1)
  {
    MarksAt(tx.Resources(|tx.plans|, started, verified), verified);
  }
}
