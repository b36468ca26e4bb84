/** What the calls of a transaction mean, read off the calls themselves. */
module Calls {
  import opened Prelude
  import opened Desired
  import opened Transaction

  /** `call` occurs in `t` strictly between positions `a` and `b`. */
  ghost predicate Between(t: seq<Call>, a: int, b: int, call: Call) {
    exists i :: 0 <= i < |t| && a < i < b && t[i] == call
  }

  /** The core was installed, then activated, and then asked for everything its plan demands. */
  ghost predicate Checked(t: seq<Call>, plan: CorePlan) {
    exists a, b ::
      && 0 <= a < b < |t| && t[a] == Install(plan.coreId) && t[b] == Activate(plan.coreId)
      && (plan.fragments != [] ==> Between(t, b, |t|, Health(plan.coreId)))
      && Between(t, b, |t|, Verify(plan.coreId))
      && ((exists f :: f in plan.fragments && f.expectedUserIds.Some?) ==> Between(t, b, |t|, Observe(plan.coreId)))
  }

  /** The core was staged, then validated, then snapshotted, and then the generation was confirmed, all before `n`. */
  ghost predicate ReadyBefore(t: seq<Call>, n: int, plan: CorePlan) {
    exists a, b, c, d ::
      && 0 <= a < b < c < d < n && n <= |t|
      && t[a] == Stage(plan.coreId) && t[b] == Validate(plan.coreId) && t[c] == Snapshot(plan.coreId) && t[d] == Current
  }

  /** Every core the journal calls verified was checked. */
  ghost predicate MarkersHold(journal: Option<Journal>, plans: seq<CorePlan>, t: seq<Call>) {
    journal.Some?
    && forall r :: r in journal.value.resources && r.verified ==> exists p :: p in plans && p.coreId == r.coreId && Checked(t, p)
  }

  ghost predicate Unverified(journal: Option<Journal>) {
    journal.Some? && forall r :: r in journal.value.resources ==> !r.verified
  }

  /** Only the first `n` planned cores may be called verified. */
  ghost predicate VerifiedBelow(journal: Option<Journal>, plans: seq<CorePlan>, n: int) {
    journal.Some?
    && forall r :: r in journal.value.resources && r.verified ==> exists k :: 0 <= k < n && k < |plans| && plans[k].coreId == r.coreId
  }

  lemma NothingVerified(journal: Option<Journal>, plans: seq<CorePlan>, t: seq<Call>)
    requires Unverified(journal)
    ensures MarkersHold(journal, plans, t) && VerifiedBelow(journal, plans, 0)
  {
  }

  lemma InFlightVerified(d: Durable, j: Journal, tx: Tx, n: nat, started: nat, verified: nat)
    requires tx.Valid() && n <= |tx.plans| && started <= |tx.plans| && verified <= |tx.plans|
    requires InFlight(d, j, tx, n, started, verified)
    ensures VerifiedBelow(Some(j), tx.plans, verified) && d.journal == Some(j)
    ensures verified == 0 ==> Unverified(Some(j))
  {
    forall r | r in j.resources && r.verified ensures exists k :: 0 <= k < verified && tx.plans[k].coreId == r.coreId {
      var k :| 0 <= k < |j.resources| && j.resources[k] == r;
      assert tx.plans[k].coreId == r.coreId;
    }
  }

  lemma VerifiedMore(journal: Option<Journal>, plans: seq<CorePlan>, n: int, m: int)
    requires VerifiedBelow(journal, plans, n) && n <= m
    ensures VerifiedBelow(journal, plans, m)
  {
  }

  lemma ChecksCover(journal: Option<Journal>, plans: seq<CorePlan>, n: int, t: seq<Call>)
    requires VerifiedBelow(journal, plans, n) && forall k :: 0 <= k < n && k < |plans| ==> Checked(t, plans[k])
    ensures MarkersHold(journal, plans, t)
  {
    hide Checked;
    forall r | r in journal.value.resources && r.verified ensures exists p :: p in plans && p.coreId == r.coreId && Checked(t, p) {
      var k :| 0 <= k < n && k < |plans| && plans[k].coreId == r.coreId;
      assert plans[k] in plans;
    }
  }

  lemma BetweenShifted(a: seq<Call>, t: seq<Call>, b: seq<Call>, i: nat, call: Call)
    requires Between(t, i, |t|, call)
    ensures Between(a + t + b, |a| + i, |a + t + b|, call)
  {
    var k :| 0 <= k < |t| && i < k < |t| && t[k] == call;
    assert (a + t + b)[|a| + k] == call;
  }

  lemma CheckedExtends(a: seq<Call>, t: seq<Call>, b: seq<Call>, plan: CorePlan)
    requires Checked(t, plan)
    ensures Checked(a + t + b, plan)
  {
    hide Between;
    var i, k :| && 0 <= i < k < |t| && t[i] == Install(plan.coreId) && t[k] == Activate(plan.coreId)
                && (plan.fragments != [] ==> Between(t, k, |t|, Health(plan.coreId)))
                && Between(t, k, |t|, Verify(plan.coreId))
                && ((exists f :: f in plan.fragments && f.expectedUserIds.Some?) ==> Between(t, k, |t|, Observe(plan.coreId)));
    var u := a + t + b;
    assert u[|a| + i] == t[i] && u[|a| + k] == t[k];
    BetweenShifted(a, t, b, k, Verify(plan.coreId));
    if plan.fragments != [] {
      BetweenShifted(a, t, b, k, Health(plan.coreId));
    }
    if exists f :: f in plan.fragments && f.expectedUserIds.Some? {
      BetweenShifted(a, t, b, k, Observe(plan.coreId));
    }
  }

  lemma MarkersKept(journal: Option<Journal>, plans: seq<CorePlan>, a: seq<Call>, t: seq<Call>, b: seq<Call>)
    requires MarkersHold(journal, plans, t)
    ensures MarkersHold(journal, plans, a + t + b)
  {
    hide Checked;
    forall r | r in journal.value.resources && r.verified
      ensures exists p :: p in plans && p.coreId == r.coreId && Checked(a + t + b, p)
    {
      var p :| p in plans && p.coreId == r.coreId && Checked(t, p);
      CheckedExtends(a, t, b, p);
    }
  }

  /** The calls of one core check it. */
  lemma CoreCallsCheck(plan: CorePlan)
    ensures Checked(CoreCalls(plan), plan)
  {
    var t := CoreCalls(plan);
    var h := if plan.fragments != [] then 1 else 0;
    assert t[0] == Install(plan.coreId) && t[1] == Activate(plan.coreId) && t[2 + h] == Verify(plan.coreId);
    assert plan.fragments != [] ==> t[2] == Health(plan.coreId);
    assert Between(t, 1, |t|, Verify(plan.coreId));
    if f :| f in plan.fragments && f.expectedUserIds.Some? {
      assert HasIndividualUsers(plan);
      assert t[3 + h] == Observe(plan.coreId);
    }
  }

  lemma {:induction false} MutationsCheck(plans: seq<CorePlan>, n: nat, i: nat)
    requires i < n <= |plans|
    ensures Checked(Mutations(plans, n), plans[i])
  {
    hide Checked, CoreCalls;
    var before, last := Mutations(plans, n - 1), CoreCalls(plans[n - 1]);
    if i < n - 1 {
      MutationsCheck(plans, n - 1, i);
      CheckedExtends([], before, last, plans[i]);
      assert [] + before + last == Mutations(plans, n);
    } else {
      CoreCallsCheck(plans[i]);
      CheckedExtends(before, last, [], plans[i]);
      assert before + last + [] == Mutations(plans, n);
    }
  }

  lemma ChecksSoFar(journal: Option<Journal>, plans: seq<CorePlan>, n: nat, part: seq<Call>)
    requires n < |plans| && VerifiedBelow(journal, plans, if part == CoreCalls(plans[n]) then n + 1 else n)
    ensures MarkersHold(journal, plans, Mutations(plans, n) + part)
  {
    hide Checked, CoreCalls, MarkersHold, VerifiedBelow, Mutations;
    var t := Mutations(plans, n) + part;
    var m := if part == CoreCalls(plans[n]) then n + 1 else n;
    forall k | 0 <= k < m ensures Checked(t, plans[k]) {
      CheckedSoFar(plans, n, part, k);
    }
    ChecksCover(journal, plans, m, t);
  }

  lemma CheckedSoFar(plans: seq<CorePlan>, n: nat, part: seq<Call>, k: nat)
    requires n < |plans| && k <= n && (k == n ==> part == CoreCalls(plans[n]))
    ensures Checked(Mutations(plans, n) + part, plans[k])
  {
    hide Checked, CoreCalls, Mutations;
    if k < n {
      MutationsCheck(plans, n, k);
      CheckedExtends([], Mutations(plans, n), part, plans[k]);
      assert [] + Mutations(plans, n) + part == Mutations(plans, n) + part;
    } else {
      CoreCallsCheck(plans[n]);
      CheckedExtends(Mutations(plans, n), part, [], plans[n]);
      assert Mutations(plans, n) + part + [] == Mutations(plans, n) + part;
    }
  }

  lemma AllChecks(journal: Option<Journal>, plans: seq<CorePlan>)
    requires VerifiedBelow(journal, plans, |plans|)
    ensures MarkersHold(journal, plans, Mutations(plans, |plans|))
  {
    hide Checked, MarkersHold, VerifiedBelow;
    forall k | 0 <= k < |plans| ensures Checked(Mutations(plans, |plans|), plans[k]) {
      MutationsCheck(plans, |plans|, k);
    }
    ChecksCover(journal, plans, |plans|, Mutations(plans, |plans|));
  }

  /** Markers that did not change are still justified by more calls. */
  lemma SameMarkers(journal: Option<Journal>, later: Option<Journal>, plans: seq<CorePlan>, a: seq<Call>, t: seq<Call>, b: seq<Call>)
    requires MarkersHold(journal, plans, t) && later.Some? && later.value.resources == journal.value.resources
    ensures MarkersHold(later, plans, a + t + b)
  {
    hide Checked;
    MarkersKept(journal, plans, a, t, b);
  }

  lemma JournalOf(d: Durable, j: Journal, tx: Tx, n: nat, started: nat, verified: nat)
    requires tx.Valid() && n <= |tx.plans| && started <= |tx.plans| && verified <= |tx.plans|
    requires InFlight(d, j, tx, n, started, verified)
    ensures d.journal == Some(j)
  {
  }

  // ------------------------------------------------------------------
  // Laws of every end

  lemma ScriptAt(plans: seq<CorePlan>, i: nat)
    requires i < |plans|
    ensures var t := Preparation(plans);
            t[i] == Stage(plans[i].coreId) && t[|plans| + i] == Validate(plans[i].coreId)
            && t[2 * |plans| + i] == Snapshot(plans[i].coreId) && |t| == 3 * |plans| + 1 && t[3 * |plans|] == Current
  {
  }

  /** A call of the mutation loop is no restore, and installations are the first calls of their cores. */
  lemma {:induction false} MutationAt(plans: seq<CorePlan>, n: nat, x: nat)
    requires n <= |plans| && x < |Mutations(plans, n)|
    ensures !Mutations(plans, n)[x].Restore?
    ensures Mutations(plans, n)[x].Install? ==>
              exists k :: 0 <= k < n && x == |Mutations(plans, k)| && Mutations(plans, n)[x] == Install(plans[k].coreId)
  {
    var before := Mutations(plans, n - 1);
    if x < |before| {
      MutationAt(plans, n - 1, x);
    } else {
      assert Mutations(plans, n)[x] == CoreCalls(plans[n - 1])[x - |before|];
    }
  }

  lemma ScriptCall(plans: seq<CorePlan>, x: nat)
    requires x < |Script(plans)|
    ensures Script(plans)[x].Install? ==>
              exists k :: 0 <= k < |plans| && x == |Preparation(plans)| + |Mutations(plans, k)| && Script(plans)[x] == Install(plans[k].coreId)
    ensures !Script(plans)[x].Restore?
  {
    hide Mutations, CoreCalls;
    var n := |Preparation(plans)|;
    if x < n {
      assert Script(plans)[x] == Preparation(plans)[x];
    } else if x < n + |Mutations(plans, |plans|)| {
      assert Script(plans)[x] == Mutations(plans, |plans|)[x - n];
      MutationAt(plans, |plans|, x - n);
    }
  }

  /** The forward calls before an installation are the whole preparation and the calls of the earlier cores. */
  lemma InstallPoint(t: seq<Call>, plans: seq<CorePlan>, x: nat) returns (n: nat)
    requires LegalCalls(t, plans) && x < |t| && t[x].Install?
    ensures n < |plans| && t[x] == Install(plans[n].coreId) && t[..x] == Preparation(plans) + Mutations(plans, n)
  {
    hide Installed, Mutations, Preparation;
    var f, m: nat :| m <= |Installed(f)| && f <= Script(plans) && t == f + Restores(Installed(f))[..m];
    assert x < |f|;
    assert t[x] == f[x] == Script(plans)[x];
    ScriptCall(plans, x);
    n :| 0 <= n < |plans| && x == |Preparation(plans)| + |Mutations(plans, n)| && Script(plans)[x] == Install(plans[n].coreId);
    MutationsPrefix(plans, n, |plans|);
    assert t[..x] == Script(plans)[..x] == Preparation(plans) + Mutations(plans, n);
  }

  /** Whatever a transaction came to: before any core was installed, every planned core had been staged, then validated, then
      snapshotted, and then the generation confirmed. */
  lemma InstalledOnlyWhenReady(t: seq<Call>, plans: seq<CorePlan>, x: nat, p: CorePlan)
    requires LegalCalls(t, plans) && x < |t| && t[x].Install? && p in plans
    ensures ReadyBefore(t, x, p)
  {
    hide Mutations, Preparation, LegalCalls;
    var n := InstallPoint(t, plans, x);
    var i :| 0 <= i < |plans| && plans[i] == p;
    ScriptAt(plans, i);
    forall y | 0 <= y < |Preparation(plans)| ensures t[y] == Preparation(plans)[y] {
      assert t[y] == t[..x][y];
    }
    assert |t[..x]| == x;
  }

  /** Before the next core was installed, all earlier ones were checked. */
  lemma InstalledOnlyWhenCheckedSoFar(t: seq<Call>, plans: seq<CorePlan>, x: nat, k: nat, i: nat)
    requires LegalCalls(t, plans) && x < |t| && i < k < |plans| && t[x] == Install(plans[k].coreId)
    requires forall a, b :: 0 <= a < b < |plans| ==> plans[a].coreId != plans[b].coreId
    ensures Checked(t[..x], plans[i])
  {
    hide Checked, Mutations, Preparation, LegalCalls;
    var n := InstallPoint(t, plans, x);
    assert n == k;
    MutationsCheck(plans, k, i);
    CheckedExtends(Preparation(plans), Mutations(plans, k), [], plans[i]);
    assert Preparation(plans) + Mutations(plans, k) + [] == t[..x];
  }

  /** Restores undo installations, newest first. */
  lemma RestoresMirrorInstalls(t: seq<Call>, plans: seq<CorePlan>, x: nat, y: nat)
    requires LegalCalls(t, plans) && x < y < |t| && t[x].Restore? && t[y].Restore?
    ensures exists a, b :: 0 <= a < b < x && t[a] == Install(t[y].core) && t[b] == Install(t[x].core)
  {
    hide Installed, Script;
    var f, m: nat :| m <= |Installed(f)| && f <= Script(plans) && t == f + Restores(Installed(f))[..m];
    NoRestoreForward(f, plans, x, t);
    var cores := Installed(f);
    var p, q := |cores| - 1 - (x - |f|), |cores| - 1 - (y - |f|);
    assert t[x] == Restore(cores[p]) && t[y] == Restore(cores[q]);
    InstalledOrder(f, q, p);
    var a, b :| 0 <= a < b < |f| && f[a] == Install(cores[q]) && f[b] == Install(cores[p]);
    assert t[a] == f[a] && t[b] == f[b];
  }

  /** After a complete rollback every installed core was restored. */
  lemma FullRollbackRestores(t: seq<Call>, plans: seq<CorePlan>, a: nat)
    requires FullRollback(t, plans) && a < |t| && t[a].Install?
    ensures Between(t, a, |t|, Restore(t[a].core))
  {
    hide Installed, Script;
    var f :| f <= Script(plans) && t == f + Restores(Installed(f));
    var cores := Installed(f);
    assert a < |f|;
    assert t[a] == f[a];
    InstalledMember(f, a);
    var k :| 0 <= k < |cores| && cores[k] == t[a].core;
    var x := |f| + (|cores| - 1 - k);
    assert t[x] == Restores(cores)[|cores| - 1 - k] == Restore(cores[k]);
  }

  lemma NoRestoreForward(f: seq<Call>, plans: seq<CorePlan>, x: nat, t: seq<Call>)
    requires f <= Script(plans) && f <= t && x < |t| && t[x].Restore?
    ensures x >= |f|
  {
    hide Script;
    if x < |f| {
      assert t[x] == f[x] == Script(plans)[x];
      ScriptCall(plans, x);
    }
  }

  lemma {:induction false} InstalledMember(f: seq<Call>, a: nat)
    requires a < |f| && f[a].Install?
    ensures f[a].core in Installed(f)
  {
    var n := |f| - 1;
    if a < n {
      InstalledMember(f[..n], a);
    }
  }

  lemma {:induction false} InstalledAt(f: seq<Call>, k: nat)
    requires k < |Installed(f)|
    ensures exists a :: 0 <= a < |f| && f[a] == Install(Installed(f)[k])
  {
    var n := |f| - 1;
    var head := Installed(f[..n]);
    if k < |head| {
      InstalledAt(f[..n], k);
      var a :| 0 <= a < n && f[..n][a] == Install(head[k]);
      assert f[a] == f[..n][a];
    } else {
      assert f[n] == Install(Installed(f)[k]);
    }
  }

  lemma {:induction false} InstalledOrder(f: seq<Call>, q: nat, p: nat)
    requires q < p < |Installed(f)|
    ensures exists a, b :: 0 <= a < b < |f| && f[a] == Install(Installed(f)[q]) && f[b] == Install(Installed(f)[p])
  {
    var n := |f| - 1;
    var head := Installed(f[..n]);
    if p < |head| {
      InstalledOrder(f[..n], q, p);
      var a, b :| 0 <= a < b < n && f[..n][a] == Install(head[q]) && f[..n][b] == Install(head[p]);
      assert f[a] == f[..n][a] && f[b] == f[..n][b];
    } else {
      InstalledAt(f[..n], q);
      var a :| 0 <= a < n && f[..n][a] == Install(head[q]);
      assert f[a] == f[..n][a] && f[n] == Install(Installed(f)[p]);
    }
  }

  /** A transaction that applied checked every planned core, and confirmed the generation after the last check. */
  lemma AppliedIsChecked(plans: seq<CorePlan>, p: CorePlan)
    requires p in plans
    ensures exists n :: 0 <= n < |Script(plans)| && Script(plans)[n] == Current && Checked(Script(plans)[..n], p)
  {
    hide Checked, Mutations, Preparation;
    var i :| 0 <= i < |plans| && plans[i] == p;
    var before := Preparation(plans) + Mutations(plans, |plans|);
    MutationsCheck(plans, |plans|, i);
    CheckedExtends(Preparation(plans), Mutations(plans, |plans|), [], p);
    assert before == Preparation(plans) + Mutations(plans, |plans|) + [];
    assert Script(plans)[..|before|] == before && Script(plans)[|before|] == Current;
  }
}
