/** Users, their lifecycle checkpoints, the desired generation and the durable outbox, as values. */
module Lifecycle {
  import opened Prelude
  import opened Access

  /** Instants are nanoseconds. */
  type Instant = int

  datatype User = User(
    id: int, username: string, uuid: string, token: string, enabled: bool,
    limit: Option<int>, used: int, expiresAt: Option<Instant>, createdAt: Instant, updatedAt: Instant)
  {
    function AccessAt(now: Instant): AccessState {
      Evaluate(enabled, expiresAt, limit, used, now)
    }
  }

  /** One row of the checkpoint table; `pending` is its outbox entry. */
  datatype Checkpoint = Checkpoint(
    allowed: bool, disabled: bool, expired: bool, quotaExceeded: bool,
    sourceUpdatedAt: Instant, observedAt: Instant, pending: Option<nat>)

  datatype Db = Db(users: map<int, User>, lifecycle: map<int, Checkpoint>, generation: nat, nextId: int)

  function CheckpointOf(user: User, now: Instant, pending: Option<nat>): Checkpoint {
    var state := user.AccessAt(now);
    Checkpoint(state.Allowed(), state.disabled, state.expired, state.quotaExceeded, user.updatedAt, now, pending)
  }

  function PendingOf(db: Db, id: int): Option<nat> {
    if id in db.lifecycle then db.lifecycle[id].pending else None
  }

  /** A missing checkpoint counts as allowed. */
  predicate CheckpointAllows(db: Db, id: int) {
    id in db.lifecycle ==> db.lifecycle[id].allowed
  }

  ghost predicate WellFormed(db: Db) {
    && (forall id :: id in db.users ==> db.users[id].id == id && 0 < id < db.nextId)
    && db.lifecycle.Keys <= db.users.Keys
    && (forall id :: id in db.lifecycle && db.lifecycle[id].pending.Some? ==> db.lifecycle[id].pending.value <= db.generation)
  }

  /** The checkpoint describes this very row, as of the instant it was taken. */
  predicate Fits(user: User, c: Checkpoint) {
    c == CheckpointOf(user, c.observedAt, c.pending)
  }

  /** Every user has a checkpoint that fits its row. */
  ghost predicate Indexed(db: Db) {
    forall id :: id in db.users ==> id in db.lifecycle && Fits(db.users[id], db.lifecycle[id])
  }

  /** Checkpoints may be missing or stale, but one that claims to be current fits. */
  ghost predicate Repairable(db: Db) {
    forall id :: id in db.users && id in db.lifecycle && db.lifecycle[id].sourceUpdatedAt == db.users[id].updatedAt ==>
                   Fits(db.users[id], db.lifecycle[id])
  }

  // ------------------------------------------------------------------
  // Mutations

  /** What a runtime would authorise for this user. */
  type Identity = (int, string, string)

  function IdentityAt(user: Option<User>, now: Instant): Option<Identity> {
    if user.Some? && user.value.AccessAt(now).Allowed()
    then Some((user.value.id, user.value.username, user.value.uuid)) else None
  }

  function Row(db: Db, id: int): Option<User> {
    if id in db.users then Some(db.users[id]) else None
  }

  /** One committed user mutation: the row becomes `after` (or goes), the generation advances exactly
      when the user's authorisation changes or the operation forces it, and the checkpoint follows. */
  function Mutated(db: Db, id: int, after: Option<User>, now: Instant, forced: bool): Db {
    var bump := forced || IdentityAt(Row(db, id), now) != IdentityAt(after, now);
    var generation := if bump then db.generation + 1 else db.generation;
    match after
    case None => Db(db.users - {id}, db.lifecycle - {id}, generation, db.nextId)
    case Some(user) =>
      var pending := if bump then Some(generation) else PendingOf(db, id);
      Db(db.users[id := user], db.lifecycle[id := CheckpointOf(user, now, pending)], generation,
         if id == db.nextId then id + 1 else db.nextId)
  }

  /** A runtime would authorise the user differently, or only before or only after. */
  predicate AuthorisationDiffers(before: Option<User>, after: Option<User>, now: Instant) {
    var was := before.Some? && MayUse(before.value, now);
    var remains := after.Some? && MayUse(after.value, now);
    was != remains || (was && (before.value.id != after.value.id || before.value.username != after.value.username || before.value.uuid != after.value.uuid))
  }

  /** What one committed mutation does: nothing to other rows; to its own the new row and a checkpoint taken from it; and a new
      generation, in its outbox, exactly if the authorisation differs or the operation asks for one. */
  lemma MutationMeans(db: Db, id: int, after: Option<User>, now: Instant, forced: bool)
    requires after.Some? ==> after.value.id == id
    ensures var e := Mutated(db, id, after, now, forced);
            var bump := forced || AuthorisationDiffers(Row(db, id), after, now);
            && e.generation == (if bump then db.generation + 1 else db.generation)
            && Row(e, id) == after
            && (forall k :: k != id ==> Row(e, k) == Row(db, k) && (k in e.lifecycle <==> k in db.lifecycle)
                                        && (k in e.lifecycle ==> e.lifecycle[k] == db.lifecycle[k]))
            && (after == None ==> id !in e.lifecycle)
            && (after.Some? ==> id in e.lifecycle && var c, user := e.lifecycle[id], after.value;
                  && c.allowed == MayUse(user, now) && c.disabled == !user.enabled
                  && c.expired == (user.expiresAt.Some? && user.expiresAt.value <= now)
                  && c.quotaExceeded == (user.limit.Some? && user.used >= user.limit.value)
                  && c.sourceUpdatedAt == user.updatedAt && c.observedAt == now
                  && c.pending == (if bump then Some(db.generation + 1) else if id in db.lifecycle then db.lifecycle[id].pending else None))
  {
  }

  /** Acknowledging takes exactly the covered entries out of the outbox. */
  lemma AcknowledgementMeans(db: Db, generation: nat)
    ensures var e := Acknowledged(db, generation);
            && e.users == db.users && e.generation == db.generation && e.nextId == db.nextId && e.lifecycle.Keys == db.lifecycle.Keys
            && forall id :: id in db.lifecycle ==>
                 e.lifecycle[id] == db.lifecycle[id].(pending :=
                   if db.lifecycle[id].pending.Some? && db.lifecycle[id].pending.value > generation then db.lifecycle[id].pending else None)
  {
  }

  // ------------------------------------------------------------------
  // Evaluation

  /** The deadline of the row lies on the other side of the recorded expiry flag. */
  predicate DeadlineCrossed(user: User, c: Checkpoint, now: Instant) {
    user.expiresAt.Some? && (user.expiresAt.value <= now) != c.expired
  }

  /** The rows one evaluation visits. */
  predicate Candidate(db: Db, id: int, repair: bool, now: Instant)
    requires id in db.users
  {
    if id in db.lifecycle then
      (repair && db.lifecycle[id].sourceUpdatedAt != db.users[id].updatedAt)
      || DeadlineCrossed(db.users[id], db.lifecycle[id], now)
    else repair
  }

  function Candidates(db: Db, repair: bool, now: Instant): set<int> {
    set id | id in db.users && Candidate(db, id, repair, now)
  }

  /** The visited row changes authorisation against its checkpoint. */
  predicate Transition(db: Db, id: int, now: Instant)
    requires id in db.users
  {
    CheckpointAllows(db, id) != db.users[id].AccessAt(now).Allowed()
  }

  function Transitions(db: Db, repair: bool, now: Instant): set<int> {
    set id | id in Candidates(db, repair, now) && Transition(db, id, now)
  }

  function EvaluatedGeneration(db: Db, repair: bool, now: Instant): nat {
    if Transitions(db, repair, now) != {} then db.generation + 1 else db.generation
  }

  /** Transitions and everything already pending move to a new generation. */
  function EvaluatedPending(db: Db, id: int, repair: bool, now: Instant): Option<nat> {
    if id in Transitions(db, repair, now) then Some(EvaluatedGeneration(db, repair, now)) else Raised(db, id, repair, now)
  }

  function Raised(db: Db, id: int, repair: bool, now: Instant): Option<nat> {
    if PendingOf(db, id).Some? && Transitions(db, repair, now) != {}
    then Some(EvaluatedGeneration(db, repair, now)) else PendingOf(db, id)
  }

  function Evaluated(db: Db, repair: bool, now: Instant): Db {
    db.(generation := EvaluatedGeneration(db, repair, now),
        lifecycle := map id | id in db.lifecycle.Keys + Candidates(db, repair, now) ::
          if id in Candidates(db, repair, now)
          then CheckpointOf(db.users[id], now, EvaluatedPending(db, id, repair, now))
          else db.lifecycle[id].(pending := EvaluatedPending(db, id, repair, now)))
  }

  /** Whether an evaluation has to visit a row: its deadline lies on the other side of the recorded flag; and in repair also if
      its checkpoint is missing or of another version of the row. */
  predicate Due(user: User, c: Option<Checkpoint>, repair: bool, now: Instant) {
    match c
    case None => repair
    case Some(c) =>
      || (repair && c.sourceUpdatedAt != user.updatedAt)
      || (user.expiresAt.Some? && user.expiresAt.value <= now && !c.expired)
      || (user.expiresAt.Some? && user.expiresAt.value > now && c.expired)
  }

  function CheckpointFor(db: Db, id: int): Option<Checkpoint> {
    if id in db.lifecycle then Some(db.lifecycle[id]) else None
  }

  predicate MayUse(user: User, now: Instant) {
    && user.enabled && (user.expiresAt == None || now < user.expiresAt.value)
    && (user.limit == None || user.used < user.limit.value)
  }

  /** The visited row and its checkpoint, a missing one counting as allowed, say different things about access. */
  predicate Changes(user: User, c: Option<Checkpoint>, now: Instant) {
    MayUse(user, now) != (c == None || c.value.allowed)
  }

  ghost predicate SomebodyChanges(db: Db, repair: bool, now: Instant) {
    exists id :: id in db.users && Due(db.users[id], CheckpointFor(db, id), repair, now) && Changes(db.users[id], CheckpointFor(db, id), now)
  }

  lemma EvaluationVisits(db: Db, repair: bool, now: Instant, id: int)
    requires id in db.users
    ensures id in Candidates(db, repair, now) <==> Due(db.users[id], CheckpointFor(db, id), repair, now)
    ensures id in Transitions(db, repair, now) <==>
              Due(db.users[id], CheckpointFor(db, id), repair, now) && Changes(db.users[id], CheckpointFor(db, id), now)
    ensures db.users[id].AccessAt(now).Allowed() == MayUse(db.users[id], now)
  {
  }

  lemma EvaluationChanges(db: Db, repair: bool, now: Instant)
    ensures Transitions(db, repair, now) != {} <==> SomebodyChanges(db, repair, now)
    ensures forall id :: id in Candidates(db, repair, now) <==> id in db.users && Due(db.users[id], CheckpointFor(db, id), repair, now)
    ensures forall id :: id in Transitions(db, repair, now) <==>
              && id in db.users && Due(db.users[id], CheckpointFor(db, id), repair, now) && Changes(db.users[id], CheckpointFor(db, id), now)
  {
    hide Due, Changes, CheckpointFor, Candidate, Transition;
    forall id | id in db.users
      ensures id in Candidates(db, repair, now) <==> Due(db.users[id], CheckpointFor(db, id), repair, now)
      ensures id in Transitions(db, repair, now) <==>
                Due(db.users[id], CheckpointFor(db, id), repair, now) && Changes(db.users[id], CheckpointFor(db, id), now)
    {
      EvaluationVisits(db, repair, now, id);
    }
    if Transitions(db, repair, now) != {} {
      var id :| id in Transitions(db, repair, now);
      assert SomebodyChanges(db, repair, now);
    }
  }

  lemma RowIsEvaluated(db: Db, repair: bool, now: Instant, id: int)
    requires WellFormed(db) && id in db.users
    ensures RowEvaluated(db, repair, now, id, CheckpointFor(Evaluated(db, repair, now), id))
  {
    hide Candidate, Transition, Candidates, Transitions, SomebodyChanges, Due, Changes, WellFormed;
    EvaluationVisits(db, repair, now, id);
    EvaluationChanges(db, repair, now);
  }

  /** What an evaluation does, row by row: it visits exactly the due rows and leaves the checkpoints of all others as they
      are; if a visited row changes access there is one new generation, which takes over the whole outbox. */
  lemma EvaluationMeans(db: Db, repair: bool, now: Instant)
    requires WellFormed(db)
    ensures var e := Evaluated(db, repair, now);
            && e.users == db.users && e.nextId == db.nextId
            && e.generation == (if SomebodyChanges(db, repair, now) then db.generation + 1 else db.generation)
            && (forall id :: id in Candidates(db, repair, now) <==> id in db.users && Due(db.users[id], CheckpointFor(db, id), repair, now))
            && (forall id :: id in Transitions(db, repair, now) <==>
                  && id in db.users && Due(db.users[id], CheckpointFor(db, id), repair, now)
                  && Changes(db.users[id], CheckpointFor(db, id), now))
            && forall id :: id in db.users ==> RowEvaluated(db, repair, now, id, CheckpointFor(e, id))
  {
    hide WellFormed, RowEvaluated, Due, Changes, CheckpointFor, SomebodyChanges, Candidates, Transitions;
    EvaluationChanges(db, repair, now);
    forall id | id in db.users ensures RowEvaluated(db, repair, now, id, CheckpointFor(Evaluated(db, repair, now), id)) {
      RowIsEvaluated(db, repair, now, id);
    }
  }

  ghost predicate RowEvaluated(db: Db, repair: bool, now: Instant, id: int, after: Option<Checkpoint>)
    requires id in db.users
  {
    var user, before := db.users[id], CheckpointFor(db, id);
    var had := before != None && before.value.pending != None;
    var pending := if SomebodyChanges(db, repair, now) && (had || (Due(user, before, repair, now) && Changes(user, before, now)))
                   then Some(db.generation + 1) else if before == None then None else before.value.pending;
    if Due(user, before, repair, now) then
      after == Some(Checkpoint(MayUse(user, now), !user.enabled, user.expiresAt.Some? && user.expiresAt.value <= now,
                               user.limit.Some? && user.used >= user.limit.value, user.updatedAt, now, pending))
    else if before == None then after == None
    else after == Some(before.value.(pending := pending))
  }

  function Acknowledged(db: Db, generation: nat): Db {
    db.(lifecycle := map id | id in db.lifecycle ::
          var p := db.lifecycle[id].pending;
          db.lifecycle[id].(pending := if p.Some? && p.value <= generation then None else p))
  }

  // ------------------------------------------------------------------
  // The index agrees with direct evaluation

  /** The users the worker would load at `now`, by direct evaluation of every row. */
  function DesiredUsers(db: Db, now: Instant): set<User> {
    set id | id in db.users && db.users[id].AccessAt(now).Allowed() :: db.users[id]
  }

  /** The users the checkpoint table allows. */
  function IndexedUsers(db: Db): set<User> {
    set id | id in db.users && CheckpointAllows(db, id) :: db.users[id]
  }

  /** One evaluation brings every checkpoint up to date although it visits only crossed deadlines
      (and, in repair, missing or stale rows). */
  lemma EvaluationBringsIndexUpToDate(db: Db, repair: bool, now: Instant)
    requires WellFormed(db) && (if repair then Repairable(db) else Indexed(db))
    ensures var e := Evaluated(db, repair, now);
            Indexed(e) && WellFormed(e)
            && (forall id :: id in e.users ==> e.lifecycle[id].allowed == e.users[id].AccessAt(now).Allowed())
            && DesiredUsers(e, now) == IndexedUsers(e)
  {
    var e := Evaluated(db, repair, now);
    forall id | id in e.users
      ensures id in e.lifecycle && Fits(e.users[id], e.lifecycle[id])
      ensures e.lifecycle[id].allowed == e.users[id].AccessAt(now).Allowed()
    {
      if id !in Candidates(db, repair, now) {
        assert Fits(db.users[id], db.lifecycle[id]);
      }
    }
    PendingBounded(db, repair, now);
  }

  lemma PendingBounded(db: Db, repair: bool, now: Instant)
    requires WellFormed(db)
    ensures WellFormed(Evaluated(db, repair, now))
  {
  }

  /** Every mutation keeps the index: the mutated row gets a fitting checkpoint. */
  lemma MutationKeepsIndex(db: Db, id: int, after: Option<User>, now: Instant, forced: bool)
    requires Indexed(db)
    ensures Indexed(Mutated(db, id, after, now, forced))
  {
  }

  lemma AcknowledgementKeepsIndex(db: Db, generation: nat)
    requires Indexed(db) && WellFormed(db)
    ensures Indexed(Acknowledged(db, generation)) && WellFormed(Acknowledged(db, generation))
  {
    forall id | id in db.users ensures Fits(db.users[id], Acknowledged(db, generation).lifecycle[id]) {
      assert Fits(db.users[id], db.lifecycle[id]);
    }
  }

  // ------------------------------------------------------------------
  // No silent authorisation change

  /** The authorisations the checkpoint table stands for. */
  function Authorised(db: Db): set<Identity> {
    set id | id in db.users && CheckpointAllows(db, id) :: (db.users[id].id, db.users[id].username, db.users[id].uuid)
  }

  datatype Event =
    | Mutation(id: int, after: Option<User>, forced: bool)
    | Evaluation(repair: bool)
    | Acknowledgement(generation: nat)

  /** What the operations guarantee about the row they write. */
  ghost predicate Legal(db: Db, e: Event) {
    e.Mutation? ==>
      && (e.after.Some? ==> e.after.value.id == e.id)
      && (e.id in db.users && e.after.Some? ==> e.after.value.updatedAt > db.users[e.id].updatedAt)
      && (e.id !in db.users ==> e.after.Some? && e.forced && e.id == db.nextId && 0 < e.id)
  }

  function Apply(db: Db, e: Event, now: Instant): Db {
    match e
    case Mutation(id, after, forced) => Mutated(db, id, after, now, forced)
    case Evaluation(repair) => Evaluated(db, repair, now)
    case Acknowledgement(generation) => Acknowledged(db, generation)
  }

  /** The mutated row's checkpoint agrees with its direct evaluation at `now`. */
  predicate Fresh(db: Db, e: Event, now: Instant) {
    e.Mutation? && e.id in db.users ==> CheckpointAllows(db, e.id) == db.users[e.id].AccessAt(now).Allowed()
  }

  lemma LegalKeepsWellFormed(db: Db, e: Event, now: Instant)
    requires WellFormed(db) && Legal(db, e) && 0 < db.nextId
    ensures WellFormed(Apply(db, e, now)) && 0 < Apply(db, e, now).nextId && Apply(db, e, now).generation >= db.generation
  {
  }

  /** A step that leaves the desired generation alone leaves the authorisations alone, if and only
      if the checkpoint of a mutated row was fresh. */
  lemma NoSilentChange(db: Db, e: Event, now: Instant)
    requires WellFormed(db) && Legal(db, e) && Apply(db, e, now).generation == db.generation
    ensures Authorised(Apply(db, e, now)) == Authorised(db) <==> Fresh(db, e, now)
  {
    var after := Apply(db, e, now);
    match e {
      case Mutation(id, row, forced) =>
        MutationAuthorised(db, id, row, now);
      case Evaluation(repair) =>
        forall id | id in db.users ensures CheckpointAllows(after, id) == CheckpointAllows(db, id) {
          if id in Candidates(db, repair, now) {
            assert id !in Transitions(db, repair, now);
          }
        }
        SameFlagsSameAuthorised(db, after);
      case Acknowledgement(generation) =>
        SameFlagsSameAuthorised(db, after);
    }
  }

  /** A user that expired at 10, last looked at at 5, renamed at 20: the authorisation goes without a generation. */
  lemma StaleCheckpointWitness(user: User, db: Db, e: Event)
    requires user == User(1, "anna", "u", "t", true, None, 0, Some(10), 0, 0)
    requires db == Db(map[1 := user], map[1 := CheckpointOf(user, 5, None)], 7, 2)
    requires e == Mutation(1, Some(user.(username := "anne", updatedAt := 20)), false)
    ensures WellFormed(db) && Indexed(db) && Legal(db, e) && !Fresh(db, e, 20)
    ensures Apply(db, e, 20).generation == db.generation && Authorised(Apply(db, e, 20)) != Authorised(db)
  {
    assert db.lifecycle[1].allowed && !user.AccessAt(20).Allowed();
    NoSilentChange(db, e, 20);
  }

  lemma SameFlagsSameAuthorised(db: Db, e: Db)
    requires e.users == db.users && forall id :: id in db.users ==> CheckpointAllows(e, id) == CheckpointAllows(db, id)
    ensures Authorised(e) == Authorised(db)
  {
  }

  lemma MutationAuthorised(db: Db, id: int, after: Option<User>, now: Instant)
    requires WellFormed(db) && id in db.users && (after.Some? ==> after.value.id == id)
    requires IdentityAt(Row(db, id), now) == IdentityAt(after, now)
    ensures Authorised(Mutated(db, id, after, now, false)) == Authorised(db)
            <==> CheckpointAllows(db, id) == db.users[id].AccessAt(now).Allowed()
  {
    var e := Mutated(db, id, after, now, false);
    var allowed := db.users[id].AccessAt(now).Allowed();
    var own := (id, db.users[id].username, db.users[id].uuid);
    forall x | x in Authorised(db) && x.0 != id ensures x in Authorised(e) {
      assert x.0 in e.users && CheckpointAllows(e, x.0);
    }
    forall x | x in Authorised(e) && x.0 != id ensures x in Authorised(db) {
      assert x.0 in db.users && CheckpointAllows(db, x.0);
    }
    assert own in Authorised(db) <==> CheckpointAllows(db, id);
    assert forall x :: x in Authorised(db) && x.0 == id ==> x == own;
    if allowed {
      assert after.Some? && own == (id, after.value.username, after.value.uuid);
      assert CheckpointAllows(e, id) && own in Authorised(e);
      assert forall x :: x in Authorised(e) && x.0 == id ==> x == own;
    } else {
      assert forall x :: x in Authorised(e) ==> x.0 != id;
    }
  }

  /** A run of user operations, evaluations and acknowledgements. */
  ghost predicate Run(dbs: seq<Db>, steps: seq<(Event, Instant)>) {
    && |dbs| == |steps| + 1 && WellFormed(dbs[0]) && 0 < dbs[0].nextId
    && forall i :: 0 <= i < |steps| ==>
         Legal(dbs[i], steps[i].0) && dbs[i + 1] == Apply(dbs[i], steps[i].0, steps[i].1)
  }

  lemma {:induction false} RunWellFormed(dbs: seq<Db>, steps: seq<(Event, Instant)>, k: nat)
    requires Run(dbs, steps) && k < |dbs|
    ensures WellFormed(dbs[k]) && 0 < dbs[k].nextId
    ensures k > 0 ==> dbs[k - 1].generation <= dbs[k].generation
  {
    if k > 0 {
      RunWellFormed(dbs, steps, k - 1);
      assert dbs[k - 1 + 1] == Apply(dbs[k - 1], steps[k - 1].0, steps[k - 1].1);
      LegalKeepsWellFormed(dbs[k - 1], steps[k - 1].0, steps[k - 1].1);
    }
  }

  lemma {:induction false} GenerationsGrow(dbs: seq<Db>, steps: seq<(Event, Instant)>, i: nat, k: nat)
    requires Run(dbs, steps) && i <= k < |dbs|
    ensures dbs[i].generation <= dbs[k].generation
  {
    if i < k {
      GenerationsGrow(dbs, steps, i, k - 1);
      RunWellFormed(dbs, steps, k);
    }
  }

  /** Over whole runs a generation stands for one set of authorisations. */
  lemma {:induction false} OneGenerationOneAuthorisation(dbs: seq<Db>, steps: seq<(Event, Instant)>, i: nat, k: nat)
    requires Run(dbs, steps) && i <= k < |dbs| && dbs[i].generation == dbs[k].generation
    requires forall n :: i <= n < k ==> Fresh(dbs[n], steps[n].0, steps[n].1)
    ensures Authorised(dbs[i]) == Authorised(dbs[k])
  {
    if i < k {
      GenerationsGrow(dbs, steps, i, k - 1);
      GenerationsGrow(dbs, steps, k - 1, k);
      OneGenerationOneAuthorisation(dbs, steps, i, k - 1);
      RunWellFormed(dbs, steps, k - 1);
      assert dbs[k - 1 + 1] == Apply(dbs[k - 1], steps[k - 1].0, steps[k - 1].1);
      NoSilentChange(dbs[k - 1], steps[k - 1].0, steps[k - 1].1);
    }
  }

  /** What the worker loads at `now`, as the runtimes see it. */
  function Loaded(db: Db, now: Instant): set<Identity> {
    set u | u in DesiredUsers(db, now) :: (u.id, u.username, u.uuid)
  }

  /** Right after an evaluation the loaded users are the authorised ones. */
  lemma LoadedAfterEvaluation(db: Db, repair: bool, now: Instant)
    requires WellFormed(db) && (if repair then Repairable(db) else Indexed(db))
    ensures Loaded(Evaluated(db, repair, now), now) == Authorised(Evaluated(db, repair, now))
  {
    EvaluationBringsIndexUpToDate(db, repair, now);
    LoadedIsAuthorised(Evaluated(db, repair, now), now);
  }

  lemma LoadedIsAuthorised(db: Db, now: Instant)
    requires forall id :: id in db.users ==> (CheckpointAllows(db, id) <==> db.users[id].AccessAt(now).Allowed())
    ensures Loaded(db, now) == Authorised(db)
  {
    forall x | x in Authorised(db) ensures x in Loaded(db, now) {
      var id :| id in db.users && CheckpointAllows(db, id) && x == (db.users[id].id, db.users[id].username, db.users[id].uuid);
      assert db.users[id] in DesiredUsers(db, now);
    }
  }

  lemma {:induction false} RunIndexed(dbs: seq<Db>, steps: seq<(Event, Instant)>, k: nat)
    requires Run(dbs, steps) && Indexed(dbs[0]) && k < |dbs|
    ensures Indexed(dbs[k])
  {
    hide Indexed, Evaluated, Mutated, Acknowledged;
    if k > 0 {
      RunIndexed(dbs, steps, k - 1);
      RunWellFormed(dbs, steps, k - 1);
      assert dbs[k - 1 + 1] == Apply(dbs[k - 1], steps[k - 1].0, steps[k - 1].1);
      match steps[k - 1].0 {
        case Mutation(id, after, forced) => MutationKeepsIndex(dbs[k - 1], id, after, steps[k - 1].1, forced);
        case Evaluation(repair) =>
          IndexedIsRepairable(dbs[k - 1]);
          EvaluationBringsIndexUpToDate(dbs[k - 1], repair, steps[k - 1].1);
        case Acknowledgement(generation) => AcknowledgementKeepsIndex(dbs[k - 1], generation);
      }
    }
  }

  lemma IndexedIsRepairable(db: Db)
    requires Indexed(db)
    ensures Repairable(db)
  {
  }

  /** Over whole runs a generation is one set of loaded users: after any two evaluations that leave the same generation, the
      worker loads the same identities. */
  lemma OneGenerationOneLoad(dbs: seq<Db>, steps: seq<(Event, Instant)>, i: nat, k: nat)
    requires Run(dbs, steps) && Indexed(dbs[0]) && i <= k < |steps|
    requires steps[i].0.Evaluation? && steps[k].0.Evaluation? && dbs[i + 1].generation == dbs[k + 1].generation
    requires forall n :: i < n <= k ==> Fresh(dbs[n], steps[n].0, steps[n].1)
    ensures Loaded(dbs[i + 1], steps[i].1) == Loaded(dbs[k + 1], steps[k].1)
  {
    hide Indexed, Loaded, Authorised, Evaluated, Fresh;
    EvaluationStepLoads(dbs, steps, i);
    EvaluationStepLoads(dbs, steps, k);
    OneGenerationOneAuthorisation(dbs, steps, i + 1, k + 1);
  }

  lemma EvaluationStepLoads(dbs: seq<Db>, steps: seq<(Event, Instant)>, i: nat)
    requires Run(dbs, steps) && Indexed(dbs[0]) && i < |steps| && steps[i].0.Evaluation?
    ensures Loaded(dbs[i + 1], steps[i].1) == Authorised(dbs[i + 1])
  {
    hide Indexed, Loaded, Authorised, Evaluated;
    RunIndexed(dbs, steps, i);
    RunWellFormed(dbs, steps, i);
    IndexedIsRepairable(dbs[i]);
    LoadedAfterEvaluation(dbs[i], steps[i].0.repair, steps[i].1);
  }

  /** Every edit that keeps a user strictly raises its stamp, and IDs are never reused: a stamp a
      form was loaded with is never seen again after an edit. */
  lemma {:induction false} StampsExpire(dbs: seq<Db>, steps: seq<(Event, Instant)>, i: nat, k: nat, id: int)
    requires Run(dbs, steps) && i < k < |dbs| && steps[i].0.Mutation? && steps[i].0.id == id && id in dbs[i].users
    ensures id !in dbs[k].users || dbs[k].users[id].updatedAt > dbs[i].users[id].updatedAt
    ensures id < dbs[k].nextId
  {
    RunWellFormed(dbs, steps, i);
    RunWellFormed(dbs, steps, k - 1);
    assert dbs[k - 1 + 1] == Apply(dbs[k - 1], steps[k - 1].0, steps[k - 1].1);
    if i < k - 1 {
      StampsExpire(dbs, steps, i, k - 1, id);
    }
  }
}
