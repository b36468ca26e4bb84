/** The user tables of the panel database and the transactions over them. */
module Storage {
  import opened Prelude
  import opened Text
  import opened Access
  import opened Lifecycle

  predicate ValidUserName(name: string) {
    3 <= |name| <= 64 && AsciiAlphanumeric(name[0])
    && forall i :: 0 <= i < |name| ==> AsciiAlphanumeric(name[i]) || name[i] in "._-"
  }

  predicate ValidUserFields(name: string, limit: Option<int>) {
    ValidUserName(name) && (limit.Some? ==> limit.value > 0)
  }

  /** Stamps strictly increase even when the clock does not. */
  function NextUserUpdatedAt(current: Instant, now: Instant): (r: Instant)
    ensures r > current && r >= now
  {
    if now > current then now else current + 1
  }

  datatype LifecycleEvaluation = LifecycleEvaluation(evaluatedUsers: nat, accessTransitions: nat, pending: Option<nat>)

  /** The newest generation still in the outbox. */
  ghost predicate NewestPending(lifecycle: map<int, Checkpoint>, r: Option<nat>) {
    NewestAmong(lifecycle, lifecycle.Keys, r)
  }

  ghost predicate NewestAmong(lifecycle: map<int, Checkpoint>, ids: set<int>, r: Option<nat>)
    requires ids <= lifecycle.Keys
  {
    && (r.Some? ==> exists id :: id in ids && lifecycle[id].pending == r)
    && forall id :: id in ids && lifecycle[id].pending.Some? ==> r.Some? && lifecycle[id].pending.value <= r.value
  }

  method Pick<T>(s: set<T>) returns (x: T)
    requires s != {}
    ensures x in s
  {
    x :| x in s;
  }

  class Storage {
    var users: map<int, User>
    var lifecycle: map<int, Checkpoint>
    var generation: nat
    var nextId: int

    ghost function Db(): Db
      reads this
    {
      Lifecycle.Db(users, lifecycle, generation, nextId)
    }

    ghost predicate Valid()
      reads this
    {
      WellFormed(Db()) && 0 < nextId
    }

    constructor ()
      ensures Valid() && Db() == Lifecycle.Db(map[], map[], 0, 1)
    {
      users, lifecycle, generation, nextId := map[], map[], 0, 1;
    }

    method BumpDesiredGeneration() returns (g: nat)
      modifies this`generation
      ensures g == generation == old(generation) + 1
    {
      generation := generation + 1;
      g := generation;
    }

    /** Writes the checkpoint; without a new outbox entry it keeps the old one. */
    method UpsertCheckpoint(user: User, state: AccessState, observedAt: Instant, pending: Option<nat>)
      modifies this`lifecycle
      ensures lifecycle == old(lifecycle)[user.id := Checkpoint(
                state.Allowed(), state.disabled, state.expired, state.quotaExceeded, user.updatedAt, observedAt,
                if pending.Some? then pending else PendingOf(old(Db()), user.id))]
    {
      var kept := if user.id in lifecycle then lifecycle[user.id].pending else None;
      lifecycle := lifecycle[user.id := Checkpoint(
        state.Allowed(), state.disabled, state.expired, state.quotaExceeded, user.updatedAt, observedAt,
        if pending.Some? then pending else kept)];
    }

    predicate NameTaken(name: string, except: Option<int>)
      reads this
    {
      exists id :: id in users && Some(id) != except && users[id].username == name
    }

    predicate TokenTaken(uuid: string, token: string)
      reads this
    {
      exists id :: id in users && (users[id].uuid == uuid || users[id].token == token)
    }

    method CreateUser(username: string, limit: Option<int>, expiresAt: Option<Instant>, uuid: string, token: string, now: Instant)
      returns (r: Result<User>)
      requires Valid()
      modifies this
      ensures Valid()
      ensures r.Ok? <==> ValidUserFields(Trim(username), limit) && !old(NameTaken(Trim(username), None)) && !old(TokenTaken(uuid, token))
      ensures r.Ok? ==> r.value == User(old(nextId), Trim(username), uuid, token, true, limit, 0, expiresAt, now, now)
                        && Legal(old(Db()), Mutation(r.value.id, Some(r.value), true))
                        && Db() == Mutated(old(Db()), r.value.id, Some(r.value), now, true)
      ensures r.Err? ==> Db() == old(Db())
    {
      var name := Trim(username);
      if !ValidUserFields(name, limit) || NameTaken(name, None) || TokenTaken(uuid, token) {
        return Err;
      }
      var user := User(nextId, name, uuid, token, true, limit, 0, expiresAt, now, now);
      users := users[nextId := user];
      nextId := nextId + 1;
      var g := BumpDesiredGeneration();
      UpsertCheckpoint(user, user.AccessAt(now), now, Some(g));
      r := Ok(user);
    }

    /** Writes an edited row, a new generation if asked for, and the checkpoint. */
    method CommitEdit(updated: User, now: Instant, bump: bool)
      requires Valid() && updated.id in users
      requires bump <==> IdentityAt(Some(users[updated.id]), now) != IdentityAt(Some(updated), now)
      modifies this
      ensures Valid() && Db() == Mutated(old(Db()), updated.id, Some(updated), now, false)
    {
      users := users[updated.id := updated];
      var pending := None;
      if bump {
        var g := BumpDesiredGeneration();
        pending := Some(g);
      }
      UpsertCheckpoint(updated, updated.AccessAt(now), now, pending);
    }

    /** Edits a user if the form's stamp is still current. */
    method UpdateUser(id: int, username: string, limit: Option<int>, expiresAt: Option<Instant>, expectedUpdatedAt: Instant, now: Instant)
      returns (r: Result<User>)
      requires Valid()
      modifies this
      ensures Valid()
      ensures r.Err? <==> !ValidUserFields(Trim(username), limit) || id !in old(users)
                          || old(users)[id].updatedAt != expectedUpdatedAt || old(NameTaken(Trim(username), Some(id)))
                          || old(users)[id].(username := Trim(username), limit := limit, expiresAt := expiresAt) == old(users)[id]
      ensures r.Err? ==> Db() == old(Db())
      ensures r.Ok? ==> r.value == old(users)[id].(username := Trim(username), limit := limit, expiresAt := expiresAt,
                                                  updatedAt := NextUserUpdatedAt(expectedUpdatedAt, now))
                        && Legal(old(Db()), Mutation(id, Some(r.value), false))
                        && Db() == Mutated(old(Db()), id, Some(r.value), now, false)
    {
      hide Mutated, Trim, ValidUserName;
      var name := Trim(username);
      if !ValidUserFields(name, limit) || id !in users {
        return Err;
      }
      var current := users[id];
      if current.updatedAt != expectedUpdatedAt {
        return Err;
      }
      var usernameChanged := current.username != name;
      var expiryChanged := current.expiresAt != expiresAt;
      var quotaChanged := current.limit != limit;
      if !usernameChanged && !expiryChanged && !quotaChanged {
        return Err;
      }
      if NameTaken(name, Some(id)) {
        return Err;
      }
      var updated := current.(username := name, limit := limit, expiresAt := expiresAt,
                              updatedAt := NextUserUpdatedAt(current.updatedAt, now));
      var previousAccess, currentAccess := current.AccessAt(now), updated.AccessAt(now);
      var accessChanged := previousAccess.Allowed() != currentAccess.Allowed();
      var runtimeLabelChanged := usernameChanged && (previousAccess.Allowed() || currentAccess.Allowed());
      CommitEdit(updated, now, runtimeLabelChanged || accessChanged);
      r := Ok(updated);
    }

    /** Replaces the runtime identity; this always asks for a new generation. */
    method RotateRuntimeIdentity(id: int, expectedUpdatedAt: Instant, replacement: string, now: Instant) returns (r: Result<User>)
      requires Valid()
      modifies this
      ensures Valid()
      ensures r.Ok? <==> id in old(users) && old(users)[id].updatedAt == expectedUpdatedAt
                         && forall k :: k in old(users) && k != id ==> old(users)[k].uuid != replacement
      ensures r.Ok? ==> r.value == old(users)[id].(uuid := replacement, updatedAt := NextUserUpdatedAt(expectedUpdatedAt, now))
                        && Legal(old(Db()), Mutation(id, Some(r.value), true))
                        && Db() == Mutated(old(Db()), id, Some(r.value), now, true)
      ensures r.Err? ==> Db() == old(Db())
    {
      if id !in users || users[id].updatedAt != expectedUpdatedAt || exists k :: k in users && k != id && users[k].uuid == replacement {
        return Err;
      }
      var updated := users[id].(uuid := replacement, updatedAt := NextUserUpdatedAt(users[id].updatedAt, now));
      users := users[id := updated];
      var g := BumpDesiredGeneration();
      UpsertCheckpoint(updated, updated.AccessAt(now), now, Some(g));
      r := Ok(updated);
    }

    method SetUserEnabled(id: int, enabled: bool, now: Instant) returns (r: Result<User>)
      requires Valid()
      modifies this
      ensures Valid()
      ensures r.Ok? <==> id in old(users) && old(users)[id].enabled != enabled
      ensures r.Ok? ==> r.value == old(users)[id].(enabled := enabled, updatedAt := NextUserUpdatedAt(old(users)[id].updatedAt, now))
                        && Legal(old(Db()), Mutation(id, Some(r.value), false))
                        && Db() == Mutated(old(Db()), id, Some(r.value), now, false)
      ensures r.Err? ==> Db() == old(Db())
    {
      if id !in users || users[id].enabled == enabled {
        return Err;
      }
      var current := users[id];
      var updated := current.(enabled := enabled, updatedAt := NextUserUpdatedAt(current.updatedAt, now));
      CommitEdit(updated, now, current.AccessAt(now).Allowed() != updated.AccessAt(now).Allowed());
      r := Ok(updated);
    }

    /** Replaces the subscription token; runtime authorisation does not depend on it. */
    method ResetSubscriptionToken(id: int, token: string, now: Instant) returns (r: Result<string>)
      requires Valid()
      modifies this
      ensures Valid()
      ensures r.Ok? <==> id in old(users) && forall k :: k in old(users) && k != id ==> old(users)[k].token != token
      ensures r.Ok? ==> r.value == token
                        && var after := old(users)[id].(token := token, updatedAt := NextUserUpdatedAt(old(users)[id].updatedAt, now));
                        && Legal(old(Db()), Mutation(id, Some(after), false))
                        && Db() == Mutated(old(Db()), id, Some(after), now, false) && generation == old(generation)
      ensures r.Err? ==> Db() == old(Db())
    {
      if id !in users || exists k :: k in users && k != id && users[k].token == token {
        return Err;
      }
      var updated := users[id].(token := token, updatedAt := NextUserUpdatedAt(users[id].updatedAt, now));
      users := users[id := updated];
      UpsertCheckpoint(updated, updated.AccessAt(now), now, None);
      r := Ok(token);
    }

    /** Deletes the row; its checkpoint goes with it. */
    method DeleteUser(id: int, now: Instant) returns (r: Result<User>)
      requires Valid()
      modifies this
      ensures Valid()
      ensures r.Ok? <==> id in old(users)
      ensures r.Ok? ==> r.value == old(users)[id] && Db() == Mutated(old(Db()), id, None, now, false)
      ensures r.Err? ==> Db() == old(Db())
    {
      if id !in users {
        return Err;
      }
      var current := users[id];
      users := users - {id};
      lifecycle := lifecycle - {id};
      if current.AccessAt(now).Allowed() {
        var _ := BumpDesiredGeneration();
      }
      r := Ok(current);
    }

    /** The allowed users at one instant, in ID order. */
    method LoadDesiredUsers(now: Instant) returns (r: seq<User>)
      requires Valid()
      ensures forall u :: u in r <==> u in DesiredUsers(Db(), now)
      ensures forall u :: u in r <==> u.id in users && users[u.id] == u && MayUse(u, now)
      ensures forall i, k :: 0 <= i < k < |r| ==> r[i].id < r[k].id
    {
      r := [];
      for id := 0 to nextId
        invariant forall u :: u in r <==> u.id < id && u in DesiredUsers(Db(), now)
        invariant forall i, k :: 0 <= i < k < |r| ==> r[i].id < r[k].id
      {
        if id in users && users[id].AccessAt(now).Allowed() {
          r := r + [users[id]];
        }
      }
    }

    method MaxPending() returns (r: Option<nat>)
      ensures NewestPending(lifecycle, r)
    {
      r := None;
      var todo := lifecycle.Keys;
      while todo != {}
        invariant todo <= lifecycle.Keys
        invariant NewestAmong(lifecycle, lifecycle.Keys - todo, r)
        decreases todo
      {
        var id := Pick(todo);
        todo := todo - {id};
        var p := lifecycle[id].pending;
        if p.Some? && (r.None? || p.value > r.value) {
          r := p;
        }
      }
    }

    /** Counts the visited rows whose authorisation differs from their checkpoint. */
    method FindTransitions(candidates: set<int>, now: Instant) returns (transitions: set<int>)
      requires candidates <= users.Keys
      ensures transitions == set id | id in candidates && Transition(Db(), id, now)
    {
      transitions := {};
      var todo := candidates;
      while todo != {}
        invariant todo <= candidates
        invariant transitions == set id | id in candidates - todo && Transition(Db(), id, now)
        decreases todo
      {
        var id := Pick(todo);
        todo := todo - {id};
        var current := users[id].AccessAt(now);
        var previousAllowed := if id in lifecycle then Some(lifecycle[id].allowed) else None;
        var accessTransition := if previousAllowed.Some? then previousAllowed.value != current.Allowed() else !current.Allowed();
        if accessTransition {
          transitions := transitions + {id};
        }
      }
    }

    /** One evaluation of missing, stale or deadline-due checkpoints. */
    method EvaluateLifecycle(now: Instant, repair: bool) returns (r: LifecycleEvaluation)
      requires Valid()
      modifies this
      ensures Valid() && Db() == Evaluated(old(Db()), repair, now)
      ensures r.evaluatedUsers == |Candidates(old(Db()), repair, now)|
      ensures r.evaluatedUsers == |set id | id in old(users) && Due(old(users)[id], CheckpointFor(old(Db()), id), repair, now)|
      ensures forall id :: id in users ==> RowEvaluated(old(Db()), repair, now, id, CheckpointFor(Db(), id))
      ensures r.accessTransitions == |Transitions(old(Db()), repair, now)|
      ensures NewestPending(lifecycle, r.pending)
    {
      hide NewestAmong, Candidate, Transition, WellFormed, EvaluatedPending, Evaluated;
      ghost var before := Db();
      EvaluationMeans(before, repair, now);
      assert Candidates(before, repair, now) == set id | id in before.users && Due(before.users[id], CheckpointFor(before, id), repair, now);
      hide RowEvaluated, Due, SomebodyChanges;
      var candidates := Candidates(Lifecycle.Db(users, lifecycle, generation, nextId), repair, now);
      var existing := MaxPending();
      var transitions := FindTransitions(candidates, now);
      assert transitions == Transitions(before, repair, now);
      hide Transitions, Candidates;
      var newGeneration := RaisePending(transitions, now, repair, before);
      UpsertAll(candidates, transitions, newGeneration, now, repair, before);
      EvaluatedParts(before, Db(), repair, now);
      r := LifecycleEvaluation(|candidates|, |transitions|, if newGeneration.Some? then newGeneration else existing);
      PendingBounded(before, repair, now);
      NewestAfterEvaluation(before, repair, now, existing, r.pending);
    }

    /** Transitions bump the generation once and carry every outbox entry along. */
    method RaisePending(transitions: set<int>, ghost now: Instant, ghost repair: bool, ghost before: Db) returns (newGeneration: Option<nat>)
      requires Db() == before && transitions == Transitions(before, repair, now)
      modifies this
      ensures users == before.users && nextId == before.nextId && generation == EvaluatedGeneration(before, repair, now)
      ensures newGeneration == if transitions != {} then Some(generation) else None
      ensures lifecycle.Keys == before.lifecycle.Keys
      ensures forall id :: id in lifecycle ==> lifecycle[id] == before.lifecycle[id].(pending := Raised(before, id, repair, now))
    {
      hide Transitions, WellFormed;
      newGeneration := None;
      if transitions != {} {
        var g := BumpDesiredGeneration();
        lifecycle := map id | id in lifecycle ::
          lifecycle[id].(pending := if lifecycle[id].pending.Some? then Some(g) else None);
        newGeneration := Some(g);
      }
    }

    /** Rewrites the checkpoints of the visited rows. */
    method UpsertAll(candidates: set<int>, transitions: set<int>, newGeneration: Option<nat>, now: Instant, repair: bool, ghost before: Db)
      requires WellFormed(before)
      requires candidates == Candidates(before, repair, now) && transitions == Transitions(before, repair, now)
      requires users == before.users && generation == EvaluatedGeneration(before, repair, now)
      requires newGeneration == if transitions != {} then Some(generation) else None
      requires lifecycle.Keys == before.lifecycle.Keys
      requires forall id :: id in lifecycle ==>
                 lifecycle[id] == before.lifecycle[id].(pending := Raised(before, id, repair, now))
      modifies this`lifecycle
      ensures lifecycle == Evaluated(before, repair, now).lifecycle
    {
      hide Transitions, Candidate, EvaluatedGeneration, User.AccessAt, AccessState.Allowed;
      var todo := candidates;
      while todo != {}
        invariant todo <= candidates
        invariant lifecycle.Keys == before.lifecycle.Keys + (candidates - todo)
        invariant forall id :: id in before.lifecycle && id !in candidates - todo ==>
                    lifecycle[id] == before.lifecycle[id].(pending := Raised(before, id, repair, now))
        invariant forall id :: id in candidates - todo ==>
                    lifecycle[id] == CheckpointOf(before.users[id], now, EvaluatedPending(before, id, repair, now))
        decreases todo
      {
        var id := Pick(todo);
        UpsertCheckpoint(users[id], users[id].AccessAt(now), now, if id in transitions then newGeneration else None);
        todo := todo - {id};
      }
      UpsertsDone(before, repair, now, lifecycle);
    }

    /** Clears the outbox entries that a published generation covers. */
    method MarkPublished(g: nat)
      requires Valid()
      modifies this`lifecycle
      ensures Valid() && Db() == Acknowledged(old(Db()), g)
    {
      lifecycle := map id | id in lifecycle ::
        lifecycle[id].(pending := if lifecycle[id].pending.Some? && lifecycle[id].pending.value <= g
                                  then None else lifecycle[id].pending);
    }
  }

  lemma EvaluatedParts(before: Db, after: Db, repair: bool, now: Instant)
    requires after.users == before.users && after.nextId == before.nextId
    requires after.generation == EvaluatedGeneration(before, repair, now)
    requires after.lifecycle == Evaluated(before, repair, now).lifecycle
    ensures after == Evaluated(before, repair, now)
  {
  }

  lemma UpsertsDone(db: Db, repair: bool, now: Instant, lifecycle: map<int, Checkpoint>)
    requires lifecycle.Keys == db.lifecycle.Keys + Candidates(db, repair, now)
    requires forall id :: id in db.lifecycle && id !in Candidates(db, repair, now) ==>
               lifecycle[id] == db.lifecycle[id].(pending := Raised(db, id, repair, now))
    requires forall id :: id in Candidates(db, repair, now) ==>
               lifecycle[id] == CheckpointOf(db.users[id], now, EvaluatedPending(db, id, repair, now))
    ensures lifecycle == Evaluated(db, repair, now).lifecycle
  {
  }

  /** The evaluator's answer is the newest outbox entry after the evaluation. */
  lemma NewestAfterEvaluation(db: Db, repair: bool, now: Instant, existing: Option<nat>, r: Option<nat>)
    requires WellFormed(db) && NewestPending(db.lifecycle, existing)
    requires r == if Transitions(db, repair, now) != {} then Some(EvaluatedGeneration(db, repair, now)) else existing
    ensures NewestPending(Evaluated(db, repair, now).lifecycle, r)
  {
    var after := Evaluated(db, repair, now).lifecycle;
    if Transitions(db, repair, now) != {} {
      var id :| id in Transitions(db, repair, now);
      assert after[id].pending == r;
    } else if existing.Some? {
      var id :| id in db.lifecycle && db.lifecycle[id].pending == existing;
      assert after[id].pending == existing;
    }
    forall id | id in after && r.None? ensures after[id].pending.None? {
      assert after[id].pending == PendingOf(db, id);
    }
  }
}
