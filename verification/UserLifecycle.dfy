/** The panel's convergence loop: evaluate, publish the newest pending generation, acknowledge it. */
module UserLifecycle {
  import opened Prelude
  import opened Lifecycle
  import opened Storage

  // ------------------------------------------------------------------
  // Runs of the panel

  /** A step of the database or a publication. */
  datatype PanelEvent = Store(event: Event, now: Instant) | Request(generation: nat)

  /** The database and the largest generation ever published. */
  datatype Panel = Panel(db: Db, requested: nat)

  ghost predicate PanelValid(p: Panel) {
    WellFormed(p.db) && 0 < p.db.nextId && p.requested <= p.db.generation
  }

  function PanelApply(p: Panel, e: PanelEvent): Panel {
    match e
    case Store(event, now) => p.(db := Apply(p.db, event, now))
    case Request(generation) => p.(requested := if p.requested >= generation then p.requested else generation)
  }

  /** Only generations that exist are published, and only published ones are acknowledged. */
  ghost predicate PanelLegal(p: Panel, e: PanelEvent) {
    match e
    case Store(event, _) => Legal(p.db, event) && (event.Acknowledgement? ==> event.generation <= p.requested)
    case Request(generation) => generation <= p.db.generation
  }

  ghost predicate PanelRun(states: seq<Panel>, events: seq<PanelEvent>) {
    && |states| == |events| + 1 && PanelValid(states[0])
    && forall i :: 0 <= i < |events| ==> PanelLegal(states[i], events[i]) && states[i + 1] == PanelApply(states[i], events[i])
  }

  lemma StepStaysValid(p: Panel, e: PanelEvent)
    requires PanelValid(p) && PanelLegal(p, e)
    ensures PanelValid(PanelApply(p, e)) && PanelApply(p, e).requested >= p.requested
  {
    hide WellFormed, Apply, Legal;
    if e.Store? {
      LegalKeepsWellFormed(p.db, e.event, e.now);
    }
  }

  lemma {:induction false} PanelStaysValid(states: seq<Panel>, events: seq<PanelEvent>, k: nat)
    requires PanelRun(states, events) && k < |states|
    ensures PanelValid(states[k])
  {
    hide PanelValid, PanelApply, PanelLegal;
    if k > 0 {
      PanelStaysValid(states, events, k - 1);
      assert states[k - 1 + 1] == PanelApply(states[k - 1], events[k - 1]);
      StepStaysValid(states[k - 1], events[k - 1]);
    }
  }

  // ------------------------------------------------------------------
  // At least once

  /** A generation of at least `pending` is published by one of the events from `i` up to `k`. */
  ghost predicate RequestedBetween(events: seq<PanelEvent>, i: int, k: int, pending: nat) {
    exists j :: 0 <= i <= j < k && j < |events| && events[j].Request? && events[j].generation >= pending
  }

  /** A new outbox entry is larger than everything published so far. */
  lemma NewEntryIsUnpublished(p: Panel, e: PanelEvent, id: int)
    requires PanelValid(p) && PanelLegal(p, e)
    requires PendingOf(PanelApply(p, e).db, id).Some? && PendingOf(PanelApply(p, e).db, id) != PendingOf(p.db, id)
    ensures PendingOf(PanelApply(p, e).db, id).value == p.db.generation + 1 > PanelApply(p, e).requested
    ensures id in PanelApply(p, e).db.users && 0 < id < PanelApply(p, e).db.nextId
  {
    StepStaysValid(p, e);
    if e.Store? && e.event.Evaluation? {
      PendingAfterEvaluation(p.db, e.event.repair, e.now, id);
    }
  }

  lemma PendingAfterEvaluation(db: Db, repair: bool, now: Instant, id: int)
    ensures PendingOf(Evaluated(db, repair, now), id) == PendingOf(db, id)
            || PendingOf(Evaluated(db, repair, now), id) == Some(db.generation + 1)
  {
    var after := Evaluated(db, repair, now);
    assert id in after.lifecycle ==> after.lifecycle[id].pending == EvaluatedPending(db, id, repair, now);
  }

  /** An entry disappears only by being raised, by an acknowledgement at least as large of a published
      generation, or with its user. */
  lemma EntryDisappearsOnlyBy(p: Panel, e: PanelEvent, id: int)
    requires PanelValid(p) && PanelLegal(p, e) && PendingOf(p.db, id).Some?
    requires PendingOf(PanelApply(p, e).db, id) != PendingOf(p.db, id)
    ensures || (PendingOf(PanelApply(p, e).db, id).Some? && PendingOf(PanelApply(p, e).db, id).value > PendingOf(p.db, id).value)
            || (e.Store? && e.event.Acknowledgement? && PendingOf(p.db, id).value <= e.event.generation <= p.requested)
            || (e.Store? && e.event == Mutation(id, None, e.event.forced) && id !in PanelApply(p, e).db.users)
  {
    if e.Store? && e.event.Evaluation? {
      var after := Evaluated(p.db, e.event.repair, e.now);
      assert after.lifecycle[id].pending == EvaluatedPending(p.db, id, e.event.repair, e.now);
    }
  }

  /** The outbox entry of user `id` is accounted for at `q`: raised, published or gone with the user. */
  ghost predicate Accounted(q: Panel, id: int, pending: nat) {
    || id !in q.db.users
    || (PendingOf(q.db, id).Some? && PendingOf(q.db, id).value >= pending)
    || q.requested >= pending
  }

  lemma StepAccounts(p: Panel, e: PanelEvent, id: int, pending: nat)
    requires PanelValid(p) && PanelLegal(p, e) && Accounted(p, id, pending) && 0 < id < p.db.nextId
    ensures Accounted(PanelApply(p, e), id, pending) && id < PanelApply(p, e).db.nextId
  {
    StepStaysValid(p, e);
    if PendingOf(p.db, id).Some? && PendingOf(PanelApply(p, e).db, id) != PendingOf(p.db, id) {
      EntryDisappearsOnlyBy(p, e, id);
    }
    GoneStaysGone(p, e, id);
  }

  /** IDs of deleted users are not used again. */
  lemma GoneStaysGone(p: Panel, e: PanelEvent, id: int)
    requires PanelLegal(p, e) && 0 < id < p.db.nextId
    ensures id !in p.db.users ==> id !in PanelApply(p, e).db.users
    ensures id < PanelApply(p, e).db.nextId
  {
  }

  lemma {:induction false} EntryStaysAccounted(states: seq<Panel>, events: seq<PanelEvent>, i: nat, k: nat, id: int, pending: nat)
    requires PanelRun(states, events) && i <= k < |states| && 0 < id < states[i].db.nextId && Accounted(states[i], id, pending)
    ensures Accounted(states[k], id, pending) && 0 < id < states[k].db.nextId
  {
    hide PanelApply, PanelLegal, PanelValid, Accounted;
    if i < k {
      EntryStaysAccounted(states, events, i, k - 1, id, pending);
      PanelStaysValid(states, events, k - 1);
      assert states[k - 1 + 1] == PanelApply(states[k - 1], events[k - 1]);
      StepAccounts(states[k - 1], events[k - 1], id, pending);
    }
  }

  /** What is published at `k` but was not at `i` was published in between. */
  lemma {:induction false} PublishedInBetween(states: seq<Panel>, events: seq<PanelEvent>, i: nat, k: nat, pending: nat)
    requires PanelRun(states, events) && i <= k < |states| && states[i].requested < pending <= states[k].requested
    ensures RequestedBetween(events, i, k, pending)
  {
    hide PanelLegal, PanelValid, Apply;
    if i < k {
      assert states[k - 1 + 1] == PanelApply(states[k - 1], events[k - 1]);
      if states[k - 1].requested >= pending {
        PublishedInBetween(states, events, i, k - 1, pending);
        var j :| i <= j < k - 1 && events[j].Request? && events[j].generation >= pending;
      } else {
        assert events[k - 1].Request? && events[k - 1].generation >= pending;
      }
    }
  }

  /** At least once: from the step that creates an outbox entry on, at every later point of every run it was
      raised, its user was deleted, or a generation at least as large was published after its creation. */
  lemma PendingIsNeverLost(states: seq<Panel>, events: seq<PanelEvent>, i: nat, k: nat, id: int)
    requires PanelRun(states, events) && i < k < |states|
    requires PendingOf(states[i + 1].db, id).Some? && PendingOf(states[i + 1].db, id) != PendingOf(states[i].db, id)
    ensures var pending := PendingOf(states[i + 1].db, id).value;
            || id !in states[k].db.users
            || (PendingOf(states[k].db, id).Some? && PendingOf(states[k].db, id).value >= pending)
            || RequestedBetween(events, i + 1, k, pending)
  {
    hide PanelApply, PanelLegal, PanelValid, RequestedBetween;
    var pending := PendingOf(states[i + 1].db, id).value;
    PanelStaysValid(states, events, i);
    assert PanelLegal(states[i], events[i]) && states[i + 1] == PanelApply(states[i], events[i]);
    NewEntryIsUnpublished(states[i], events[i], id);
    EntryStaysAccounted(states, events, i + 1, k, id, pending);
    if states[k].requested >= pending {
      PublishedInBetween(states, events, i + 1, k, pending);
    }
  }

  /** Acknowledging the newest pending generation empties the outbox. */
  lemma AcknowledgingNewestDrains(db: Db, generation: nat)
    requires NewestPending(db.lifecycle, Some(generation))
    ensures forall id :: id in db.lifecycle ==> Acknowledged(db, generation).lifecycle[id].pending.None?
  {
  }

  lemma NewestIsUnique(lifecycle: map<int, Checkpoint>, a: Option<nat>, b: Option<nat>)
    requires NewestPending(lifecycle, a) && NewestPending(lifecycle, b)
    ensures a == b
  {
    if a.Some? {
      var id :| id in lifecycle && lifecycle[id].pending == a;
    }
    if b.Some? {
      var id :| id in lifecycle && lifecycle[id].pending == b;
    }
  }

  /** The next round publishes the same generation again, unless it finds transitions and publishes a new one. */
  lemma NextRoundPublishes(db: Db, repair: bool, now: Instant, first: Option<nat>, second: Option<nat>)
    requires WellFormed(db) && NewestPending(db.lifecycle, first)
    requires NewestPending(Evaluated(db, repair, now).lifecycle, second)
    ensures second == if Transitions(db, repair, now) == {} then first else Some(db.generation + 1)
  {
    hide NewestPending, Transitions, WellFormed, Evaluated;
    var r := if Transitions(db, repair, now) != {} then Some(EvaluatedGeneration(db, repair, now)) else first;
    NewestAfterEvaluation(db, repair, now, first, r);
    NewestIsUnique(Evaluated(db, repair, now).lifecycle, r, second);
  }

  /** A round interrupted between publication and acknowledgement and repeated later, in whichever mode, publishes the same
      generation again if and only if nobody's access changed in the meantime. */
  lemma RepeatedRoundPublishesSame(db: Db, repair: bool, again: bool, now: Instant, later: Instant, first: Option<nat>, second: Option<nat>)
    requires WellFormed(db) && now <= later && (if repair then Repairable(db) else Indexed(db))
    requires NewestPending(Evaluated(db, repair, now).lifecycle, first)
    requires NewestPending(Evaluated(Evaluated(db, repair, now), again, later).lifecycle, second)
    ensures first == second <==> SameAccess(db.users, now, later)
    ensures SameAccess(db.users, now, later) ==>
              Evaluated(Evaluated(db, repair, now), again, later).generation == Evaluated(db, repair, now).generation
  {
    hide NewestPending, WellFormed, Repairable, Indexed, Evaluated, Transitions, SameAccess;
    EvaluationBringsIndexUpToDate(db, repair, now);
    var after := Evaluated(db, repair, now);
    EvaluatedAt(db, repair, now);
    LaterTransitions(after, again, now, later);
    NextRoundPublishes(after, again, later, first, second);
    if first.Some? {
      NewestExists(after, first.value);
    }
    EvaluatedWithoutTransitions(after, again, later);
  }

  /** Everybody is allowed at `later` exactly if at `now`. */
  ghost predicate SameAccess(users: map<int, User>, now: Instant, later: Instant) {
    forall id :: id in users ==> (users[id].AccessAt(later).Allowed() <==> users[id].AccessAt(now).Allowed())
  }

  /** Access changes with time only at deadlines. */
  lemma NoDeadlineSameAccess(db: Db, now: Instant, later: Instant)
    requires now <= later
    requires forall id :: id in db.users && db.users[id].expiresAt.Some? ==> !(now < db.users[id].expiresAt.value <= later)
    ensures SameAccess(db.users, now, later)
  {
  }

  /** Every checkpoint fits its row and says what holds at `now`. */
  ghost predicate UpToDate(db: Db, now: Instant) {
    forall id :: id in db.users ==>
      && id in db.lifecycle && Fits(db.users[id], db.lifecycle[id])
      && db.lifecycle[id].allowed == db.users[id].AccessAt(now).Allowed()
      && db.lifecycle[id].expired == db.users[id].AccessAt(now).expired
  }

  lemma EvaluatedAt(db: Db, repair: bool, now: Instant)
    requires WellFormed(db) && (if repair then Repairable(db) else Indexed(db))
    ensures UpToDate(Evaluated(db, repair, now), now) && Evaluated(db, repair, now).users == db.users
  {
    EvaluationBringsIndexUpToDate(db, repair, now);
    var e := Evaluated(db, repair, now);
    forall id | id in e.users ensures e.lifecycle[id].expired == e.users[id].AccessAt(now).expired {
      if id !in Candidates(db, repair, now) {
        assert Fits(db.users[id], db.lifecycle[id]);
      }
    }
  }

  lemma AccessChangeIsTransition(db: Db, repair: bool, now: Instant, later: Instant, id: int)
    requires UpToDate(db, now) && now <= later && id in db.users
    requires db.users[id].AccessAt(later).Allowed() != db.users[id].AccessAt(now).Allowed()
    ensures id in Transitions(db, repair, later)
  {
    assert DeadlineCrossed(db.users[id], db.lifecycle[id], later);
  }

  /** A later evaluation finds exactly the users whose access changed: their deadlines lie in between. */
  lemma LaterTransitions(db: Db, repair: bool, now: Instant, later: Instant)
    requires UpToDate(db, now) && now <= later
    ensures Transitions(db, repair, later) == {} <==> SameAccess(db.users, now, later)
  {
    if Transitions(db, repair, later) == {} {
      forall id | id in db.users ensures db.users[id].AccessAt(later).Allowed() <==> db.users[id].AccessAt(now).Allowed() {
        if db.users[id].AccessAt(later).Allowed() != db.users[id].AccessAt(now).Allowed() {
          AccessChangeIsTransition(db, repair, now, later, id);
        }
      }
    }
  }

  lemma EvaluatedWithoutTransitions(db: Db, repair: bool, now: Instant)
    ensures Transitions(db, repair, now) == {} ==> Evaluated(db, repair, now).generation == db.generation
  {
  }

  // ------------------------------------------------------------------
  // The checker

  /** The states a sequence of events goes through. */
  function Replay(p: Panel, events: seq<PanelEvent>): (r: seq<Panel>)
    ensures |r| == |events| + 1 && r[0] == p
    decreases |events|
  {
    if events == [] then [p] else [p] + Replay(PanelApply(p, events[0]), events[1..])
  }

  /** The events are a run from `p` to `q`. */
  ghost predicate RunsTo(p: Panel, events: seq<PanelEvent>, q: Panel) {
    PanelRun(Replay(p, events), events) && Replay(p, events)[|events|] == q
  }

  lemma RunsNowhere(p: Panel)
    requires PanelValid(p)
    ensures RunsTo(p, [], p)
  {
  }

  lemma RunsFirst(p: Panel, e: PanelEvent, events: seq<PanelEvent>, q: Panel)
    requires PanelValid(p) && PanelLegal(p, e) && RunsTo(PanelApply(p, e), events, q)
    ensures RunsTo(p, [e] + events, q)
  {
    hide PanelValid, PanelLegal, PanelApply;
    var all := [e] + events;
    assert all[1..] == events;
    var states := Replay(p, all);
    var rest := Replay(PanelApply(p, e), events);
    assert states == [p] + rest;
    forall i | 0 <= i < |all| ensures PanelLegal(states[i], all[i]) && states[i + 1] == PanelApply(states[i], all[i]) {
      if i > 0 {
        assert states[i] == rest[i - 1] && states[i + 1] == rest[i - 1 + 1] && all[i] == events[i - 1];
      }
    }
  }

  /** The reconcile request file holds the generation published last. */
  class Checker {
    const store: Storage
    var request: Option<nat>
    /** Largest generation ever published. */
    ghost var requested: nat

    ghost predicate Valid()
      reads this, store
    {
      store.Valid() && requested <= store.generation
    }

    ghost function Now(): Panel
      reads this, store
    {
      Panel(store.Db(), requested)
    }

    constructor (store: Storage)
      requires store.Valid()
      ensures Valid() && this.store == store && request == None && requested == 0
    {
      this.store, request, requested := store, None, 0;
    }

    /** Replaces the request file; may fail or be the last thing the process does. */
    method Publish(generation: nat) returns (ok: bool, ghost events: seq<PanelEvent>)
      requires Valid() && generation <= store.generation
      modifies this
      ensures Valid() && RunsTo(old(Now()), events, Now()) && store.Db() == old(store.Db())
      ensures ok ==> request == Some(generation) && requested >= generation && events == [Request(generation)]
      ensures events == [] ==> request == old(request) && requested == old(requested)
      ensures events in {[], [Request(generation)]} && requested >= old(requested)
    {
      ok := *;
      var written: bool := *;
      events := [];
      RunsNowhere(Now());
      if ok || written {
        ghost var before := Now();
        events := [Request(generation)];
        request := Some(generation);
        requested := if requested >= generation then requested else generation;
        RunsNowhere(Now());
        RunsFirst(before, Request(generation), [], Now());
        assert [Request(generation)] + [] == [Request(generation)];
      }
    }

    /** The outbox is cleared only after the request exists. */
    method PublishAndAcknowledge(generation: nat) returns (ok: bool, ghost events: seq<PanelEvent>)
      requires Valid() && generation <= store.generation
      modifies this, store
      ensures Valid() && RunsTo(old(Now()), events, Now())
      ensures ok ==> Request(generation) in events && store.Db() == Acknowledged(old(store.Db()), generation)
      ensures !ok ==> store.Db() == old(store.Db())
      ensures requested >= old(requested) && (ok ==> requested >= generation)
    {
      hide RunsTo, PanelValid, PanelLegal, PanelApply, Acknowledged;
      ghost var before := Now();
      ok, events := Publish(generation);
      if ok {
        var crashed: bool := *;
        if crashed {
          return false, events;
        }
        ghost var middle := Now();
        store.MarkPublished(generation);
        AcknowledgementRuns(before, middle, generation, Now());
        events := [Request(generation), Store(Acknowledgement(generation), 0)];
      }
    }

    /** One round: afterwards the outbox is empty, or nothing but the evaluation has happened to the database. The
        round is a run of the panel. */
    method EvaluateAndPublish(now: Instant, repair: bool) returns (ok: bool, ghost events: seq<PanelEvent>)
      requires Valid()
      modifies this, store
      ensures Valid() && requested >= old(requested) && RunsTo(old(Now()), events, Now())
      ensures ok ==> forall id :: id in store.lifecycle ==> store.lifecycle[id].pending.None?
      ensures ok ==> forall id :: id in Evaluated(old(store.Db()), repair, now).lifecycle ==>
                       var p := Evaluated(old(store.Db()), repair, now).lifecycle[id].pending;
                       p.Some? ==> RequestedBetween(events, 1, |events|, p.value)
      ensures !ok ==> store.Db() == Evaluated(old(store.Db()), repair, now)
    {
      hide RunsTo, PanelLegal, PanelApply, Evaluated, WellFormed, Transitions, Candidates;
      ghost var before := Now();
      var evaluation := store.EvaluateLifecycle(now, repair);
      ghost var step := Store(Evaluation(repair), now);
      ghost var middle := Now();
      EvaluationRuns(before, repair, now, middle);
      StepStaysValid(before, step);
      match evaluation.pending {
        case None =>
          ok, events := true, [step];
          RunsNowhere(middle);
          RunsFirst(before, step, [], middle);
          assert [step] + [] == [step];
        case Some(generation) =>
          NewestExists(store.Db(), generation);
          var published;
          ghost var more;
          published, more := PublishAndAcknowledge(generation);
          ok, events := published, [step] + more;
          RunsFirst(before, step, more, Now());
          if ok {
            AcknowledgingNewestDrains(middle.db, generation);
            forall id | id in middle.db.lifecycle && middle.db.lifecycle[id].pending.Some?
              ensures RequestedBetween(events, 1, |events|, middle.db.lifecycle[id].pending.value)
            {
              RequestComesLater(step, more, generation, middle.db.lifecycle[id].pending.value);
            }
          }
      }
    }

    /** Publishes the newest desired generation after a change and acknowledges it. */
    method QueueLatest() returns (ok: bool, ghost events: seq<PanelEvent>)
      requires Valid()
      modifies this, store
      ensures Valid() && requested >= old(requested) && RunsTo(old(Now()), events, Now())
      ensures ok ==> requested == store.generation && forall id :: id in store.lifecycle ==> store.lifecycle[id].pending.None?
      ensures !ok ==> store.Db() == old(store.Db())
    {
      hide RunsTo;
      ok, events := PublishAndAcknowledge(store.generation);
    }
  }

  lemma AcknowledgementRuns(p: Panel, m: Panel, generation: nat, q: Panel)
    requires RunsTo(p, [Request(generation)], m) && m.requested >= generation
    requires q == m.(db := Acknowledged(m.db, generation))
    ensures RunsTo(p, [Request(generation), Store(Acknowledgement(generation), 0)], q)
  {
    var ack := Store(Acknowledgement(generation), 0);
    var request := Request(generation);
    hide Acknowledged, WellFormed;
    assert Replay(p, [request]) == [p] + [PanelApply(p, request)] by {
      assert [request][1..] == [];
    }
    assert PanelLegal(p, request) && PanelValid(p) && m == PanelApply(p, request) by {
      assert [request][0] == request && Replay(p, [request])[0] == p;
    }
    StepStaysValid(p, request);
    StepStaysValid(m, ack);
    RunsNowhere(q);
    RunsFirst(m, ack, [], q);
    assert [ack] + [] == [ack] && [request] + [ack] == [request, ack];
    RunsFirst(p, request, [ack], q);
  }

  lemma EvaluationRuns(p: Panel, repair: bool, now: Instant, q: Panel)
    requires WellFormed(p.db) && 0 < p.db.nextId && p.requested <= p.db.generation
    requires q == p.(db := Evaluated(p.db, repair, now))
    ensures PanelValid(p) && PanelLegal(p, Store(Evaluation(repair), now)) && q == PanelApply(p, Store(Evaluation(repair), now))
  {
  }

  lemma NewestExists(db: Db, generation: nat)
    requires WellFormed(db) && NewestPending(db.lifecycle, Some(generation))
    ensures generation <= db.generation
    ensures forall id :: id in db.lifecycle && db.lifecycle[id].pending.Some? ==> db.lifecycle[id].pending.value <= generation
  {
  }

  lemma RequestComesLater(step: PanelEvent, more: seq<PanelEvent>, generation: nat, pending: nat)
    requires Request(generation) in more && pending <= generation
    ensures RequestedBetween([step] + more, 1, |more| + 1, pending)
  {
    var j :| 0 <= j < |more| && more[j] == Request(generation);
    assert ([step] + more)[j + 1] == Request(generation);
  }
}
