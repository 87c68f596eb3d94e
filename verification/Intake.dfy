/**
 Receiving a message (gateway/src/intake.cpp), and what it means for the queue: over any run of messages,
 claims, outcomes and restarts it holds accepted events, of which only the marked ones cannot be converted.
 */
module Intake {
  import opened Options
  import opened Events
  import opened Store
  import opened StoreProperties
  import opened Forwarder
  import opened ForwarderProperties
  import Batch
  import EventParser

  /** One MQTT message with the gateway's clock text at its arrival. */
  datatype Message = Message(topic: string, payload: EventParser.Payload, retained: bool, receivedAt: string)

  datatype Received = Retained | Refused(reason: EventParser.Reason) | Stored(result: InsertResult)

  function Receive(t: Tables, m: Message): (Tables, Received) {
    if m.retained then (t, Retained)
    else
      match EventParser.Parse(m.topic, m.payload, m.receivedAt)
      case Err(reason) => (t, Refused(reason))
      case Ok(e) => (Insert(t, e).0, Stored(Insert(t, e).1))
  }

  /**
   The store holds the event's identity: an unknown one is queued, pending, with its bytes and receipt time and
   nothing else changed, and a known one changes nothing.
   */
  predicate Keeps(before: Tables, after: Tables, e: Event) {
    && (e.id in after.queue || e.id in after.quarantine)
    && (if e.id in before.queue || e.id in before.quarantine then after == before
        else
          && e.id in after.queue
          && after.queue[e.id].payload == e.payload && after.queue[e.id].receivedAt == e.receivedAt
          && after.queue[e.id].state == Pending && after.queue[e.id].attempts == 0
          && after.queue - {e.id} == before.queue && after.quarantine == before.quarantine)
  }

  /**
   What a message does to the store: a retained one nothing; a live one that is no event nothing either, and the
   answer is the reason; and a live one that is an event leaves the event in the store.
   */
  lemma ReceivedMessages(t: Tables, m: Message)
    ensures m.retained ==> Receive(t, m) == (t, Retained)
    ensures
      match EventParser.Parse(m.topic, m.payload, m.receivedAt)
      case Err(reason) => !m.retained ==> Receive(t, m) == (t, Refused(reason))
      case Ok(e) =>
        !m.retained ==>
          && Keeps(t, Receive(t, m).0, e)
          && (StoredPayload(t, e.id) == None ==> Receive(t, m).1 == Stored(Inserted))
          && (WellFormed(t) && StoredPayload(t, e.id) == Some(e.payload) ==>
                Receive(t, m).1 == Stored(InsertResult.Duplicate))
  {
    hide EventParser.Parse, Keeps, WellFormed, StoredPayload, Insert;
    var parsed := EventParser.Parse(m.topic, m.payload, m.receivedAt);
    if parsed.Ok? {
      InsertKeeps(t, parsed.value);
    }
  }

  lemma InsertKeeps(t: Tables, e: Event)
    ensures Keeps(t, Insert(t, e).0, e)
    ensures StoredPayload(t, e.id) == None ==> Insert(t, e).1 == Inserted
    ensures WellFormed(t) && StoredPayload(t, e.id) == Some(e.payload) ==> Insert(t, e).1 == InsertResult.Duplicate
  {
  }

  /** Where SQLite fails while a message is received: in the insert, or in the row count logged after it. */
  datatype StorageTrouble = StorageTrouble(insert: bool, depth: bool)

  /**
   A storage fault escapes as an exception: one in the insert leaves the tables alone, one in the row count
   comes after a new event is already committed.
   */
  method ReceiveMessage(store: Store, m: Message, trouble: StorageTrouble) returns (r: Result<Received, StoreFault>)
    modifies store
    ensures m.retained ==> r == Ok(Retained) && store.View() == old(store.View())
    ensures
      match EventParser.Parse(m.topic, m.payload, m.receivedAt)
      case Err(reason) => !m.retained ==> r == Ok(Refused(reason)) && store.View() == old(store.View())
      case Ok(e) =>
        !m.retained && !trouble.insert ==>
          && Keeps(old(store.View()), store.View(), e)
          && (StoredPayload(old(store.View()), e.id) == None && !trouble.depth ==> r == Ok(Stored(Inserted)))
          && (WellFormed(old(store.View())) && StoredPayload(old(store.View()), e.id) == Some(e.payload) ==>
                r == Ok(Stored(InsertResult.Duplicate)))
    ensures
      var (after, received) := Receive(old(store.View()), m);
      && store.View() == (if received.Stored? && trouble.insert then old(store.View()) else after)
      && (r.Err? <==> (received.Stored? && trouble.insert) || (received == Stored(Inserted) && trouble.depth))
      && (r.Ok? ==> r.value == received)
  {
    hide EventParser.Parse, Insert, Keeps, WellFormed, StoredPayload;
    ReceivedMessages(store.View(), m);
    if m.retained {
      return Ok(Retained);
    }
    var parsed := EventParser.Parse(m.topic, m.payload, m.receivedAt);
    if parsed.Err? {
      return Ok(Refused(parsed.error));
    }
    var inserted := store.InsertEvent(parsed.value, trouble.insert);
    if inserted.Err? {
      return Err(inserted.error);
    }
    if inserted.value == Inserted && trouble.depth {
      return Err(StorageFault);
    }
    return Ok(Stored(inserted.value));
  }

  /** JSON texts, and a clock text no longer than any the gateway prints. */
  ghost predicate Plausible(m: Message) {
    EventParser.ValidPayload(m.payload) && |m.receivedAt| <= 400
  }

  /** Everything queued came through intake. */
  ghost predicate AllAccepted(t: Tables) {
    && WellFormed(t)
    && forall id :: id in t.queue ==>
         |t.queue[id].receivedAt| <= 400 && Batch.Accepted(Event(id, t.queue[id].payload, t.queue[id].receivedAt))
  }

  /** What happens to the gateway's tables: a message, or one of the forwarder's or start-up's operations. */
  datatype Happening = Arrives(m: Message) | Runs(op: Op)

  ghost predicate Allowed(h: Happening) {
    match h
    case Arrives(m) => Plausible(m)
    case Runs(op) => !op.InsertOp?
  }

  function Happens(t: Tables, h: Happening): Tables {
    match h
    case Arrives(m) => Receive(t, m).0
    case Runs(op) => Step(t, op)
  }

  function After(t: Tables, hs: seq<Happening>): Tables
    decreases |hs|
  {
    if hs == [] then t else After(Happens(t, hs[0]), hs[1..])
  }

  lemma ArrivalKeepsAllAccepted(t: Tables, m: Message)
    requires AllAccepted(t) && Plausible(m)
    ensures AllAccepted(Receive(t, m).0)
  {
    hide EventParser.Parse, EventParser.ValidPayload, Batch.Accepted, WellFormed, Insert;
    var parsed := EventParser.Parse(m.topic, m.payload, m.receivedAt);
    if !m.retained && parsed.Ok? {
      var e := parsed.value;
      EventParser.AcceptedPayload(m.topic, m.payload, m.receivedAt);
      assert Batch.Accepted(e) by { AcceptedNow(e, m.topic, m.payload); }
      InsertKeepsAccepted(t, e);
    }
  }

  lemma InsertKeepsAccepted(t: Tables, e: Event)
    requires AllAccepted(t) && Batch.Accepted(e) && |e.receivedAt| <= 400
    ensures AllAccepted(Insert(t, e).0)
  {
    hide Batch.Accepted, WellFormed;
    StepKeepsWellFormed(t, InsertOp(e));
  }

  lemma AcceptedNow(e: Event, topic: string, p: EventParser.Payload)
    requires EventParser.ValidPayload(p) && EventParser.Parse(topic, p, e.receivedAt) == Ok(e)
    ensures Batch.Accepted(e)
  {
    hide EventParser.Parse, EventParser.ValidPayload;
    assert Batch.AcceptedAs(e, topic, p);
  }

  lemma OperationKeepsAllAccepted(t: Tables, op: Op)
    requires AllAccepted(t) && !op.InsertOp?
    ensures AllAccepted(Step(t, op))
  {
    hide Batch.Accepted, WellFormed, Step;
    var u := Step(t, op);
    StepKeepsWellFormed(t, op);
    forall id | id in u.queue
      ensures |u.queue[id].receivedAt| <= 400
      ensures Batch.Accepted(Event(id, u.queue[id].payload, u.queue[id].receivedAt))
    {
      NothingAppears(t, op, id);
      StepKeepsRow(t, op, id);
    }
  }

  lemma NothingAppears(t: Tables, op: Op, id: Identity)
    requires !op.InsertOp? && id in Step(t, op).queue
    ensures id in t.queue
  {
    hide ApplyAll, ClaimHead;
    match op
    case ClaimOp(limit) =>
      if ClaimHead(t, limit).Ok? {
        ClaimTakesTheHead(t, limit);
      }
    case ApplyOp(claims, decisions) =>
      if |claims| == |decisions| && ApplyAll(t, claims, decisions).Ok? {
        ApplyExactly(t, claims, decisions);
        assert QueueOutcome(t, ApplyAll(t, claims, decisions).value, claims, decisions, id);
      }
    case _ =>
  }

  lemma {:induction false} OnlyAcceptedEver(t: Tables, hs: seq<Happening>)
    requires AllAccepted(t) && forall h :: h in hs ==> Allowed(h)
    ensures AllAccepted(After(t, hs))
    decreases |hs|
  {
    hide AllAccepted, Plausible, Receive, Step;
    if hs != [] {
      var h := hs[0];
      assert Allowed(h);
      if h.Arrives? {
        ArrivalKeepsAllAccepted(t, h.m);
      } else {
        OperationKeepsAllAccepted(t, h.op);
      }
      OnlyAcceptedEver(Happens(t, h), hs[1..]);
    }
  }

  /** Every row can be claimed this many times more. */
  predicate Spare(t: Tables, claims: nat) {
    forall id :: id in t.queue ==> t.queue[id].attempts + claims <= MAX_COUNTER
  }

  /** No queued payload starts with the byte order mark. */
  predicate Unmarked(t: Tables) {
    forall id :: id in t.queue ==> !EventParser.StartsWithMark(t.queue[id].payload)
  }

  /**
   After any run from an empty gateway and a restart, drains with any answers at all: each understood answer
   takes 500 rows off the queue and the others none.  And ceil(n / 500) drains whose answers name the claimed
   events empty the queue of n rows if and only if no payload in it starts with a byte order mark.
   */
  lemma EveryQueueDrains(hs: seq<Happening>, answers: seq<Http>)
    requires forall h :: h in hs ==> Allowed(h)
    ensures
      var t := Recovered(After(Tables(map[], map[]), hs));
      var gone := MAX_BATCH * Understood(t, answers);
      Spare(t, |answers|) ==> |Drains(t, answers).queue| == if |t.queue| <= gone then 0 else |t.queue| - gone
    ensures
      var t := Recovered(After(Tables(map[], map[]), hs));
      Spare(t, 1) && AllAnswered(t, answers) && |answers| >= (|t.queue| + MAX_BATCH - 1) / MAX_BATCH ==>
        (Drains(t, answers).queue == map[] <==> Unmarked(t))
  {
    hide After, Drains, AllAnswered, Batch.Accepted, Allowed, Understood, EventParser.StartsWithMark, Recovered;
    OnlyAcceptedEver(Tables(map[], map[]), hs);
    var t := Recovered(After(Tables(map[], map[]), hs));
    RestartedIsReady(After(Tables(map[], map[]), hs));
    if Spare(t, |answers|) {
      DrainsShorten(t, answers);
    }
    if Spare(t, 1) && AllAnswered(t, answers) && |answers| >= (|t.queue| + MAX_BATCH - 1) / MAX_BATCH {
      if Unmarked(t) {
        DrainsEmptyTheQueue(t, answers);
      } else {
        var id :| id in t.queue && EventParser.StartsWithMark(t.queue[id].payload);
        MarkedStaysForGood(t, answers, id);
      }
    }
  }

  lemma RestartedIsReady(t: Tables)
    requires AllAccepted(t)
    ensures AllAccepted(Recovered(t))
    ensures forall n :: Spare(Recovered(t), n) ==> ReadyFor(Recovered(t), n)
    ensures Unmarked(Recovered(t)) && Spare(Recovered(t), 1) ==> Deliverable(Recovered(t))
  {
    hide Batch.Accepted, EventParser.StartsWithMark, WellFormed;
    OperationKeepsAllAccepted(t, Restart);
    assert Step(t, Restart) == Recovered(t);
  }
}
