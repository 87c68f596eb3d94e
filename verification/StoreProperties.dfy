/** What the durable queue guarantees: atomic outcomes, claims in order, fencing, recovery. */
module StoreProperties {
  import opened Options
  import opened Events
  import opened Deliveries
  import opened Ordering
  import opened Store

  // Claims

  /**
   A claim takes exactly the first `limit` pending rows in queue order, or all of them, raises each
   attempt count by one, hands out the stored bytes, and changes nothing else.
   */
  lemma ClaimTakesTheHead(t: Tables, limit: nat)
    requires ClaimHead(t, limit).Ok?
    ensures
      var (u, claims) := ClaimHead(t, limit).value;
      && |claims| == (if |PendingIds(t)| < limit then |PendingIds(t)| else limit)
      && (forall i :: 0 <= i < |claims| ==>
            var id := claims[i].event.id;
            && id in t.queue && t.queue[id].state == Pending
            && claims[i] == Claim(Event(id, t.queue[id].payload, t.queue[id].receivedAt), InFlight,
                                  t.queue[id].attempts + 1)
            && u.queue[id] == Taken(t.queue[id]))
      && (forall i, j :: 0 <= i < j < |claims| ==> Sooner(PlaceOf(claims[i]), PlaceOf(claims[j])))
      && (forall i, id :: 0 <= i < |claims| && id in PendingIds(t) && !Touched(claims, id) ==>
            Sooner(PlaceOf(claims[i]), Place(t.queue[id].receivedAt, id)))
      && u.queue.Keys == t.queue.Keys && u.quarantine == t.quarantine
      && (forall id :: id in t.queue && !Touched(claims, id) ==> u.queue[id] == t.queue[id])
  {
    hide Sooner;
    var (u, claims) := ClaimHead(t, limit).value;
    var places, ids := FirstPending(t, limit), Head(t, limit);
    PlacesCount(t, PendingIds(t));
    assert PendingPlaces(t) == set id | id in PendingIds(t) :: Place(t.queue[id].receivedAt, id);
    forall i | 0 <= i < |claims| ensures places[i] == PlaceOf(claims[i]) {
      assert places[i] in places;
    }
    forall i, id | 0 <= i < |claims| && id in PendingIds(t) && !Touched(claims, id)
      ensures Sooner(PlaceOf(claims[i]), Place(t.queue[id].receivedAt, id))
    {
      var place := Place(t.queue[id].receivedAt, id);
      forall j | 0 <= j < |places| ensures places[j] != place {
        TouchedAt(claims, j);
      }
      assert places[i] in places && place in PendingPlaces(t);
    }
    forall id, j | id in t.queue && !Touched(claims, id) && 0 <= j < |ids| ensures ids[j] != id {
      TouchedAt(claims, j);
    }
  }

  /** The row is among the first `limit` pending ones. */
  ghost predicate AtHead(t: Tables, limit: nat, id: Identity) {
    id in Head(t, limit)
  }

  /** A claim fails exactly when its limit is not 1 to 500, or when one of the rows it would take is used up. */
  lemma ClaimFailsExactly(t: Tables, limit: nat)
    ensures ClaimHead(t, limit) == Err(InvalidLimit) <==> !(1 <= limit <= 500)
    ensures
      ClaimHead(t, limit) == Err(AttemptOverflow) <==>
      1 <= limit <= 500 &&
      exists id :: AtHead(t, limit, id) && id in t.queue && t.queue[id].attempts >= 0x7fff_ffff_ffff_ffff
    ensures
      ClaimHead(t, limit).Err? ==>
      ClaimHead(t, limit) == Err(InvalidLimit) || ClaimHead(t, limit) == Err(AttemptOverflow)
  {
    hide Head;
  }

  function PlaceOf(c: Claim): Place { Place(c.event.receivedAt, c.event.id) }

  predicate Touched(claims: seq<Claim>, id: Identity) {
    exists i :: 0 <= i < |claims| && claims[i].event.id == id
  }

  // Outcomes

  predicate Distinct(claims: seq<Claim>) {
    forall i, j :: 0 <= i < j < |claims| ==> claims[i].event.id != claims[j].event.id
  }

  /** A decision carries a reason exactly when it rejects. */
  predicate WellReasoned(d: Decision) {
    d.action == Action.Rejected <==> d.reason != ""
  }

  /** Every claim is still held, no event is decided twice, and nothing is quarantined twice. */
  predicate Applicable(t: Tables, claims: seq<Claim>, decisions: seq<Decision>)
    requires |claims| == |decisions|
  {
    && Distinct(claims)
    && forall i :: 0 <= i < |claims| ==> Admissible(t, claims[i], decisions[i])
  }

  predicate Settled(claims: seq<Claim>, decisions: seq<Decision>, id: Identity)
    requires |claims| == |decisions|
  {
    exists i :: 0 <= i < |claims| && claims[i].event.id == id && decisions[i].action != Retry
  }

  predicate Condemned(claims: seq<Claim>, decisions: seq<Decision>, id: Identity)
    requires |claims| == |decisions|
  {
    exists i :: 0 <= i < |claims| && claims[i].event.id == id && decisions[i].action == Action.Rejected
  }

  /** Exactly what a successful call changes. */
  ghost predicate Outcome(t: Tables, u: Tables, claims: seq<Claim>, decisions: seq<Decision>)
    requires |claims| == |decisions|
  {
    && (forall id :: QueueOutcome(t, u, claims, decisions, id))
    && (forall i :: 0 <= i < |claims| ==> Condemns(u, claims[i], decisions[i]))
  }

  /** One identity's place before and after. */
  predicate QueueOutcome(t: Tables, u: Tables, claims: seq<Claim>, decisions: seq<Decision>, id: Identity)
    requires |claims| == |decisions|
  {
    && (id in u.queue <==> id in t.queue && !Settled(claims, decisions, id))
    && (id in u.queue ==>
          u.queue[id] == if Touched(claims, id) then t.queue[id].(state := Pending) else t.queue[id])
    && (id in u.quarantine <==> id in t.quarantine || Condemned(claims, decisions, id))
    && (id in t.quarantine ==> u.quarantine[id] == t.quarantine[id])
  }

  predicate Condemns(u: Tables, c: Claim, d: Decision) {
    d.action == Action.Rejected ==>
      c.event.id in u.quarantine &&
      u.quarantine[c.event.id] == Quarantined(c.event.payload, c.event.receivedAt, c.attempts, d.reason)
  }

  lemma SnocFacts(claims: seq<Claim>, decisions: seq<Decision>, id: Identity)
    requires 0 < |claims| == |decisions|
    ensures
      var n := |claims| - 1;
      var c, d := claims[n], decisions[n];
      && Touched(claims, id) == (Touched(claims[..n], id) || c.event.id == id)
      && Settled(claims, decisions, id)
         == (Settled(claims[..n], decisions[..n], id) || (c.event.id == id && d.action != Retry))
      && Condemned(claims, decisions, id)
         == (Condemned(claims[..n], decisions[..n], id) || (c.event.id == id && d.action == Action.Rejected))
  {
    var n := |claims| - 1;
    var cs, ds := claims[..n], decisions[..n];
    if Touched(cs, id) {
      var i :| 0 <= i < n && cs[i].event.id == id;
      assert claims[i].event.id == id;
    }
    if Settled(cs, ds, id) {
      var i :| 0 <= i < n && cs[i].event.id == id && ds[i].action != Retry;
      assert claims[i].event.id == id && decisions[i].action != Retry;
    }
    if Condemned(cs, ds, id) {
      var i :| 0 <= i < n && cs[i].event.id == id && ds[i].action == Action.Rejected;
      assert claims[i].event.id == id && decisions[i].action == Action.Rejected;
    }
  }

  lemma QueueOutcomeStep(t: Tables, u: Tables, claims: seq<Claim>, decisions: seq<Decision>, id: Identity)
    requires 0 < |claims| == |decisions|
    requires
      var n := |claims| - 1;
      && QueueOutcome(t, u, claims[..n], decisions[..n], id)
      && !Touched(claims[..n], claims[n].event.id)
      && ApplyOne(u, claims[n], decisions[n]).Ok?
    ensures
      var n := |claims| - 1;
      QueueOutcome(t, ApplyOne(u, claims[n], decisions[n]).value, claims, decisions, id)
  {
    hide Touched, Settled, Condemned;
    SnocFacts(claims, decisions, id);
    SettledIsTouched(claims[..|claims| - 1], decisions[..|claims| - 1], id);
  }

  lemma OutcomeStep(t: Tables, u: Tables, claims: seq<Claim>, decisions: seq<Decision>)
    requires 0 < |claims| == |decisions|
    requires
      var n := |claims| - 1;
      && Outcome(t, u, claims[..n], decisions[..n])
      && !Touched(claims[..n], claims[n].event.id)
      && ApplyOne(u, claims[n], decisions[n]).Ok?
    ensures
      var n := |claims| - 1;
      Outcome(t, ApplyOne(u, claims[n], decisions[n]).value, claims, decisions)
  {
    var n := |claims| - 1;
    var w := ApplyOne(u, claims[n], decisions[n]).value;
    forall id ensures QueueOutcome(t, w, claims, decisions, id) {
      hide Touched, Settled, Condemned, ApplyOne;
      assert QueueOutcome(t, u, claims[..n], decisions[..n], id);
      QueueOutcomeStep(t, u, claims, decisions, id);
    }
    forall i | 0 <= i < |claims| ensures Condemns(w, claims[i], decisions[i]) {
      if i < n {
        assert Condemns(u, claims[..n][i], decisions[..n][i]);
        TouchedAt(claims[..n], i);
      }
    }
  }

  lemma TouchedAt(claims: seq<Claim>, i: nat)
    requires i < |claims|
    ensures Touched(claims, claims[i].event.id)
  {
  }

  lemma SettledIsTouched(claims: seq<Claim>, decisions: seq<Decision>, id: Identity)
    requires |claims| == |decisions|
    ensures Settled(claims, decisions, id) ==> Touched(claims, id)
    ensures Condemned(claims, decisions, id) ==> Settled(claims, decisions, id)
  {
  }

  lemma DistinctStep(claims: seq<Claim>)
    requires claims != []
    ensures
      var n := |claims| - 1;
      Distinct(claims) <==> Distinct(claims[..n]) && !Touched(claims[..n], claims[n].event.id)
  {
    var n := |claims| - 1;
    var cs, id := claims[..n], claims[n].event.id;
    if Touched(cs, id) {
      var i :| 0 <= i < n && cs[i].event.id == id;
      assert claims[i].event.id == claims[n].event.id;
    }
    if Distinct(cs) && !Touched(cs, id) {
      forall i, j | 0 <= i < j < |claims| ensures claims[i].event.id != claims[j].event.id {
        assert cs[i] == claims[i];
        if j < n {
          assert cs[j] == claims[j];
        }
      }
    }
  }

  predicate Admissible(t: Tables, c: Claim, d: Decision) {
    && c.state == InFlight && c.attempts > 0 && Holds(t, c) && WellReasoned(d)
    && (d.action == Action.Rejected ==> c.event.id !in t.quarantine)
  }

  lemma ApplicableStep(t: Tables, u: Tables, claims: seq<Claim>, decisions: seq<Decision>)
    requires 0 < |claims| == |decisions|
    requires
      var n := |claims| - 1;
      && Applicable(t, claims[..n], decisions[..n])
      && Outcome(t, u, claims[..n], decisions[..n])
    ensures
      var n := |claims| - 1;
      && (ApplyOne(u, claims[n], decisions[n]).Ok? <==> Applicable(t, claims, decisions))
      && (Applicable(t, claims, decisions) ==> !Touched(claims[..n], claims[n].event.id))
  {
    hide Distinct, Touched, Settled, Condemned;
    var n := |claims| - 1;
    var cs, ds, c, d := claims[..n], decisions[..n], claims[n], decisions[n];
    SettledIsTouched(cs, ds, c.event.id);
    assert QueueOutcome(t, u, cs, ds, c.event.id);
    assert ApplyOne(u, c, d).Ok? <==> Admissible(t, c, d) && !Touched(cs, c.event.id);
    DistinctStep(claims);
    assert forall i :: 0 <= i < n ==> cs[i] == claims[i] && ds[i] == decisions[i];
  }

  lemma ApplicablePrefix(t: Tables, claims: seq<Claim>, decisions: seq<Decision>)
    requires 0 < |claims| == |decisions| && Applicable(t, claims, decisions)
    ensures Applicable(t, claims[..|claims| - 1], decisions[..|claims| - 1])
  {
  }

  /**
   `apply_decisions` succeeds exactly when every claim is still held by the row it was taken from,
   no event is decided twice, reasons stand exactly on rejections and no rejected event is already in
   quarantine.  Then exactly the accepted, duplicate and rejected rows are gone, exactly the rejected
   ones joined the quarantine with the claim's payload and receipt time, exactly the retried ones are
   pending again, and no other row moved.
   */
  lemma {:induction false} ApplyExactly(t: Tables, claims: seq<Claim>, decisions: seq<Decision>)
    requires |claims| == |decisions|
    ensures ApplyAll(t, claims, decisions).Ok? <==> Applicable(t, claims, decisions)
    ensures ApplyAll(t, claims, decisions).Ok? ==>
      Outcome(t, ApplyAll(t, claims, decisions).value, claims, decisions)
    decreases |claims|
  {
    hide ApplyOne, Outcome, Applicable;
    if claims == [] {
      ApplyNothing(t);
    } else {
      var n := |claims| - 1;
      ApplyExactly(t, claims[..n], decisions[..n]);
      if ApplyAll(t, claims[..n], decisions[..n]).Ok? {
        var u := ApplyAll(t, claims[..n], decisions[..n]).value;
        ApplicableStep(t, u, claims, decisions);
        if Applicable(t, claims, decisions) {
          OutcomeStep(t, u, claims, decisions);
        }
      } else if Applicable(t, claims, decisions) {
        ApplicablePrefix(t, claims, decisions);
      }
    }
  }

  lemma ApplyNothing(t: Tables)
    ensures Applicable(t, [], []) && Outcome(t, t, [], [])
  {
  }

  // Runs of the store

  /** One committed operation; a faulted transaction leaves the tables as they were. */
  datatype Op =
    | InsertOp(e: Event)
    | ClaimOp(limit: nat)
    | ReleaseOp(c: Claim)
    | ApplyOp(claims: seq<Claim>, decisions: seq<Decision>)
    | Restart
    | Faulted

  function Step(t: Tables, op: Op): Tables {
    match op
    case InsertOp(e) => Insert(t, e).0
    case ClaimOp(limit) => (match ClaimHead(t, limit) case Ok((u, _)) => u case Err(_) => t)
    case ReleaseOp(c) => Release(t, c).0
    case ApplyOp(claims, decisions) => (match Apply(t, claims, decisions) case Ok(u) => u case Err(_) => t)
    case Restart => Recovered(t)
    case Faulted => t
  }

  function Run(t: Tables, ops: seq<Op>): Tables
    decreases |ops|
  {
    if ops == [] then t else Run(Step(t, ops[0]), ops[1..])
  }

  /** The row stays in the queue at every point of the run. */
  predicate Alive(t: Tables, ops: seq<Op>, id: Identity)
    decreases |ops|
  {
    id in t.queue && (ops == [] || Alive(Step(t, ops[0]), ops[1..], id))
  }

  predicate Takes(t: Tables, op: Op, id: Identity) {
    op.ClaimOp? && ClaimHead(t, op.limit).Ok? && Touched(ClaimHead(t, op.limit).value.1, id)
  }

  /** How many claims of the run took this row. */
  function TimesTaken(t: Tables, ops: seq<Op>, id: Identity): nat
    decreases |ops|
  {
    if ops == [] then 0
    else (if Takes(t, ops[0], id) then 1 else 0) + TimesTaken(Step(t, ops[0]), ops[1..], id)
  }

  lemma StepKeepsRow(t: Tables, op: Op, id: Identity)
    requires id in t.queue && id in Step(t, op).queue
    ensures
      var before, after := t.queue[id], Step(t, op).queue[id];
      && after.payload == before.payload && after.receivedAt == before.receivedAt
      && after.attempts == before.attempts + (if Takes(t, op, id) then 1 else 0)
  {
    hide ApplyAll, ClaimHead;
    match op
    case ClaimOp(limit) =>
      if ClaimHead(t, limit).Ok? {
        ClaimTakesTheHead(t, limit);
        var (u, claims) := ClaimHead(t, limit).value;
        if Touched(claims, id) {
          var i :| 0 <= i < |claims| && claims[i].event.id == id;
        }
      }
    case ApplyOp(claims, decisions) =>
      if |claims| == |decisions| && ApplyAll(t, claims, decisions).Ok? {
        ApplyExactly(t, claims, decisions);
        assert QueueOutcome(t, ApplyAll(t, claims, decisions).value, claims, decisions, id);
      }
    case _ =>
  }

  /** Over one lifetime a row keeps its bytes and its attempt count is exactly the claims that took it. */
  lemma {:induction false} LifetimeHistory(t: Tables, ops: seq<Op>, id: Identity)
    requires Alive(t, ops, id)
    ensures id in Run(t, ops).queue
    ensures
      var before, after := t.queue[id], Run(t, ops).queue[id];
      && after.payload == before.payload && after.receivedAt == before.receivedAt
      && after.attempts == before.attempts + TimesTaken(t, ops, id)
    decreases |ops|
  {
    hide Step, Takes;
    if ops != [] {
      StepKeepsRow(t, ops[0], id);
      LifetimeHistory(Step(t, ops[0]), ops[1..], id);
    }
  }

  /**
   Fencing: once a later claim has taken the row, releasing the older claim changes nothing and any
   list of outcomes that contains it is refused, for as long as the row lives.
   */
  lemma StaleClaimIsPowerless(t: Tables, ops: seq<Op>, c: Claim, claims: seq<Claim>, decisions: seq<Decision>)
    requires Holds(t, c) && Alive(t, ops, c.event.id) && TimesTaken(t, ops, c.event.id) > 0
    requires c in claims
    ensures Release(Run(t, ops), c) == (Run(t, ops), false)
    ensures Apply(Run(t, ops), claims, decisions).Err?
  {
    hide ApplyAll;
    LifetimeHistory(t, ops, c.event.id);
    var u := Run(t, ops);
    assert !Holds(u, c);
    if |claims| == |decisions| {
      ApplyExactly(u, claims, decisions);
      var i :| 0 <= i < |claims| && claims[i] == c;
      assert !Admissible(u, claims[i], decisions[i]);
    }
  }

  /** The stored message of an identity, queued or quarantined. */
  function StoredPayload(t: Tables, id: Identity): Option<string> {
    if id in t.queue then Some(t.queue[id].payload)
    else if id in t.quarantine then Some(t.quarantine[id].payload)
    else None
  }

  /**
   Intake is idempotent: a new identity is queued pending, a known one is answered by comparing bytes and
   changes nothing, and offering the same event again is a duplicate without effect.
   */
  lemma InsertAnswers(t: Tables, e: Event)
    requires WellFormed(t)
    ensures
      var (u, r) := Insert(t, e);
      && (r == Inserted <==> StoredPayload(t, e.id) == None)
      && (r == InsertResult.Duplicate <==> StoredPayload(t, e.id) == Some(e.payload))
      && (r != Inserted ==> u == t)
      && (r == Inserted ==> u.quarantine == t.quarantine && u.queue - {e.id} == t.queue)
      && (r == Inserted ==> e.id in u.queue && u.queue[e.id] == Row(e.payload, e.receivedAt, Pending, 0))
      && (r != IdentityConflict ==> Insert(u, e) == (u, InsertResult.Duplicate))
  {
  }

  /** No identity is queued and quarantined at once, and a row in flight was claimed. */
  ghost predicate WellFormed(t: Tables) {
    && (forall id :: id in t.queue ==> id !in t.quarantine)
    && (forall id :: id in t.queue && t.queue[id].state == InFlight ==> t.queue[id].attempts > 0)
  }

  lemma StepKeepsWellFormed(t: Tables, op: Op)
    requires WellFormed(t)
    ensures WellFormed(Step(t, op))
  {
    hide ApplyAll, ClaimHead;
    var u := Step(t, op);
    match op
    case ClaimOp(limit) =>
      if ClaimHead(t, limit).Ok? {
        ClaimTakesTheHead(t, limit);
        forall id | id in u.queue && u.queue[id].state == InFlight ensures u.queue[id].attempts > 0 {
          StepKeepsRow(t, op, id);
        }
      }
    case ApplyOp(claims, decisions) =>
      if |claims| == |decisions| && ApplyAll(t, claims, decisions).Ok? {
        ApplyKeepsWellFormed(t, claims, decisions);
      }
    case _ =>
  }

  lemma ApplyKeepsWellFormed(t: Tables, claims: seq<Claim>, decisions: seq<Decision>)
    requires WellFormed(t) && |claims| == |decisions| && ApplyAll(t, claims, decisions).Ok?
    ensures WellFormed(ApplyAll(t, claims, decisions).value)
  {
    hide ApplyAll;
    var u := ApplyAll(t, claims, decisions).value;
    ApplyExactly(t, claims, decisions);
    forall id | id in u.queue
      ensures id !in u.quarantine && (u.queue[id].state == InFlight ==> u.queue[id].attempts > 0)
    {
      SettledIsTouched(claims, decisions, id);
      assert QueueOutcome(t, u, claims, decisions, id);
    }
  }

  lemma {:induction false} RunKeepsWellFormed(t: Tables, ops: seq<Op>)
    requires WellFormed(t)
    ensures WellFormed(Run(t, ops))
    decreases |ops|
  {
    if ops != [] {
      StepKeepsWellFormed(t, ops[0]);
      RunKeepsWellFormed(Step(t, ops[0]), ops[1..]);
    }
  }

  /** After a restart everything queued is pending again, so the next claims reach all of it. */
  lemma RestartRequeuesEverything(t: Tables)
    ensures PendingIds(Recovered(t)) == t.queue.Keys
    ensures Recovered(t).quarantine == t.quarantine
    ensures forall id :: id in t.queue ==>
      var row := Recovered(t).queue[id];
      && row.payload == t.queue[id].payload && row.receivedAt == t.queue[id].receivedAt
      && row.attempts == t.queue[id].attempts
    ensures Recovered(Recovered(t)) == Recovered(t)
  {
  }

  /** Releasing a claim returns its row to the queue exactly when the row is still held by it, and does nothing else. */
  lemma ReleaseExactly(t: Tables, c: Claim)
    ensures
      var (u, ok) := Release(t, c);
      var id := c.event.id;
      && (ok <==> id in t.queue && t.queue[id].state == InFlight && t.queue[id].attempts == c.attempts)
      && (!ok ==> u == t)
      && (ok ==> u.quarantine == t.quarantine && u.queue == t.queue[id := t.queue[id].(state := Pending)])
  {
  }

  // The order of delivery

  /** The shorter of two texts that agree so far, or the one whose first different character is smaller. */
  ghost predicate Precedes(a: string, b: string) {
    exists i :: 0 <= i <= |a| && i <= |b| && a[..i] == b[..i] && SmallerAt(a, b, i)
  }

  predicate SmallerAt(a: string, b: string, i: nat)
    requires i <= |a| && i <= |b|
  {
    i < |b| && (i == |a| || a[i] < b[i])
  }

  lemma {:induction false} TextOrderIs(a: string, b: string)
    ensures TextBefore(a, b) <==> Precedes(a, b)
  {
    if a != "" && b != "" && a[0] == b[0] {
      TextOrderIs(a[1..], b[1..]);
      if Precedes(a[1..], b[1..]) {
        var i :| 0 <= i <= |a| - 1 && i <= |b| - 1 && a[1..][..i] == b[1..][..i] && SmallerAt(a[1..], b[1..], i);
        assert a[..i + 1] == [a[0]] + a[1..][..i] && b[..i + 1] == [b[0]] + b[1..][..i];
        assert SmallerAt(a, b, i + 1);
      }
      if Precedes(a, b) {
        var i :| 0 <= i <= |a| && i <= |b| && a[..i] == b[..i] && SmallerAt(a, b, i);
        assert a[1..][..i - 1] == a[..i][1..] && b[1..][..i - 1] == b[..i][1..];
        assert SmallerAt(a[1..], b[1..], i - 1);
      }
    } else if TextBefore(a, b) {
      assert a[..0] == b[..0] && SmallerAt(a, b, 0);
    } else if Precedes(a, b) {
      var i :| 0 <= i <= |a| && i <= |b| && a[..i] == b[..i] && SmallerAt(a, b, i);
      SamePrefix(a, b, i);
    }
  }

  lemma SamePrefix(a: string, b: string, i: nat)
    requires i <= |a| && i <= |b| && a[..i] == b[..i]
    ensures i > 0 ==> a[0] == b[0]
  {
    if i > 0 {
      assert a[0] == a[..i][0] && b[0] == b[..i][0];
    }
  }

  /**
   Rows are delivered by receipt time, then device, boot and sequence number: in particular one boot's readings
   that arrived at one instant go out in the order they were taken.
   */
  lemma DeliveryOrder(a: Place, b: Place)
    ensures
      Sooner(a, b) <==>
      || Precedes(a.receivedAt, b.receivedAt)
      || (a.receivedAt == b.receivedAt &&
          (|| Precedes(a.id.device, b.id.device)
           || (a.id.device == b.id.device &&
               (|| Precedes(a.id.boot, b.id.boot)
                || (a.id.boot == b.id.boot && a.id.sequence < b.id.sequence)))))
  {
    hide TextBefore, Precedes;
    TextOrderIs(a.receivedAt, b.receivedAt);
    TextOrderIs(a.id.device, b.id.device);
    TextOrderIs(a.id.boot, b.id.boot);
    SameIsNotBefore(a.receivedAt);
    SameIsNotBefore(a.id.device);
    SameIsNotBefore(a.id.boot);
  }

  lemma SameIsNotBefore(s: string)
    ensures !Precedes(s, s)
  {
  }
}
