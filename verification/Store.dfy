/**
 The gateway's durable queue (gateway/src/sqlite/store.cpp): two tables keyed by event identity, and
 operations that are one transaction each.  `Insert`, `Claim`, `Release`, `ApplyAll` and `Recovered`
 say what each operation does to the tables; class `Store` is the program's form of them, with a
 storage fault possible at every statement.
 */
module Store {
  import opened Options
  import opened Ordering
  import opened Events
  import opened Deliveries

  datatype QueueState = Pending | InFlight

  datatype Row = Row(payload: string, receivedAt: string, state: QueueState, attempts: nat)

  datatype Quarantined = Quarantined(payload: string, receivedAt: string, attempts: nat, reason: string)

  datatype Tables = Tables(queue: map<Identity, Row>, quarantine: map<Identity, Quarantined>)

  /** A queued event as handed to the forwarder. */
  datatype Claim = Claim(event: Event, state: QueueState, attempts: nat)

  datatype InsertResult = Inserted | Duplicate | IdentityConflict

  datatype StoreFault =
    | StorageFault
    | InvalidLimit
    | AttemptOverflow
    | NotInFlight
    | SizeMismatch
    | MissingReason
    | UnexpectedReason
    | AlreadyQuarantined
    | ClaimChanged

  const MAX_BATCH := 500

  // Insert

  function Insert(t: Tables, e: Event): (Tables, InsertResult) {
    if e.id in t.quarantine then
      (t, if t.quarantine[e.id].payload == e.payload then InsertResult.Duplicate else IdentityConflict)
    else if e.id in t.queue then
      (t, if t.queue[e.id].payload == e.payload then InsertResult.Duplicate else IdentityConflict)
    else (t.(queue := t.queue[e.id := Row(e.payload, e.receivedAt, Pending, 0)]), Inserted)
  }

  // Claim

  /** A pending row's place in the queue. */
  datatype Place = Place(receivedAt: string, id: Identity)

  /** `ORDER BY gateway_received_at, device_id, boot_id, sequence_number`. */
  predicate Sooner(a: Place, b: Place) {
    if a.receivedAt != b.receivedAt then TextBefore(a.receivedAt, b.receivedAt)
    else if a.id.device != b.id.device then TextBefore(a.id.device, b.id.device)
    else if a.id.boot != b.id.boot then TextBefore(a.id.boot, b.id.boot)
    else a.id.sequence < b.id.sequence
  }

  lemma QueueOrder()
    ensures StrictTotalOrder(Sooner)
  {
    hide TextBefore;
    TextOrder();
    forall x, y, z | Sooner(x, y) && Sooner(y, z) ensures Sooner(x, z) {
    }
    forall x, y | x != y ensures Sooner(x, y) || Sooner(y, x) {
    }
  }

  function PendingPlaces(t: Tables): set<Place> {
    set id | id in t.queue && t.queue[id].state == Pending :: Place(t.queue[id].receivedAt, id)
  }

  /** `SELECT ... WHERE queue_state='pending' ORDER BY ... LIMIT limit`. */
  function FirstPending(t: Tables, limit: nat): (places: seq<Place>)
    ensures IsFirst(Sooner, PendingPlaces(t), limit, places)
  {
    assert StrictTotalOrder(Sooner) by { QueueOrder(); }
    First(Sooner, PendingPlaces(t), limit)
  }

  function IdsOf(places: seq<Place>): (ids: seq<Identity>)
    ensures |ids| == |places|
    ensures forall i :: 0 <= i < |ids| ==> ids[i] == places[i].id
  {
    seq(|places|, i requires 0 <= i < |places| => places[i].id)
  }

  /** The identities one claim takes, in delivery order. */
  function Head(t: Tables, limit: nat): (ids: seq<Identity>)
    ensures forall id :: id in ids ==> id in t.queue && t.queue[id].state == Pending
  {
    var places := FirstPending(t, limit);
    var ids := IdsOf(places);
    assert forall i :: 0 <= i < |ids| ==> places[i] in places;
    ids
  }

  function Taken(row: Row): Row {
    row.(state := InFlight, attempts := row.attempts + 1)
  }

  /** The queue with the given rows taken. */
  function Mark(queue: map<Identity, Row>, ids: seq<Identity>): map<Identity, Row> {
    map id | id in queue :: if id in ids then Taken(queue[id]) else queue[id]
  }

  function ClaimOf(t: Tables, id: Identity): Claim
    requires id in t.queue
  {
    var row := t.queue[id];
    Claim(Event(id, row.payload, row.receivedAt), row.state, row.attempts)
  }

  function ClaimsOf(t: Tables, ids: seq<Identity>): (claims: seq<Claim>)
    requires forall id :: id in ids ==> id in t.queue
    ensures |claims| == |ids|
    ensures forall i :: 0 <= i < |ids| ==> claims[i] == ClaimOf(t, ids[i])
  {
    seq(|ids|, i requires 0 <= i < |ids| => ClaimOf(t, ids[i]))
  }

  function ClaimHead(t: Tables, limit: nat): Result<(Tables, seq<Claim>), StoreFault> {
    if limit == 0 || limit > MAX_BATCH then Err(InvalidLimit)
    else
      var ids := Head(t, limit);
      if exists id :: id in ids && t.queue[id].attempts >= MAX_COUNTER then Err(AttemptOverflow)
      else
        var u := t.(queue := Mark(t.queue, ids));
        Ok((u, ClaimsOf(u, ids)))
  }

  // Release and outcomes

  /** The row is still held by exactly this claim. */
  predicate Holds(t: Tables, c: Claim) {
    && c.event.id in t.queue
    && t.queue[c.event.id].state == InFlight
    && t.queue[c.event.id].attempts == c.attempts
  }

  function SetPending(t: Tables, id: Identity): Tables
    requires id in t.queue
  {
    t.(queue := t.queue[id := t.queue[id].(state := Pending)])
  }

  function Release(t: Tables, c: Claim): (Tables, bool) {
    if Holds(t, c) then (SetPending(t, c.event.id), true) else (t, false)
  }

  function ApplyOne(t: Tables, c: Claim, d: Decision): Result<Tables, StoreFault> {
    var id := c.event.id;
    if c.state != InFlight || c.attempts == 0 then Err(NotInFlight)
    else if d.action == Action.Rejected && d.reason == "" then Err(MissingReason)
    else if d.action == Action.Rejected && id in t.quarantine then Err(AlreadyQuarantined)
    else if d.action != Action.Rejected && d.reason != "" then Err(UnexpectedReason)
    else if !Holds(t, c) then Err(ClaimChanged)
    else if d.action == Retry then Ok(SetPending(t, id))
    else
      Ok(Tables(
        t.queue - {id},
        if d.action == Action.Rejected then
          t.quarantine[id := Quarantined(c.event.payload, c.event.receivedAt, c.attempts, d.reason)]
        else t.quarantine))
  }

  /** The transaction's loop: all decisions in order, or the first one that throws. */
  function ApplyAll(t: Tables, claims: seq<Claim>, decisions: seq<Decision>): Result<Tables, StoreFault>
    requires |claims| == |decisions|
    decreases |claims|
  {
    var n := |claims|;
    if n == 0 then Ok(t)
    else
      match ApplyAll(t, claims[..n - 1], decisions[..n - 1])
      case Err(f) => Err(f)
      case Ok(u) => ApplyOne(u, claims[n - 1], decisions[n - 1])
  }

  function Apply(t: Tables, claims: seq<Claim>, decisions: seq<Decision>): Result<Tables, StoreFault> {
    if |claims| != |decisions| || |claims| == 0 || |claims| > MAX_BATCH then Err(SizeMismatch)
    else ApplyAll(t, claims, decisions)
  }

  // Restart

  /** Start-up returns abandoned claims to the queue. */
  function Recovered(t: Tables): Tables {
    t.(queue := map id | id in t.queue :: t.queue[id].(state := Pending))
  }

  // The program's form

  class Store {
    var queue: map<Identity, Row>
    var quarantine: map<Identity, Quarantined>

    ghost function View(): Tables
      reads this
    {
      Tables(queue, quarantine)
    }

    /** Opens the database a previous process left behind. */
    constructor (disk: Tables)
      ensures View() == Recovered(disk)
    {
      queue := map id | id in disk.queue :: disk.queue[id].(state := Pending);
      quarantine := disk.quarantine;
    }

    /** `fault` makes some statement of the transaction fail. */
    method InsertEvent(e: Event, fault: bool) returns (r: Result<InsertResult, StoreFault>)
      modifies this
      ensures fault ==> r == Err(StorageFault) && View() == old(View())
      ensures !fault ==> r == Ok(Insert(old(View()), e).1) && View() == Insert(old(View()), e).0
    {
      if fault {
        return Err(StorageFault);
      }
      if e.id in quarantine {
        return Ok(if quarantine[e.id].payload == e.payload then InsertResult.Duplicate else IdentityConflict);
      }
      if e.id !in queue {
        queue := queue[e.id := Row(e.payload, e.receivedAt, Pending, 0)];
        return Ok(Inserted);
      }
      return Ok(if queue[e.id].payload == e.payload then InsertResult.Duplicate else IdentityConflict);
    }

    /** `faultAt` names the row whose update fails, the row count meaning the commit itself. */
    method ClaimPending(limit: nat, faultAt: Option<nat>) returns (r: Result<seq<Claim>, StoreFault>)
      modifies this
      ensures faultAt.Some? ==> r.Err? && View() == old(View())
      ensures faultAt.None? ==>
        match ClaimHead(old(View()), limit)
        case Err(f) => r == Err(f) && View() == old(View())
        case Ok((after, claims)) => r == Ok(claims) && View() == after
    {
      hide Head, Mark;
      if limit == 0 || limit > MAX_BATCH {
        return Err(InvalidLimit);
      }
      var savepoint := queue;
      ghost var before := View();
      var ids := Head(Tables(queue, quarantine), limit);
      HeadHasNoRepeats(before, limit);
      var rows: seq<Claim> := [];
      MarkNothing(savepoint);
      for i := 0 to |ids|
        invariant quarantine == old(quarantine)
        invariant queue == Mark(savepoint, ids[..i])
        invariant |rows| == i
        invariant forall j :: 0 <= j < i ==> savepoint[ids[j]].attempts < MAX_COUNTER
        invariant forall j :: 0 <= j < i ==> rows[j] == TakenClaim(savepoint, ids[j])
      {
        var id := ids[i];
        MarkSnoc(savepoint, ids, i);
        if queue[id].attempts >= MAX_COUNTER {
          queue := savepoint;
          return Err(AttemptOverflow);
        }
        if faultAt == Some(i) {
          queue := savepoint;
          return Err(StorageFault);
        }
        var row := Taken(queue[id]);
        queue := queue[id := row];
        rows := rows + [Claim(Event(id, row.payload, row.receivedAt), row.state, row.attempts)];
      }
      assert ids[..|ids|] == ids;
      if faultAt.Some? {
        queue := savepoint;
        return Err(StorageFault);
      }
      MarkedClaims(before, ids);
      assert rows == ClaimsOf(View(), ids);
      return Ok(rows);
    }

    method ReleaseClaim(c: Claim, fault: bool) returns (r: Result<bool, StoreFault>)
      modifies this
      ensures c.state != InFlight ==> r == Err(NotInFlight) && View() == old(View())
      ensures c.state == InFlight && fault ==> r == Err(StorageFault) && View() == old(View())
      ensures c.state == InFlight && !fault ==>
        r == Ok(Release(old(View()), c).1) && View() == Release(old(View()), c).0
    {
      if c.state != InFlight {
        return Err(NotInFlight);
      }
      if fault {
        return Err(StorageFault);
      }
      var id := c.event.id;
      if id in queue && queue[id].state == InFlight && queue[id].attempts == c.attempts {
        queue := queue[id := queue[id].(state := Pending)];
        return Ok(true);
      }
      return Ok(false);
    }

    /** A throw anywhere rolls both tables back. */
    method ApplyDecisions(claims: seq<Claim>, decisions: seq<Decision>, faultAt: Option<nat>)
      returns (r: Result<(), StoreFault>)
      modifies this
      ensures faultAt.Some? ==> r.Err? && View() == old(View())
      ensures faultAt.None? ==>
        match Apply(old(View()), claims, decisions)
        case Err(f) => r == Err(f) && View() == old(View())
        case Ok(after) => r == Ok(()) && View() == after
    {
      if |claims| != |decisions| || |claims| == 0 || |claims| > MAX_BATCH {
        return Err(SizeMismatch);
      }
      var savedQueue, savedQuarantine := queue, quarantine;
      ghost var before := View();
      for i := 0 to |claims|
        invariant ApplyAll(before, claims[..i], decisions[..i]) == Ok(View())
      {
        if faultAt == Some(i) {
          queue, quarantine := savedQueue, savedQuarantine;
          return Err(StorageFault);
        }
        PrefixStep(before, claims, decisions, i);
        var failed := ApplyRow(claims[i], decisions[i]);
        if failed.Some? {
          PrefixError(before, claims, decisions, i + 1);
          queue, quarantine := savedQueue, savedQuarantine;
          return Err(failed.value);
        }
      }
      assert claims[..|claims|] == claims && decisions[..|claims|] == decisions;
      if faultAt.Some? {
        queue, quarantine := savedQueue, savedQuarantine;
        return Err(StorageFault);
      }
      return Ok(());
    }

    /** One turn of the loop: the quarantine copy, then the fenced update or delete. */
    method ApplyRow(c: Claim, d: Decision) returns (failed: Option<StoreFault>)
      modifies this
      ensures
        match ApplyOne(old(View()), c, d)
        case Err(f) => failed == Some(f)
        case Ok(u) => failed == None && View() == u
    {
      var id := c.event.id;
      if c.state != InFlight || c.attempts == 0 {
        return Some(NotInFlight);
      }
      if d.action == Action.Rejected {
        if d.reason == "" {
          return Some(MissingReason);
        }
        if id in quarantine {
          return Some(AlreadyQuarantined);
        }
        quarantine := quarantine[id := Quarantined(c.event.payload, c.event.receivedAt, c.attempts, d.reason)];
      } else if d.reason != "" {
        return Some(UnexpectedReason);
      }
      if id !in queue || queue[id].state != InFlight || queue[id].attempts != c.attempts {
        return Some(ClaimChanged);
      }
      if d.action == Retry {
        queue := queue[id := queue[id].(state := Pending)];
      } else {
        queue := queue - {id};
      }
      return None;
    }
  }

  lemma PrefixStep(t: Tables, claims: seq<Claim>, decisions: seq<Decision>, i: nat)
    requires i < |claims| == |decisions| && ApplyAll(t, claims[..i], decisions[..i]).Ok?
    ensures ApplyAll(t, claims[..i + 1], decisions[..i + 1])
      == ApplyOne(ApplyAll(t, claims[..i], decisions[..i]).value, claims[i], decisions[i])
  {
    hide ApplyOne;
    assert claims[..i + 1][..i] == claims[..i] && decisions[..i + 1][..i] == decisions[..i];
  }

  lemma {:induction false} PrefixError(t: Tables, claims: seq<Claim>, decisions: seq<Decision>, k: nat)
    requires k <= |claims| == |decisions| && ApplyAll(t, claims[..k], decisions[..k]).Err?
    ensures ApplyAll(t, claims, decisions) == ApplyAll(t, claims[..k], decisions[..k])
    decreases |claims|
  {
    hide ApplyOne;
    var n := |claims|;
    if k == n {
      assert claims[..k] == claims && decisions[..k] == decisions;
    } else {
      assert claims[..n - 1][..k] == claims[..k] && decisions[..n - 1][..k] == decisions[..k];
      PrefixError(t, claims[..n - 1], decisions[..n - 1], k);
    }
  }

  // Claims take the head of the queue

  lemma HeadHasNoRepeats(t: Tables, limit: nat)
    ensures forall i, j :: 0 <= i < j < |Head(t, limit)| ==> Head(t, limit)[i] != Head(t, limit)[j]
  {
    hide Sooner;
    var places := FirstPending(t, limit);
    QueueOrder();
    AscendingHasNoRepeats(Sooner, places);
    forall i, j | 0 <= i < j < |places| ensures places[i].id != places[j].id {
      assert places[i] in places && places[j] in places;
    }
  }

  /** The claim a row becomes when it is taken. */
  function TakenClaim(queue: map<Identity, Row>, id: Identity): Claim
    requires id in queue
  {
    var row := Taken(queue[id]);
    Claim(Event(id, row.payload, row.receivedAt), row.state, row.attempts)
  }

  lemma MarkNothing(queue: map<Identity, Row>)
    ensures Mark(queue, []) == queue
  {
  }

  /** Taking rows one by one marks them all. */
  lemma MarkSnoc(queue: map<Identity, Row>, ids: seq<Identity>, i: nat)
    requires i < |ids| && ids[i] in queue
    requires forall j, k :: 0 <= j < k < |ids| ==> ids[j] != ids[k]
    ensures ids[i] in Mark(queue, ids[..i]) && Mark(queue, ids[..i])[ids[i]] == queue[ids[i]]
    ensures Mark(queue, ids[..i + 1]) == Mark(queue, ids[..i])[ids[i] := Taken(queue[ids[i]])]
  {
    assert ids[..i + 1] == ids[..i] + [ids[i]];
  }

  lemma MarkedClaims(t: Tables, ids: seq<Identity>)
    requires forall id :: id in ids ==> id in t.queue
    ensures
      var u := t.(queue := Mark(t.queue, ids));
      forall i :: 0 <= i < |ids| ==> ids[i] in u.queue && ClaimOf(u, ids[i]) == TakenClaim(t.queue, ids[i])
  {
    forall i | 0 <= i < |ids| ensures ids[i] in ids {
    }
  }

  function PendingIds(t: Tables): set<Identity> {
    set id | id in t.queue && t.queue[id].state == Pending
  }

  lemma {:induction false} PlacesCount(t: Tables, ids: set<Identity>)
    requires ids <= PendingIds(t)
    ensures |set id | id in ids :: Place(t.queue[id].receivedAt, id)| == |ids|
  {
    var places := set id | id in ids :: Place(t.queue[id].receivedAt, id);
    if ids != {} {
      var x :| x in ids;
      var rest := set id | id in ids - {x} :: Place(t.queue[id].receivedAt, id);
      PlacesCount(t, ids - {x});
      assert places == rest + {Place(t.queue[x].receivedAt, x)};
    }
  }
}
