/**
 What the answers of a batch say about delivery: exactly one item is answered accepted for every event the
 batch brings in, and everything that comes after it, or was there before it, is compared with that row.
 */
module Acceptance {
  import opened Options
  import opened Events
  import opened Telemetry
  import opened Outcomes
  import opened Ingestion
  import opened IngestionProperties
  import Alerts

  /** The item carries a reading with this identity past the registry and representation checks. */
  predicate Brings(db: Db, gateway: string, item: Item, id: Identity) {
    && item.Valid? && item.reading.id == id && item.storable
    && id.device in db.devices && db.devices[id.device].gateway == gateway && db.devices[id.device].enabled
  }

  /** The item at `i` is the first that brings the event in. */
  predicate IsFirst(db: Db, gateway: string, items: seq<Item>, id: Identity, i: nat)
    requires i < |items|
  {
    && items[i].Valid? && id !in db.telemetry && Brings(db, gateway, items[i], id)
    && forall j :: 0 <= j < i ==> !Brings(db, gateway, items[j], id)
  }

  lemma BringsIsStable(db: Db, during: Db, gateway: string, item: Item, id: Identity)
    requires SameRegistry(db, during)
    ensures Brings(db, gateway, item, id) <==> Brings(during, gateway, item, id)
  {
    assert id.device in db.devices || id.device in during.devices ==> Assigned(db.devices, during.devices, id.device);
  }

  // One item

  /** An item stores its reading exactly when it is answered accepted, and then as the row it carries. */
  lemma ItemStores(db: Db, gateway: string, item: Item, id: Identity)
    ensures
      var (after, result) := IngestItem(db, gateway, item);
      var stores := Brings(db, gateway, item, id) && id !in db.telemetry;
      && (id in after.telemetry <==> id in db.telemetry || stores)
      && (item.Valid? && item.reading.id == id ==> (result.outcome.Accepted? <==> stores))
      && (stores ==>
            after.telemetry[id]
            == EventRow(db.nextTelemetry, item.reading.content, item.reading.gatewayReceivedAt, item.now))
  {
    hide Alerts.Evaluate;
  }

  // A whole batch

  predicate SomeBrings(db: Db, gateway: string, items: seq<Item>, id: Identity) {
    exists i :: 0 <= i < |items| && Brings(db, gateway, items[i], id)
  }

  lemma SomeBringsSnoc(db: Db, gateway: string, items: seq<Item>, id: Identity)
    requires items != []
    ensures
      var n := |items| - 1;
      SomeBrings(db, gateway, items, id) <==>
      SomeBrings(db, gateway, items[..n], id) || Brings(db, gateway, items[n], id)
  {
    hide Brings;
    var n := |items| - 1;
    if i :| 0 <= i < n && Brings(db, gateway, items[i], id) {
      assert items[..n][i] == items[i];
    }
  }

  /** After a batch exactly the events stored before it and those it brings in are there. */
  lemma {:induction false} BatchStores(db: Db, gateway: string, items: seq<Item>, id: Identity)
    ensures
      id in IngestItems(db, gateway, items).0.telemetry <==>
      id in db.telemetry || SomeBrings(db, gateway, items, id)
  {
    hide IngestItem, Brings, SomeBrings;
    if items == [] {
      assert !SomeBrings(db, gateway, items, id) by { NothingBrings(db, gateway, id); }
    } else {
      var n := |items| - 1;
      var during := IngestItems(db, gateway, items[..n]).0;
      BatchStores(db, gateway, items[..n], id);
      IngestKeepsRegistry(db, gateway, items[..n]);
      BringsIsStable(db, during, gateway, items[n], id);
      ItemStores(during, gateway, items[n], id);
      SomeBringsSnoc(db, gateway, items, id);
    }
  }

  lemma NothingBrings(db: Db, gateway: string, id: Identity)
    ensures !SomeBrings(db, gateway, [], id)
  {
  }

  /**
   The answer accepted, exactly: an item gets it if and only if its event was not stored before the batch and
   it is the first item of the batch to bring it in.
   */
  lemma {:induction false} AcceptedIsTheFirst(db: Db, gateway: string, items: seq<Item>, i: nat)
    requires i < |items| && items[i].Valid?
    ensures
      IngestItems(db, gateway, items).1[i].outcome.Accepted? <==>
      IsFirst(db, gateway, items, items[i].reading.id, i)
    decreases |items|
  {
    hide IngestItem, Brings;
    var n, id := |items| - 1, items[i].reading.id;
    if i < n {
      AcceptedIsTheFirst(db, gateway, items[..n], i);
      assert items[..n][i] == items[i];
      assert IsFirst(db, gateway, items[..n], id, i) <==> IsFirst(db, gateway, items, id, i) by {
        assert forall j :: 0 <= j < n ==> items[..n][j] == items[j];
      }
    } else {
      var during := IngestItems(db, gateway, items[..n]).0;
      BatchStores(db, gateway, items[..n], id);
      IngestKeepsRegistry(db, gateway, items[..n]);
      BringsIsStable(db, during, gateway, items[n], id);
      ItemStores(during, gateway, items[n], id);
      assert forall j :: 0 <= j < n ==> items[..n][j] == items[j];
    }
  }

  /** The row a batch stores is the first bringing item's own. */
  lemma {:induction false} StoredIsTheFirst(db: Db, gateway: string, items: seq<Item>, id: Identity, i: nat)
    requires i < |items| && IsFirst(db, gateway, items, id, i)
    ensures
      var after := IngestItems(db, gateway, items).0;
      && id in after.telemetry
      && after.telemetry[id].content == items[i].reading.content
      && after.telemetry[id].gatewayReceivedAt == items[i].reading.gatewayReceivedAt
      && after.telemetry[id].backendReceivedAt == items[i].now
    decreases |items|
  {
    hide IngestItem, Brings;
    var n := |items| - 1;
    var during := IngestItems(db, gateway, items[..n]).0;
    assert forall j :: 0 <= j < n ==> items[..n][j] == items[j];
    OneItemExtends(during, gateway, items[n]);
    if i < n {
      assert IsFirst(db, gateway, items[..n], id, i);
      StoredIsTheFirst(db, gateway, items[..n], id, i);
    } else {
      BatchStores(db, gateway, items[..n], id);
      IngestKeepsRegistry(db, gateway, items[..n]);
      BringsIsStable(db, during, gateway, items[n], id);
      ItemStores(during, gateway, items[n], id);
      assert items[n].reading.id == id by { BroughtId(db, gateway, items[n], id); }
    }
  }

  lemma BroughtId(db: Db, gateway: string, item: Item, id: Identity)
    requires Brings(db, gateway, item, id)
    ensures item.Valid? && item.reading.id == id
  {
  }

  lemma {:induction false} FirstExists(db: Db, gateway: string, items: seq<Item>, id: Identity) returns (i: nat)
    requires id !in db.telemetry && SomeBrings(db, gateway, items, id)
    ensures i < |items| && IsFirst(db, gateway, items, id, i)
  {
    hide Brings;
    var n := |items| - 1;
    SomeBringsSnoc(db, gateway, items, id);
    assert forall j :: 0 <= j < n ==> items[..n][j] == items[j];
    if SomeBrings(db, gateway, items[..n], id) {
      i := FirstExists(db, gateway, items[..n], id);
    } else {
      i := n;
      BroughtId(db, gateway, items[n], id);
      forall j | 0 <= j < n ensures !Brings(db, gateway, items[j], id) {
        assert items[..n][j] == items[j];
      }
    }
  }

  /** The item's event is there before the item is looked at, with this content. */
  ghost predicate SeenBefore(db: Db, gateway: string, items: seq<Item>, i: nat, content: Content)
    requires i < |items| && items[i].Valid?
  {
    var id := items[i].reading.id;
    || (id in db.telemetry && db.telemetry[id].content == content)
    || (exists j :: 0 <= j < i && IsFirst(db, gateway, items, id, j) && items[j].reading.content == content)
  }

  /** What the last item finds. */
  lemma LastItemSees(db: Db, gateway: string, items: seq<Item>)
    requires items != [] && items[|items| - 1].Valid?
    ensures
      var n := |items| - 1;
      var during, id := IngestItems(db, gateway, items[..n]).0, items[n].reading.id;
      forall content ::
        SeenBefore(db, gateway, items, n, content) <==>
        id in during.telemetry && during.telemetry[id].content == content
  {
    hide IngestItem, Brings;
    var n := |items| - 1;
    var prefix, id := items[..n], items[n].reading.id;
    var during := IngestItems(db, gateway, prefix).0;
    assert forall j :: 0 <= j < n ==> prefix[j] == items[j];
    assert forall j :: 0 <= j < n ==> (IsFirst(db, gateway, prefix, id, j) <==> IsFirst(db, gateway, items, id, j));
    BatchStores(db, gateway, prefix, id);
    IngestExtends(db, gateway, prefix);
    forall j | 0 <= j < n && IsFirst(db, gateway, prefix, id, j)
      ensures id in during.telemetry && during.telemetry[id].content == items[j].reading.content
    {
      StoredIsTheFirst(db, gateway, prefix, id, j);
    }
    if id !in db.telemetry && SomeBrings(db, gateway, prefix, id) {
      var j := FirstExists(db, gateway, prefix, id);
      assert IsFirst(db, gateway, items, id, j);
    }
  }

  /** The answers to an item whose event is already there. */
  lemma ItemCompares(db: Db, gateway: string, item: Item)
    requires item.Valid?
    ensures
      var (outcome, id) := (IngestItem(db, gateway, item).1.outcome, item.reading.id);
      var there := Brings(db, gateway, item, id) && id in db.telemetry;
      && (outcome.Duplicate? <==> there && db.telemetry[id].content == item.reading.content)
      && (outcome == Rejected(IdentityConflict) <==> there && db.telemetry[id].content != item.reading.content)
  {
    hide Alerts.Evaluate;
  }

  /**
   The answers duplicate and identity conflict, exactly: the item gets past the checks, and its event is there,
   from before the batch or from an earlier item, with equal content or with other content.
   */
  lemma {:induction false} RepeatsAreCompared(db: Db, gateway: string, items: seq<Item>, i: nat)
    requires i < |items| && items[i].Valid?
    ensures
      var outcome, reading := IngestItems(db, gateway, items).1[i].outcome, items[i].reading;
      var passes := Brings(db, gateway, items[i], reading.id);
      && (outcome.Duplicate? <==> passes && SeenBefore(db, gateway, items, i, reading.content))
      && (outcome == Rejected(IdentityConflict) <==>
          passes && exists other :: other != reading.content && SeenBefore(db, gateway, items, i, other))
    decreases |items|
  {
    hide IngestItem, Brings;
    var n := |items| - 1;
    assert forall j :: 0 <= j < n ==> items[..n][j] == items[j];
    if i < n {
      RepeatsAreCompared(db, gateway, items[..n], i);
      var id := items[i].reading.id;
      assert forall j :: 0 <= j < n ==>
        (IsFirst(db, gateway, items[..n], id, j) <==> IsFirst(db, gateway, items, id, j));
      assert forall content ::
        SeenBefore(db, gateway, items[..n], i, content) <==> SeenBefore(db, gateway, items, i, content);
    } else {
      var during := IngestItems(db, gateway, items[..n]).0;
      LastItemSees(db, gateway, items);
      IngestKeepsRegistry(db, gateway, items[..n]);
      BringsIsStable(db, during, gateway, items[n], items[n].reading.id);
      ItemCompares(during, gateway, items[n]);
      var id := items[n].reading.id;
      assert id in during.telemetry ==> SeenBefore(db, gateway, items, n, during.telemetry[id].content);
    }
  }

  /** The other rejections, exactly, by the registry the batch found. */
  lemma ItemRefuses(db: Db, gateway: string, item: Item)
    requires item.Valid?
    ensures
      var (outcome, d) := (IngestItem(db, gateway, item).1.outcome, item.reading.id.device);
      var ours := d in db.devices && db.devices[d].gateway == gateway && db.devices[d].enabled;
      && (outcome == Rejected(UnknownDevice) <==> d !in db.devices)
      && (outcome == Rejected(WrongGateway) <==> d in db.devices && !ours)
      && (outcome == Rejected(MalformedValue) <==> ours && !item.storable)
  {
    hide Alerts.Evaluate;
  }

  lemma {:induction false} RefusalsAreExact(db: Db, gateway: string, items: seq<Item>, i: nat)
    requires i < |items| && items[i].Valid?
    ensures
      var outcome, d := IngestItems(db, gateway, items).1[i].outcome, items[i].reading.id.device;
      var ours := d in db.devices && db.devices[d].gateway == gateway && db.devices[d].enabled;
      && (outcome == Rejected(UnknownDevice) <==> d !in db.devices)
      && (outcome == Rejected(WrongGateway) <==> d in db.devices && !ours)
      && (outcome == Rejected(MalformedValue) <==> ours && !items[i].storable)
    decreases |items|
  {
    hide IngestItem;
    var n := |items| - 1;
    if i < n {
      assert items[..n][i] == items[i];
      RefusalsAreExact(db, gateway, items[..n], i);
    } else {
      var during, d := IngestItems(db, gateway, items[..n]).0, items[n].reading.id.device;
      IngestKeepsRegistry(db, gateway, items[..n]);
      assert d in db.devices || d in during.devices ==> Assigned(db.devices, during.devices, d);
      ItemRefuses(during, gateway, items[n]);
    }
  }

  // Over whole runs

  /** How often the event is answered accepted in one batch. */
  function Acceptances(items: seq<Item>, results: seq<ResultItem>, id: Identity): nat
    requires |items| == |results|
  {
    if items == [] then 0
    else
      var n := |items| - 1;
      Acceptances(items[..n], results[..n], id)
      + if items[n].Valid? && items[n].reading.id == id && results[n].outcome.Accepted? then 1 else 0
  }

  /** And over a run of committed batches. */
  function RunAcceptances(db: Db, run: seq<Commit>, id: Identity): nat
    decreases |run|
  {
    if run == [] then 0
    else
      var c := run[0];
      (if c.Batch? && Eligible(db, c.gateway) then
         Acceptances(c.items, IngestItems(db, c.gateway, c.items).1, id)
       else 0)
      + RunAcceptances(Committed(db, c), run[1..], id)
  }

  function New(db: Db, after: Db, id: Identity): nat {
    if id in after.telemetry && id !in db.telemetry then 1 else 0
  }

  lemma {:induction false} BatchAcceptsOnce(db: Db, gateway: string, items: seq<Item>, id: Identity)
    ensures
      var (after, results) := IngestItems(db, gateway, items);
      Acceptances(items, results, id) == New(db, after, id)
  {
    hide IngestItem;
    if items != [] {
      var n := |items| - 1;
      var (during, results) := IngestItems(db, gateway, items[..n]);
      BatchAcceptsOnce(db, gateway, items[..n], id);
      IngestExtends(db, gateway, items[..n]);
      OneItemExtends(during, gateway, items[n]);
      ItemStores(during, gateway, items[n], id);
      assert IngestItems(db, gateway, items).1[..n] == results;
    }
  }

  /**
   Each event is accepted exactly once: over any run of batches and registry changes, however often it is
   delivered, an event that was not stored at the start is answered accepted once if it is stored at the end
   and never if it is not; one that was stored at the start is never accepted.
   */
  lemma {:induction false} AcceptedExactlyOnce(db: Db, run: seq<Commit>, id: Identity)
    ensures RunAcceptances(db, run, id) == New(db, After(db, run), id)
    decreases |run|
  {
    hide IngestItems, Acceptances;
    if run != [] {
      var c, next := run[0], Committed(db, run[0]);
      AcceptedExactlyOnce(next, run[1..], id);
      RunExtends(next, run[1..]);
      if c.Batch? && Eligible(db, c.gateway) {
        BatchAcceptsOnce(db, c.gateway, c.items, id);
        IngestExtends(db, c.gateway, c.items);
      }
    }
  }

  lemma {:induction false} RunExtends(db: Db, run: seq<Commit>)
    ensures Extends(After(db, run), db)
    decreases |run|
  {
    hide IngestItems;
    if run != [] {
      RunExtends(Committed(db, run[0]), run[1..]);
      if run[0].Batch? {
        IngestExtends(db, run[0].gateway, run[0].items);
      }
    }
  }
}
