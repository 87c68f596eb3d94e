/** What ingestion makes of at-least-once delivery: exactly-once effect, and alerts that follow from what is stored. */
module IngestionProperties {
  import opened Options
  import opened Events
  import opened Telemetry
  import opened Outcomes
  import opened Ingestion
  import Alerts
  import AlertSpec
  import AlertTablesSpec

  // Rows are immutable

  /** Everything stored stays stored, unchanged. */
  ghost predicate Extends(later: Db, earlier: Db) {
    forall id :: id in earlier.telemetry ==> id in later.telemetry && later.telemetry[id] == earlier.telemetry[id]
  }

  lemma {:induction false} IngestExtends(db: Db, gateway: string, items: seq<Item>)
    ensures Extends(IngestItems(db, gateway, items).0, db)
  {
    hide Alerts.Evaluate;
    if items != [] {
      IngestExtends(db, gateway, items[..|items| - 1]);
    }
  }

  // Every answer is true of the database that gave it, and stays true

  /** The outcome reported for a reading, as a statement about the database. */
  predicate Answered(db: Db, gateway: string, item: Item, result: ResultItem) {
    match item
    case Refused(refusal) => result == refusal
    case Valid(reading, storable, _, _) =>
      var id := reading.id;
      && result == Named(id, result.outcome)
      && match result.outcome
         case Accepted => id in db.telemetry && db.telemetry[id].content == reading.content
         case Duplicate => id in db.telemetry && db.telemetry[id].content == reading.content
         case Rejected(UnknownDevice) => id.device !in db.devices
         case Rejected(WrongGateway) =>
           id.device in db.devices && (db.devices[id.device].gateway != gateway || !db.devices[id.device].enabled)
         case Rejected(MalformedValue) => !storable
         case Rejected(IdentityConflict) => id in db.telemetry && db.telemetry[id].content != reading.content
         case Rejected(_) => false
  }

  /** Only a storable reading of an eligible device gets past the registry and representation checks. */
  predicate Reaches(db: Db, gateway: string, item: Item, result: ResultItem) {
    item.Valid? &&
    (result.outcome.Accepted? || result.outcome.Duplicate? || result.outcome == Rejected(IdentityConflict)) ==>
      && item.storable && item.reading.id.device in db.devices
      && db.devices[item.reading.id.device].gateway == gateway && db.devices[item.reading.id.device].enabled
  }

  /** A malformed-value answer comes from the representation check, after the registry checks. */
  predicate Registered(db: Db, gateway: string, item: Item, result: ResultItem) {
    item.Valid? && result.outcome == Rejected(MalformedValue) ==>
      && item.reading.id.device in db.devices
      && db.devices[item.reading.id.device].gateway == gateway && db.devices[item.reading.id.device].enabled
  }

  predicate True(db: Db, gateway: string, item: Item, result: ResultItem) {
    Answered(db, gateway, item, result) && Reaches(db, gateway, item, result) && Registered(db, gateway, item, result)
  }

  lemma ItemAnswerIsTrue(db: Db, gateway: string, item: Item)
    ensures
      var (after, result) := IngestItem(db, gateway, item);
      True(after, gateway, item, result)
  {
    hide Alerts.Evaluate;
  }

  lemma AnswerStaysTrue(db: Db, later: Db, gateway: string, item: Item, result: ResultItem)
    requires True(db, gateway, item, result) && Extends(later, db) && SameRegistry(db, later)
    ensures True(later, gateway, item, result)
  {
    if item.Valid? {
      var d := item.reading.id.device;
      assert d in db.devices || d in later.devices ==> Assigned(db.devices, later.devices, d);
    }
  }

  lemma {:induction false} AnswersAreTrue(db: Db, gateway: string, items: seq<Item>)
    ensures
      var (after, results) := IngestItems(db, gateway, items);
      forall i :: 0 <= i < |items| ==> True(after, gateway, items[i], results[i])
  {
    hide IngestItem, True, SameRegistry;
    if items != [] {
      var n := |items| - 1;
      var (before, results) := IngestItems(db, gateway, items[..n]);
      var after := IngestItem(before, gateway, items[n]).0;
      AnswersAreTrue(db, gateway, items[..n]);
      ItemAnswerIsTrue(before, gateway, items[n]);
      IngestItemKeepsRegistry(before, gateway, items[n]);
      OneItemExtends(before, gateway, items[n]);
      forall i | 0 <= i < n ensures True(after, gateway, items[i], results[i]) {
        assert items[..n][i] == items[i];
        AnswerStaysTrue(before, after, gateway, items[i], results[i]);
      }
    }
  }

  lemma OneItemExtends(db: Db, gateway: string, item: Item)
    ensures Extends(IngestItem(db, gateway, item).0, db)
  {
    hide Alerts.Evaluate;
  }

  // Redelivery

  /** The same reading again; clocks and receipt time may differ. */
  predicate SameReading(a: Item, b: Item) {
    if a.Refused? || b.Refused? then a == b
    else a.reading.id == b.reading.id && a.reading.content == b.reading.content && a.storable == b.storable
  }

  function Repeated(result: ResultItem): ResultItem {
    if result.outcome.Accepted? then result.(outcome := Duplicate) else result
  }

  lemma RepeatedItem(db: Db, gateway: string, first: Item, again: Item, result: ResultItem)
    requires SameReading(first, again) && True(db, gateway, first, result)
    ensures first.Valid? ==> IngestItem(db, gateway, again) == (db, Repeated(result))
    ensures first.Refused? ==> IngestItem(db, gateway, again) == (db, result)
  {
  }

  /** The answers a redelivered batch gets. */
  function RepeatedAll(items: seq<Item>, results: seq<ResultItem>): (r: seq<ResultItem>)
    requires |items| == |results|
    ensures |r| == |results|
  {
    seq(|results|, i requires 0 <= i < |results| => if items[i].Valid? then Repeated(results[i]) else results[i])
  }

  lemma {:induction false} RepeatedItems(
      db: Db, gateway: string, first: seq<Item>, again: seq<Item>, results: seq<ResultItem>)
    requires |first| == |again| == |results|
    requires forall i :: 0 <= i < |first| ==>
      SameReading(first[i], again[i]) && True(db, gateway, first[i], results[i])
    ensures IngestItems(db, gateway, again) == (db, RepeatedAll(first, results))
    decreases |again|
  {
    hide IngestItem, True, SameReading, Repeated;
    if again != [] {
      var n := |again| - 1;
      forall i | 0 <= i < n
        ensures SameReading(first[..n][i], again[..n][i]) && True(db, gateway, first[..n][i], results[..n][i])
      {
        assert SameReading(first[i], again[i]) && True(db, gateway, first[i], results[i]);
      }
      RepeatedItems(db, gateway, first[..n], again[..n], results[..n]);
      RepeatedItem(db, gateway, first[n], again[n], results[n]);
      assert RepeatedAll(first, results) == RepeatedAll(first[..n], results[..n]) +
        [if first[n].Valid? then Repeated(results[n]) else results[n]];
    } else {
      assert RepeatedAll(first, results) == [];
    }
  }

  /**
   Exactly-once effect: redelivering a committed batch, any time later under an unchanged registry,
   changes nothing at all; what was accepted is answered duplicate and every other answer is repeated.
   */
  lemma RedeliveryChangesNothing(db: Db, later: Db, gateway: string, items: seq<Item>, again: seq<Item>)
    requires Eligible(db, gateway)
    requires
      var after := IngestItems(db, gateway, items).0;
      Extends(later, after) && SameRegistry(after, later)
    requires |again| == |items| && forall i :: 0 <= i < |items| ==> SameReading(items[i], again[i])
    ensures Ingest(later, gateway, again)
      == Ok((later, RepeatedAll(items, IngestItems(db, gateway, items).1)))
  {
    hide True, SameReading;
    var (after, results) := IngestItems(db, gateway, items);
    AnswersAreTrue(db, gateway, items);
    IngestKeepsRegistry(db, gateway, items);
    forall i | 0 <= i < |items| ensures True(later, gateway, items[i], results[i]) {
      AnswerStaysTrue(after, later, gateway, items[i], results[i]);
    }
    RepeatedItems(later, gateway, items, again, results);
  }

  // Splitting a batch

  /** One batch gives the same rows, states, episodes and answers as its two halves in a row. */
  lemma {:induction false} BatchSplits(db: Db, gateway: string, a: seq<Item>, b: seq<Item>)
    ensures
      var (middle, first) := IngestItems(db, gateway, a);
      var (after, second) := IngestItems(middle, gateway, b);
      IngestItems(db, gateway, a + b) == (after, first + second)
    decreases |b|
  {
    hide IngestItem;
    var (middle, first) := IngestItems(db, gateway, a);
    if b == [] {
      assert a + b == a;
      assert first + [] == first;
    } else {
      var n := |b| - 1;
      BatchSplits(db, gateway, a, b[..n]);
      var (during, second) := IngestItems(middle, gateway, b[..n]);
      var last := IngestItem(during, gateway, b[n]).1;
      assert first + second + [last] == first + (second + [last]);
      assert (a + b)[..|a + b| - 1] == a + b[..n] && (a + b)[|a + b| - 1] == b[n];
    }
  }

  // Answers name their items

  predicate NamesReading(item: Item, result: ResultItem) {
    item.Valid? ==>
      && result.device == Some(item.reading.id.device)
      && result.boot == Some(item.reading.id.boot)
      && result.sequence == Some(item.reading.id.sequence)
  }

  lemma AnswersNameTheirItems(db: Db, gateway: string, items: seq<Item>)
    ensures
      var results := IngestItems(db, gateway, items).1;
      && |results| == |items|
      && forall i :: 0 <= i < |items| ==>
           && NamesReading(items[i], results[i])
           && (items[i].Refused? ==> results[i] == items[i].result)
  {
    hide IngestItem;
    AnswersAreTrue(db, gateway, items);
    var (after, results) := IngestItems(db, gateway, items);
    forall i | 0 <= i < |items|
      ensures NamesReading(items[i], results[i]) && (items[i].Refused? ==> results[i] == items[i].result)
    {
      assert True(after, gateway, items[i], results[i]);
    }
  }

  // Alerts follow from the stored readings

  /** What the alert evaluation saw of a stored event. */
  function StoredSample(db: Db, id: Identity): AlertTablesSpec.Accepted
    requires id in db.telemetry
  {
    var row := db.telemetry[id];
    AlertTablesSpec.Accepted(id.device,
      Alerts.Sample(EventTime(row.content, row.gatewayReceivedAt), row.content.value, row.telemetryId,
                    row.backendReceivedAt))
  }

  function Samples(db: Db, order: seq<Identity>): (h: seq<AlertTablesSpec.Accepted>)
    requires forall id :: id in order ==> id in db.telemetry
    ensures |h| == |order|
    ensures forall i :: 0 <= i < |order| ==> h[i] == StoredSample(db, order[i])
  {
    seq(|order|, i requires 0 <= i < |order| => StoredSample(db, order[i]))
  }

  /** `order` lists every stored event by telemetry id, and replaying it gives the alert tables. */
  ghost predicate Explains(db: Db, order: seq<Identity>) {
    && (forall id :: id in order <==> id in db.telemetry)
    && (forall i, j :: 0 <= i < j < |order| ==>
          db.telemetry[order[i]].telemetryId < db.telemetry[order[j]].telemetryId)
    && db.alerts == AlertTablesSpec.EvaluateAll(Samples(db, order))
  }

  lemma SamplesSurvive(db: Db, later: Db, order: seq<Identity>)
    requires Extends(later, db) && forall id :: id in order ==> id in db.telemetry
    ensures forall id :: id in order ==> id in later.telemetry
    ensures Samples(later, order) == Samples(db, order)
  {
  }

  /** A stored reading is evaluated last, with the newest telemetry id. */
  lemma AcceptKeepsExplained(db: Db, reading: Reading, now: int, seenAt: int, order: seq<Identity>)
    requires SoundDb(db) && Explains(db, order)
    requires reading.id.device in db.devices && reading.id !in db.telemetry
    ensures Explains(Accept(db, reading, now, seenAt), order + [reading.id])
  {
    hide Alerts.Evaluate, AlertTablesSpec.Sound, Samples;
    var after, longer := Accept(db, reading, now, seenAt), order + [reading.id];
    assert Extends(after, db);
    SamplesSurvive(db, after, order);
    assert forall i :: 0 <= i < |order| ==> order[i] in order;
    assert Samples(after, longer)[..|order|] == Samples(db, order);
    assert Samples(after, longer)[|order|].sample == SampleOf(reading, db.nextTelemetry, now);
  }

  lemma ItemKeepsExplained(db: Db, gateway: string, item: Item, order: seq<Identity>) returns (longer: seq<Identity>)
    requires SoundDb(db) && Explains(db, order)
    ensures Explains(IngestItem(db, gateway, item).0, longer)
  {
    hide Accept, SoundDb, Explains;
    var (after, result) := IngestItem(db, gateway, item);
    if item.Valid? && result.outcome.Accepted? {
      AcceptKeepsExplained(db, item.reading, item.now, item.seenAt, order);
      longer := order + [item.reading.id];
    } else {
      longer := order;
    }
  }

  lemma {:induction false} IngestKeepsExplained(db: Db, gateway: string, items: seq<Item>, order: seq<Identity>)
    returns (longer: seq<Identity>)
    requires SoundDb(db) && Explains(db, order)
    ensures Explains(IngestItems(db, gateway, items).0, longer)
  {
    hide IngestItem, SoundDb, Explains;
    if items == [] {
      longer := order;
    } else {
      var n := |items| - 1;
      IngestKeepsSound(db, gateway, items[..n]);
      var during := IngestKeepsExplained(db, gateway, items[..n], order);
      longer := ItemKeepsExplained(IngestItems(db, gateway, items[..n]).0, gateway, items[n], during);
    }
  }

  // Whole runs of the backend

  /** A committed batch, or a change of the registry (gateways, devices, presence) by other means. */
  datatype Commit =
    | Batch(gateway: string, items: seq<Item>)
    | Registry(gateways: map<string, GatewayRow>, devices: map<string, DeviceRow>)

  function Committed(db: Db, c: Commit): Db {
    match c
    case Batch(gateway, items) => if Eligible(db, gateway) then IngestItems(db, gateway, items).0 else db
    case Registry(gateways, devices) => db.(gateways := gateways, devices := devices)
  }

  function After(db: Db, run: seq<Commit>): Db
    decreases |run|
  {
    if run == [] then db else After(Committed(db, run[0]), run[1..])
  }

  function EmptyDb(gateways: map<string, GatewayRow>, devices: map<string, DeviceRow>): Db {
    Db(gateways, devices, map[], 0, Alerts.NO_ALERTS)
  }

  lemma {:induction false} RunKeepsEverything(db: Db, run: seq<Commit>, order: seq<Identity>)
    returns (longer: seq<Identity>)
    requires SoundDb(db) && Explains(db, order)
    ensures SoundDb(After(db, run)) && Extends(After(db, run), db) && Explains(After(db, run), longer)
    decreases |run|
  {
    hide IngestItems, AlertTablesSpec.Sound, AlertTablesSpec.EvaluateAll;
    if run == [] {
      longer := order;
    } else {
      var next := Committed(db, run[0]);
      var during := order;
      if run[0].Batch? && Eligible(db, run[0].gateway) {
        IngestKeepsSound(db, run[0].gateway, run[0].items);
        IngestExtends(db, run[0].gateway, run[0].items);
        during := IngestKeepsExplained(db, run[0].gateway, run[0].items, order);
      } else {
        SamplesSurvive(db, next, order);
      }
      longer := RunKeepsEverything(next, run[1..], during);
    }
  }

  lemma {:induction false} ExplainedIsFresh(db: Db, order: seq<Identity>)
    requires Explains(db, order)
    ensures AlertTablesSpec.FreshIds(Samples(db, order))
  {
    assert forall i :: 0 <= i < |order| ==> order[i] in order;
  }

  /**
   In every reachable database the alert tables are what the stored readings specify, taken in the
   order they were stored: no constraint is violated, and each device's episodes are the specified ones.
   */
  lemma AlertsFollowFromTelemetry(
      gateways: map<string, GatewayRow>, devices: map<string, DeviceRow>, run: seq<Commit>, device: string)
    returns (order: seq<Identity>)
    ensures
      var db := After(EmptyDb(gateways, devices), run);
      && SoundDb(db) && AlertTablesSpec.Constraints(db.alerts)
      && Explains(db, order)
      && AlertTablesSpec.DeviceEpisodes(db.alerts, device, db.alerts.nextEpisode)
         == AlertSpec.Told(device, AlertSpec.Kept(AlertTablesSpec.Of(Samples(db, order), device)), 0).episodes
  {
    hide AlertTablesSpec.Sound, AlertTablesSpec.Constraints, AlertTablesSpec.DeviceEpisodes, AlertSpec.Told,
         AlertSpec.Kept, AlertTablesSpec.Of, After;
    var start := EmptyDb(gateways, devices);
    AlertTablesSpec.NothingIsSound();
    assert Samples(start, []) == [];
    assert AlertTablesSpec.EvaluateAll([]) == Alerts.NO_ALERTS;
    order := RunKeepsEverything(start, run, []);
    var db := After(start, run);
    ExplainedIsFresh(db, order);
    AlertTablesSpec.TablesMeetSpecification(Samples(db, order), device);
  }
}
