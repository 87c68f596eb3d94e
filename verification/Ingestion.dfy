/**
 Batch ingestion (backend/app/telemetry/service.py and repository.py): classify, insert or compare,
 evaluate alerts, and commit everything before answering.
 */
module Ingestion {
  import opened Options
  import opened Events
  import opened Telemetry
  import opened Outcomes
  import Alerts
  import AlertTablesSpec

  datatype GatewayRow = GatewayRow(enabled: bool, siteEnabled: bool)

  datatype DeviceRow = DeviceRow(gateway: string, enabled: bool, lastSeenAt: Option<int>)

  /** A stored event; its identity is the key of the telemetry table. */
  datatype EventRow = EventRow(telemetryId: nat, content: Content, gatewayReceivedAt: int, backendReceivedAt: int)

  datatype Db = Db(
    gateways: map<string, GatewayRow>,
    devices: map<string, DeviceRow>,
    telemetry: map<Identity, EventRow>,
    nextTelemetry: nat,
    alerts: Alerts.AlertTables)

  /**
   A batch item after validation: a reading, or the rejection validation already gave it.  `storable`
   tells whether the database can represent the reading; `now` and `seenAt` are the database clock at
   its insert and at its presence update.
   */
  datatype Item =
    | Valid(reading: Reading, storable: bool, now: int, seenAt: int)
    | Refused(result: ResultItem)

  datatype IngestFault = Forbidden | Unavailable

  function Named(id: Identity, outcome: Outcome): ResultItem {
    ResultItem(Some(id.device), Some(id.boot), Some(id.sequence), outcome)
  }

  predicate Eligible(db: Db, gateway: string) {
    gateway in db.gateways && db.gateways[gateway].enabled && db.gateways[gateway].siteEnabled
  }

  const PRESENCE_WINDOW := 90 * SECOND

  function SampleOf(reading: Reading, telemetryId: nat, now: int): Alerts.Sample {
    Alerts.Sample(EventTime(reading.content, reading.gatewayReceivedAt), reading.content.value, telemetryId, now)
  }

  predicate Recent(reading: Reading, now: int) {
    0 <= now - reading.gatewayReceivedAt <= PRESENCE_WINDOW
  }

  /** A new reading: its row, its alert evaluation, and presence when the gateway just received it. */
  function Accept(db: Db, reading: Reading, now: int, seenAt: int): Db
    requires reading.id.device in db.devices
  {
    var device := reading.id.device;
    db.(
      telemetry := db.telemetry[reading.id :=
        EventRow(db.nextTelemetry, reading.content, reading.gatewayReceivedAt, now)],
      nextTelemetry := db.nextTelemetry + 1,
      alerts := Alerts.Evaluate(db.alerts, device, SampleOf(reading, db.nextTelemetry, now)),
      devices :=
        if Recent(reading, now) then db.devices[device := db.devices[device].(lastSeenAt := Some(seenAt))]
        else db.devices)
  }

  function IngestItem(db: Db, gateway: string, item: Item): (Db, ResultItem) {
    match item
    case Refused(result) => (db, result)
    case Valid(reading, storable, now, seenAt) =>
      var id := reading.id;
      if id.device !in db.devices then (db, Named(id, Rejected(UnknownDevice)))
      else if db.devices[id.device].gateway != gateway || !db.devices[id.device].enabled then
        (db, Named(id, Rejected(WrongGateway)))
      else if !storable then (db, Named(id, Rejected(MalformedValue)))
      else if id !in db.telemetry then (Accept(db, reading, now, seenAt), Named(id, Accepted))
      else if db.telemetry[id].content == reading.content then (db, Named(id, Duplicate))
      else (db, Named(id, Rejected(IdentityConflict)))
  }

  function IngestItems(db: Db, gateway: string, items: seq<Item>): (r: (Db, seq<ResultItem>))
    ensures |r.1| == |items|
  {
    if items == [] then (db, [])
    else
      var (before, results) := IngestItems(db, gateway, items[..|items| - 1]);
      var (after, result) := IngestItem(before, gateway, items[|items| - 1]);
      (after, results + [result])
  }

  function Ingest(db: Db, gateway: string, items: seq<Item>): Result<(Db, seq<ResultItem>), IngestFault> {
    if !Eligible(db, gateway) then Err(Forbidden) else Ok(IngestItems(db, gateway, items))
  }

  /** What every committed database satisfies. */
  predicate SoundDb(db: Db) {
    && AlertTablesSpec.Sound(db.alerts, db.nextTelemetry)
    && (forall id :: id in db.telemetry ==> db.telemetry[id].telemetryId < db.nextTelemetry)
    && (forall a, b :: a in db.telemetry && b in db.telemetry && a != b ==>
          db.telemetry[a].telemetryId != db.telemetry[b].telemetryId)
  }

  lemma IngestItemKeepsSound(db: Db, gateway: string, item: Item)
    requires SoundDb(db)
    ensures SoundDb(IngestItem(db, gateway, item).0)
  {
    hide Alerts.Evaluate, AlertTablesSpec.Sound;
    if item.Valid? {
      AlertTablesSpec.EvaluateKeepsSound(
        db.alerts, item.reading.id.device, SampleOf(item.reading, db.nextTelemetry, item.now), db.nextTelemetry);
    }
  }

  lemma {:induction false} IngestKeepsSound(db: Db, gateway: string, items: seq<Item>)
    requires SoundDb(db)
    ensures SoundDb(IngestItems(db, gateway, items).0)
  {
    hide IngestItem, SoundDb;
    if items != [] {
      IngestKeepsSound(db, gateway, items[..|items| - 1]);
      IngestItemKeepsSound(IngestItems(db, gateway, items[..|items| - 1]).0, gateway, items[|items| - 1]);
    }
  }

  // The program's form

  /** One database transaction: what the statements so far have made of the tables. */
  class Session {
    const gateways: map<string, GatewayRow>
    var devices: map<string, DeviceRow>
    var telemetry: map<Identity, EventRow>
    var nextTelemetry: nat
    const alerts: Alerts.AlertSession

    constructor (db: Db)
      ensures View() == db && alerts.Valid() && fresh(alerts) && alerts.rows == {}
    {
      gateways, devices, telemetry, nextTelemetry := db.gateways, db.devices, db.telemetry, db.nextTelemetry;
      alerts := new Alerts.AlertSession(db.alerts);
    }

    ghost function View(): Db
      reads this, alerts
    {
      Db(gateways, devices, telemetry, nextTelemetry, alerts.View())
    }

    method Commit() returns (db: Db)
      requires alerts.Valid()
      ensures db == View()
    {
      var states := map d | d in alerts.stored && d !in alerts.loaded :: alerts.stored[d];
      var changed := map d | d in alerts.loaded ::
        Alerts.State(alerts.loaded[d].lastEventAt, alerts.loaded[d].highStreak,
                     alerts.loaded[d].recoveryStreak, alerts.loaded[d].active);
      assert states + changed == alerts.states;
      db := Db(gateways, devices, telemetry, nextTelemetry,
               Alerts.AlertTables(states + changed, alerts.episodes, alerts.nextEpisode));
    }

    /** `insert_event`: the new row's id, or nothing when the identity exists. */
    method InsertEvent(reading: Reading, now: int) returns (inserted: Option<nat>)
      modifies this`telemetry, this`nextTelemetry
      ensures reading.id in old(telemetry) ==>
        inserted == None && telemetry == old(telemetry) && nextTelemetry == old(nextTelemetry)
      ensures reading.id !in old(telemetry) ==>
        && inserted == Some(old(nextTelemetry)) && nextTelemetry == old(nextTelemetry) + 1
        && telemetry == old(telemetry)[reading.id :=
             EventRow(old(nextTelemetry), reading.content, reading.gatewayReceivedAt, now)]
    {
      if reading.id in telemetry {
        return None;
      }
      telemetry := telemetry[reading.id :=
        EventRow(nextTelemetry, reading.content, reading.gatewayReceivedAt, now)];
      inserted := Some(nextTelemetry);
      nextTelemetry := nextTelemetry + 1;
    }

    /** One turn of the batch loop, with the device assignments read under the batch's locks. */
    method IngestOne(gateway: string, item: Item, assignments: map<string, DeviceRow>) returns (result: ResultItem)
      requires alerts.Valid() && Alerts.ActiveKnown(alerts.View())
      requires item.Valid? ==> Assigned(assignments, devices, item.reading.id.device)
      modifies this, alerts, alerts.rows
      ensures alerts.Valid() && old(alerts.rows) <= alerts.rows && fresh(alerts.rows - old(alerts.rows))
      ensures (View(), result) == IngestItem(old(View()), gateway, item)
    {
      if item.Refused? {
        return item.result;
      }
      var id := item.reading.id;
      if id.device !in assignments {
        return Named(id, Rejected(UnknownDevice));
      }
      var assignment := assignments[id.device];
      if assignment.gateway != gateway || !assignment.enabled {
        return Named(id, Rejected(WrongGateway));
      }
      if !item.storable {
        return Named(id, Rejected(MalformedValue));
      }
      var inserted := InsertEvent(item.reading, item.now);
      if inserted.None? {
        var existing := telemetry[id];
        return Named(id, if existing.content == item.reading.content then Duplicate else Rejected(IdentityConflict));
      }
      alerts.EvaluateReading(id.device, SampleOf(item.reading, inserted.value, item.now));
      if 0 <= item.now - item.reading.gatewayReceivedAt <= PRESENCE_WINDOW {
        devices := devices[id.device := devices[id.device].(lastSeenAt := Some(item.seenAt))];
      }
      return Named(id, Accepted);
    }

  }

  /** The assignment read at the start of the batch still tells gateway and eligibility. */
  predicate Assigned(assignments: map<string, DeviceRow>, devices: map<string, DeviceRow>, device: string) {
    && (device in assignments <==> device in devices)
    && (device in assignments ==>
          assignments[device].gateway == devices[device].gateway &&
          assignments[device].enabled == devices[device].enabled)
  }

  /** Same gateways, same devices with the same owner and eligibility; presence may differ. */
  ghost predicate SameRegistry(a: Db, b: Db) {
    a.gateways == b.gateways && forall d :: d in a.devices || d in b.devices ==> Assigned(a.devices, b.devices, d)
  }

  lemma IngestItemKeepsRegistry(db: Db, gateway: string, item: Item)
    ensures SameRegistry(db, IngestItem(db, gateway, item).0)
  {
    hide Alerts.Evaluate;
  }

  lemma {:induction false} IngestKeepsRegistry(db: Db, gateway: string, items: seq<Item>)
    ensures SameRegistry(db, IngestItems(db, gateway, items).0)
  {
    hide IngestItem;
    if items != [] {
      IngestKeepsRegistry(db, gateway, items[..|items| - 1]);
      IngestItemKeepsRegistry(IngestItems(db, gateway, items[..|items| - 1]).0, gateway, items[|items| - 1]);
    }
  }

  /** The backend's committed state. */
  class Backend {
    var db: Db

    constructor (initial: Db)
      requires SoundDb(initial)
      ensures db == initial
    {
      db := initial;
    }

    /**
     `ingest_batch`.  `commits` is false when some statement or the commit itself fails; no result
     escapes then, and the database is as before.
     */
    method IngestBatch(gateway: string, items: seq<Item>, commits: bool)
      returns (r: Result<seq<ResultItem>, IngestFault>)
      requires SoundDb(db)
      modifies this
      ensures SoundDb(db)
      ensures
        match Ingest(old(db), gateway, items)
        case Err(f) => r == Err(f) && db == old(db)
        case Ok((after, results)) =>
          if commits then r == Ok(results) && db == after else r == Err(Unavailable) && db == old(db)
    {
      hide IngestItem, SoundDb, AlertTablesSpec.Sound;
      var session := new Session(db);
      if gateway !in session.gateways || !session.gateways[gateway].enabled || !session.gateways[gateway].siteEnabled {
        return Err(Forbidden);
      }
      var deviceIds := set i | 0 <= i < |items| && items[i].Valid? :: items[i].reading.id.device;
      var assignments := map d | d in session.devices && d in deviceIds :: session.devices[d];
      var results: seq<ResultItem> := [];
      for i := 0 to |items|
        invariant fresh(session) && fresh(session.alerts) && fresh(session.alerts.rows)
        invariant db == old(db) && session.alerts.Valid()
        invariant (session.View(), results) == IngestItems(db, gateway, items[..i])
      {
        ghost var before := IngestItems(db, gateway, items[..i]).0;
        BatchState(db, gateway, items[..i]);
        assert items[..i + 1][..i] == items[..i];
        assert items[i].Valid? ==> items[i].reading.id.device in deviceIds;
        var result := session.IngestOne(gateway, items[i], assignments);
        results := results + [result];
      }
      assert items[..|items|] == items;
      BatchState(db, gateway, items);
      if !commits {
        return Err(Unavailable);
      }
      var committed := session.Commit();
      db := committed;
      return Ok(results);
    }
  }

  /** What every point inside a batch can rely on. */
  lemma BatchState(db: Db, gateway: string, items: seq<Item>)
    requires SoundDb(db)
    ensures
      var during := IngestItems(db, gateway, items).0;
      SoundDb(during) && SameRegistry(db, during) && Alerts.ActiveKnown(during.alerts)
  {
    hide IngestItem, AlertTablesSpec.Sound;
    IngestKeepsSound(db, gateway, items);
    IngestKeepsRegistry(db, gateway, items);
    var during := IngestItems(db, gateway, items).0;
    AlertTablesSpec.SoundMeetsConstraints(during.alerts, during.nextTelemetry);
  }
}
