/**
 What a batch does besides storing rows: which accepted readings move the alert tables, and when a device
 counts as seen.  Instants are microseconds.
 */
module Effects {
  import opened Options
  import opened Events
  import opened Telemetry
  import opened Outcomes
  import opened Ingestion
  import opened Acceptance
  import Alerts
  import AlertRules
  import IngestionProperties

  // Event time

  /** The device's own time counts only if it is there and its clock is synchronised. */
  lemma EventTimeRule(c: Content, gatewayReceivedAt: int)
    ensures c.measuredAt.Some? && c.clock.Synchronised? ==> EventTime(c, gatewayReceivedAt) == c.measuredAt.value
    ensures
      c.measuredAt.None? || c.clock.Unsynchronised? || c.clock.Estimated? || c.clock.UnknownClock? ==>
      EventTime(c, gatewayReceivedAt) == gatewayReceivedAt
  {
  }

  /** When the reading happened, as far as the backend trusts it. */
  ghost predicate HappenedAt(r: Reading, at: int) {
    if r.content.measuredAt.Some? && r.content.clock == Synchronised then r.content.measuredAt == Some(at)
    else at == r.gatewayReceivedAt
  }

  /**
   An item moves the alert tables if and only if it is accepted, its instant is at most five minutes before and
   one minute after the backend's receipt, and newer than the device's cursor; then the cursor is that instant.
   */
  lemma ItemMovesAlerts(db: Db, gateway: string, item: Item, at: int)
    requires item.Valid? && HappenedAt(item.reading, at)
    ensures
      var (after, result) := IngestItem(db, gateway, item);
      var device := item.reading.id.device;
      var moves :=
        && result.outcome.Accepted? && -300_000_000 <= at - item.now <= 60_000_000
        && (device in db.alerts.states ==> db.alerts.states[device].lastEventAt < at);
      && (after.alerts != db.alerts <==> moves)
      && (moves ==> device in after.alerts.states && after.alerts.states[device].lastEventAt == at)
  {
    hide Alerts.Evaluate;
    var id := item.reading.id;
    var s := SampleOf(item.reading, db.nextTelemetry, item.now);
    assert s.eventAt == at;
    AlertRules.ReadingCounts(db.alerts, id.device, s);
    ItemStores(db, gateway, item, id);
  }

  /** What an item tells the alert evaluation. */
  lemma ItemIsEvaluated(db: Db, gateway: string, item: Item, at: int)
    requires item.Valid? && HappenedAt(item.reading, at)
    requires IngestItem(db, gateway, item).1.outcome.Accepted?
    ensures
      IngestItem(db, gateway, item).0.alerts
      == Alerts.Evaluate(db.alerts, item.reading.id.device,
                         Alerts.Sample(at, item.reading.content.value, db.nextTelemetry, item.now))
  {
    hide Alerts.Evaluate;
  }

  // Presence

  /** The item shows the device at work: accepted, and received by the gateway at most 90 seconds ago. */
  predicate Shows(item: Item, result: ResultItem, device: string) {
    && item.Valid? && item.reading.id.device == device && result.outcome.Accepted?
    && 0 <= item.now - item.reading.gatewayReceivedAt <= 90_000_000
  }

  predicate ShowsLast(items: seq<Item>, results: seq<ResultItem>, i: nat, device: string)
    requires i < |items| == |results|
  {
    && items[i].Valid? && Shows(items[i], results[i], device)
    && forall j :: i < j < |items| ==> !Shows(items[j], results[j], device)
  }

  lemma ItemPresence(db: Db, gateway: string, item: Item, device: string)
    requires device in db.devices
    ensures
      var (after, result) := IngestItem(db, gateway, item);
      && device in after.devices
      && after.devices[device].lastSeenAt
         == if Shows(item, result, device) then Some(item.seenAt) else db.devices[device].lastSeenAt
  {
    hide Alerts.Evaluate;
  }

  /**
   A device was last seen at the presence update of the last item of the batch that shows it at work, and if
   none does its presence is what it was.
   */
  lemma {:induction false} BatchPresence(db: Db, gateway: string, items: seq<Item>, device: string)
    requires device in db.devices
    ensures
      var (after, results) := IngestItems(db, gateway, items);
      && device in after.devices
      && (forall i :: 0 <= i < |items| && ShowsLast(items, results, i, device) ==>
            after.devices[device].lastSeenAt == Some(items[i].seenAt))
      && ((forall i :: 0 <= i < |items| ==> !Shows(items[i], results[i], device)) ==>
            after.devices[device].lastSeenAt == db.devices[device].lastSeenAt)
  {
    hide IngestItem, Shows;
    if items != [] {
      var n := |items| - 1;
      var (during, before) := IngestItems(db, gateway, items[..n]);
      var results := IngestItems(db, gateway, items).1;
      BatchPresence(db, gateway, items[..n], device);
      ItemPresence(during, gateway, items[n], device);
      assert forall i :: 0 <= i < n ==> items[..n][i] == items[i] && before[i] == results[i];
      forall i | 0 <= i < |items| && ShowsLast(items, results, i, device)
        ensures IngestItems(db, gateway, items).0.devices[device].lastSeenAt == Some(items[i].seenAt)
      {
        if i < n {
          assert ShowsLast(items[..n], before, i, device);
        }
      }
    }
  }

  // Who may deliver

  /** A batch is refused as a whole exactly when the gateway is unknown or disabled, or its site is disabled. */
  lemma ForbiddenExactly(db: Db, gateway: string, items: seq<Item>)
    ensures
      Ingest(db, gateway, items) == Err(Forbidden) <==>
      gateway !in db.gateways || !db.gateways[gateway].enabled || !db.gateways[gateway].siteEnabled
  {
  }
}
