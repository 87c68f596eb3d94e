/**
 Devices and gateway together: whatever the boards and the network do, the gateway's store never sees an
 identity conflict from messages its devices really sent.
 */
module DeviceLink {
  import opened Events
  import opened Store
  import DeviceEvents
  import DeviceIdentity
  import Devices
  import Encoder
  import EncoderProperties
  import Ingestion
  import Measurements
  import Pipeline
  import Publisher
  import Utf8

  /**
   An event as intake makes it of one of the messages: `DeviceEvents.DeviceEventIsAccepted` says that
   its identity and payload are these.
   */
  predicate MadeFrom(m: Devices.Message, x: Encoder.TelemetryEvent, id: Identity, payload: string) {
    && EncoderProperties.Utf8Event(x) == Publisher.EventOf(m.config, m.reading)
    && x.sequence == id.sequence && x.device == id.device && x.boot == id.boot
    && Encoder.Acceptable(x) && payload == Encoder.Encoding(x)
  }

  ghost predicate Arrival(sent: set<Devices.Message>, id: Identity, payload: string) {
    exists m, x :: m in sent && MadeFrom(m, x, id, payload)
  }

  /** Equal identities arrive with equal payloads. */
  lemma ArrivalsAgree(site: Devices.Site, id: Identity, p: string, q: string)
    requires Devices.SoundSite(site) && Arrival(site.sent, id, p) && Arrival(site.sent, id, q)
    ensures p == q
  {
    hide Encoder.Encoding, Utf8.Encode, Encoder.Acceptable;
    var m, x :| m in site.sent && MadeFrom(m, x, id, p);
    var n, y :| n in site.sent && MadeFrom(n, y, id, q);
    assert Devices.Filed(site, m) && Devices.Filed(site, n) && Devices.OneMeaning(m, n);
    EncoderProperties.EncodingIsUtf8(x);
    EncoderProperties.EncodingIsUtf8(y);
    Utf8.EncodeInjective(p, q);
  }

  /** Every stored row holds a message some device sent. */
  ghost predicate Spoken(t: Tables, sent: set<Devices.Message>) {
    && (forall id :: id in t.queue ==> Arrival(sent, id, t.queue[id].payload))
    && (forall id :: id in t.quarantine ==> Arrival(sent, id, t.quarantine[id].payload))
  }

  lemma SpokenFollowsRows(t: Tables, w: Tables, sent: set<Devices.Message>)
    requires Spoken(t, sent) && Pipeline.FromRows(t, w)
    ensures Spoken(w, sent)
  {
    hide Arrival;
  }

  /** Everything that reaches intake is a message of the site. */
  ghost predicate OnlyDevices(steps: seq<Pipeline.Step>, sent: set<Devices.Message>) {
    forall i :: 0 <= i < |steps| && steps[i].Intake? ==> Arrival(sent, steps[i].e.id, steps[i].e.payload)
  }

  lemma {:induction false} RowsStaySpoken(
      decode: Pipeline.Decoder, s: Pipeline.System, steps: seq<Pipeline.Step>, sent: set<Devices.Message>)
    requires Pipeline.Faithful(decode) && Pipeline.Inv(s, decode) && Pipeline.Possible(decode, s, steps)
    requires Spoken(s.tables, sent) && OnlyDevices(steps, sent)
    ensures Spoken(Pipeline.Run(decode, s, steps).tables, sent)
    decreases |steps|
  {
    hide Pipeline.Next, Pipeline.Inv, Pipeline.Enabled, Spoken, Arrival;
    if steps != [] {
      var u := Pipeline.Next(decode, s, steps[0]);
      if steps[0].Intake? {
        IntakeStaysSpoken(decode, s, steps[0], sent);
      } else {
        Pipeline.StepComesFromRows(s, decode, steps[0]);
        SpokenFollowsRows(s.tables, u.tables, sent);
      }
      Pipeline.StepKeeps(s, decode, steps[0]);
      forall i | 0 <= i < |steps| - 1 && steps[1..][i].Intake?
        ensures Arrival(sent, steps[1..][i].e.id, steps[1..][i].e.payload)
      {
        assert steps[1..][i] == steps[i + 1];
      }
      RowsStaySpoken(decode, u, steps[1..], sent);
    }
  }

  lemma IntakeStaysSpoken(decode: Pipeline.Decoder, s: Pipeline.System, step: Pipeline.Step, sent: set<Devices.Message>)
    requires step.Intake? && Arrival(sent, step.e.id, step.e.payload) && Spoken(s.tables, sent)
    ensures Pipeline.Enabled(s, step) && Spoken(Pipeline.Next(decode, s, step).tables, sent)
  {
    hide Arrival;
  }

  /**
   No conflicts: over any run of the site and any run of the pipeline fed from it, storing another of the
   site's messages is either an insertion or a duplicate, never an identity conflict.
   */
  lemma DevicesNeverConflict(
      moves: seq<Devices.Move>, decode: Pipeline.Decoder, backend: Ingestion.Db, steps: seq<Pipeline.Step>, e: Event)
    requires Pipeline.Faithful(decode) && Ingestion.SoundDb(backend)
    requires Pipeline.Possible(decode, Pipeline.Initial(backend), steps)
    requires
      var sent := Devices.After(Devices.Site(map[], {}), moves).sent;
      OnlyDevices(steps, sent) && Arrival(sent, e.id, e.payload)
    ensures
      Insert(Pipeline.Run(decode, Pipeline.Initial(backend), steps).tables, e).1 != IdentityConflict
  {
    hide Pipeline.Run, Pipeline.Possible, Arrival, Ingestion.SoundDb, OnlyDevices, Devices.After;
    var site := Devices.After(Devices.Site(map[], {}), moves);
    var start := Pipeline.Initial(backend);
    var t := Pipeline.Run(decode, start, steps).tables;
    Devices.SiteStaysSound(Devices.Site(map[], {}), moves);
    RowsStaySpoken(decode, start, steps, site.sent);
    if e.id in t.quarantine {
      ArrivalsAgree(site, e.id, e.payload, t.quarantine[e.id].payload);
    } else if e.id in t.queue {
      ArrivalsAgree(site, e.id, e.payload, t.queue[e.id].payload);
    }
  }

  /** The payload tells what the board submitted under this number since the start its boot id names. */
  ghost predicate Measured(
      moves: seq<Devices.Move>, m: Devices.Message, x: Encoder.TelemetryEvent, id: Identity, payload: string)
  {
    var taken := Measurements.Taken(moves, m.mac, m.counter);
    && MadeFrom(m, x, id, payload) && id.sequence < |taken|
    && x.uptime == taken[id.sequence].uptime && x.temperature == taken[id.sequence].temperature
    && Utf8.Encode(x.measuredAt) == taken[id.sequence].measuredAt
    && Utf8.Encode(x.boot) == DeviceIdentity.BootId(m.mac, m.counter)
  }

  /**
   From the sensor to the gateway's queue: over any run of the site and any run of the pipeline fed from it, a
   queued row's payload is the encoding of exactly what its board submitted under the row's number.
   */
  lemma RowsTellMeasurements(
      moves: seq<Devices.Move>, decode: Pipeline.Decoder, backend: Ingestion.Db, steps: seq<Pipeline.Step>,
      id: Identity)
    requires Pipeline.Faithful(decode) && Ingestion.SoundDb(backend)
    requires Pipeline.Possible(decode, Pipeline.Initial(backend), steps)
    requires OnlyDevices(steps, Devices.After(Measurements.NOTHING, moves).sent)
    requires id in Pipeline.Run(decode, Pipeline.Initial(backend), steps).tables.queue
    ensures
      var row := Pipeline.Run(decode, Pipeline.Initial(backend), steps).tables.queue[id];
      exists m, x :: Measured(moves, m, x, id, row.payload)
  {
    hide Pipeline.Run, Pipeline.Possible, Ingestion.SoundDb, OnlyDevices, Devices.After, Encoder.Encoding, Utf8.Encode,
         Encoder.Acceptable, Measurements.Taken, DeviceIdentity.BootId;
    var sent := Devices.After(Measurements.NOTHING, moves).sent;
    RowsStaySpoken(decode, Pipeline.Initial(backend), steps, sent);
    var row := Pipeline.Run(decode, Pipeline.Initial(backend), steps).tables.queue[id];
    var m, x :| m in sent && MadeFrom(m, x, id, row.payload);
    Measurements.MessagesTellMeasurements(moves, m);
    assert Measured(moves, m, x, id, row.payload);
  }
}
