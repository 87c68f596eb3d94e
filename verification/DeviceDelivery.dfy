/**
 From device to backend: a queue fed only by devices running this firmware holds nothing the backend cannot
 read, so good rounds always empty it.
 */
module DeviceDelivery {
  import opened Options
  import opened Events
  import opened Pipeline
  import opened Poison
  import opened Progress
  import opened Resting
  import opened Store
  import Batch
  import DeviceEvents
  import Encoder
  import EncoderProperties
  import EventParser
  import Ingestion
  import Intake
  import Line
  import Requests

  predicate MadeOf(x: Encoder.TelemetryEvent, e: Event)
    requires Encoder.Acceptable(x)
  {
    e.id == Identity(x.device, x.boot, x.sequence) && e.payload == Encoder.Encoding(x)
  }

  /** The gateway's record of an event the firmware can send. */
  ghost predicate FromDevice(e: Event) {
    exists x :: DeviceEvents.Sendable(x) && MadeOf(x, e)
  }

  lemma DeviceEventIsGood(e: Event)
    requires FromDevice(e)
    ensures Batch.Accepted(e) && Requests.EventReads(e)
  {
    hide Encoder.Encoding, EventParser.Parse, EventParser.ValidPayload, EncoderProperties.Utf8Event,
         EventParser.Timestamp, Requests.EventReads, EventParser.PayloadText, EncoderProperties.Tree;
    var x :| DeviceEvents.Sendable(x) && MadeOf(x, e);
    DeviceEvents.DeviceEventIsAccepted(x, e.receivedAt);
    DeviceEvents.PayloadIsEncoding(x);
    DeviceEvents.DeviceEventReads(x, e.receivedAt);
    assert Batch.AcceptedAs(e, DeviceEvents.Topic(x.device), DeviceEvents.PayloadOf(x));
  }

  // Messages

  /** A device's message as the broker delivers it. */
  function Live(x: Encoder.TelemetryEvent, receivedAt: string): Intake.Message
    requires Encoder.Acceptable(x)
  {
    Intake.Message(DeviceEvents.Topic(x.device), DeviceEvents.PayloadOf(x), false, receivedAt)
  }

  /** The gateway keeps what a device publishes: a live message with a new identity is queued with its bytes. */
  lemma LiveMessageIsQueued(t: Tables, x: Encoder.TelemetryEvent, receivedAt: string)
    requires DeviceEvents.Sendable(x)
    ensures
      var id := Identity(x.device, x.boot, x.sequence);
      var (after, answer) := Intake.Receive(t, Live(x, receivedAt));
      && Intake.Keeps(t, after, Event(id, Encoder.Encoding(x), receivedAt))
      && (id !in t.queue && id !in t.quarantine ==>
            && answer == Intake.Stored(Inserted) && id in after.queue
            && after.queue[id].payload == Encoder.Encoding(x) && after.queue[id].receivedAt == receivedAt)
  {
    hide Encoder.Encoding, EventParser.Parse, EncoderProperties.Utf8Event, EventParser.Timestamp, Insert,
         EventParser.PayloadText, EncoderProperties.Tree;
    DeviceEvents.DeviceEventIsAccepted(x, receivedAt);
    Intake.ReceivedMessages(t, Live(x, receivedAt));
  }

  /** The pipeline's intake step is the arrival of a live message that holds the event. */
  lemma IntakeIsAnArrival(decode: Decoder, s: System, m: Intake.Message, e: Event)
    requires !m.retained && EventParser.Parse(m.topic, m.payload, m.receivedAt) == Ok(e)
    ensures Enabled(s, Step.Intake(e))
    ensures
      var u := Next(decode, s, Step.Intake(e));
      var (after, answer) := Intake.Receive(s.tables, m);
      && u.tables == after
      && u.inserted == (if answer == Intake.Stored(Inserted) then s.inserted + {e} else s.inserted)
      && (e.id !in s.tables.queue && e.id !in s.tables.quarantine ==> e in u.inserted && Queued(u.tables, e))
  {
    hide EventParser.Parse;
  }

  /** Everything the run stores comes from devices, with the gateway's own clock text. */
  ghost predicate OnlyFromDevices(steps: seq<Step>) {
    forall i :: 0 <= i < |steps| && steps[i].Intake? ==> FromDevice(steps[i].e) && |steps[i].e.receivedAt| <= 400
  }

  lemma DevicesAreAccepted(steps: seq<Step>)
    requires OnlyFromDevices(steps)
    ensures OnlyAccepted(steps)
  {
    hide FromDevice, Batch.Accepted, Requests.EventReads;
    forall i | 0 <= i < |steps| && steps[i].Intake? ensures Batch.Accepted(steps[i].e) {
      DeviceEventIsGood(steps[i].e);
    }
  }

  /** Every queued row came from a device. */
  ghost predicate AllFromDevices(t: Tables) {
    forall id :: id in t.queue ==> FromDevice(Line.EventAt(t, id))
  }

  lemma {:induction false} RowsStayFromDevices(decode: Decoder, s: System, steps: seq<Step>)
    requires Faithful(decode) && Inv(s, decode) && Possible(decode, s, steps)
    requires AllFromDevices(s.tables) && OnlyFromDevices(steps)
    ensures AllFromDevices(Pipeline.Run(decode, s, steps).tables)
    decreases |steps|
  {
    hide Next, Inv, Enabled, FromDevice;
    if steps != [] {
      var u := Next(decode, s, steps[0]);
      StepKeeps(s, decode, steps[0]);
      if steps[0].Intake? {
        IntakeStaysFromDevices(decode, s, steps[0]);
      } else {
        StepComesFromRows(s, decode, steps[0]);
      }
      forall i | 0 <= i < |steps| - 1 && steps[1..][i].Intake?
        ensures FromDevice(steps[1..][i].e) && |steps[1..][i].e.receivedAt| <= 400
      {
        assert steps[1..][i] == steps[i + 1];
      }
      RowsStayFromDevices(decode, u, steps[1..]);
    }
  }

  lemma IntakeStaysFromDevices(decode: Decoder, s: System, step: Step)
    requires step.Intake? && FromDevice(step.e) && AllFromDevices(s.tables)
    ensures Enabled(s, step) && AllFromDevices(Next(decode, s, step).tables)
  {
    hide FromDevice;
  }

  lemma LineIsReadable(t: Tables)
    requires AllFromDevices(t) && Line.AllPending(t)
    ensures forall e :: e in Line.LineOf(t) ==> Requests.EventReads(e)
  {
    hide FromDevice, Batch.Accepted, Requests.EventReads, Line.LineOf;
    Line.LineOfIsInLine(t);
    forall e | e in Line.LineOf(t) ensures Requests.EventReads(e) {
      DeviceEventIsGood(Line.EventAt(t, e.id));
    }
  }

  /** The rounds empty the queue, and everything ever stored is in the backend or in quarantine. */
  ghost predicate DeliversAll(decode: Decoder, s: System, rounds: seq<Round>) {
    var steps := AllSteps(decode, s, rounds);
    && Possible(decode, s, steps)
    && var u := Pipeline.Run(decode, s, steps);
       u.tables.queue == map[] && forall e :: e in s.inserted ==> AtRest(u, decode, e)
  }

  lemma EmptiedMeansDelivered(decode: Decoder, s: System, rounds: seq<Round>)
    requires ClearsExactly(decode, s, rounds) && EmptiesExactly(decode, s, rounds)
    requires forall e :: e in Line.LineOf(s.tables) ==> Requests.EventReads(e)
    ensures DeliversAll(decode, s, rounds)
  {
    hide AllSteps, Possible, Pipeline.Run, Requests.EventReads, AtRest, Line.LineOf, Cleared;
    var u := Pipeline.Run(decode, s, AllSteps(decode, s, rounds));
    var line := Line.LineOf(s.tables);
    assert |u.tables.queue| == 0;
    assert line[Cleared(line, |rounds|)..] == [];
  }

  /**
   Delivery from devices: after any run in which everything stored came from devices, a restart and
   ceil(n / 500) rounds in which storage works and the backend answers empty the queue of n rows, and every
   event ever reported stored is in the backend with equal content or in quarantine.
   */
  lemma DevicesAreDelivered(decode: Decoder, backend: Ingestion.Db, steps: seq<Step>, rounds: seq<Round>)
    requires Faithful(decode) && Validates(decode) && Ingestion.SoundDb(backend)
    requires Possible(decode, Initial(backend), steps) && OnlyFromDevices(steps)
    requires
      var restarted := Rebooted(decode, Pipeline.Run(decode, Initial(backend), steps));
      Prepared(restarted, rounds) && Enough(restarted, rounds)
    ensures DeliversAll(decode, Rebooted(decode, Pipeline.Run(decode, Initial(backend), steps)), rounds)
  {
    hide Pipeline.Run, Possible, Faithful, Validates, OnlyFromDevices, OnlyAccepted, Inv, Intake.AllAccepted, Prepared,
         Enough, Ingestion.SoundDb, ClearsExactly, EmptiesExactly, DeliversAll, FromDevice, Requests.EventReads,
         Line.LineOf;
    DevicesAreAccepted(steps);
    EverythingIsSettled(decode, backend, steps, rounds);
    InitialIsSane(decode, backend);
    RowsStayFromDevices(decode, Initial(backend), steps);
    var s := Pipeline.Run(decode, Initial(backend), steps);
    RebootStaysFromDevices(s.tables);
    LineIsReadable(Recovered(s.tables));
    EmptiedMeansDelivered(decode, Rebooted(decode, s), rounds);
  }

  lemma RebootStaysFromDevices(t: Tables)
    requires AllFromDevices(t)
    ensures AllFromDevices(Recovered(t)) && Line.AllPending(Recovered(t))
  {
    hide FromDevice;
  }
}
