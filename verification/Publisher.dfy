/**
 The firmware's publisher (firmware/components/telemetry/telemetry.c): readings wait in a bounded queue,
 one at a time is sent over QoS 1 until its acknowledgement, and MQTT events reach it through a
 small queue that may drop them.

 `Step` says what each atomic piece of the program does; every interleaving of the sensor task, the MQTT
 callback and the publisher task is a sequence of steps.  Class `PublisherTask` is the program's form.
 */
module Publisher {
  import opened Options
  import DeviceIdentity
  import Encoder
  import EncoderProperties
  import Utf8

  const MAX_READINGS := 32
  const MAX_SIGNALS := 8
  const PAYLOAD_SIZE := 768
  const TICKS := 0x1_0000_0000   // the tick counter wraps here

  /** `char measured_at[32]` */
  type MeasuredText = s: string | Utf8.CText(s) && |s| < 32 witness ""

  datatype Reading = Reading(sequence: nat, uptime: int, temperature: Encoder.Temperature, measuredAt: MeasuredText)

  datatype Signal = Connected | Disconnected | Published(messageId: int)

  /** The acknowledgement timeout in ticks is a build setting. */
  datatype Config = Config(device: string, boot: string, retryTicks: nat)

  /** What the program reports and hands to the MQTT client. */
  datatype Effect =
    | Dropped(sequence: nat)
    | LinkUp
    | LinkDown
    | Acked(sequence: nat, messageId: int)
    | TimedOut(sequence: nat)
    | Enqueued(reading: Reading, payload: string, messageId: int)

  datatype Pending = Pending(reading: Reading, payload: string)

  datatype Machine = Machine(
    config: Config,
    nextSequence: nat,
    readings: seq<Reading>,
    signals: seq<Signal>,
    connected: bool,
    pending: Option<Pending>,
    outstanding: int,   // -1: nothing in flight
    sentAt: nat,
    log: seq<Effect>)

  datatype Step =
    | Submit(uptime: int, temperature: Encoder.Temperature, measuredAt: MeasuredText)
    | Event(signal: Signal)              // the MQTT callback
    | Receive                            // the publisher handles one signal
    | Take                               // and may take the next reading
    | Expire(now: nat)                   // and may give up waiting
    | Send(now: nat, messageId: int)     // and may hand the payload to the client; negative: refused

  function EventOf(c: Config, r: Reading): Encoder.TelemetryEvent {
    Encoder.TelemetryEvent(c.device, c.boot, r.sequence, r.uptime, r.temperature, r.measuredAt)
  }

  /** The payload buffer's text, when the event can be encoded into it. */
  function Payload(c: Config, r: Reading): Option<string> {
    if Encoder.Acceptable(EventOf(c, r)) && |Encoder.Encoding(EventOf(c, r))| < PAYLOAD_SIZE then
      Some(Encoder.Encoding(EventOf(c, r)))
    else None
  }

  function Submitted(m: Machine, uptime: int, t: Encoder.Temperature, at: MeasuredText): Machine {
    match DeviceIdentity.Draw(m.nextSequence)
    case (_, None) => m
    case (next, Some(sequence)) =>
      if |m.readings| < MAX_READINGS then
        m.(nextSequence := next, readings := m.readings + [Reading(sequence, uptime, t, at)])
      else m.(nextSequence := next, log := m.log + [Dropped(sequence)])
  }

  function Signalled(m: Machine, s: Signal): Machine {
    if |m.signals| < MAX_SIGNALS then m.(signals := m.signals + [s]) else m
  }

  function Handled(m: Machine, s: Signal): Machine {
    match s
    case Connected => m.(connected := true, outstanding := -1, log := m.log + [LinkUp])
    case Disconnected => m.(connected := false, outstanding := -1, log := m.log + [LinkDown])
    case Published(id) =>
      if m.pending.Some? && m.outstanding == id then
        m.(pending := None, outstanding := -1, log := m.log + [Acked(m.pending.value.reading.sequence, id)])
      else m
  }

  function Received(m: Machine): Machine {
    if m.signals == [] then m else Handled(m.(signals := m.signals[1..]), m.signals[0])
  }

  function Took(m: Machine): Machine {
    if m.pending.Some? || m.readings == [] then m
    else
      var reading, rest := m.readings[0], m.(readings := m.readings[1..]);
      match Payload(m.config, reading)
      case None => rest.(log := m.log + [Dropped(reading.sequence)])
      case Some(text) => rest.(pending := Some(Pending(reading, text)))
  }

  function Elapsed(now: nat, since: nat): nat {
    (now - since) % TICKS
  }

  function Expired(m: Machine, now: nat): Machine {
    if m.connected && m.pending.Some? && m.outstanding >= 0 && Elapsed(now, m.sentAt) >= m.config.retryTicks then
      m.(outstanding := -1, log := m.log + [TimedOut(m.pending.value.reading.sequence)])
    else m
  }

  function Sent(m: Machine, now: nat, messageId: int): Machine {
    if m.connected && m.pending.Some? && m.outstanding < 0 && messageId >= 0 then
      m.(outstanding := messageId, sentAt := now,
         log := m.log + [Enqueued(m.pending.value.reading, m.pending.value.payload, messageId)])
    else m
  }

  function Next(m: Machine, step: Step): Machine {
    match step
    case Submit(uptime, t, at) => Submitted(m, uptime, t, at)
    case Event(s) => Signalled(m, s)
    case Receive => Received(m)
    case Take => Took(m)
    case Expire(now) => Expired(m, now)
    case Send(now, messageId) => Sent(m, now, messageId)
  }

  /** All signals that are waiting, in order. */
  function Drained(m: Machine): (r: Machine)
    ensures r.signals == [] && r.config == m.config
    decreases |m.signals|
  {
    if m.signals == [] then m else Drained(Received(m))
  }

  /** One pass of the publisher's loop; the client answers with `messageId` if it is asked. */
  function Pass(m: Machine, now: nat, messageId: int): Machine {
    Sent(Expired(Took(Drained(m)), now), now, messageId)
  }

  // The program's form

  /** The text before the first NUL. */
  function CString(buffer: seq<char>): string {
    if buffer == [] || buffer[0] == '\0' then "" else [buffer[0]] + CString(buffer[1..])
  }

  lemma {:induction false} CStringEndsAtNul(text: string, rest: seq<char>)
    requires '\0' !in text
    ensures CString(text + ['\0'] + rest) == text
  {
    var buffer := text + ['\0'] + rest;
    if text != "" {
      assert buffer[1..] == text[1..] + ['\0'] + rest;
      CStringEndsAtNul(text[1..], rest);
    }
  }

  lemma BufferHolds(buffer: array<char>, text: string)
    requires |text| < buffer.Length && buffer[..|text|] == text && buffer[|text|] == '\0'
    ensures '\0' in buffer[..]
    ensures '\0' !in text ==> CString(buffer[..]) == text
  {
    assert buffer[..] == text + ['\0'] + buffer[|text| + 1..];
    if '\0' !in text {
      CStringEndsAtNul(text, buffer[|text| + 1..]);
    }
  }

  lemma CStringStep(buffer: seq<char>)
    requires buffer != []
    ensures CString(buffer) == if buffer[0] == '\0' then "" else [buffer[0]] + CString(buffer[1..])
  {
  }

  method StrLen(buffer: array<char>) returns (n: nat)
    requires '\0' in buffer[..]
    ensures n < buffer.Length && buffer[..n] == CString(buffer[..])
  {
    hide CString;
    n := 0;
    assert buffer[..] == buffer[0..] && buffer[..0] == [];
    while buffer[n] != '\0'
      invariant n < buffer.Length && '\0' in buffer[n..]
      invariant CString(buffer[..]) == buffer[..n] + CString(buffer[n..])
      decreases buffer.Length - n
    {
      CStringStep(buffer[n..]);
      assert buffer[n..][1..] == buffer[n + 1..];
      assert buffer[..n + 1] == buffer[..n] + [buffer[n]];
      assert buffer[..n] + ([buffer[n]] + CString(buffer[n + 1..])) == buffer[..n + 1] + CString(buffer[n + 1..]);
      n := n + 1;
    }
    CStringStep(buffer[n..]);
  }

  datatype SubmitResult = Queued | SequenceExhausted | QueueFull

  class PublisherTask {
    const config: Config
    const identity: DeviceIdentity.Context
    const payload: array<char>
    var readings: seq<Reading>
    var signals: seq<Signal>
    var connected: bool
    var havePending: bool
    var pending: Reading
    var outstanding: int
    var sentAt: nat
    ghost var log: seq<Effect>

    ghost predicate Valid()
      reads this, identity, payload
    {
      && payload.Length == PAYLOAD_SIZE
      && Utf8.CText(config.device) && Utf8.CText(config.boot) && identity.boot == config.boot
      && (havePending ==> Payload(config, pending) == Some(CString(payload[..])) && '\0' in payload[..])
    }

    ghost function View(): Machine
      reads this, identity, payload
    {
      Machine(config, identity.nextSequence, readings, signals, connected,
              if havePending then Some(Pending(pending, CString(payload[..]))) else None,
              outstanding, sentAt, log)
    }

    constructor (config: Config, identity: DeviceIdentity.Context)
      requires Utf8.CText(config.device) && Utf8.CText(config.boot) && identity.boot == config.boot
      ensures Valid() && fresh(payload) && this.config == config && this.identity == identity
      ensures View() == Machine(config, identity.nextSequence, [], [], false, None, -1, 0, [])
    {
      this.config, this.identity := config, identity;
      payload := new char[PAYLOAD_SIZE];
      readings, signals, connected := [], [], false;
      havePending, pending, outstanding, sentAt := false, Reading(0, 0, Encoder.NotFinite, ""), -1, 0;
      log := [];
    }

    method SubmitTemperature(uptime: int, temperature: Encoder.Temperature, measuredAt: MeasuredText)
      returns (result: SubmitResult)
      requires Valid()
      modifies this`readings, this`log, identity`nextSequence
      ensures Valid() && View() == Submitted(old(View()), uptime, temperature, measuredAt)
      ensures result.Queued? <==> |View().readings| == |old(View()).readings| + 1
      ensures result.SequenceExhausted? <==> View() == old(View())
    {
      hide CString, Payload;
      var sequence := identity.NextSequence();
      if sequence.None? {
        return SequenceExhausted;
      }
      if |readings| >= MAX_READINGS {
        log := log + [Dropped(sequence.value)];
        return QueueFull;
      }
      readings := readings + [Reading(sequence.value, uptime, temperature, measuredAt)];
      return Queued;
    }

    method OnMqttEvent(signal: Signal)
      requires Valid()
      modifies this`signals
      ensures Valid() && View() == Signalled(old(View()), signal)
    {
      if |signals| < MAX_SIGNALS {
        signals := signals + [signal];
      }
    }

    method Handle(signal: Signal)
      requires Valid()
      modifies this`connected, this`outstanding, this`havePending, this`log
      ensures Valid() && View() == Handled(old(View()), signal)
    {
      hide CString, Payload;
      match signal
      case Connected =>
        connected, outstanding := true, -1;
        log := log + [LinkUp];
      case Disconnected =>
        connected, outstanding := false, -1;
        log := log + [LinkDown];
      case Published(id) =>
        if havePending && outstanding == id {
          log := log + [Acked(pending.sequence, id)];
          havePending, outstanding := false, -1;
        }
    }

    method DrainSignals()
      requires Valid()
      modifies this`signals, this`connected, this`outstanding, this`havePending, this`log
      ensures Valid() && View() == Drained(old(View()))
    {
      hide CString, Payload;
      while signals != []
        invariant Valid() && Drained(View()) == Drained(old(View()))
        decreases |signals|
      {
        var signal := signals[0];
        ghost var before := View();
        signals := signals[1..];
        Handle(signal);
        assert View() == Received(before);
      }
    }

    method TakeReading()
      requires Valid()
      modifies this`readings, this`pending, this`havePending, this`log, payload
      ensures Valid() && View() == Took(old(View()))
    {
      if havePending || readings == [] {
        return;
      }
      pending, readings := readings[0], readings[1..];
      hide Encoder.Encoding, Encoder.Acceptable, Encoder.InRange, CString;
      var e := EventOf(config, pending);
      var ok := Encoder.Encode(e, payload, payload.Length);
      if !ok {
        log := log + [Dropped(pending.sequence)];
      } else {
        BufferHolds(payload, Encoder.Encoding(e));
        EncoderProperties.TextHasNoNul(e);
        havePending := true;
      }
    }

    method ExpireAck(now: nat)
      requires Valid()
      modifies this`outstanding, this`log
      ensures Valid() && View() == Expired(old(View()), now)
    {
      hide CString, Payload;
      if connected && havePending && outstanding >= 0 && Elapsed(now, sentAt) >= config.retryTicks {
        outstanding := -1;
        log := log + [TimedOut(pending.sequence)];
      }
    }

    /** The client copies `strlen(payload)` bytes and answers with a message id, or refuses. */
    method SendPending(now: nat, messageId: int)
      requires Valid()
      modifies this`outstanding, this`sentAt, this`log
      ensures Valid() && View() == Sent(old(View()), now, messageId)
    {
      hide CString, Payload;
      if connected && havePending && outstanding < 0 {
        var n := StrLen(payload);
        var message := payload[..n];
        if messageId >= 0 {
          outstanding, sentAt := messageId, now;
          log := log + [Enqueued(pending, message, messageId)];
        }
      }
    }

    method LoopPass(now: nat, messageId: int)
      requires Valid()
      modifies this, payload
      ensures Valid() && View() == Pass(old(View()), now, messageId)
    {
      DrainSignals();
      TakeReading();
      ExpireAck(now);
      SendPending(now, messageId);
    }
  }
}
