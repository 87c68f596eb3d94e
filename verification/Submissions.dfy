/**
 What a device sends is what was measured: the reading under number n is the n-th one submitted since the
 board started, whatever happens to it in between, and a reading is given up only for want of room.
 */
module Submissions {
  import opened Options
  import opened Publisher
  import opened PublisherProperties
  import Encoder
  import Events

  /** What one submission hands to the publisher. */
  datatype Measurement = Measurement(uptime: int, temperature: Encoder.Temperature, measuredAt: MeasuredText)

  function MeasuredBy(step: Step): seq<Measurement> {
    match step
    case Submit(uptime, temperature, measuredAt) => [Measurement(uptime, temperature, measuredAt)]
    case _ => []
  }

  /** The run's submissions, in order. */
  function Submitted(steps: seq<Step>): seq<Measurement> {
    if steps == [] then [] else MeasuredBy(steps[0]) + Submitted(steps[1..])
  }

  /** The reading is the submission its number names. */
  predicate Holds(given: seq<Measurement>, r: Reading) {
    && r.sequence < |given|
    && r.uptime == given[r.sequence].uptime
    && r.temperature == given[r.sequence].temperature
    && r.measuredAt == given[r.sequence].measuredAt
  }

  /** Every reading the machine knows of is what was submitted under its number. */
  predicate Records(m: Machine, given: seq<Measurement>) {
    && m.nextSequence == (if |given| <= Events.MAX_COUNTER then |given| else Events.MAX_COUNTER + 1)
    && (forall r :: r in m.readings ==> Holds(given, r))
    && (m.pending.Some? ==> Holds(given, m.pending.value.reading))
    && (forall e :: e in m.log && e.Enqueued? ==> Holds(given, e.reading))
  }

  lemma StepRecords(m: Machine, step: Step, given: seq<Measurement>)
    requires Records(m, given)
    ensures Records(Next(m, step), given + MeasuredBy(step))
  {
    hide Payload, Elapsed;
    assert given + [] == given;
  }

  lemma {:induction false} RunRecords(m: Machine, steps: seq<Step>, given: seq<Measurement>)
    requires Records(m, given)
    ensures Records(Run(m, steps), given + Submitted(steps))
    decreases |steps|
  {
    hide Records, Next, MeasuredBy;
    if steps == [] {
      assert given + [] == given;
    } else {
      StepRecords(m, steps[0], given);
      RunRecords(Next(m, steps[0]), steps[1..], given + MeasuredBy(steps[0]));
      assert given + MeasuredBy(steps[0]) + Submitted(steps[1..]) == given + Submitted(steps);
    }
  }

  lemma {:induction false} RunKeepsConfig(m: Machine, steps: seq<Step>)
    ensures Run(m, steps).config == m.config
    decreases |steps|
  {
    hide Payload, Elapsed;
    if steps != [] {
      RunKeepsConfig(Next(m, steps[0]), steps[1..]);
    }
  }

  /** The payload is the text of the event with the device's identity and exactly this measurement. */
  predicate Tells(c: Config, n: nat, x: Measurement, payload: string) {
    var e := Encoder.TelemetryEvent(c.device, c.boot, n, x.uptime, x.temperature, x.measuredAt);
    Encoder.Acceptable(e) && payload == Encoder.Encoding(e) && |payload| < 768
  }

  /**
   From measurement to message: over any run of the publisher, everything sent under number n is the encoding of
   the n-th submission, and whatever waits or is pending under n is that submission.
   */
  lemma SentAsSubmitted(c: Config, steps: seq<Step>)
    ensures
      var (m, given) := (Run(Initial(c), steps), Submitted(steps));
      && (forall e :: e in m.log && e.Enqueued? ==>
            && Holds(given, e.reading) && Tells(c, e.reading.sequence, given[e.reading.sequence], e.payload))
      && (forall r :: r in m.readings ==> Holds(given, r))
      && (m.pending.Some? ==> Holds(given, m.pending.value.reading))
  {
    hide Run, AckedIn, Accounts, Encoder.Encoding, Encoder.Acceptable;
    InitialHolds(c);
    RunKeeps(Initial(c), steps);
    RunKeepsConfig(Initial(c), steps);
    RunRecords(Initial(c), steps, []);
    assert [] + Submitted(steps) == Submitted(steps);
    var m := Run(Initial(c), steps);
    forall e | e in m.log && e.Enqueued?
      ensures Holds(Submitted(steps), e.reading)
      ensures Tells(c, e.reading.sequence, Submitted(steps)[e.reading.sequence], e.payload)
    {
      assert Settled(m, e);
    }
  }

  // What is given up

  /** The event of this reading can be encoded into the payload buffer. */
  predicate Fits(c: Config, r: Reading) {
    var e := Encoder.TelemetryEvent(c.device, c.boot, r.sequence, r.uptime, r.temperature, r.measuredAt);
    Encoder.Acceptable(e) && |Encoder.Encoding(e)| < 768
  }

  /** A submission that finds 32 readings waiting, or the oldest reading when it does not fit. */
  predicate GivesUp(m: Machine, step: Step, n: nat) {
    || (step.Submit? && n == m.nextSequence <= Events.MAX_COUNTER && |m.readings| >= 32)
    || (step.Take? && m.pending.None? && m.readings != [] && m.readings[0].sequence == n &&
        !Fits(m.config, m.readings[0]))
  }

  lemma StepGivesUp(m: Machine, step: Step, n: nat)
    ensures Dropped(n) in Next(m, step).log <==> Dropped(n) in m.log || GivesUp(m, step, n)
  {
    hide Encoder.Encoding, Encoder.Acceptable, Elapsed;
  }

  ghost predicate GivenUp(m: Machine, steps: seq<Step>, n: nat) {
    exists k :: 0 <= k < |steps| && GivesUp(Run(m, steps[..k]), steps[k], n)
  }

  lemma GivenUpLater(m: Machine, steps: seq<Step>, n: nat)
    requires steps != []
    ensures GivenUp(m, steps, n) <==> GivesUp(m, steps[0], n) || GivenUp(Next(m, steps[0]), steps[1..], n)
  {
    hide Next, GivesUp;
    var r, rest := Next(m, steps[0]), steps[1..];
    forall k | 0 <= k < |rest| ensures Run(r, rest[..k]) == Run(m, steps[..k + 1]) && rest[k] == steps[k + 1] {
      assert steps[..k + 1][1..] == rest[..k];
      RunStep(m, steps[..k + 1]);
    }
    assert steps[..0] == [];
    RunNothing(m);
    if k :| 0 <= k < |rest| && GivesUp(Run(r, rest[..k]), rest[k], n) {
      assert GivesUp(Run(m, steps[..k + 1]), steps[k + 1], n);
    }
    if k :| 0 <= k < |steps| && GivesUp(Run(m, steps[..k]), steps[k], n) {
      if k > 0 {
        assert GivesUp(Run(r, rest[..k - 1]), rest[k - 1], n);
      }
    } else {
      assert !GivesUp(Run(m, steps[..0]), steps[0], n);
    }
  }

  /**
   A number is given up, over any run, only where a submission finds 32 readings waiting or the oldest reading
   cannot be encoded, and there always.
   */
  lemma {:induction false} DropsAreExact(m: Machine, steps: seq<Step>, n: nat)
    ensures Dropped(n) in Run(m, steps).log <==> Dropped(n) in m.log || GivenUp(m, steps, n)
    decreases |steps|
  {
    hide Next, GivesUp, GivenUp;
    if steps == [] {
      assert !GivenUp(m, steps, n) by { NothingGivenUp(m, n); }
    } else {
      StepGivesUp(m, steps[0], n);
      GivenUpLater(m, steps, n);
      DropsAreExact(Next(m, steps[0]), steps[1..], n);
    }
  }

  lemma NothingGivenUp(m: Machine, n: nat)
    ensures !GivenUp(m, [], n)
  {
  }

  // Everything else can be delivered

  const DELIVERY := [Event(Connected), Receive, Send(0, 0), Event(Published(0)), Receive]

  lemma FiveSteps(m: Machine, a: Step, b: Step, c: Step, d: Step, e: Step)
    ensures Run(m, [a, b, c, d, e]) == Next(Next(Next(Next(Next(m, a), b), c), d), e)
  {
    hide Next;
    RunStep(m, [a, b, c, d, e]);
    RunStep(Next(m, a), [b, c, d, e]);
    RunStep(Next(Next(m, a), b), [c, d, e]);
    RunStep(Next(Next(Next(m, a), b), c), [d, e]);
    RunStep(Next(Next(Next(Next(m, a), b), c), d), [e]);
  }

  lemma DeliverPending(m: Machine)
    requires m.pending.Some? && m.signals == []
    ensures
      var r := Run(m, DELIVERY);
      && r.pending.None? && r.signals == [] && r.readings == m.readings && r.config == m.config
      && AckedIn(r.log) == AckedIn(m.log) + [m.pending.value.reading.sequence]
  {
    hide AckedIn;
    FiveSteps(m, Event(Connected), Receive, Send(0, 0), Event(Published(0)), Receive);
    var p := m.pending.value;
    LogSnoc(m.log, LinkUp);
    LogSnoc(m.log + [LinkUp], Enqueued(p.reading, p.payload, 0));
    LogSnoc(m.log + [LinkUp] + [Enqueued(p.reading, p.payload, 0)], Acked(p.reading.sequence, 0));
  }

  lemma TakeOldest(m: Machine)
    requires m.pending.None? && m.readings != [] && Fits(m.config, m.readings[0])
    ensures
      var r := Next(m, Take);
      && r.pending.Some? && r.pending.value.reading == m.readings[0] && r.readings == m.readings[1..]
      && r.signals == m.signals && r.config == m.config && r.log == m.log
  {
    hide Encoder.Encoding, Encoder.Acceptable;
  }

  lemma {:induction false} RunConcat(m: Machine, a: seq<Step>, b: seq<Step>)
    ensures Run(m, a + b) == Run(Run(m, a), b)
    decreases |a|
  {
    hide Next;
    if a == [] {
      assert a + b == b;
    } else {
      assert (a + b)[1..] == a[1..] + b;
      RunConcat(Next(m, a[0]), a[1..], b);
    }
  }

  /** The oldest waiting reading, taken and delivered. */
  lemma DeliverOldest(m: Machine)
    requires m.pending.None? && m.signals == [] && m.readings != [] && Fits(m.config, m.readings[0])
    ensures
      var r := Run(m, [Take] + DELIVERY);
      && r.pending.None? && r.signals == [] && r.readings == m.readings[1..] && r.config == m.config
      && AckedIn(r.log) == AckedIn(m.log) + [m.readings[0].sequence]
      && Waiting(m) == [m.readings[0].sequence] + Waiting(r)
  {
    hide Next, Run, AckedIn, Fits;
    TakeOldest(m);
    RunStep(m, [Take] + DELIVERY);
    assert ([Take] + DELIVERY)[1..] == DELIVERY;
    DeliverPending(Next(m, Take));
  }

  lemma {:induction false} WaitingCanBeDelivered(m: Machine) returns (steps: seq<Step>)
    requires m.pending.None? && m.signals == [] && forall r :: r in m.readings ==> Fits(m.config, r)
    ensures
      var r := Run(m, steps);
      r.readings == [] && r.pending.None? && AckedIn(r.log) == AckedIn(m.log) + Waiting(m)
    decreases |m.readings|
  {
    hide Next, Run, AckedIn, Fits, Waiting;
    if m.readings == [] {
      steps := [];
      RunNothing(m);
      NothingWaits(m);
    } else {
      DeliverOldest(m);
      var b := Run(m, [Take] + DELIVERY);
      var rest := WaitingCanBeDelivered(b);
      steps := [Take] + DELIVERY + rest;
      RunConcat(m, [Take] + DELIVERY, rest);
      var x := [m.readings[0].sequence];
      assert AckedIn(m.log) + x + Waiting(b) == AckedIn(m.log) + (x + Waiting(b));
    }
  }

  lemma NothingWaits(m: Machine)
    requires m.readings == []
    ensures AckedIn(m.log) + Waiting(m) == AckedIn(m.log)
  {
    hide AckedIn;
  }

  /**
   No reading that fits is ever stuck: from any state without unhandled signals there is a schedule that delivers
   the pending reading and then every waiting one, in order, to the last.
   */
  lemma EverythingCanBeDelivered(m: Machine) returns (steps: seq<Step>)
    requires m.signals == [] && forall r :: r in m.readings ==> Fits(m.config, r)
    ensures
      var r := Run(m, steps);
      && r.readings == [] && r.pending.None?
      && AckedIn(r.log) == AckedIn(m.log) + InFlight(m) + Waiting(m)
  {
    hide Next, Run, AckedIn, Fits;
    if m.pending.None? {
      steps := WaitingCanBeDelivered(m);
      assert AckedIn(m.log) + InFlight(m) == AckedIn(m.log);
    } else {
      DeliverPending(m);
      var b := Run(m, DELIVERY);
      var rest := WaitingCanBeDelivered(b);
      steps := DELIVERY + rest;
      RunConcat(m, DELIVERY, rest);
      assert Waiting(b) == Waiting(m);
    }
  }

  /** A signal of the MQTT callback is lost only when eight are waiting. */
  lemma SignalsAreKept(m: Machine, s: Signal)
    ensures Next(m, Event(s)) == if |m.signals| >= 8 then m else m.(signals := m.signals + [s])
  {
  }

  // The link

  /** The latest word on the link before this point of the log is that it is up. */
  predicate LinkedAt(log: seq<Effect>, i: nat)
    requires i <= |log|
  {
    exists j :: 0 <= j < i && log[j] == LinkUp && forall k :: j < k < i ==> log[k] != LinkDown
  }

  /** What is sent is sent while the link is up, and the machine knows whether it is. */
  ghost predicate LinkKnown(m: Machine) {
    && (m.connected <==> LinkedAt(m.log, |m.log|))
    && forall i :: 0 <= i < |m.log| && m.log[i].Enqueued? ==> LinkedAt(m.log, i)
  }

  lemma LinkSnoc(log: seq<Effect>, e: Effect)
    ensures LinkedAt(log + [e], |log| + 1) <==> e == LinkUp || (e != LinkDown && LinkedAt(log, |log|))
    ensures forall i :: 0 <= i <= |log| ==> (LinkedAt(log + [e], i) <==> LinkedAt(log, i))
  {
    var longer := log + [e];
    assert longer[|log|] == e;
    assert forall k :: 0 <= k < |log| ==> longer[k] == log[k];
    forall i | 0 <= i <= |log| ensures LinkedAt(longer, i) <==> LinkedAt(log, i) {
      if j :| 0 <= j < i && longer[j] == LinkUp && forall k :: j < k < i ==> longer[k] != LinkDown {
        assert log[j] == LinkUp;
      }
      if j :| 0 <= j < i && log[j] == LinkUp && forall k :: j < k < i ==> log[k] != LinkDown {
        assert longer[j] == LinkUp;
      }
    }
    if j :| 0 <= j < |log| && log[j] == LinkUp && forall k :: j < k < |log| ==> log[k] != LinkDown {
      assert longer[j] == LinkUp;
    }
  }

  lemma StepKnowsLink(m: Machine, step: Step)
    requires LinkKnown(m)
    ensures LinkKnown(Next(m, step))
  {
    hide LinkedAt, Payload, Elapsed;
    var r := Next(m, step);
    if r.log != m.log {
      LinkSnoc(m.log, r.log[|m.log|]);
    }
  }

  lemma {:induction false} RunKnowsLink(m: Machine, steps: seq<Step>)
    requires LinkKnown(m)
    ensures LinkKnown(Run(m, steps))
    decreases |steps|
  {
    hide LinkKnown, Next;
    if steps != [] {
      StepKnowsLink(m, steps[0]);
      RunKnowsLink(Next(m, steps[0]), steps[1..]);
    }
  }

  /** Over any run nothing is sent after a disconnection until the next connection. */
  lemma SentWhileConnected(c: Config, steps: seq<Step>, i: nat)
    requires i < |Run(Initial(c), steps).log| && Run(Initial(c), steps).log[i].Enqueued?
    ensures LinkedAt(Run(Initial(c), steps).log, i)
  {
    hide Run, LinkedAt;
    assert LinkKnown(Initial(c)) by { NothingLinked(c); }
    RunKnowsLink(Initial(c), steps);
  }

  lemma NothingLinked(c: Config)
    ensures LinkKnown(Initial(c))
  {
  }
}
