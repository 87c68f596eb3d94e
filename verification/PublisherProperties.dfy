/**
 What the publisher keeps over any interleaving of its tasks, the MQTT callback and the network.
 */
module PublisherProperties {
  import opened Options
  import opened Publisher
  import Encoder
  import EncoderProperties
  import Events

  function Run(m: Machine, steps: seq<Step>): Machine
    decreases |steps|
  {
    if steps == [] then m else Run(Next(m, steps[0]), steps[1..])
  }

  function Initial(c: Config): Machine {
    Machine(c, 0, [], [], false, None, -1, 0, [])
  }

  // What became of the issued sequence numbers

  function AckedIn(log: seq<Effect>): seq<nat> {
    if log == [] then []
    else
      var rest, last := AckedIn(log[..|log| - 1]), log[|log| - 1];
      if last.Acked? then rest + [last.sequence] else rest
  }

  function DroppedIn(log: seq<Effect>): seq<nat> {
    if log == [] then []
    else
      var rest, last := DroppedIn(log[..|log| - 1]), log[|log| - 1];
      if last.Dropped? then rest + [last.sequence] else rest
  }

  function Waiting(m: Machine): (numbers: seq<nat>)
    ensures |numbers| == |m.readings|
    ensures forall i :: 0 <= i < |numbers| ==> numbers[i] == m.readings[i].sequence
  {
    seq(|m.readings|, i requires 0 <= i < |m.readings| => m.readings[i].sequence)
  }

  function InFlight(m: Machine): seq<nat> {
    if m.pending.Some? then [m.pending.value.reading.sequence] else []
  }

  function Numbers(n: nat): (numbers: seq<nat>)
    ensures |numbers| == n && forall i :: 0 <= i < n ==> numbers[i] == i
  {
    seq(n, i => i)
  }

  /** Acknowledged, pending and waiting numbers in the order they were issued. */
  function Line(m: Machine): seq<nat> {
    AckedIn(m.log) + InFlight(m) + Waiting(m)
  }

  predicate Ascending(s: seq<nat>) {
    forall i, j :: 0 <= i < j < |s| ==> s[i] < s[j]
  }

  /** Every issued number is exactly one of dropped, acknowledged, pending or waiting. */
  predicate Conserved(m: Machine) {
    multiset(Line(m)) + multiset(DroppedIn(m.log)) == multiset(Numbers(m.nextSequence))
  }

  predicate Ordered(m: Machine) {
    Ascending(Line(m)) && forall n :: n in Line(m) ==> n < m.nextSequence <= Events.MAX_COUNTER + 1
  }

  predicate Bounded(m: Machine) {
    |m.readings| <= MAX_READINGS && |m.signals| <= MAX_SIGNALS && m.nextSequence <= Events.MAX_COUNTER + 1
  }

  /** Something is in flight only while connected, for the pending reading. */
  predicate OneInFlight(m: Machine) {
    m.outstanding >= 0 ==> m.connected && m.pending.Some?
  }

  predicate SameReading(e: Effect, f: Effect) {
    e.Enqueued? && f.Enqueued? && e.reading.sequence == f.reading.sequence ==> e.reading == f.reading
  }

  /** A reading handed to the client is acknowledged, or still the pending one. */
  predicate Settled(m: Machine, e: Effect) {
    e.Enqueued? ==>
      && Payload(m.config, e.reading) == Some(e.payload)
      && (e.reading.sequence in AckedIn(m.log) || (m.pending.Some? && e.reading == m.pending.value.reading))
  }

  /** Each payload handed over is the encoding of its reading, and one number always means one reading. */
  predicate Faithful(m: Machine) {
    && (m.pending.Some? ==> Payload(m.config, m.pending.value.reading) == Some(m.pending.value.payload))
    && (forall e :: e in m.log ==> Settled(m, e))
    && (forall e, f :: e in m.log && f in m.log ==> SameReading(e, f))
  }

  predicate Accounts(m: Machine) {
    Conserved(m) && Ordered(m) && Bounded(m) && OneInFlight(m)
  }

  predicate Inv(m: Machine) {
    Accounts(m) && Faithful(m)
  }

  lemma LogSnoc(log: seq<Effect>, e: Effect)
    ensures AckedIn(log + [e]) == if e.Acked? then AckedIn(log) + [e.sequence] else AckedIn(log)
    ensures DroppedIn(log + [e]) == if e.Dropped? then DroppedIn(log) + [e.sequence] else DroppedIn(log)
  {
    assert (log + [e])[..|log|] == log;
  }

  /** Appending at the end of the line. */
  lemma LineGrows(m: Machine, r: Machine, n: nat)
    requires Accounts(m) && n == m.nextSequence <= Events.MAX_COUNTER && r.nextSequence == n + 1
    requires (Line(r) == Line(m) + [n] && DroppedIn(r.log) == DroppedIn(m.log))
      || (Line(r) == Line(m) && DroppedIn(r.log) == DroppedIn(m.log) + [n])
    ensures Conserved(r) && Ordered(r)
  {
    hide Line, DroppedIn;
    assert Numbers(n + 1) == Numbers(n) + [n];
    forall i | 0 <= i < |Line(m)| ensures Line(m)[i] < n {
      assert Line(m)[i] in Line(m);
    }
  }

  lemma SubmitAccounts(m: Machine, uptime: int, t: Encoder.Temperature, at: MeasuredText)
    requires Accounts(m)
    ensures Accounts(Submitted(m, uptime, t, at))
  {
    hide AckedIn, DroppedIn, Conserved, Ordered;
    var n, r := m.nextSequence, Submitted(m, uptime, t, at);
    if n <= Events.MAX_COUNTER {
      if |m.readings| < MAX_READINGS {
        assert Waiting(r) == Waiting(m) + [n];
        assert Line(r) == Line(m) + [n];
      } else {
        LogSnoc(m.log, Dropped(n));
        assert Waiting(r) == Waiting(m);
        assert Line(r) == Line(m);
      }
      LineGrows(m, r, n);
    }
  }

  lemma SubmitFaithful(m: Machine, uptime: int, t: Encoder.Temperature, at: MeasuredText)
    requires Faithful(m)
    ensures Faithful(Submitted(m, uptime, t, at))
  {
    hide Payload, AckedIn;
    var r := Submitted(m, uptime, t, at);
    if r.log != m.log {
      LogSnoc(m.log, Dropped(m.nextSequence));
    }
    forall e | e in r.log ensures Settled(r, e) {
      assert e in m.log ==> Settled(m, e);
    }
  }

  lemma SignalKeeps(m: Machine, s: Signal)
    requires Inv(m)
    ensures Inv(Signalled(m, s))
  {
    hide Payload, AckedIn, DroppedIn;
    var r := Signalled(m, s);
    assert Waiting(r) == Waiting(m);
    forall e | e in r.log ensures Settled(r, e) {
      assert Settled(m, e);
    }
  }

  lemma SameLine(m: Machine, r: Machine)
    requires Accounts(m) && Line(r) == Line(m) && DroppedIn(r.log) == DroppedIn(m.log)
    requires r.nextSequence == m.nextSequence
    ensures Conserved(r) && Ordered(r)
  {
  }

  lemma LineUnchanged(m: Machine, r: Machine)
    requires AckedIn(r.log) == AckedIn(m.log) && InFlight(r) == InFlight(m) && Waiting(r) == Waiting(m)
    ensures Line(r) == Line(m)
  {
  }

  lemma PendingJoinsAcked(m: Machine, r: Machine)
    requires m.pending.Some? && r.pending.None? && Waiting(r) == Waiting(m)
    requires AckedIn(r.log) == AckedIn(m.log) + [m.pending.value.reading.sequence]
    ensures Line(r) == Line(m)
  {
    hide AckedIn, Waiting;
    var n := m.pending.value.reading.sequence;
    assert AckedIn(m.log) + [n] + [] == AckedIn(m.log) + [n];
  }

  lemma ReceiveAccounts(m: Machine)
    requires Accounts(m)
    ensures Accounts(Received(m))
  {
    hide AckedIn, DroppedIn, Conserved, Ordered, Line;
    var r := Received(m);
    assert Waiting(r) == Waiting(m);
    if r.log != m.log {
      LogSnoc(m.log, r.log[|m.log|]);
    }
    if m.signals != [] && r.pending != m.pending {
      PendingJoinsAcked(m, r);
    } else {
      LineUnchanged(m, r);
    }
    SameLine(m, r);
  }

  lemma ReceiveFaithful(m: Machine)
    requires Faithful(m)
    ensures Faithful(Received(m))
  {
    hide Payload, AckedIn;
    var r := Received(m);
    if r.log != m.log {
      LogSnoc(m.log, r.log[|m.log|]);
    }
    forall e | e in r.log ensures Settled(r, e) {
      assert e in m.log ==> Settled(m, e);
    }
  }

  /** A reading that cannot be encoded leaves the line. */
  lemma LineShrinks(m: Machine, r: Machine, before: seq<nat>, n: nat, after: seq<nat>)
    requires Accounts(m) && Line(m) == before + [n] + after && Line(r) == before + after
    requires DroppedIn(r.log) == DroppedIn(m.log) + [n] && r.nextSequence == m.nextSequence
    ensures Conserved(r) && Ordered(r)
  {
    hide Line, DroppedIn;
    var s := before + [n] + after;
    forall i, j | 0 <= i < j < |before + after| ensures (before + after)[i] < (before + after)[j] {
      var u, v := if i < |before| then i else i + 1, if j < |before| then j else j + 1;
      assert s[u] < s[v];
    }
    forall k | k in before + after ensures k < m.nextSequence {
      assert k in s;
    }
  }

  lemma TakeAccounts(m: Machine)
    requires Accounts(m)
    ensures Accounts(Took(m))
  {
    hide AckedIn, DroppedIn, Conserved, Ordered, Payload, Line;
    var r := Took(m);
    if m.pending.None? && m.readings != [] {
      var n := m.readings[0].sequence;
      assert Waiting(m) == [n] + Waiting(r);
      if r.log != m.log {
        LogSnoc(m.log, Dropped(n));
        HeadDropped(m, r, n);
        LineShrinks(m, r, AckedIn(m.log), n, Waiting(r));
      } else {
        HeadTaken(m, r, n);
        SameLine(m, r);
      }
    }
  }

  lemma HeadDropped(m: Machine, r: Machine, n: nat)
    requires m.pending.None? && r.pending.None? && AckedIn(r.log) == AckedIn(m.log)
    requires Waiting(m) == [n] + Waiting(r)
    ensures Line(m) == AckedIn(m.log) + [n] + Waiting(r) && Line(r) == AckedIn(m.log) + Waiting(r)
  {
    hide AckedIn, Waiting;
    assert AckedIn(m.log) + [] == AckedIn(m.log);
    assert AckedIn(m.log) + [n] + Waiting(r) == AckedIn(m.log) + ([n] + Waiting(r));
  }

  lemma HeadTaken(m: Machine, r: Machine, n: nat)
    requires m.pending.None? && InFlight(r) == [n] && r.log == m.log && Waiting(m) == [n] + Waiting(r)
    ensures Line(r) == Line(m)
  {
    hide AckedIn, Waiting;
    assert AckedIn(m.log) + [] == AckedIn(m.log);
    assert AckedIn(m.log) + [n] + Waiting(r) == AckedIn(m.log) + ([n] + Waiting(r));
  }

  lemma TakeFaithful(m: Machine)
    requires Faithful(m)
    ensures Faithful(Took(m))
  {
    hide Payload, AckedIn;
    var r := Took(m);
    if r.log != m.log {
      LogSnoc(m.log, Dropped(m.readings[0].sequence));
    }
    forall e | e in r.log ensures Settled(r, e) {
      assert e in m.log ==> Settled(m, e);
    }
  }

  lemma ExpireKeeps(m: Machine, now: nat)
    requires Inv(m)
    ensures Inv(Expired(m, now))
  {
    hide Payload, AckedIn, DroppedIn, Elapsed, Conserved, Ordered;
    var r := Expired(m, now);
    assert Waiting(r) == Waiting(m);
    if r.log != m.log {
      LogSnoc(m.log, TimedOut(m.pending.value.reading.sequence));
    }
    LineUnchanged(m, r);
    SameLine(m, r);
    forall e | e in r.log ensures Settled(r, e) {
      assert e in m.log ==> Settled(m, e);
    }
  }

  lemma SendAccounts(m: Machine, now: nat, messageId: int)
    requires Accounts(m)
    ensures Accounts(Sent(m, now, messageId))
  {
    hide AckedIn, DroppedIn, Conserved, Ordered;
    var r := Sent(m, now, messageId);
    assert Waiting(r) == Waiting(m);
    if r.log != m.log {
      LogSnoc(m.log, Enqueued(m.pending.value.reading, m.pending.value.payload, messageId));
    }
    SameLine(m, r);
  }

  /** The new number is not an acknowledged one, because the line never repeats. */
  lemma SendFaithful(m: Machine, now: nat, messageId: int)
    requires Inv(m)
    ensures Faithful(Sent(m, now, messageId))
  {
    hide Payload, AckedIn, DroppedIn, Conserved;
    var r := Sent(m, now, messageId);
    if r.log != m.log {
      var p := m.pending.value;
      var sent := Enqueued(p.reading, p.payload, messageId);
      LogSnoc(m.log, sent);
      forall e | e in m.log ensures SameReading(e, sent) {
        assert Settled(m, e);
        PendingIsNotAcked(m);
      }
      forall e | e in r.log ensures Settled(r, e) {
        assert e in m.log ==> Settled(m, e);
      }
    }
  }

  lemma PendingIsNotAcked(m: Machine)
    requires Ordered(m) && m.pending.Some?
    ensures m.pending.value.reading.sequence !in AckedIn(m.log)
  {
    hide AckedIn;
    var line, acked := Line(m), AckedIn(m.log);
    assert line[|acked|] == m.pending.value.reading.sequence;
    assert forall i :: 0 <= i < |acked| ==> line[i] == acked[i];
  }

  lemma StepKeeps(m: Machine, step: Step)
    requires Inv(m)
    ensures Inv(Next(m, step)) && Next(m, step).config == m.config && m.log <= Next(m, step).log
  {
    hide Accounts, Faithful, Payload;
    match step
    case Submit(uptime, t, at) =>
      SubmitAccounts(m, uptime, t, at);
      SubmitFaithful(m, uptime, t, at);
    case Event(s) => SignalKeeps(m, s);
    case Receive =>
      ReceiveAccounts(m);
      ReceiveFaithful(m);
    case Take =>
      TakeAccounts(m);
      TakeFaithful(m);
    case Expire(now) => ExpireKeeps(m, now);
    case Send(now, messageId) =>
      SendAccounts(m, now, messageId);
      SendFaithful(m, now, messageId);
  }

  // Whole runs

  lemma {:induction false} RunKeeps(m: Machine, steps: seq<Step>)
    requires Inv(m)
    ensures Inv(Run(m, steps)) && Run(m, steps).config == m.config && m.log <= Run(m, steps).log
    decreases |steps|
  {
    hide Inv, Next;
    if steps != [] {
      StepKeeps(m, steps[0]);
      RunKeeps(Next(m, steps[0]), steps[1..]);
    }
  }

  lemma InitialHolds(c: Config)
    ensures Inv(Initial(c))
  {
    assert Line(Initial(c)) == [] && Numbers(0) == [];
  }

  function Occurrences(s: seq<nat>, n: nat): nat {
    multiset(s)[n]
  }

  /** An issued number is exactly one of acknowledged, in flight, waiting or dropped, and exactly once. */
  lemma EveryNumberIsInOnePlace(c: Config, steps: seq<Step>, n: nat)
    ensures
      var m := Run(Initial(c), steps);
      Occurrences(AckedIn(m.log), n) + Occurrences(InFlight(m), n) + Occurrences(Waiting(m), n)
      + Occurrences(DroppedIn(m.log), n)
      == if n < m.nextSequence then 1 else 0
    ensures |Run(Initial(c), steps).readings| <= MAX_READINGS
  {
    hide Run, AckedIn, DroppedIn, Faithful, Ordered;
    InitialHolds(c);
    RunKeeps(Initial(c), steps);
    var m := Run(Initial(c), steps);
    NumbersOccurOnce(m.nextSequence, n);
    assert multiset(Line(m)) == multiset(AckedIn(m.log)) + multiset(InFlight(m)) + multiset(Waiting(m));
  }

  lemma {:induction false} NumbersOccurOnce(count: nat, n: nat)
    ensures Occurrences(Numbers(count), n) == if n < count then 1 else 0
  {
    if count > 0 {
      assert Numbers(count) == Numbers(count - 1) + [count - 1];
      NumbersOccurOnce(count - 1, n);
    }
  }

  /** Acknowledgements come in the order of issue, and the pending reading is newer than all of them. */
  lemma AcksAscend(c: Config, steps: seq<Step>)
    ensures
      var m := Run(Initial(c), steps);
      && Ascending(AckedIn(m.log))
      && (m.pending.Some? ==> forall n :: n in AckedIn(m.log) ==> n < m.pending.value.reading.sequence)
      && (m.outstanding >= 0 ==> m.connected && m.pending.Some?)
  {
    hide Run, AckedIn, DroppedIn, Faithful, Conserved;
    InitialHolds(c);
    RunKeeps(Initial(c), steps);
    var m := Run(Initial(c), steps);
    var line, acked := Line(m), AckedIn(m.log);
    assert forall i :: 0 <= i < |acked| ==> line[i] == acked[i];
    if m.pending.Some? {
      assert line[|acked|] == m.pending.value.reading.sequence;
    }
  }

  /** Retransmissions are byte-identical, over any run of timeouts, reconnections and lost answers. */
  lemma ResendsAreIdentical(c: Config, steps: seq<Step>, e: Effect, f: Effect)
    requires e in Run(Initial(c), steps).log && f in Run(Initial(c), steps).log
    requires e.Enqueued? && f.Enqueued? && e.reading.sequence == f.reading.sequence
    ensures e.payload == f.payload && Payload(c, e.reading) == Some(e.payload)
  {
    hide Run, Payload, AckedIn, Accounts;
    InitialHolds(c);
    RunKeeps(Initial(c), steps);
    var m := Run(Initial(c), steps);
    assert Settled(m, e) && Settled(m, f) && SameReading(e, f);
  }

  lemma LeavesOnlyOnItsAck(m: Machine, step: Step)
    requires Inv(m) && m.pending.Some?
    ensures
      Next(m, step).pending != m.pending <==>
      step == Receive && m.signals != [] && m.signals[0] == Published(m.outstanding)
    ensures
      Next(m, step).pending != m.pending ==>
      && Next(m, step).pending.None?
      && Next(m, step).log == m.log + [Acked(m.pending.value.reading.sequence, m.outstanding)]
  {
    hide Inv, Payload, Elapsed;
  }

  lemma StepKeepsAcks(m: Machine, step: Step, n: nat)
    requires n in AckedIn(m.log)
    ensures n in AckedIn(Next(m, step).log)
  {
    hide Payload, Elapsed, AckedIn, DroppedIn;
    var r := Next(m, step);
    if r.log != m.log {
      var e := r.log[|m.log|];
      assert r.log == m.log + [e];
      LogSnoc(m.log, e);
    }
  }

  lemma {:induction false} RunKeepsAcks(m: Machine, steps: seq<Step>, n: nat)
    requires n in AckedIn(m.log)
    ensures n in AckedIn(Run(m, steps).log)
    decreases |steps|
  {
    hide Next, AckedIn;
    if steps != [] {
      StepKeepsAcks(m, steps[0], n);
      RunKeepsAcks(Next(m, steps[0]), steps[1..], n);
    }
  }

  lemma {:induction false} RunKeepsPending(m: Machine, steps: seq<Step>)
    requires Inv(m) && m.pending.Some?
    requires m.pending.value.reading.sequence !in AckedIn(Run(m, steps).log)
    ensures Run(m, steps).pending == m.pending
    decreases |steps|
  {
    hide Next, AckedIn, Inv;
    if steps != [] {
      var r, n := Next(m, steps[0]), m.pending.value.reading.sequence;
      StepKeeps(m, steps[0]);
      LeavesOnlyOnItsAck(m, steps[0]);
      if r.pending != m.pending {
        LogSnoc(m.log, Acked(n, m.outstanding));
        RunKeepsAcks(r, steps[1..], n);
        assert false;
      }
      RunKeepsPending(r, steps[1..]);
    }
  }

  /**
   A pending reading is pending, unchanged, for exactly as long as its number is not acknowledged: over any
   run of stale acknowledgements, timeouts, reconnections, refusals and dropped signals.
   */
  lemma PendingUntilAcknowledged(c: Config, steps: seq<Step>, more: seq<Step>)
    requires Run(Initial(c), steps).pending.Some?
    ensures
      var m := Run(Initial(c), steps);
      var r := Run(m, more);
      r.pending == m.pending <==> m.pending.value.reading.sequence !in AckedIn(r.log)
  {
    hide Run, AckedIn, Next, Faithful, Conserved, Bounded;
    InitialHolds(c);
    RunKeeps(Initial(c), steps);
    var m := Run(Initial(c), steps);
    RunKeeps(m, more);
    var r := Run(m, more);
    if m.pending.value.reading.sequence !in AckedIn(r.log) {
      RunKeepsPending(m, more);
    } else if r.pending == m.pending {
      PendingIsNotAcked(r);
    }
  }

  lemma LostAckIsRetried(m: Machine, now: nat, id: nat)
    requires m.connected && m.pending.Some? && m.outstanding >= 0
    requires Elapsed(now, m.sentAt) >= m.config.retryTicks
    ensures
      var r := Sent(Expired(m, now), now, id);
      && r.outstanding == id && r.sentAt == now && r.pending == m.pending && r.signals == m.signals
      && r.log == m.log + [TimedOut(m.pending.value.reading.sequence),
                           Enqueued(m.pending.value.reading, m.pending.value.payload, id)]
  {
  }

  /**
   Losing a signal never wedges the publisher: from any state, once the waiting signals are handled, a
   connection, one accepted enqueue and its acknowledgement deliver the pending reading, and so does, after a
   lost acknowledgement, a timeout in place of the connection.
   */
  lemma PendingCanAlwaysBeDelivered(m: Machine, now: nat, id: nat)
    requires m.pending.Some? && m.signals == []
    ensures
      var steps := [Event(Connected), Receive, Send(now, id), Event(Published(id)), Receive];
      var r := Run(m, steps);
      r.pending.None? && r.log == m.log + [LinkUp, Enqueued(m.pending.value.reading, m.pending.value.payload, id),
                                           Acked(m.pending.value.reading.sequence, id)]
    ensures
      m.connected && m.outstanding >= 0 && Elapsed(now, m.sentAt) >= m.config.retryTicks ==>
      var steps := [Expire(now), Send(now, id), Event(Published(id)), Receive];
      var r := Run(m, steps);
      && r.pending.None?
      && r.log == m.log + [TimedOut(m.pending.value.reading.sequence),
                           Enqueued(m.pending.value.reading, m.pending.value.payload, id),
                           Acked(m.pending.value.reading.sequence, id)]
  {
    hide Run, Elapsed;
    var a := Next(m, Event(Connected));
    var b := Next(a, Receive);
    RunStep(m, [Event(Connected), Receive, Send(now, id), Event(Published(id)), Receive]);
    RunStep(a, [Receive, Send(now, id), Event(Published(id)), Receive]);
    RunStep(b, [Send(now, id), Event(Published(id)), Receive]);
    AckDelivers(Next(b, Send(now, id)), id);
    if m.connected && m.outstanding >= 0 && Elapsed(now, m.sentAt) >= m.config.retryTicks {
      var x := Next(m, Expire(now));
      RunStep(m, [Expire(now), Send(now, id), Event(Published(id)), Receive]);
      RunStep(x, [Send(now, id), Event(Published(id)), Receive]);
      LostAckIsRetried(m, now, id);
      AckDelivers(Next(x, Send(now, id)), id);
    }
  }

  lemma AckDelivers(m: Machine, id: nat)
    requires m.pending.Some? && m.signals == [] && m.outstanding == id
    ensures
      var r := Run(m, [Event(Published(id)), Receive]);
      r.pending.None? && r.log == m.log + [Acked(m.pending.value.reading.sequence, id)]
  {
    hide Run;
    var d := Next(m, Event(Published(id)));
    assert [Event(Published(id)), Receive][1..] == [Receive] && [Receive][1..] == [];
    RunStep(m, [Event(Published(id)), Receive]);
    RunStep(d, [Receive]);
    RunNothing(Next(d, Receive));
  }

  /** The tick counter wraps at 2^32, and the time since a send is right for as long as that. */
  lemma ElapsedIsTime(since: nat, ticks: nat)
    requires since < 0x1_0000_0000 && ticks < 0x1_0000_0000
    ensures Elapsed((since + ticks) % 0x1_0000_0000, since) == ticks
  {
  }

  /** Waiting ends at the first look after the timeout, and not before, wherever the tick counter wraps. */
  lemma TimeoutInTicks(m: Machine, ticks: nat)
    requires Inv(m) && m.outstanding >= 0 && m.sentAt < 0x1_0000_0000 && ticks < 0x1_0000_0000
    ensures
      var r := Expired(m, (m.sentAt + ticks) % 0x1_0000_0000);
      && (ticks < m.config.retryTicks ==> r == m)
      && (ticks >= m.config.retryTicks ==>
            r == m.(outstanding := -1, log := m.log + [TimedOut(m.pending.value.reading.sequence)]))
  {
    hide Elapsed, Faithful, Conserved, Ordered, Bounded;
    ElapsedIsTime(m.sentAt, ticks);
  }

  /** Waiting ends exactly at the timeout: before it nothing is sent again, and it never loses the reading. */
  lemma TimeoutIsExact(m: Machine, now: nat, id: nat)
    requires Inv(m) && m.outstanding >= 0
    ensures Expired(m, now).outstanding < 0 <==> Elapsed(now, m.sentAt) >= m.config.retryTicks
    ensures Elapsed(now, m.sentAt) < m.config.retryTicks ==> Run(m, [Expire(now), Send(now, id)]) == m
    ensures Expired(m, now).pending == m.pending
  {
    hide Run, Elapsed, Faithful, Conserved, Ordered, Bounded;
    RunStep(m, [Expire(now), Send(now, id)]);
    assert [Expire(now), Send(now, id)][1..] == [Send(now, id)];
    RunStep(Next(m, Expire(now)), [Send(now, id)]);
    assert [Send(now, id)][1..] == [];
    RunNothing(Next(Next(m, Expire(now)), Send(now, id)));
  }

  lemma RunStep(m: Machine, steps: seq<Step>)
    requires steps != []
    ensures Run(m, steps) == Run(Next(m, steps[0]), steps[1..])
  {
  }

  lemma RunNothing(m: Machine)
    ensures Run(m, []) == m
  {
  }

  /** The program's loop pass is one of the interleavings. */
  lemma {:induction false} PassIsARun(m: Machine, now: nat, messageId: int)
    ensures
      Pass(m, now, messageId)
      == Run(m, Receives(|m.signals|) + [Take, Expire(now), Send(now, messageId)])
    decreases |m.signals|
  {
    hide Payload, Elapsed;
    var tail := [Take, Expire(now), Send(now, messageId)];
    var steps := Receives(|m.signals|) + tail;
    if m.signals == [] {
      assert steps == tail;
      RunStep(m, tail);
      RunStep(Took(m), [Expire(now), Send(now, messageId)]);
      RunStep(Expired(Took(m), now), [Send(now, messageId)]);
    } else {
      assert steps[1..] == Receives(|m.signals| - 1) + tail;
      RunStep(m, steps);
      PassIsARun(Received(m), now, messageId);
    }
  }

  function Receives(n: nat): (steps: seq<Step>)
    ensures |steps| == n && forall i :: 0 <= i < n ==> steps[i] == Receive
  {
    seq(n, _ => Receive)
  }

  // Acknowledgements answer sends

  /** The acknowledgement at `i` answers the send at `j`: only dropped submissions happened in between. */
  predicate Answers(log: seq<Effect>, i: nat, j: nat) {
    && j < i < |log| && log[i].Acked? && log[j].Enqueued?
    && log[j].reading.sequence == log[i].sequence && log[j].messageId == log[i].messageId
    && forall k :: j < k < i ==> log[k].Dropped?
  }

  predicate Backed(log: seq<Effect>, i: nat) {
    exists j: nat :: j < i && Answers(log, i, j)
  }

  /** What is in flight was sent under that id, and nothing but dropped submissions happened since. */
  predicate SentAt(m: Machine, j: nat) {
    && j < |m.log| && m.pending.Some?
    && m.log[j] == Enqueued(m.pending.value.reading, m.pending.value.payload, m.outstanding)
    && forall k :: j < k < |m.log| ==> m.log[k].Dropped?
  }

  predicate AckHolds(log: seq<Effect>, i: nat)
    requires i < |log|
  {
    && (log[i].Enqueued? ==> log[i].messageId >= 0)
    && (log[i].Acked? ==> log[i].messageId >= -1 && (log[i].messageId >= 0 ==> Backed(log, i)))
  }

  predicate Acknowledged(m: Machine) {
    && m.outstanding >= -1
    && (m.outstanding >= 0 ==> exists j: nat :: j < |m.log| && SentAt(m, j))
    && forall i :: 0 <= i < |m.log| ==> AckHolds(m.log, i)
  }

  lemma EarlierAcksHold(log: seq<Effect>, longer: seq<Effect>)
    requires log <= longer && forall i :: 0 <= i < |log| ==> AckHolds(log, i)
    ensures forall i :: 0 <= i < |log| ==> AckHolds(longer, i)
  {
    forall i | 0 <= i < |log| ensures AckHolds(longer, i) {
      assert AckHolds(log, i) && longer[i] == log[i];
      if log[i].Acked? && log[i].messageId >= 0 {
        var j: nat :| j < i && Answers(log, i, j);
        assert Answers(longer, i, j);
      }
    }
  }

  lemma StepAcknowledges(m: Machine, step: Step)
    requires Acknowledged(m) && OneInFlight(m)
    ensures Acknowledged(Next(m, step))
  {
    hide Payload, Elapsed, AckHolds;
    var r := Next(m, step);
    EarlierAcksHold(m.log, r.log);
    if m.outstanding >= 0 {
      var j: nat :| j < |m.log| && SentAt(m, j);
      if r.outstanding == m.outstanding && r.pending == m.pending {
        assert SentAt(r, j);
      }
      if |r.log| > |m.log| && r.log[|m.log|].Acked? {
        assert Answers(r.log, |m.log|, j);
      }
    }
    if r.log != m.log {
      NewEffectHolds(m, step);
    }
    if r.outstanding >= 0 && r.outstanding != m.outstanding {
      assert SentAt(r, |m.log|);
    }
  }

  lemma NewEffectHolds(m: Machine, step: Step)
    requires Next(m, step).log != m.log && m.outstanding >= -1
    requires
      m.outstanding >= 0 && Next(m, step).log[|m.log|].Acked? ==> Backed(Next(m, step).log, |m.log|)
    ensures AckHolds(Next(m, step).log, |m.log|)
  {
    hide Payload, Elapsed, Backed;
  }

  lemma {:induction false} RunAcknowledges(m: Machine, steps: seq<Step>)
    requires Inv(m) && Acknowledged(m)
    ensures Acknowledged(Run(m, steps))
    decreases |steps|
  {
    hide Acknowledged, Next, Accounts, Faithful;
    if steps != [] {
      StepKeeps(m, steps[0]);
      assert OneInFlight(m) by { InFlightHolds(m); }
      StepAcknowledges(m, steps[0]);
      RunAcknowledges(Next(m, steps[0]), steps[1..]);
    }
  }

  lemma InFlightHolds(m: Machine)
    requires Inv(m)
    ensures OneInFlight(m)
  {
  }

  /**
   When an acknowledgement means delivery: over any run, an acknowledged number was sent before, with its
   reading's payload, under exactly the acknowledged id, and without a connection, disconnection, timeout or
   other send in between, if and only if that id is not negative.
   */
  lemma AcksAnswerSends(c: Config, steps: seq<Step>, i: nat)
    requires i < |Run(Initial(c), steps).log| && Run(Initial(c), steps).log[i].Acked?
    ensures
      var log := Run(Initial(c), steps).log;
      Backed(log, i) <==> log[i].messageId >= 0
    ensures
      var log := Run(Initial(c), steps).log;
      forall j: nat :: Answers(log, i, j) ==> Payload(c, log[j].reading) == Some(log[j].payload)
  {
    hide Run, Payload, Accounts;
    InitialHolds(c);
    RunKeeps(Initial(c), steps);
    RunAcknowledges(Initial(c), steps);
    var m := Run(Initial(c), steps);
    assert AckHolds(m.log, i);
    forall j: nat | Answers(m.log, i, j)
      ensures m.log[j].messageId >= 0 && Payload(c, m.log[j].reading) == Some(m.log[j].payload)
    {
      assert AckHolds(m.log, j) && Settled(m, m.log[j]);
    }
  }

  predicate Plausible(s: Signal) {
    s.Published? ==> s.messageId >= 0
  }

  predicate OnlyPlausible(m: Machine) {
    && (forall s :: s in m.signals ==> Plausible(s))
    && (forall e :: e in m.log && e.Acked? ==> e.messageId >= 0)
  }

  lemma PlausibleStep(m: Machine, step: Step)
    requires OnlyPlausible(m) && (step.Event? ==> Plausible(step.signal))
    ensures OnlyPlausible(Next(m, step))
  {
    hide Payload, Elapsed;
    var r := Next(m, step);
    forall e | e in r.log && e.Acked? ensures e.messageId >= 0 {
      if e !in m.log {
        assert m.signals[0] in m.signals;
      }
    }
  }

  lemma {:induction false} PlausibleRun(m: Machine, steps: seq<Step>)
    requires OnlyPlausible(m) && forall s :: s in steps && s.Event? ==> Plausible(s.signal)
    ensures OnlyPlausible(Run(m, steps))
    decreases |steps|
  {
    hide Payload, Elapsed;
    if steps != [] {
      assert steps[0] in steps;
      PlausibleStep(m, steps[0]);
      PlausibleRun(Next(m, steps[0]), steps[1..]);
    }
  }

  /** With the ids the client library gives, which are not negative, every acknowledged number was sent. */
  lemma EveryAckAnswersASend(c: Config, steps: seq<Step>, i: nat)
    requires forall s :: s in steps && s.Event? ==> Plausible(s.signal)
    requires i < |Run(Initial(c), steps).log| && Run(Initial(c), steps).log[i].Acked?
    ensures Backed(Run(Initial(c), steps).log, i)
  {
    hide Run, Backed;
    PlausibleRun(Initial(c), steps);
    var log := Run(Initial(c), steps).log;
    assert log[i] in log;
    AcksAnswerSends(c, steps, i);
  }

  /** Without that the code acknowledges a reading it never sent: id -1 matches an idle publisher. */
  lemma MinusOneAcknowledgesUnsent()
    ensures
      var c, t := Config("d", "b", 0), Encoder.Celsius(false, 0);
      Run(Initial(c), [Submit(0, t, ""), Take, Event(Published(-1)), Receive]).log == [Acked(0, -1)]
  {
    hide Run, Encoder.Encoding;
    var c, t := Config("d", "b", 0), Encoder.Celsius(false, 0);
    EncoderProperties.ConfiguredEventFits(EventOf(c, Reading(0, 0, t, "")));
    var a := Next(Initial(c), Submit(0, t, ""));
    var b := Next(a, Take);
    var d := Next(b, Event(Published(-1)));
    assert Payload(c, Reading(0, 0, t, "")).Some?;
    assert a.readings == [Reading(0, 0, t, "")];
    assert b.pending.Some? && b.signals == [] && b.log == [];
    assert d.signals == [Published(-1)] && d.outstanding == -1;
    assert Next(d, Receive).log == [Acked(0, -1)];
    RunStep(Initial(c), [Submit(0, t, ""), Take, Event(Published(-1)), Receive]);
    RunStep(a, [Take, Event(Published(-1)), Receive]);
    RunStep(b, [Event(Published(-1)), Receive]);
    RunStep(d, [Receive]);
    assert [Receive][1..] == [];
    assert [Event(Published(-1)), Receive][1..] == [Receive];
    assert [Take, Event(Published(-1)), Receive][1..] == [Event(Published(-1)), Receive];
    RunNothing(Next(d, Receive));
  }
}
