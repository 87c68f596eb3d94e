/**
 The same for any number of boards that restart at any time: every message of a site tells the measurement that
 its board took under that number since the start its boot id names.
 */
module Measurements {
  import opened Options
  import opened DeviceIdentity
  import opened Devices
  import opened Submissions
  import Publisher
  import PublisherProperties

  const NOTHING := Site(map[], {})

  lemma {:induction false} AfterSnoc(s: Site, moves: seq<Move>)
    requires moves != []
    ensures After(s, moves) == Moved(After(s, moves[..|moves| - 1]), moves[|moves| - 1])
    decreases |moves|
  {
    hide Moved;
    var n := |moves| - 1;
    if n == 0 {
      assert moves[1..] == [] && moves[..0] == [];
    } else {
      AfterSnoc(Moved(s, moves[0]), moves[1..]);
      assert moves[1..][..n - 1] == moves[..n][1..] && moves[..n][0] == moves[0];
    }
  }

  /** What the move submits on this board while it runs on this counter. */
  function MeasuredIn(s: Site, move: Move, mac: Mac, counter: nat): seq<Measurement> {
    if move.Work? && move.mac == mac && DeviceAt(s, mac).machine.Some?
       && StoredCounter(DeviceAt(s, mac).counter) == counter then MeasuredBy(move.step)
    else []
  }

  /** The submissions of one board since the start with this counter. */
  function Taken(moves: seq<Move>, mac: Mac, counter: nat): seq<Measurement> {
    if moves == [] then []
    else
      var n := |moves| - 1;
      Taken(moves[..n], mac, counter) + MeasuredIn(After(NOTHING, moves[..n]), moves[n], mac, counter)
  }

  /** The board's machine, its sent messages and the submissions agree. */
  predicate BoardRecords(s: Site, moves: seq<Move>, mac: Mac) {
    var d := DeviceAt(s, mac);
    d.machine.Some? ==>
      && Records(d.machine.value, Taken(moves, mac, StoredCounter(d.counter)))
      && d.machine.value.config.boot == BootId(mac, StoredCounter(d.counter))
  }

  predicate MessageRecords(moves: seq<Move>, m: Message) {
    Holds(Taken(moves, m.mac, m.counter), m.reading)
  }

  ghost predicate SiteRecords(s: Site, moves: seq<Move>) {
    && (forall mac: Mac :: BoardRecords(s, moves, mac))
    && (forall m :: m in s.sent ==> MessageRecords(moves, m))
    && (forall mac: Mac, counter: nat :: counter > StoredCounter(DeviceAt(s, mac).counter) ==>
          Taken(moves, mac, counter) == [])
  }

  lemma HoldsLater(given: seq<Measurement>, more: seq<Measurement>, r: Publisher.Reading)
    requires Holds(given, r)
    ensures Holds(given + more, r)
  {
  }

  lemma {:induction false} MovesRecord(moves: seq<Move>)
    ensures SiteRecords(After(NOTHING, moves), moves)
  {
    hide Moved, SiteRecords;
    if moves == [] {
      NothingRecords();
    } else {
      var n := |moves| - 1;
      MovesRecord(moves[..n]);
      AfterSnoc(NOTHING, moves);
      MoveRecords(After(NOTHING, moves[..n]), moves[..n], moves[n]);
      assert moves[..n] + [moves[n]] == moves;
    }
  }

  lemma NothingRecords()
    ensures SiteRecords(NOTHING, [])
  {
  }

  lemma TakenSnoc(moves: seq<Move>, move: Move, mac: Mac, counter: nat)
    ensures
      Taken(moves + [move], mac, counter)
      == Taken(moves, mac, counter) + MeasuredIn(After(NOTHING, moves), move, mac, counter)
  {
    hide MeasuredIn, After;
    assert (moves + [move])[..|moves|] == moves;
  }

  lemma MoveRecords(s: Site, moves: seq<Move>, move: Move)
    requires s == After(NOTHING, moves) && SiteRecords(s, moves)
    ensures SiteRecords(Moved(s, move), moves + [move])
  {
    hide Moved, Taken, Holds, BoardRecords, MeasuredIn, After;
    var u, longer := Moved(s, move), moves + [move];
    forall mac: Mac ensures BoardRecords(u, longer, mac) {
      TakenSnoc(moves, move, mac, StoredCounter(DeviceAt(u, mac).counter));
      assert BoardRecords(s, moves, mac);
      BoardMoves(s, moves, move, mac);
    }
    forall m | m in u.sent ensures MessageRecords(longer, m) {
      TakenSnoc(moves, move, m.mac, m.counter);
      if m in s.sent {
        assert MessageRecords(moves, m);
        HoldsLater(Taken(moves, m.mac, m.counter), MeasuredIn(s, move, m.mac, m.counter), m.reading);
      } else {
        BoardMoves(s, moves, move, m.mac);
        NewMessage(s, longer, move, m);
      }
    }
    forall mac: Mac, counter: nat | counter > StoredCounter(DeviceAt(u, mac).counter)
      ensures Taken(longer, mac, counter) == []
    {
      TakenSnoc(moves, move, mac, counter);
      CounterGrows(s, move, mac);
      NotYet(s, move, mac, counter);
    }
  }

  lemma CounterGrows(s: Site, move: Move, mac: Mac)
    ensures StoredCounter(DeviceAt(Moved(s, move), mac).counter) >= StoredCounter(DeviceAt(s, mac).counter)
  {
    hide BootId, Publisher.Next;
  }

  lemma NotYet(s: Site, move: Move, mac: Mac, counter: nat)
    requires counter > StoredCounter(DeviceAt(s, mac).counter)
    ensures MeasuredIn(s, move, mac, counter) == []
  {
  }

  /** A start begins with nothing submitted, and work records what it submits. */
  lemma BoardMoves(s: Site, moves: seq<Move>, move: Move, mac: Mac)
    requires s == After(NOTHING, moves) && SiteRecords(s, moves)
    ensures BoardRecords(Moved(s, move), moves + [move], mac)
  {
    hide BootId, Publisher.Next, Taken, After, Records;
    var u := Moved(s, move);
    var counter := StoredCounter(DeviceAt(u, mac).counter);
    assert BoardRecords(s, moves, mac);
    TakenSnoc(moves, move, mac, counter);
    match move
    case PowerOn(board, flashing, device, retryTicks) =>
      if board == mac && DeviceAt(u, mac).machine.Some? {
        var m := DeviceAt(u, mac).machine.value;
        assert m == PublisherProperties.Initial(m.config);
        assert Taken(moves, mac, counter) == [] && MeasuredIn(s, move, mac, counter) == [];
        assert Taken(moves + [move], mac, counter) == [];
        StartRecords(m.config);
      } else {
        assert Taken(moves + [move], mac, counter) == Taken(moves, mac, counter);
      }
    case Work(board, step) =>
      if board == mac && DeviceAt(s, mac).machine.Some? {
        WorkRecords(s, moves, step, mac);
      } else {
        assert MeasuredIn(s, move, mac, counter) == [];
        assert Taken(moves + [move], mac, counter) == Taken(moves, mac, counter);
      }
  }

  lemma WorkRecords(s: Site, moves: seq<Move>, step: Publisher.Step, mac: Mac)
    requires s == After(NOTHING, moves) && BoardRecords(s, moves, mac) && DeviceAt(s, mac).machine.Some?
    ensures BoardRecords(Moved(s, Work(mac, step)), moves + [Work(mac, step)], mac)
  {
    hide BootId, Publisher.Next, Taken, After, Records, MeasuredBy;
    var d := DeviceAt(s, mac);
    var counter, m := StoredCounter(d.counter), d.machine.value;
    var given := Taken(moves, mac, counter);
    TakenSnoc(moves, Work(mac, step), mac, counter);
    StepRecords(m, step, given);
    SameConfig(m, step);
    assert DeviceAt(Moved(s, Work(mac, step)), mac) == d.(machine := Some(Publisher.Next(m, step)));
    assert Taken(moves + [Work(mac, step)], mac, counter) == given + MeasuredBy(step);
  }

  lemma SameConfig(m: Publisher.Machine, step: Publisher.Step)
    ensures Publisher.Next(m, step).config == m.config
  {
    hide Publisher.Payload, Publisher.Elapsed;
  }

  lemma StartRecords(c: Publisher.Config)
    ensures Records(PublisherProperties.Initial(c), [])
  {
  }

  lemma NewMessage(s: Site, longer: seq<Move>, move: Move, m: Message)
    requires m in Moved(s, move).sent && m !in s.sent && BoardRecords(Moved(s, move), longer, m.mac)
    ensures MessageRecords(longer, m)
  {
    hide BootId, Publisher.Next, Taken, Holds;
  }

  /**
   From measurement to message, over any boards, restarts, crashes and failed commits: the message a board sends
   under a number tells exactly the measurement the board took under that number since its start, and carries the
   boot id of that start.
   */
  lemma MessagesTellMeasurements(moves: seq<Move>, m: Message)
    requires m in After(NOTHING, moves).sent
    ensures
      var given := Taken(moves, m.mac, m.counter);
      && m.config.boot == BootId(m.mac, m.counter)
      && Holds(given, m.reading) && Tells(m.config, m.reading.sequence, given[m.reading.sequence], m.payload)
  {
    hide BootId, Taken, After;
    MovesRecord(moves);
    SiteStaysSound(NOTHING, moves);
    assert Filed(After(NOTHING, moves), m) && MessageRecords(moves, m);
  }

  /** A board whose start is confirmed runs the publisher afresh under its new boot id, and no other board changes. */
  lemma StartRuns(s: Site, mac: Mac, device: string, retryTicks: nat)
    requires StoredCounter(DeviceAt(s, mac).counter) < 0xffff_ffff_ffff_ffff
    ensures
      var u := Moved(s, PowerOn(mac, Committed, device, retryTicks));
      var counter := StoredCounter(DeviceAt(s, mac).counter) + 1;
      && DeviceAt(u, mac)
         == Device(Some(counter),
                   Some(PublisherProperties.Initial(Publisher.Config(device, BootId(mac, counter), retryTicks))))
      && u.sent == s.sent && forall other :: other != mac ==> DeviceAt(u, other) == DeviceAt(s, other)
  {
    hide BootId;
  }

  /** A running board's step is the publisher's, and everything it hands to the client is sent. */
  lemma WorkSends(s: Site, mac: Mac, step: Publisher.Step)
    requires DeviceAt(s, mac).machine.Some?
    ensures
      var u, d := Moved(s, Work(mac, step)), DeviceAt(s, mac);
      var m := Publisher.Next(d.machine.value, step);
      && DeviceAt(u, mac) == d.(machine := Some(m)) && s.sent <= u.sent
      && forall e :: e in m.log && e.Enqueued? ==>
           Message(mac, StoredCounter(d.counter), m.config, e.reading, e.payload) in u.sent
  {
    hide Publisher.Next;
  }
}
