/**
 Any number of boards running the publisher, restarting at any time and losing flash writes: one identity
 still means one payload.
 */
module Devices {
  import opened Options
  import opened DeviceIdentity
  import Publisher
  import PublisherProperties

  /** A board with its flash counter and, while it runs, its publisher. */
  datatype Device = Device(counter: Option<nat>, machine: Option<Publisher.Machine>)

  /** One message as handed to the MQTT client, with the board and counter behind its boot id. */
  datatype Message =
    Message(mac: Mac, counter: nat, config: Publisher.Config, reading: Publisher.Reading, payload: string)

  datatype Site = Site(devices: map<Mac, Device>, sent: set<Message>)

  datatype Move =
    | PowerOn(mac: Mac, flashing: Flashing, device: string, retryTicks: nat)
    | Work(mac: Mac, step: Publisher.Step)

  function DeviceAt(s: Site, mac: Mac): Device {
    if mac in s.devices then s.devices[mac] else Device(None, None)
  }

  function Sends(mac: Mac, counter: nat, m: Publisher.Machine): set<Message> {
    set e | e in m.log && e.Enqueued? :: Message(mac, counter, m.config, e.reading, e.payload)
  }

  function Moved(s: Site, move: Move): Site {
    var d := DeviceAt(s, move.mac);
    match move
    case PowerOn(mac, flashing, device, retryTicks) =>
      var (counter, boot) := StartUp(d.counter, mac, flashing);
      var machine :=
        if boot.Some? then Some(PublisherProperties.Initial(Publisher.Config(device, boot.value, retryTicks)))
        else None;
      s.(devices := s.devices[mac := Device(counter, machine)])
    case Work(mac, step) =>
      if d.machine.None? then s
      else
        var m := Publisher.Next(d.machine.value, step);
        Site(s.devices[mac := d.(machine := Some(m))], s.sent + Sends(mac, StoredCounter(d.counter), m))
  }

  function After(s: Site, moves: seq<Move>): Site
    decreases |moves|
  {
    if moves == [] then s else After(Moved(s, moves[0]), moves[1..])
  }

  // One identity, one payload

  predicate SoundDevice(mac: Mac, d: Device) {
    && StoredCounter(d.counter) <= MAX_U64
    && (d.machine.Some? ==>
          && PublisherProperties.Inv(d.machine.value)
          && d.machine.value.config.boot == BootId(mac, StoredCounter(d.counter)))
  }

  /** The message belongs to a finished session, or is in the running session's log. */
  predicate Filed(s: Site, m: Message) {
    var d := DeviceAt(s, m.mac);
    && m.config.boot == BootId(m.mac, m.counter)
    && Publisher.Payload(m.config, m.reading) == Some(m.payload)
    && m.counter <= StoredCounter(d.counter) <= MAX_U64
    && (m.counter == StoredCounter(d.counter) && d.machine.Some? ==> m in Sends(m.mac, m.counter, d.machine.value))
  }

  predicate OneMeaning(a: Message, b: Message) {
    a.config.boot == b.config.boot && a.reading.sequence == b.reading.sequence ==>
      a.config == b.config && a.payload == b.payload
  }

  predicate SoundSite(s: Site) {
    && (forall mac :: mac in s.devices ==> SoundDevice(mac, s.devices[mac]))
    && (forall m :: m in s.sent ==> Filed(s, m))
    && (forall a, b :: a in s.sent && b in s.sent ==> OneMeaning(a, b))
  }

  lemma PowerOnKeeps(s: Site, mac: Mac, flashing: Flashing, device: string, retryTicks: nat)
    requires SoundSite(s)
    ensures SoundSite(Moved(s, PowerOn(mac, flashing, device, retryTicks)))
  {
    hide BootId, PublisherProperties.Inv, Publisher.Payload, Sends, OneMeaning;
    var u := Moved(s, PowerOn(mac, flashing, device, retryTicks));
    var boot := StartUp(DeviceAt(s, mac).counter, mac, flashing).1;
    if boot.Some? {
      PublisherProperties.InitialHolds(Publisher.Config(device, boot.value, retryTicks));
    }
    forall m | m in u.sent ensures Filed(u, m) {
      assert Filed(s, m);
    }
  }

  /** Two messages of one session agree. */
  lemma SessionAgrees(mac: Mac, counter: nat, m: Publisher.Machine, a: Message, b: Message)
    requires PublisherProperties.Inv(m) && a in Sends(mac, counter, m) && b in Sends(mac, counter, m)
    ensures OneMeaning(a, b) && Publisher.Payload(a.config, a.reading) == Some(a.payload)
  {
    hide Publisher.Payload, PublisherProperties.Accounts, PublisherProperties.AckedIn;
    var e :| e in m.log && e.Enqueued? && a == Message(mac, counter, m.config, e.reading, e.payload);
    var f :| f in m.log && f.Enqueued? && b == Message(mac, counter, m.config, f.reading, f.payload);
    assert PublisherProperties.Settled(m, e) && PublisherProperties.Settled(m, f);
    assert PublisherProperties.SameReading(e, f);
  }

  lemma WorkKeeps(s: Site, mac: Mac, step: Publisher.Step)
    requires SoundSite(s) && DeviceAt(s, mac).machine.Some?
    ensures SoundSite(Moved(s, Work(mac, step)))
  {
    hide BootId, PublisherProperties.Inv, Publisher.Payload, Publisher.Next, OneMeaning;
    var u := Moved(s, Work(mac, step));
    var d := DeviceAt(s, mac);
    var counter, m := StoredCounter(d.counter), Publisher.Next(d.machine.value, step);
    PublisherProperties.StepKeeps(d.machine.value, step);
    forall x | x in u.sent ensures Filed(u, x) {
      if x in Sends(mac, counter, m) {
        SessionAgrees(mac, counter, m, x, x);
      } else {
        assert Filed(s, x);
      }
    }
    forall a, b | a in u.sent && b in u.sent ensures OneMeaning(a, b) {
      if a in s.sent && b in s.sent {
      } else if a in s.sent {
        NewAgreesWithOld(s, u, counter, m, b, a);
      } else if b in s.sent {
        NewAgreesWithOld(s, u, counter, m, a, b);
      } else {
        SessionAgrees(mac, counter, m, a, b);
      }
    }
  }

  lemma NewAgreesWithOld(s: Site, u: Site, counter: nat, m: Publisher.Machine, a: Message, b: Message)
    requires PublisherProperties.Inv(m) && a in Sends(a.mac, counter, m) && counter <= MAX_U64
    requires Filed(u, a) && Filed(u, b) && DeviceAt(u, a.mac).machine == Some(m)
    requires StoredCounter(DeviceAt(u, a.mac).counter) == counter
    ensures OneMeaning(a, b) && OneMeaning(b, a)
  {
    hide BootId, PublisherProperties.Inv, Publisher.Payload;
    if a.config.boot == b.config.boot {
      BootIdInjective(a.mac, a.counter, b.mac, b.counter);
      SessionAgrees(a.mac, counter, m, a, b);
    }
  }

  lemma {:induction false} SiteStaysSound(s: Site, moves: seq<Move>)
    requires SoundSite(s)
    ensures SoundSite(After(s, moves))
    decreases |moves|
  {
    hide SoundSite, Moved;
    if moves != [] {
      match moves[0]
      case PowerOn(mac, flashing, device, retryTicks) =>
        PowerOnKeeps(s, mac, flashing, device, retryTicks);
        SiteStaysSound(Moved(s, moves[0]), moves[1..]);
      case Work(mac, step) =>
        if DeviceAt(s, mac).machine.Some? {
          WorkKeeps(s, mac, step);
        } else {
          IdleWork(s, mac, step);
        }
        SiteStaysSound(Moved(s, moves[0]), moves[1..]);
    }
  }

  lemma IdleWork(s: Site, mac: Mac, step: Publisher.Step)
    requires DeviceAt(s, mac).machine.None?
    ensures Moved(s, Work(mac, step)) == s
  {
  }

  /**
   Faithful retransmission, over any boards, restarts, crashes and failed commits: whenever two messages
   carry the same boot id and sequence number, they are byte-identical and from the same device.
   */
  lemma OneIdentityOnePayload(moves: seq<Move>, a: Message, b: Message)
    requires a in After(Site(map[], {}), moves).sent && b in After(Site(map[], {}), moves).sent
    ensures OneMeaning(a, b)
  {
    hide After, OneMeaning;
    SiteStaysSound(Site(map[], {}), moves);
  }
}
