/**
 Event identities on the device (firmware/components/identity): a boot id made of the MAC address and a
 counter that is committed to flash before it is used, and a sequence number that restarts with each boot.
 */
module DeviceIdentity {
  import opened Options
  import opened Events
  import Formatting

  const BOOT_ID_SIZE := 30   // with the NUL
  const MAX_U64 := 0xffff_ffff_ffff_ffff

  predicate Octets(s: seq<nat>) {
    forall i :: 0 <= i < |s| ==> s[i] < 256
  }

  type Mac = s: seq<nat> | |s| == 6 && Octets(s) witness [0, 0, 0, 0, 0, 0]

  /**
   How flash behaves during one start-up: not readable at all, an error or a power cut around the write
   that may or may not have reached the flash, or a confirmed commit.
   */
  datatype Flashing = Unreadable | Unconfirmed(persisted: bool) | Committed

  function MacText(mac: seq<nat>): string {
    if mac == [] then "" else Formatting.Padded(mac[0], 2, 16) + MacText(mac[1..])
  }

  /** `%02x` six times, a dash, `%016x`. */
  function BootId(mac: Mac, counter: nat): string {
    MacText(mac) + "-" + Formatting.Padded(counter, 16, 16)
  }

  function StoredCounter(counter: Option<nat>): nat {
    match counter case None => 0 case Some(n) => n
  }

  /** One start-up: the counter in flash afterwards, and the boot id if there is one. */
  function StartUp(counter: Option<nat>, mac: Mac, flashing: Flashing): (Option<nat>, Option<string>) {
    var next := StoredCounter(counter) + 1;
    if flashing.Unreadable? || next > MAX_U64 then (counter, None)
    else if flashing.Unconfirmed? then (if flashing.persisted then Some(next) else counter, None)
    else (Some(next), Some(BootId(mac, next)))
  }

  class Flash {
    var counter: Option<nat>

    constructor (counter: Option<nat>)
      ensures this.counter == counter
    {
      this.counter := counter;
    }

    /** Without a confirmation the write may still have reached the flash. */
    method Commit(value: nat, flashing: Flashing) returns (ok: bool)
      modifies this
      ensures ok == flashing.Committed?
      ensures counter == if ok || (flashing.Unconfirmed? && flashing.persisted) then Some(value) else old(counter)
    {
      ok := flashing.Committed?;
      if ok || (flashing.Unconfirmed? && flashing.persisted) {
        counter := Some(value);
      }
    }

    method CreateBootId(mac: Mac, flashing: Flashing) returns (boot: Option<string>)
      requires counter.Some? ==> counter.value <= MAX_U64
      modifies this
      ensures (counter, boot) == StartUp(old(counter), mac, flashing)
    {
      if flashing.Unreadable? {
        return None;
      }
      var n := StoredCounter(counter);
      if n == MAX_U64 {
        return None;
      }
      var ok := Commit(n + 1, flashing);
      if !ok {
        return None;
      }
      var text := BootId(mac, n + 1);
      BootIdLength(mac, n + 1);
      return if |text| == BOOT_ID_SIZE - 1 then Some(text) else None;
    }
  }

  /** `identity_t` */
  class Context {
    var boot: string
    var nextSequence: nat

    constructor ()
      ensures boot == "" && nextSequence == 0
    {
      boot, nextSequence := "", 0;
    }

    method Init(bootId: string) returns (ok: bool)
      modifies this
      ensures ok == (0 < |bootId| < BOOT_ID_SIZE)
      ensures ok ==> boot == bootId && nextSequence == 0
      ensures !ok ==> boot == old(boot) && nextSequence == old(nextSequence)
    {
      if |bootId| == 0 || |bootId| >= BOOT_ID_SIZE {
        return false;
      }
      boot, nextSequence := bootId, 0;
      return true;
    }

    method NextSequence() returns (sequence: Option<nat>)
      modifies this`nextSequence
      ensures (nextSequence, sequence) == Draw(old(nextSequence))
    {
      if nextSequence > MAX_COUNTER {
        return None;
      }
      sequence := Some(nextSequence);
      nextSequence := nextSequence + 1;
    }
  }

  function Draw(next: nat): (nat, Option<nat>) {
    if next > MAX_COUNTER then (next, None) else (next + 1, Some(next))
  }

  // The spelling is one to one

  lemma HexPowers()
    ensures Formatting.Power(16, 2) == 256 && Formatting.Power(16, 16) == MAX_U64 + 1
  {
    assert Formatting.Power(16, 4) == 0x1_0000;
    assert Formatting.Power(16, 8) == 0x1_0000_0000;
    assert Formatting.Power(16, 12) == 0x1_0000_0000_0000;
  }

  lemma {:induction false} MacTextLength(mac: seq<nat>)
    requires Octets(mac)
    ensures |MacText(mac)| == 2 * |mac|
  {
    hide Formatting.Padded, Formatting.Power;
    if mac != [] {
      HexPowers();
      Formatting.PaddedLength(mac[0], 2, 16);
      MacTextLength(mac[1..]);
    }
  }

  lemma BootIdLength(mac: Mac, counter: nat)
    requires counter <= MAX_U64
    ensures |BootId(mac, counter)| == BOOT_ID_SIZE - 1
  {
    hide Formatting.Padded, Formatting.Power, MacText;
    HexPowers();
    MacTextLength(mac);
    Formatting.PaddedLength(counter, 16, 16);
  }

  lemma {:induction false} MacTextInjective(a: seq<nat>, b: seq<nat>)
    requires |a| == |b| && MacText(a) == MacText(b)
    requires Octets(a) && Octets(b)
    ensures a == b
  {
    hide Formatting.Padded, Formatting.Power;
    if a != [] {
      HexPowers();
      Formatting.PaddedLength(a[0], 2, 16);
      Formatting.PaddedLength(b[0], 2, 16);
      assert MacText(a)[..2] == Formatting.Padded(a[0], 2, 16) && MacText(a)[2..] == MacText(a[1..]);
      assert MacText(b)[..2] == Formatting.Padded(b[0], 2, 16) && MacText(b)[2..] == MacText(b[1..]);
      Formatting.PaddedValue(a[0], 2, 16);
      Formatting.PaddedValue(b[0], 2, 16);
      MacTextInjective(a[1..], b[1..]);
    }
  }

  /** Equal boot ids come from the same board and the same counter value. */
  lemma BootIdInjective(a: Mac, m: nat, b: Mac, n: nat)
    requires m <= MAX_U64 && n <= MAX_U64 && BootId(a, m) == BootId(b, n)
    ensures a == b && m == n
  {
    hide Formatting.Padded, Formatting.Power, MacText;
    MacTextLength(a);
    MacTextLength(b);
    assert BootId(a, m)[..12] == MacText(a) && BootId(a, m)[13..] == Formatting.Padded(m, 16, 16);
    assert BootId(b, n)[..12] == MacText(b) && BootId(b, n)[13..] == Formatting.Padded(n, 16, 16);
    MacTextInjective(a, b);
    Formatting.PaddedValue(m, 16, 16);
    Formatting.PaddedValue(n, 16, 16);
  }

  // Any number of boards over any run

  datatype Session = Session(boot: string, next: nat)

  /** A board: the counter in its flash and, while it runs, its identity context. */
  datatype Board = Board(counter: Option<nat>, session: Option<Session>)

  /** An identity handed to a reading, with the board and the counter it was made from. */
  datatype Stamp = Stamp(mac: Mac, counter: nat, boot: string, sequence: nat)

  datatype Fleet = Fleet(boards: map<Mac, Board>, issued: seq<Stamp>)

  /** A reset may come at any time; it ends the session and starts the board again. */
  datatype Step = Reset(mac: Mac, flashing: Flashing) | Issue(mac: Mac)

  const UNUSED := Board(None, None)

  function At(f: Fleet, mac: Mac): Board {
    if mac in f.boards then f.boards[mac] else UNUSED
  }

  function Next(f: Fleet, step: Step): Fleet {
    var board := At(f, step.mac);
    match step
    case Reset(mac, flashing) =>
      var (counter, boot) := StartUp(board.counter, mac, flashing);
      var session := if boot.Some? then Some(Session(boot.value, 0)) else None;
      f.(boards := f.boards[mac := Board(counter, session)])
    case Issue(mac) =>
      if board.session.None? then f
      else
        var (next, sequence) := Draw(board.session.value.next);
        if sequence.None? then f
        else
          Fleet(
            f.boards[mac := board.(session := Some(board.session.value.(next := next)))],
            f.issued + [Stamp(mac, StoredCounter(board.counter), board.session.value.boot, sequence.value)])
  }

  function Run(f: Fleet, steps: seq<Step>): Fleet
    decreases |steps|
  {
    if steps == [] then f else Run(Next(f, steps[0]), steps[1..])
  }

  predicate BoardHolds(mac: Mac, b: Board) {
    && StoredCounter(b.counter) <= MAX_U64
    && (b.session.Some? ==> b.session.value.boot == BootId(mac, StoredCounter(b.counter)))
  }

  /** The stamp was made with a counter value the board will not use again, or in its running session. */
  predicate Spent(f: Fleet, s: Stamp) {
    var b := At(f, s.mac);
    && s.boot == BootId(s.mac, s.counter) && s.sequence <= MAX_COUNTER
    && s.counter <= StoredCounter(b.counter) <= MAX_U64
    && (s.counter == StoredCounter(b.counter) && b.session.Some? ==> s.sequence < b.session.value.next)
  }

  predicate SameOrigin(s: Stamp, t: Stamp) {
    s.mac == t.mac && s.counter == t.counter && s.sequence == t.sequence
  }

  predicate Inv(f: Fleet) {
    && (forall mac :: mac in f.boards ==> BoardHolds(mac, f.boards[mac]))
    && (forall i :: 0 <= i < |f.issued| ==> Spent(f, f.issued[i]))
    && (forall i, j :: 0 <= i < j < |f.issued| ==> !SameOrigin(f.issued[i], f.issued[j]))
  }

  lemma StepKeeps(f: Fleet, step: Step)
    requires Inv(f)
    ensures Inv(Next(f, step)) && f.issued <= Next(f, step).issued
  {
    hide BootId;
    var g := Next(f, step);
    forall i | 0 <= i < |g.issued| ensures Spent(g, g.issued[i]) {
      if i < |f.issued| {
        assert Spent(f, f.issued[i]);
      }
    }
    forall i, j | 0 <= i < j < |g.issued| ensures !SameOrigin(g.issued[i], g.issued[j]) {
      assert Spent(f, f.issued[i]);
    }
  }

  lemma {:induction false} RunKeeps(f: Fleet, steps: seq<Step>)
    requires Inv(f)
    ensures Inv(Run(f, steps)) && f.issued <= Run(f, steps).issued
    decreases |steps|
  {
    hide Inv, Next;
    if steps != [] {
      StepKeeps(f, steps[0]);
      RunKeeps(Next(f, steps[0]), steps[1..]);
    }
  }

  /** No identity is issued twice: not after a crash, a failed commit or any number of restarts. */
  lemma IdentitiesAreFresh(steps: seq<Step>, i: nat, j: nat)
    requires i < j < |Run(Fleet(map[], []), steps).issued|
    ensures
      var issued := Run(Fleet(map[], []), steps).issued;
      (issued[i].boot, issued[i].sequence) != (issued[j].boot, issued[j].sequence)
  {
    hide BootId, Run;
    RunKeeps(Fleet(map[], []), steps);
    var f := Run(Fleet(map[], []), steps);
    var s, t := f.issued[i], f.issued[j];
    assert Spent(f, s) && Spent(f, t) && !SameOrigin(s, t);
    if s.boot == t.boot && s.sequence == t.sequence {
      BootIdInjective(s.mac, s.counter, t.mac, t.counter);
    }
  }

  // What a start and a draw give

  /**
   A board gets a boot id exactly when the next counter value exists and its write is confirmed; then the id is
   made of that value, which flash holds.  Otherwise flash holds the old value, or, after an unconfirmed write
   that got through, the next one.
   */
  lemma StartUpExactly(counter: Option<nat>, mac: Mac, flashing: Flashing)
    ensures
      var (after, boot) := StartUp(counter, mac, flashing);
      var last := if counter.Some? then counter.value else 0;
      && (boot.Some? <==> flashing.Committed? && last < 0xffff_ffff_ffff_ffff)
      && (boot.Some? ==> boot.value == BootId(mac, last + 1) && after == Some(last + 1))
      && (boot.None? ==>
            after == if flashing == Unconfirmed(true) && last < 0xffff_ffff_ffff_ffff then Some(last + 1) else counter)
  {
    hide BootId;
  }

  /** The id spells the board's six octets and the counter, in hexadecimal. */
  lemma BootIdSpells(mac: Mac, counter: nat)
    requires counter <= MAX_U64
    ensures
      var text := BootId(mac, counter);
      && |text| == 29 && text[12] == '-'
      && (forall i :: 0 <= i < 6 ==> text[2 * i..2 * i + 2] == Formatting.Padded(mac[i], 2, 16))
      && text[13..] == Formatting.Padded(counter, 16, 16)
  {
    hide Formatting.Padded, Formatting.Power, MacText;
    MacTextLength(mac);
    BootIdLength(mac, counter);
    var text := BootId(mac, counter);
    assert text[..12] == MacText(mac);
    forall i | 0 <= i < 6 ensures text[2 * i..2 * i + 2] == Formatting.Padded(mac[i], 2, 16) {
      MacTextAt(mac, i);
      assert text[2 * i..2 * i + 2] == text[..12][2 * i..2 * i + 2];
    }
  }

  lemma {:induction false} MacTextAt(mac: seq<nat>, i: nat)
    requires Octets(mac) && i < |mac|
    ensures |MacText(mac)| == 2 * |mac|
    ensures MacText(mac)[2 * i..2 * i + 2] == Formatting.Padded(mac[i], 2, 16)
  {
    hide Formatting.Padded, Formatting.Power;
    MacTextLength(mac);
    HexPowers();
    Formatting.PaddedLength(mac[0], 2, 16);
    if i > 0 {
      MacTextAt(mac[1..], i - 1);
      assert MacText(mac)[2..] == MacText(mac[1..]);
      assert MacText(mac)[2 * i..2 * i + 2] == MacText(mac[1..])[2 * (i - 1)..2 * (i - 1) + 2];
    }
  }

  /** The numbers issued so far in a session are the first ones, each preceded by the one before it. */
  ghost predicate Preceded(f: Fleet, i: nat)
    requires i < |f.issued|
  {
    var s := f.issued[i];
    s.sequence > 0 ==>
      exists j :: 0 <= j < i && f.issued[j] == s.(sequence := s.sequence - 1)
  }

  /** The running session's latest number is issued, unless it has none yet. */
  ghost predicate LatestIssued(f: Fleet, mac: Mac) {
    var b := At(f, mac);
    b.session.Some? && b.session.value.next > 0 ==>
      exists j :: 0 <= j < |f.issued| &&
        f.issued[j] == Stamp(mac, StoredCounter(b.counter), b.session.value.boot, b.session.value.next - 1)
  }

  ghost predicate Gapless(f: Fleet) {
    && (forall i :: 0 <= i < |f.issued| ==> Preceded(f, i))
    && (forall mac: Mac :: LatestIssued(f, mac))
  }

  lemma StepIsGapless(f: Fleet, step: Step)
    requires Gapless(f)
    ensures Gapless(Next(f, step))
  {
    hide BootId;
    var g := Next(f, step);
    forall i | 0 <= i < |g.issued| ensures Preceded(g, i) {
      if i < |f.issued| {
        assert Preceded(f, i);
        var s := f.issued[i];
        if s.sequence > 0 {
          var j :| 0 <= j < i && f.issued[j] == s.(sequence := s.sequence - 1);
          assert g.issued[j] == s.(sequence := s.sequence - 1);
        }
      } else {
        assert LatestIssued(f, step.mac);
        var s := g.issued[i];
        if s.sequence > 0 {
          var j :| 0 <= j < |f.issued| && f.issued[j] == s.(sequence := s.sequence - 1);
          assert g.issued[j] == s.(sequence := s.sequence - 1);
        }
      }
    }
    forall mac: Mac ensures LatestIssued(g, mac) {
      assert LatestIssued(f, mac);
      LatestStays(f, step, mac);
    }
  }

  lemma LatestStays(f: Fleet, step: Step, mac: Mac)
    requires LatestIssued(f, mac)
    ensures LatestIssued(Next(f, step), mac)
  {
    hide BootId;
    var g := Next(f, step);
    var b, c := At(f, mac), At(g, mac);
    if c.session.Some? && c.session.value.next > 0 {
      var stamp := Stamp(mac, StoredCounter(c.counter), c.session.value.boot, c.session.value.next - 1);
      if c == b {
        var j :| 0 <= j < |f.issued| && f.issued[j] == stamp;
        assert g.issued[j] == stamp;
      } else {
        assert g.issued[|g.issued| - 1] == stamp;
      }
    }
  }

  lemma {:induction false} RunIsGapless(f: Fleet, steps: seq<Step>)
    requires Gapless(f)
    ensures Gapless(Run(f, steps))
    decreases |steps|
  {
    hide Gapless, Next;
    if steps != [] {
      StepIsGapless(f, steps[0]);
      RunIsGapless(Next(f, steps[0]), steps[1..]);
    }
  }

  /** No gaps: over any run, a number is issued only after the one before it, in the same session. */
  lemma NumbersAreConsecutive(steps: seq<Step>, i: nat)
    requires i < |Run(Fleet(map[], []), steps).issued|
    ensures Preceded(Run(Fleet(map[], []), steps), i)
  {
    hide Run, Preceded, LatestIssued;
    NoneIsGapless();
    RunIsGapless(Fleet(map[], []), steps);
  }

  lemma NoneIsGapless()
    ensures Gapless(Fleet(map[], []))
  {
  }

  /** A running session always has a number to give until all 63 bits are used. */
  lemma IssuingGoesOn(f: Fleet, mac: Mac)
    ensures
      var b, g := At(f, mac), Next(f, Issue(mac));
      if b.session.Some? && b.session.value.next <= 0x7fff_ffff_ffff_ffff then
        g.issued == f.issued + [Stamp(mac, StoredCounter(b.counter), b.session.value.boot, b.session.value.next)]
        && At(g, mac).session == Some(Session(b.session.value.boot, b.session.value.next + 1))
      else g == f
  {
  }
}
