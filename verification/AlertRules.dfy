/**
 The alert rules in plain numbers: which readings count, what opens and resolves an episode, and what breaks
 a streak.  Instants are microseconds.
 */
module AlertRules {
  import opened Options
  import opened Alerts
  import opened AlertSpec
  import opened AlertTablesSpec

  /** At most five minutes old and at most one minute ahead when the backend received it. */
  predicate Timely(s: Sample) {
    -300_000_000 <= s.eventAt - s.now <= 60_000_000
  }

  predicate NewerThanCursor(t: AlertTables, device: string, s: Sample) {
    device in t.states ==> t.states[device].lastEventAt < s.eventAt
  }

  predicate Counts(t: AlertTables, device: string, s: Sample) {
    Timely(s) && NewerThanCursor(t, device, s)
  }

  /** A reading changes the tables if and only if it is timely and newer than all before; then it moves the cursor. */
  lemma ReadingCounts(t: AlertTables, device: string, s: Sample)
    ensures Evaluate(t, device, s) != t <==> Counts(t, device, s)
    ensures Counts(t, device, s) ==>
      device in Evaluate(t, device, s).states && Evaluate(t, device, s).states[device].lastEventAt == s.eventAt
  {
    var u := Evaluate(t, device, s);
    if Counts(t, device, s) {
      assert device in u.states && u.states[device].lastEventAt == s.eventAt;
      assert device in t.states ==> u.states[device] != t.states[device];
    }
  }

  predicate Alarmed(t: AlertTables, device: string) {
    device in t.states && t.states[device].active.Some?
  }

  function HighStreak(t: AlertTables, device: string): nat {
    if device in t.states then t.states[device].highStreak else 0
  }

  function RecoveryStreak(t: AlertTables, device: string): nat {
    if device in t.states then t.states[device].recoveryStreak else 0
  }

  /** One counting reading without an active alert: only values above 30 keep the streak, and the third opens. */
  lemma CalmReading(t: AlertTables, device: string, s: Sample)
    requires Counts(t, device, s) && !Alarmed(t, device) && HighStreak(t, device) <= 2
    ensures
      var u, opens := Evaluate(t, device, s), s.value > 30.0 && HighStreak(t, device) == 2;
      && (Alarmed(u, device) <==> opens)
      && HighStreak(u, device) == (if s.value > 30.0 && !opens then HighStreak(t, device) + 1 else 0)
      && RecoveryStreak(u, device) == RecoveryStreak(t, device)
      && u.episodes ==
           (if opens then t.episodes[t.nextEpisode := Episode(device, s.eventAt, s.telemetryId, None, None)]
            else t.episodes)
      && (opens ==> u.states[device].active == Some(t.nextEpisode) && u.nextEpisode == t.nextEpisode + 1)
  {
  }

  /** One counting reading under an active alert: only values below 28 keep the streak, and the third resolves. */
  lemma AlarmedReading(t: AlertTables, device: string, s: Sample)
    requires Counts(t, device, s) && Alarmed(t, device) && RecoveryStreak(t, device) <= 2 && ActiveKnown(t)
    ensures
      var u, resolves := Evaluate(t, device, s), s.value < 28.0 && RecoveryStreak(t, device) == 2;
      var e := t.states[device].active.value;
      && (Alarmed(u, device) <==> !resolves)
      && RecoveryStreak(u, device) == (if s.value < 28.0 && !resolves then RecoveryStreak(t, device) + 1 else 0)
      && HighStreak(u, device) == HighStreak(t, device)
      && u.episodes ==
           (if resolves then
              t.episodes[e := t.episodes[e].(resolvedAt := Some(s.eventAt), resolvingId := Some(s.telemetryId))]
            else t.episodes)
      && u.nextEpisode == t.nextEpisode
  {
  }

  // Three in a row

  /**
   Three readings above 30 in a row open an episode: by the third at the latest an alert is active, and after a
   reading of at most 30 it is exactly the third that opens one.
   */
  lemma ThreeHighOpen(t: AlertTables, device: string, a: Sample, b: Sample, c: Sample, next: nat)
    requires Sound(t, next) && !Alarmed(t, device)
    requires
      var u := Evaluate(t, device, a);
      var v := Evaluate(u, device, b);
      Counts(t, device, a) && Counts(u, device, b) && Counts(v, device, c)
    requires a.value > 30.0 && b.value > 30.0 && c.value > 30.0
    ensures
      var u := Evaluate(t, device, a);
      var v := Evaluate(u, device, b);
      var w := Evaluate(v, device, c);
      && (Alarmed(u, device) || Alarmed(v, device) || Alarmed(w, device))
      && (HighStreak(t, device) == 0 ==>
            && !Alarmed(u, device) && !Alarmed(v, device) && Alarmed(w, device)
            && v.episodes == t.episodes
            && w.episodes == t.episodes[t.nextEpisode := Episode(device, c.eventAt, c.telemetryId, None, None)])
  {
    hide Evaluate, Counts, Sound;
    StreaksInBounds(t, device, next);
    var u := Evaluate(t, device, a);
    var v := Evaluate(u, device, b);
    CalmReading(t, device, a);
    NextIdStays(t, device, a);
    if !Alarmed(u, device) {
      CalmReading(u, device, b);
      NextIdStays(u, device, b);
      if !Alarmed(v, device) {
        CalmReading(v, device, c);
      }
    }
  }

  /** Three readings below 28 in a row resolve it, in the same way. */
  lemma ThreeLowResolve(t: AlertTables, device: string, a: Sample, b: Sample, c: Sample, next: nat)
    requires Sound(t, next) && Alarmed(t, device)
    requires
      var u := Evaluate(t, device, a);
      var v := Evaluate(u, device, b);
      Counts(t, device, a) && Counts(u, device, b) && Counts(v, device, c)
    requires a.value < 28.0 && b.value < 28.0 && c.value < 28.0
    ensures
      var u := Evaluate(t, device, a);
      var v := Evaluate(u, device, b);
      var w := Evaluate(v, device, c);
      var e := t.states[device].active.value;
      && (!Alarmed(u, device) || !Alarmed(v, device) || !Alarmed(w, device))
      && e in t.episodes
      && (RecoveryStreak(t, device) == 0 ==>
            && Alarmed(u, device) && Alarmed(v, device) && !Alarmed(w, device)
            && v.episodes == t.episodes
            && w.episodes == t.episodes[e :=
                 t.episodes[e].(resolvedAt := Some(c.eventAt), resolvingId := Some(c.telemetryId))])
  {
    hide Evaluate, Counts, Sound, Constraints;
    StreaksInBounds(t, device, next);
    SoundMeetsConstraints(t, next);
    var u := Evaluate(t, device, a);
    var v := Evaluate(u, device, b);
    AlarmedReading(t, device, a);
    ActiveStays(t, device, a);
    if Alarmed(u, device) {
      AlarmedReading(u, device, b);
      ActiveStays(u, device, b);
      if Alarmed(v, device) {
        AlarmedReading(v, device, c);
      }
    }
  }

  /** A reading of 30 or less, or of 28 or more under an alert, starts the count anew. */
  lemma StreakBreaks(t: AlertTables, device: string, s: Sample, next: nat)
    requires Sound(t, next) && Counts(t, device, s)
    ensures
      var u := Evaluate(t, device, s);
      && (!Alarmed(t, device) && s.value <= 30.0 ==> !Alarmed(u, device) && HighStreak(u, device) == 0)
      && (Alarmed(t, device) && s.value >= 28.0 ==> Alarmed(u, device) && RecoveryStreak(u, device) == 0)
  {
    hide Evaluate, Counts, Sound, Constraints;
    StreaksInBounds(t, device, next);
    SoundMeetsConstraints(t, next);
    if Alarmed(t, device) {
      AlarmedReading(t, device, s);
    } else {
      CalmReading(t, device, s);
    }
  }

  lemma StreaksInBounds(t: AlertTables, device: string, next: nat)
    requires Sound(t, next)
    ensures HighStreak(t, device) <= 2 && RecoveryStreak(t, device) <= 2
  {
    assert device in t.states ==> SoundState(t, device);
  }

  lemma NextIdStays(t: AlertTables, device: string, s: Sample)
    requires Counts(t, device, s) && !Alarmed(t, device)
    ensures !Alarmed(Evaluate(t, device, s), device) ==> Evaluate(t, device, s).nextEpisode == t.nextEpisode
  {
  }

  lemma ActiveStays(t: AlertTables, device: string, s: Sample)
    requires Counts(t, device, s) && Alarmed(t, device) && ActiveKnown(t)
    ensures
      var u := Evaluate(t, device, s);
      Alarmed(u, device) ==> u.states[device].active == t.states[device].active && ActiveKnown(u)
  {
  }

  // Whole histories

  /** The reading is timely and newer than every timely one before it. */
  predicate CountsIn(h: seq<Sample>, i: nat)
    requires i < |h|
  {
    Timely(h[i]) && forall j :: 0 <= j < i && Timely(h[j]) ==> h[j].eventAt < h[i].eventAt
  }

  function Counting(h: seq<Sample>): seq<Sample> {
    if h == [] then []
    else
      var n := |h| - 1;
      Counting(h[..n]) + if CountsIn(h, n) then [h[n]] else []
  }

  /** Some kept reading is as new as this instant. */
  predicate Reached(k: seq<Sample>, at: int) {
    exists i :: 0 <= i < |k| && at <= k[i].eventAt
  }

  lemma {:induction false} KeptAreTimely(h: seq<Sample>)
    ensures forall s :: s in Kept(h) ==> s in h && Timely(s)
  {
    if h != [] {
      KeptAreTimely(h[..|h| - 1]);
    }
  }

  /** The newest kept reading is the newest of all timely ones. */
  lemma {:induction false} TimelyAreReached(h: seq<Sample>, j: nat)
    requires j < |h| && Timely(h[j])
    ensures Reached(Kept(h), h[j].eventAt)
    decreases |h|
  {
    hide Kept;
    var n := |h| - 1;
    KeptStep(h);
    if j < n {
      TimelyAreReached(h[..n], j);
      assert h[..n][j] == h[j];
      var k := Kept(h[..n]);
      var i :| 0 <= i < |k| && h[j].eventAt <= k[i].eventAt;
      assert Kept(h)[i] == k[i];
    } else if Kept(h) != Kept(h[..n]) {
      assert Kept(h)[|Kept(h)| - 1] == h[n];
    }
  }

  /** What the last reading adds. */
  lemma KeptStep(h: seq<Sample>)
    requires h != []
    ensures
      var k, s := Kept(h[..|h| - 1]), h[|h| - 1];
      Kept(h) == if Timely(s) && !Reached(k, s.eventAt) then k + [s] else k
  {
  }

  /**
   The readings that count in a history, by instants alone: those timely on receipt and newer than every timely
   reading received before.
   */
  lemma {:induction false} KeptIsCounting(h: seq<Sample>)
    ensures Kept(h) == Counting(h)
  {
    hide Kept, Timely;
    if h == [] {
      NothingKept();
    } else {
      var n := |h| - 1;
      KeptIsCounting(h[..n]);
      KeptStep(h);
      LastCounts(h);
    }
  }

  lemma NothingKept()
    ensures Kept([]) == []
  {
  }

  lemma LastCounts(h: seq<Sample>)
    requires h != []
    ensures
      var n := |h| - 1;
      CountsIn(h, n) <==> Timely(h[n]) && !Reached(Kept(h[..n]), h[n].eventAt)
  {
    hide Kept, Timely;
    var n := |h| - 1;
    var k := Kept(h[..n]);
    KeptAreTimely(h[..n]);
    forall j | 0 <= j < n && Timely(h[j]) ensures Reached(k, h[j].eventAt) {
      assert h[..n][j] == h[j];
      TimelyAreReached(h[..n], j);
    }
    if Reached(k, h[n].eventAt) {
      var i :| 0 <= i < |k| && h[n].eventAt <= k[i].eventAt;
      assert k[i] in k;
      var j :| 0 <= j < n && h[..n][j] == k[i];
      assert h[j] == k[i];
    }
    if j :| 0 <= j < n && Timely(h[j]) && h[j].eventAt >= h[n].eventAt {
      var i :| 0 <= i < |k| && h[j].eventAt <= k[i].eventAt;
    }
  }

  /** The third of three consecutive values above 30, or below 28. */
  predicate ThreeInARow(k: seq<Sample>, from: nat, high: bool, j: int) {
    && from + 2 <= j < |k|
    && forall i :: j - 2 <= i <= j ==> if high then k[i].value > 30.0 else k[i].value < 28.0
  }

  /** What the specification of a device's episodes searches for. */
  lemma TripleIsThreeInARow(k: seq<Sample>, from: nat, high: bool, j: int)
    ensures Triple(k, from, high, j) <==> ThreeInARow(k, from, high, j)
  {
  }
}
