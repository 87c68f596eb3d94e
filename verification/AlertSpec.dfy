/**
 What the alert machine is for, said over whole histories: which readings count, and where episodes
 open and resolve.  `Watch` is one device's share of the tables.
 */
module AlertSpec {
  import opened Options
  import opened Alerts

  // The declarative specification

  /** The readings that count: fresh, and strictly newer than everything kept before. */
  function Kept(h: seq<Sample>): (k: seq<Sample>)
    ensures |k| <= |h|
    ensures forall i, j :: 0 <= i < j < |k| ==> k[i].eventAt < k[j].eventAt
  {
    if h == [] then []
    else
      var k, s := Kept(h[..|h| - 1]), h[|h| - 1];
      if Fresh(s) && forall i :: 0 <= i < |k| ==> k[i].eventAt < s.eventAt then k + [s] else k
  }

  predicate Hit(s: Sample, high: bool) { if high then High(s) else Low(s) }

  /** Positions j-2, j-1 and j, none before `from`, are all hits. */
  predicate Triple(k: seq<Sample>, from: nat, high: bool, j: int) {
    from + 2 <= j < |k| && Hit(k[j - 2], high) && Hit(k[j - 1], high) && Hit(k[j], high)
  }

  /** The third of the first three consecutive hits at or after `from`. */
  function FirstTriple(k: seq<Sample>, from: nat, high: bool): (r: Option<nat>)
    ensures r.Some? ==> Triple(k, from, high, r.value) && forall i :: i < r.value ==> !Triple(k, from, high, i)
    ensures r.None? ==> forall i :: !Triple(k, from, high, i)
  {
    Search(k, from, high, from + 2)
  }

  function Search(k: seq<Sample>, from: nat, high: bool, j: nat): (r: Option<nat>)
    requires from + 2 <= j
    requires forall i :: i < j ==> !Triple(k, from, high, i)
    ensures r.Some? ==> Triple(k, from, high, r.value) && forall i :: i < r.value ==> !Triple(k, from, high, i)
    ensures r.None? ==> forall i :: !Triple(k, from, high, i)
    decreases |k| - j
  {
    if j >= |k| then None
    else if Triple(k, from, high, j) then Some(j)
    else Search(k, from, high, j + 1)
  }

  /** An episode as positions in the kept history. */
  datatype Span = Span(start: nat, resolved: Option<nat>)

  function EpisodeOf(device: string, k: seq<Sample>, span: Span): Episode
    requires span.start < |k| && (span.resolved.Some? ==> span.resolved.value < |k|)
  {
    match span.resolved
    case None => Episode(device, k[span.start].eventAt, k[span.start].telemetryId, None, None)
    case Some(r) =>
      Episode(device, k[span.start].eventAt, k[span.start].telemetryId,
              Some(k[r].eventAt), Some(k[r].telemetryId))
  }

  /** Episodes so far, where the segment still being watched starts, and whether an alert is active in it. */
  datatype Tale = Tale(episodes: seq<Episode>, start: nat, active: bool)

  /**
   A device's story over its kept history: open on the third consecutive high value since the last
   resolve, resolve on the third consecutive low value since the open.
   */
  function Told(device: string, k: seq<Sample>, from: nat): Tale
    decreases |k| - from
  {
    match FirstTriple(k, from, true)
    case None => Tale([], from, false)
    case Some(o) =>
      match FirstTriple(k, o + 1, false)
      case None => Tale([EpisodeOf(device, k, Span(o, None))], o + 1, true)
      case Some(r) => Then(EpisodeOf(device, k, Span(o, Some(r))), Told(device, k, r + 1))
  }

  function Then(first: Episode, rest: Tale): Tale {
    rest.(episodes := [first] + rest.episodes)
  }

  // One device's machine

  /** Cursor, streaks and episodes of one device; an alert is active while the last episode is unresolved. */
  datatype Watch = Watch(cursor: Option<int>, high: nat, recovery: nat, episodes: seq<Episode>)

  const IDLE := Watch(None, 0, 0, [])

  predicate Active(w: Watch) {
    w.episodes != [] && w.episodes[|w.episodes| - 1].resolvedAt.None?
  }

  function Observe(w: Watch, device: string, s: Sample): Watch {
    if !Fresh(s) || (w.cursor.Some? && s.eventAt <= w.cursor.value) then w
    else
      var v := w.(cursor := Some(s.eventAt));
      if !Active(w) then
        var streak := Streak(w.high, High(s));
        if streak == CONSECUTIVE_READINGS then
          v.(high := 0, episodes := w.episodes + [Episode(device, s.eventAt, s.telemetryId, None, None)])
        else v.(high := streak)
      else
        var n := |w.episodes| - 1;
        var streak := Streak(w.recovery, Low(s));
        if streak == CONSECUTIVE_READINGS then
          v.(recovery := 0, episodes := w.episodes[n :=
            w.episodes[n].(resolvedAt := Some(s.eventAt), resolvingId := Some(s.telemetryId))])
        else v.(recovery := streak)
  }

  function ObserveAll(device: string, h: seq<Sample>): Watch {
    if h == [] then IDLE else Observe(ObserveAll(device, h[..|h| - 1]), device, h[|h| - 1])
  }

  // The machine meets the specification

  /** How many of the last positions, none before `from`, are hits. */
  function TrailingHits(k: seq<Sample>, from: nat, high: bool): nat
    decreases |k|
  {
    if |k| <= from || !Hit(k[|k| - 1], high) then 0 else 1 + TrailingHits(k[..|k| - 1], from, high)
  }

  lemma TrailingTwo(k: seq<Sample>, from: nat, high: bool)
    ensures TrailingHits(k, from, high) >= 2 <==>
      |k| >= from + 2 && Hit(k[|k| - 1], high) && Hit(k[|k| - 2], high)
  {
    if |k| >= from + 2 && |k| >= 2 {
      var k1 := k[..|k| - 1];
      assert k1[|k1| - 1] == k[|k| - 2];
      assert TrailingHits(k1, from, high) >= 1 <==> Hit(k1[|k1| - 1], high);
    }
  }

  lemma TrailingStep(k: seq<Sample>, s: Sample, from: nat, high: bool)
    requires from <= |k|
    ensures TrailingHits(k + [s], from, high) == Streak(TrailingHits(k, from, high), Hit(s, high))
  {
    assert (k + [s])[..|k|] == k;
  }

  /** A new reading completes a first triple exactly when none was complete and two hits precede it. */
  lemma FirstTripleSnoc(k: seq<Sample>, s: Sample, from: nat, high: bool)
    requires from <= |k|
    ensures FirstTriple(k + [s], from, high) ==
      if FirstTriple(k, from, high).Some? then FirstTriple(k, from, high)
      else if Hit(s, high) && TrailingHits(k, from, high) >= 2 then Some(|k|)
      else None
  {
    var longer := k + [s];
    assert forall i :: i < |k| ==> (Triple(longer, from, high, i) <==> Triple(k, from, high, i));
    TrailingTwo(k, from, high);
    assert Triple(longer, from, high, |k|) <==> Hit(s, high) && TrailingHits(k, from, high) >= 2;
    assert forall i :: i > |k| ==> !Triple(longer, from, high, i);
    var r, q := FirstTriple(longer, from, high), FirstTriple(k, from, high);
    if q.Some? {
      assert Triple(longer, from, high, q.value);
    }
  }

  lemma ShortRun(k: seq<Sample>, from: nat, high: bool)
    requires FirstTriple(k, from, high).None?
    ensures TrailingHits(k, from, high) <= 2
  {
    if TrailingHits(k, from, high) >= 3 {
      var k1 := k[..|k| - 1];
      TrailingTwo(k1, from, high);
      assert Triple(k, from, high, |k| - 1);
    }
  }

  /** The segment being watched holds no completed triple, and an active one has its episode last. */
  lemma {:induction false} TaleIsOpen(device: string, k: seq<Sample>, from: nat)
    requires from <= |k|
    ensures
      var tale := Told(device, k, from);
      && from <= tale.start <= |k|
      && FirstTriple(k, tale.start, !tale.active).None?
      && (tale.active <==> tale.episodes != [] && tale.episodes[|tale.episodes| - 1].resolvedAt.None?)
    decreases |k| - from
  {
    hide FirstTriple;
    match FirstTriple(k, from, true)
    case None =>
    case Some(o) =>
      match FirstTriple(k, o + 1, false)
      case None =>
      case Some(r) => TaleIsOpen(device, k, r + 1);
  }

  /** What one more kept reading, at position `n` and after `run` hits, does to the tale. */
  function Extend(tale: Tale, device: string, s: Sample, n: nat, run: nat): Tale {
    if !Hit(s, !tale.active) || run != 2 then tale
    else if tale.active && tale.episodes != [] then
      var last := |tale.episodes| - 1;
      Tale(tale.episodes[last :=
             tale.episodes[last].(resolvedAt := Some(s.eventAt), resolvingId := Some(s.telemetryId))],
           n + 1, false)
    else Tale(tale.episodes + [Episode(device, s.eventAt, s.telemetryId, None, None)], n + 1, true)
  }

  lemma ExtendThen(first: Episode, rest: Tale, device: string, s: Sample, n: nat, run: nat)
    requires rest.active ==> rest.episodes != []
    ensures Extend(Then(first, rest), device, s, n, run) == Then(first, Extend(rest, device, s, n, run))
  {
  }

  lemma {:induction false} TaleSnoc(device: string, k: seq<Sample>, s: Sample, from: nat)
    requires from <= |k|
    ensures
      var tale := Told(device, k, from);
      Told(device, k + [s], from)
        == Extend(tale, device, s, |k|, TrailingHits(k, tale.start, !tale.active))
    decreases |k| - from
  {
    hide TrailingHits, FirstTriple, Then, Extend;
    var longer := k + [s];
    FirstTripleSnoc(k, s, from, true);
    match FirstTriple(k, from, true)
    case None => NewEpisode(device, k, s, from);
    case Some(o) =>
      FirstTripleSnoc(k, s, o + 1, false);
      match FirstTriple(k, o + 1, false)
      case None => NewResolution(device, k, s, from, o);
      case Some(r) =>
        TaleSnoc(device, k, s, r + 1);
        TaleIsOpen(device, k, r + 1);
        var first, rest := EpisodeOf(device, k, Span(o, Some(r))), Told(device, k, r + 1);
        assert EpisodeOf(device, longer, Span(o, Some(r))) == first;
        ThenFields(first, rest);
        ExtendThen(first, rest, device, s, |k|, TrailingHits(k, rest.start, !rest.active));
  }

  lemma ThenFields(first: Episode, rest: Tale)
    ensures Then(first, rest).start == rest.start && Then(first, rest).active == rest.active
  {
  }

  lemma NewEpisode(device: string, k: seq<Sample>, s: Sample, from: nat)
    requires from <= |k| && FirstTriple(k, from, true).None?
    ensures
      Told(device, k + [s], from)
        == Extend(Tale([], from, false), device, s, |k|, TrailingHits(k, from, true))
  {
    hide TrailingHits, FirstTriple;
    FirstTripleSnoc(k, s, from, true);
    ShortRun(k, from, true);
    var longer := k + [s];
    if FirstTriple(longer, from, true).Some? {
      assert FirstTriple(longer, |k| + 1, false).None?;
    }
  }

  lemma NewResolution(device: string, k: seq<Sample>, s: Sample, from: nat, o: nat)
    requires from <= |k| && FirstTriple(k, from, true) == Some(o) && FirstTriple(k, o + 1, false).None?
    ensures
      Told(device, k + [s], from)
        == Extend(Tale([EpisodeOf(device, k, Span(o, None))], o + 1, true), device, s, |k|,
                  TrailingHits(k, o + 1, false))
  {
    hide TrailingHits, FirstTriple;
    var longer := k + [s];
    FirstTripleSnoc(k, s, from, true);
    FirstTripleSnoc(k, s, o + 1, false);
    ShortRun(k, o + 1, false);
    if FirstTriple(longer, o + 1, false).Some? {
      assert FirstTriple(longer, |k| + 1, true).None?;
      assert Told(device, longer, |k| + 1) == Tale([], |k| + 1, false);
    }
  }

  /** The machine's registers say exactly what the specification says about the kept history. */
  predicate Tells(w: Watch, device: string, k: seq<Sample>) {
    var tale := Told(device, k, 0);
    && w.cursor == (if k == [] then None else Some(k[|k| - 1].eventAt))
    && w.episodes == tale.episodes
    && w.high == (if tale.active then 0 else TrailingHits(k, tale.start, true))
    && w.recovery == (if tale.active then TrailingHits(k, tale.start, false) else 0)
  }

  lemma ObserveTells(w: Watch, device: string, k: seq<Sample>, s: Sample)
    requires Tells(w, device, k) && Fresh(s) && (k != [] ==> k[|k| - 1].eventAt < s.eventAt)
    ensures Tells(Observe(w, device, s), device, k + [s])
  {
    hide TrailingHits, FirstTriple, Told, Fresh;
    var tale, longer := Told(device, k, 0), k + [s];
    TaleIsOpen(device, k, 0);
    TaleSnoc(device, k, s, 0);
    ShortRun(k, tale.start, !tale.active);
    TrailingStep(k, s, tale.start, true);
    TrailingStep(k, s, tale.start, false);
    NothingTrails(longer, |longer|);
  }

  lemma NothingTrails(k: seq<Sample>, from: nat)
    requires from == |k|
    ensures TrailingHits(k, from, true) == 0 && TrailingHits(k, from, false) == 0
  {
  }

  /**
   Refinement: over any history of accepted readings the incremental machine has exactly the episodes
   of the specification on the readings that count, its cursor is the newest of them, and both
   streaks are at most two.
   */
  lemma {:induction false} MachineMeetsSpecification(device: string, h: seq<Sample>)
    ensures
      var w, k := ObserveAll(device, h), Kept(h);
      && w.episodes == Told(device, k, 0).episodes
      && w.cursor == (if k == [] then None else Some(k[|k| - 1].eventAt))
      && w.high <= 2 && w.recovery <= 2 && (w.high == 0 || w.recovery == 0)
      && Tells(w, device, k)
  {
    hide TrailingHits, FirstTriple, Told, Fresh, Observe;
    if h == [] {
      NoHistory(device);
    } else {
      var k, s := Kept(h[..|h| - 1]), h[|h| - 1];
      MachineMeetsSpecification(device, h[..|h| - 1]);
      if Fresh(s) && (k == [] || k[|k| - 1].eventAt < s.eventAt) {
        ObserveTells(ObserveAll(device, h[..|h| - 1]), device, k, s);
        assert forall i :: 0 <= i < |k| ==> k[i].eventAt < s.eventAt;
        assert Kept(h) == k + [s];
      } else {
        ObserveSkips(ObserveAll(device, h[..|h| - 1]), device, s);
        assert Kept(h) == k;
      }
      StreaksAreShort(ObserveAll(device, h), device, Kept(h));
    }
  }

  lemma ObserveSkips(w: Watch, device: string, s: Sample)
    requires !Fresh(s) || (w.cursor.Some? && s.eventAt <= w.cursor.value)
    ensures Observe(w, device, s) == w
  {
  }

  lemma NoHistory(device: string)
    ensures Tells(IDLE, device, [])
  {
    assert FirstTriple([], 0, true).None?;
    NothingTrails([], 0);
  }

  lemma StreaksAreShort(w: Watch, device: string, k: seq<Sample>)
    requires Tells(w, device, k)
    ensures w.high <= 2 && w.recovery <= 2 && (w.high == 0 || w.recovery == 0)
  {
    hide TrailingHits, FirstTriple, Told;
    var tale := Told(device, k, 0);
    TaleIsOpen(device, k, 0);
    ShortRun(k, tale.start, !tale.active);
  }
}
