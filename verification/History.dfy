/**
 A device's history (backend/app/telemetry/service.py and repository.py): the newest bounded window of a
 time range, in ascending order with gap flags, and the chart's line segments (frontend/src/History.tsx).
 */
module History {
  import opened Options
  import opened Ordering
  import opened Events
  import opened Telemetry
  import opened Ingestion

  const MAX_POINTS := 2000
  const MAX_RANGE := 7 * 24 * 60 * MINUTE
  const MAX_CONNECTED_GAP := 2 * MINUTE

  /** A query bound; without a time zone it is no instant. */
  datatype Bound = Bound(zoned: bool, at: int)

  datatype HistoryFault = InvalidRange | DeviceNotFound

  /** A stored event with its identity. */
  datatype HistoryRow = HistoryRow(id: Identity, row: EventRow)
  {
    function EventAt(): int {
      EventTime(row.content, row.gatewayReceivedAt)
    }

    predicate OnDeviceTime() {
      DeviceTimed(row.content)
    }
  }

  datatype HistoryPoint = HistoryPoint(
    eventAt: int, onDeviceTime: bool, measuredAt: Option<int>, gatewayReceivedAt: int, clock: Clock, value: real,
    unit: string, gapBefore: bool)

  datatype DeviceHistory =
    DeviceHistory(device: string, from: int, to: int, truncated: bool, points: seq<HistoryPoint>)

  predicate ValidRange(from: Bound, to: Bound) {
    from.zoned && to.zoned && from.at < to.at && to.at - from.at <= MAX_RANGE
  }

  // The window

  /** A row's place in the time order. */
  datatype Mark = Mark(eventAt: int, telemetryId: nat)

  /** `ORDER BY event time DESC, id DESC`. */
  predicate Newer(a: Mark, b: Mark) {
    a.eventAt > b.eventAt || (a.eventAt == b.eventAt && a.telemetryId > b.telemetryId)
  }

  lemma NewerIsTotal()
    ensures StrictTotalOrder(Newer)
  {
  }

  function MarkOf(r: HistoryRow): Mark {
    Mark(r.EventAt(), r.row.telemetryId)
  }

  function RowOf(db: Db, id: Identity): HistoryRow
    requires id in db.telemetry
  {
    HistoryRow(id, db.telemetry[id])
  }

  predicate InRange(db: Db, id: Identity, device: string, from: int, to: int) {
    id in db.telemetry && id.device == device && from <= RowOf(db, id).EventAt() < to
  }

  function Marks(db: Db, device: string, from: int, to: int): set<Mark> {
    set id | id in db.telemetry && InRange(db, id, device, from, to) :: MarkOf(RowOf(db, id))
  }

  function RowAt(db: Db, device: string, from: int, to: int, m: Mark): (r: HistoryRow)
    requires SoundDb(db) && m in Marks(db, device, from, to)
    ensures InRange(db, r.id, device, from, to) && r == RowOf(db, r.id) && MarkOf(r) == m
  {
    var id :| id in db.telemetry && InRange(db, id, device, from, to) && MarkOf(RowOf(db, id)) == m;
    RowOf(db, id)
  }

  /** `read_history_rows`: the newest rows first. */
  function NewestRows(db: Db, device: string, from: int, to: int, limit: nat): (rows: seq<HistoryRow>)
    requires SoundDb(db)
    ensures
      var marks := NewestMarks(db, device, from, to, limit);
      |rows| == |marks| && forall i :: 0 <= i < |rows| ==>
        InRange(db, rows[i].id, device, from, to) && rows[i] == RowOf(db, rows[i].id) && MarkOf(rows[i]) == marks[i]
  {
    var marks := NewestMarks(db, device, from, to, limit);
    assert forall i :: 0 <= i < |marks| ==> marks[i] in marks;
    seq(|marks|, i requires 0 <= i < |marks| => RowAt(db, device, from, to, marks[i]))
  }

  function NewestMarks(db: Db, device: string, from: int, to: int, limit: nat): (marks: seq<Mark>)
    ensures IsFirst(Newer, Marks(db, device, from, to), limit, marks)
  {
    assert StrictTotalOrder(Newer) by { NewerIsTotal(); }
    First(Newer, Marks(db, device, from, to), limit)
  }

  function Reversed<T>(s: seq<T>): (r: seq<T>)
    ensures |r| == |s| && forall i :: 0 <= i < |s| ==> r[i] == s[|s| - 1 - i]
  {
    seq(|s|, i requires 0 <= i < |s| => s[|s| - 1 - i])
  }

  function Cut<T>(s: seq<T>, limit: nat): seq<T> {
    if |s| > limit then s[..limit] else s
  }

  /** The rows behind the points. */
  function Window(db: Db, device: string, from: int, to: int): seq<HistoryRow>
    requires SoundDb(db)
  {
    Reversed(Cut(NewestRows(db, device, from, to, MAX_POINTS + 1), MAX_POINTS))
  }

  /** Two neighbours drawn as one line. */
  predicate Linked(a: HistoryRow, b: HistoryRow) {
    && b.id.boot == a.id.boot
    && b.id.sequence == a.id.sequence + 1
    && b.EventAt() - a.EventAt() <= MAX_CONNECTED_GAP
    && (b.OnDeviceTime() <==> a.OnDeviceTime())
  }

  function PointOf(r: HistoryRow, gapBefore: bool): HistoryPoint {
    HistoryPoint(r.EventAt(), r.OnDeviceTime(), r.row.content.measuredAt, r.row.gatewayReceivedAt,
                 r.row.content.clock, r.row.content.value, r.row.content.unit, gapBefore)
  }

  function PointAt(rows: seq<HistoryRow>, i: nat): HistoryPoint
    requires i < |rows|
  {
    PointOf(rows[i], i == 0 || !Linked(rows[i - 1], rows[i]))
  }

  function Points(rows: seq<HistoryRow>): (points: seq<HistoryPoint>)
    ensures |points| == |rows| && forall i :: 0 <= i < |rows| ==> points[i] == PointAt(rows, i)
  {
    seq(|rows|, i requires 0 <= i < |rows| => PointAt(rows, i))
  }

  // The program's form

  method GapBefore(row: HistoryRow, previous: Option<HistoryRow>) returns (gap: bool)
    ensures gap <==> previous.None? || !Linked(previous.value, row)
  {
    if previous.None? {
      return true;
    }
    var p := previous.value;
    gap := row.id.boot != p.id.boot || row.id.sequence != p.id.sequence + 1
           || row.EventAt() - p.EventAt() > MAX_CONNECTED_GAP
           || row.OnDeviceTime() != p.OnDeviceTime();
  }

  method ReadDeviceHistory(db: Db, device: string, from: Bound, to: Bound)
    returns (r: Result<DeviceHistory, HistoryFault>)
    requires SoundDb(db)
    ensures r == Err(InvalidRange) <==> !ValidRange(from, to)
    ensures r == Err(InvalidRange) <==> !from.zoned || !to.zoned || !(0 < to.at - from.at <= 604_800_000_000)
    ensures r.Ok? ==> (r.value.truncated <==> |Marks(db, device, from.at, to.at)| > 2000) && |r.value.points| <= 2000
    ensures r == Err(DeviceNotFound) <==> ValidRange(from, to) && device !in db.devices
    ensures r.Ok? ==>
      r.value == DeviceHistory(device, from.at, to.at, |Marks(db, device, from.at, to.at)| > MAX_POINTS,
                               Points(Window(db, device, from.at, to.at)))
  {
    hide SoundDb, NewestMarks, IsFirst;
    if !from.zoned || !to.zoned || from.at >= to.at || to.at - from.at > MAX_RANGE {
      return Err(InvalidRange);
    }
    if device !in db.devices {
      return Err(DeviceNotFound);
    }
    var rows := NewestRows(db, device, from.at, to.at, MAX_POINTS + 1);
    FetchedTellsMore(db, device, from.at, to.at);
    var ordered := Reversed(Cut(rows, MAX_POINTS));
    var points := [];
    var previous := None;
    for i := 0 to |ordered|
      invariant |points| == i && points == Points(ordered)[..i]
      invariant previous == if i == 0 then None else Some(ordered[i - 1])
    {
      var gap := GapBefore(ordered[i], previous);
      points := points + [PointOf(ordered[i], gap)];
      previous := Some(ordered[i]);
    }
    assert Points(ordered)[..|ordered|] == Points(ordered);
    return Ok(DeviceHistory(device, from.at, to.at, |rows| > MAX_POINTS, points));
  }

  // What the window is

  lemma FetchedTellsMore(db: Db, device: string, from: int, to: int)
    requires SoundDb(db)
    ensures
      |NewestRows(db, device, from, to, MAX_POINTS + 1)| > MAX_POINTS <==>
      |Marks(db, device, from, to)| > MAX_POINTS
  {
    hide SoundDb;
  }

  /** Cutting a longer selection short is the shorter selection. */
  lemma FirstOfMore<T(!new)>(less: (T, T) -> bool, rows: set<T>, more: nat, limit: nat, out: seq<T>)
    requires StrictTotalOrder(less) && IsFirst(less, rows, more, out) && limit <= more
    ensures IsFirst(less, rows, limit, Cut(out, limit))
  {
    var cut := Cut(out, limit);
    if |out| > limit {
      forall k | 0 <= k < limit ensures out[k] in cut {
        assert out[k] == cut[k];
      }
      forall x, y | x in cut && y in rows && y !in cut ensures less(x, y) {
        var i :| 0 <= i < limit && out[i] == x;
        if y in out {
          var j :| 0 <= j < |out| && out[j] == y;
        }
      }
      forall x | x in cut ensures x in rows {
        assert x in out;
      }
    }
  }

  /** The marks of the window, newest first. */
  lemma WindowMarks(db: Db, device: string, from: int, to: int)
    requires SoundDb(db)
    ensures
      var w, cut := Window(db, device, from, to), Cut(NewestMarks(db, device, from, to, MAX_POINTS + 1), MAX_POINTS);
      && |w| == |cut| && (forall i :: 0 <= i < |w| ==> MarkOf(w[i]) == cut[|w| - 1 - i])
      && (forall i :: 0 <= i < |w| ==> InRange(db, w[i].id, device, from, to) && w[i] == RowOf(db, w[i].id))
      && IsFirst(Newer, Marks(db, device, from, to), MAX_POINTS, cut)
  {
    hide SoundDb, RowOf, InRange, Marks, IsFirst, MarkOf;
    var marks := NewestMarks(db, device, from, to, MAX_POINTS + 1);
    assert StrictTotalOrder(Newer) by { NewerIsTotal(); }
    FirstOfMore(Newer, Marks(db, device, from, to), MAX_POINTS + 1, MAX_POINTS, marks);
  }

  /**
   The window is exactly the newest min(N, 2000) of the N stored rows of the device in the range, each
   once, in ascending (event time, id) order.
   */
  lemma WindowIsOrdered(db: Db, device: string, from: int, to: int)
    requires SoundDb(db)
    ensures
      var w, n := Window(db, device, from, to), |Marks(db, device, from, to)|;
      && |w| == (if n < MAX_POINTS then n else MAX_POINTS)
      && (forall i :: 0 <= i < |w| ==> InRange(db, w[i].id, device, from, to) && w[i] == RowOf(db, w[i].id))
      && (forall i, j :: 0 <= i < j < |w| ==> Newer(MarkOf(w[j]), MarkOf(w[i])))
  {
    hide SoundDb, RowOf, InRange, Marks, MarkOf, Window, Newer;
    WindowMarks(db, device, from, to);
  }

  /** A row of the range that is left out is older than the whole window. */
  lemma WindowIsTheNewest(db: Db, device: string, from: int, to: int, id: Identity)
    requires SoundDb(db) && InRange(db, id, device, from, to)
    ensures
      var w := Window(db, device, from, to);
      RowOf(db, id) in w || forall i :: 0 <= i < |w| ==> Newer(MarkOf(w[i]), MarkOf(RowOf(db, id)))
  {
    hide SoundDb, Window, Newer, MarkOf;
    WindowMarks(db, device, from, to);
    var w, cut := Window(db, device, from, to), Cut(NewestMarks(db, device, from, to, MAX_POINTS + 1), MAX_POINTS);
    var m := MarkOf(RowOf(db, id));
    assert m in Marks(db, device, from, to);
    if m in cut {
      var k :| 0 <= k < |cut| && cut[k] == m;
      OneRowPerMark(db, id, w[|w| - 1 - k].id);
      assert w[|w| - 1 - k] == RowOf(db, id);
    } else {
      assert forall i :: 0 <= i < |w| ==> MarkOf(w[i]) in cut;
    }
  }

  lemma OneRowPerMark(db: Db, a: Identity, b: Identity)
    requires SoundDb(db) && a in db.telemetry && b in db.telemetry
    requires MarkOf(RowOf(db, a)) == MarkOf(RowOf(db, b))
    ensures a == b
  {
  }

  // Line segments

  /** The loop of `lineSegments`, over the points so far. */
  function Segments(points: seq<HistoryPoint>): (segments: seq<seq<HistoryPoint>>)
    ensures segments == [] <==> points == []
  {
    if points == [] then []
    else
      var last := points[|points| - 1];
      Extended(Segments(points[..|points| - 1]), last)
  }

  function Extended(segments: seq<seq<HistoryPoint>>, point: HistoryPoint): (r: seq<seq<HistoryPoint>>)
    ensures r != []
  {
    if point.gapBefore || segments == [] then segments + [[point]]
    else segments[..|segments| - 1] + [segments[|segments| - 1] + [point]]
  }

  lemma SegmentsSnoc(points: seq<HistoryPoint>, i: nat)
    requires i < |points|
    ensures Segments(points[..i + 1]) == Extended(Segments(points[..i]), points[i])
  {
    hide Extended;
    assert points[..i + 1][..i] == points[..i];
  }

  method Push(segments: seq<seq<HistoryPoint>>, point: HistoryPoint) returns (r: seq<seq<HistoryPoint>>)
    ensures r == Extended(segments, point)
  {
    r := segments;
    if point.gapBefore || |r| == 0 {
      r := r + [[]];
      assert r[..|r| - 1] == segments && [] + [point] == [point];
    }
    var last := |r| - 1;
    r := r[..last] + [r[last] + [point]];
  }

  method LineSegments(points: seq<HistoryPoint>) returns (segments: seq<seq<HistoryPoint>>)
    ensures segments == Segments(points)
  {
    hide Segments, Extended;
    segments := [];
    assert Segments([]) == [] && points[..0] == [];
    for i := 0 to |points|
      invariant segments == Segments(points[..i])
    {
      SegmentsSnoc(points, i);
      segments := Push(segments, points[i]);
    }
    assert points[..|points|] == points;
  }

  function Joined(segments: seq<seq<HistoryPoint>>): seq<HistoryPoint> {
    if segments == [] then [] else Joined(segments[..|segments| - 1]) + segments[|segments| - 1]
  }

  /** Where a segment starts among all points. */
  function Start(segments: seq<seq<HistoryPoint>>, k: nat): nat
    requires k <= |segments|
  {
    |Joined(segments[..k])|
  }

  lemma JoinedSnoc(segments: seq<seq<HistoryPoint>>, s: seq<HistoryPoint>)
    ensures Joined(segments + [s]) == Joined(segments) + s
  {
    assert (segments + [s])[..|segments|] == segments;
  }

  /** No segment is empty, every segment but the first starts at a gap, and no gap is inside one. */
  predicate Broken(segments: seq<seq<HistoryPoint>>) {
    && (forall k :: 0 <= k < |segments| ==> segments[k] != [])
    && (forall k :: 0 < k < |segments| ==> segments[k][0].gapBefore)
    && (forall k, j :: 0 <= k < |segments| && 0 < j < |segments[k]| ==> !segments[k][j].gapBefore)
  }

  lemma ExtendedJoins(segments: seq<seq<HistoryPoint>>, point: HistoryPoint)
    ensures Joined(Extended(segments, point)) == Joined(segments) + [point]
  {
    hide Joined;
    if point.gapBefore || segments == [] {
      JoinedSnoc(segments, [point]);
    } else {
      var n := |segments| - 1;
      JoinedSnoc(segments[..n], segments[n]);
      assert segments[..n] + [segments[n]] == segments;
      JoinedSnoc(segments[..n], segments[n] + [point]);
      assert Joined(segments[..n]) + (segments[n] + [point]) == Joined(segments[..n]) + segments[n] + [point];
    }
  }

  lemma ExtendedBreaks(segments: seq<seq<HistoryPoint>>, point: HistoryPoint)
    requires Broken(segments)
    ensures Broken(Extended(segments, point))
  {
    var r, n := Extended(segments, point), |segments| - 1;
    if !point.gapBefore && segments != [] {
      assert forall k :: 0 <= k < n ==> r[k] == segments[k];
      assert r[n] == segments[n] + [point];
    }
  }

  lemma {:induction false} SegmentsPartition(points: seq<HistoryPoint>)
    ensures Joined(Segments(points)) == points && Broken(Segments(points))
  {
    hide Extended, Broken;
    if points == [] {
      assert Broken([]) by { NothingIsBroken(); }
    } else {
      var before, point := points[..|points| - 1], points[|points| - 1];
      SegmentsPartition(before);
      ExtendedJoins(Segments(before), point);
      ExtendedBreaks(Segments(before), point);
      assert points == before + [point];
    }
  }

  lemma NothingIsBroken()
    ensures Broken([])
  {
  }

  lemma {:induction false} JoinedAt(segments: seq<seq<HistoryPoint>>, k: nat, j: nat)
    requires k < |segments| && j < |segments[k]|
    ensures Start(segments, k) + j < |Joined(segments)|
    ensures Joined(segments)[Start(segments, k) + j] == segments[k][j]
  {
    var n := |segments| - 1;
    JoinedSnoc(segments[..n], segments[n]);
    assert segments[..n] + [segments[n]] == segments;
    if k < n {
      JoinedAt(segments[..n], k, j);
      assert segments[..n][..k] == segments[..k];
    }
  }

  /** Neighbouring rows on one line of the chart, and the rows on both sides of a break. */
  predicate DrawnTogether(rows: seq<HistoryRow>, segments: seq<seq<HistoryPoint>>, k: nat, j: nat)
    requires k < |segments| && 0 < j < |segments[k]|
  {
    var i := Start(segments, k) + j;
    && i < |rows| && segments[k][j] == PointAt(rows, i) && segments[k][j - 1] == PointAt(rows, i - 1)
    && Linked(rows[i - 1], rows[i])
  }

  /**
   The chart's lines partition the window in order.  Inside a line boot and time source are constant,
   sequence numbers increase by exactly one and neighbours are at most two minutes apart; and where one
   line ends and the next begins, some of that fails.
   */
  lemma LinesFollowTheData(db: Db, device: string, from: int, to: int)
    requires SoundDb(db)
    ensures
      var rows := Window(db, device, from, to);
      var segments := Segments(Points(rows));
      && Joined(segments) == Points(rows)
      && (forall k :: 0 <= k < |segments| ==> segments[k] != [])
      && (forall k, j :: 0 <= k < |segments| && 0 < j < |segments[k]| ==> DrawnTogether(rows, segments, k, j))
      && (forall k :: 0 < k < |segments| ==>
            var i := Start(segments, k);
            0 < i < |rows| && segments[k][0] == PointAt(rows, i) && !Linked(rows[i - 1], rows[i]))
  {
    hide SoundDb, Window, Segments, Linked;
    SegmentsFollowRows(Window(db, device, from, to));
  }

  lemma SegmentsFollowRows(rows: seq<HistoryRow>)
    ensures
      var segments := Segments(Points(rows));
      && Joined(segments) == Points(rows)
      && (forall k :: 0 <= k < |segments| ==> segments[k] != [])
      && (forall k, j :: 0 <= k < |segments| && 0 < j < |segments[k]| ==> DrawnTogether(rows, segments, k, j))
      && (forall k :: 0 < k < |segments| ==>
            var i := Start(segments, k);
            0 < i < |rows| && segments[k][0] == PointAt(rows, i) && !Linked(rows[i - 1], rows[i]))
  {
    hide Segments, Linked, Joined;
    var points := Points(rows);
    var segments := Segments(points);
    SegmentsPartition(points);
    forall k, j | 0 <= k < |segments| && 0 < j < |segments[k]| ensures DrawnTogether(rows, segments, k, j) {
      JoinedAt(segments, k, j);
      JoinedAt(segments, k, j - 1);
    }
    forall k | 0 < k < |segments|
      ensures
        var i := Start(segments, k);
        0 < i < |rows| && segments[k][0] == PointAt(rows, i) && !Linked(rows[i - 1], rows[i])
    {
      JoinedAt(segments, k, 0);
      assert segments[k][0].gapBefore;
      StartGrows(segments, k);
    }
  }

  lemma StartGrows(segments: seq<seq<HistoryPoint>>, k: nat)
    requires 0 < k < |segments| && segments[0] != []
    ensures Start(segments, k) > 0
  {
    assert segments[..1][..0] == [];
    JoinedAt(segments[..k], 0, 0);
  }
}
