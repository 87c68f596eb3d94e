/**
 What a history answer says of the stored readings, in plain numbers.  Instants are microseconds.
 */
module HistoryRules {
  import opened Options
  import opened Events
  import opened Telemetry
  import opened Ingestion
  import opened History
  import Ordering

  /** When a stored reading happened: the device's time if its clock was synchronised, else the gateway's. */
  ghost predicate At(row: EventRow, at: int) {
    if row.content.measuredAt.Some? && row.content.clock == Synchronised then row.content.measuredAt == Some(at)
    else at == row.gatewayReceivedAt
  }

  /** The point shows this stored reading, and says which time it is placed at. */
  ghost predicate Shows(p: HistoryPoint, row: EventRow) {
    && At(row, p.eventAt)
    && (p.onDeviceTime <==> row.content.measuredAt.Some? && row.content.clock == Synchronised)
    && p.measuredAt == row.content.measuredAt && p.gatewayReceivedAt == row.gatewayReceivedAt
    && p.clock == row.content.clock && p.value == row.content.value && p.unit == row.content.unit
  }

  lemma PointShowsRow(rows: seq<HistoryRow>, i: nat)
    requires i < |rows|
    ensures Shows(PointAt(rows, i), rows[i].row)
    ensures MarkOf(rows[i]) == Mark(PointAt(rows, i).eventAt, rows[i].row.telemetryId)
  {
  }

  /** Neighbours are drawn apart exactly when boot, sequence, distance or time source says so. */
  lemma GapsAreReal(rows: seq<HistoryRow>, i: nat)
    requires i < |rows|
    ensures
      var points := Points(rows);
      points[i].gapBefore <==>
        || i == 0
        || rows[i].id.boot != rows[i - 1].id.boot
        || rows[i].id.sequence != rows[i - 1].id.sequence + 1
        || points[i].eventAt - points[i - 1].eventAt > 120_000_000
        || points[i].onDeviceTime != points[i - 1].onDeviceTime
  {
    PointShowsRow(rows, i);
  }

  /** Every point shows a stored reading of this device within the range, and the points ascend in time. */
  lemma PointsAreStored(db: Db, device: string, from: int, to: int)
    requires SoundDb(db)
    ensures
      var rows := Window(db, device, from, to);
      var points := Points(rows);
      && (forall i :: 0 <= i < |points| ==>
            && rows[i].id in db.telemetry && rows[i].id.device == device
            && Shows(points[i], db.telemetry[rows[i].id]) && from <= points[i].eventAt < to)
      && (forall i, j :: 0 <= i < j < |points| ==> points[i].eventAt <= points[j].eventAt && rows[i].id != rows[j].id)
  {
    hide SoundDb, Window, Shows, PointAt;
    WindowIsOrdered(db, device, from, to);
    var rows := Window(db, device, from, to);
    forall i | 0 <= i < |rows|
      ensures Shows(PointAt(rows, i), rows[i].row)
      ensures MarkOf(rows[i]) == Mark(PointAt(rows, i).eventAt, rows[i].row.telemetryId)
    {
      PointShowsRow(rows, i);
    }
  }

  /** A stored reading of the device in the range is shown, or is no newer than anything that is. */
  lemma NewestAreShown(db: Db, device: string, from: int, to: int, id: Identity, at: int)
    requires SoundDb(db) && id in db.telemetry && id.device == device
    requires At(db.telemetry[id], at) && from <= at < to
    ensures
      var rows := Window(db, device, from, to);
      var points := Points(rows);
      || (exists i :: 0 <= i < |points| && rows[i].id == id && Shows(points[i], db.telemetry[id]))
      || (|points| == 2000 && forall i :: 0 <= i < |points| ==> at <= points[i].eventAt)
  {
    hide SoundDb, Window, Shows, PointAt, Marks;
    var rows := Window(db, device, from, to);
    assert InRange(db, id, device, from, to) by { assert RowOf(db, id).EventAt() == at; }
    WindowIsOrdered(db, device, from, to);
    WindowIsTheNewest(db, device, from, to, id);
    forall i | 0 <= i < |rows|
      ensures Shows(PointAt(rows, i), rows[i].row)
      ensures MarkOf(rows[i]) == Mark(PointAt(rows, i).eventAt, rows[i].row.telemetryId)
    {
      PointShowsRow(rows, i);
    }
    if RowOf(db, id) in rows {
      var i :| 0 <= i < |rows| && rows[i] == RowOf(db, id);
      assert rows[i].id == id;
    } else {
      AllShownWhenFew(db, device, from, to, id);
    }
  }

  /** With fewer than 2000 points nothing is left out. */
  lemma AllShownWhenFew(db: Db, device: string, from: int, to: int, id: Identity)
    requires SoundDb(db) && InRange(db, id, device, from, to)
    ensures RowOf(db, id) in Window(db, device, from, to) || |Window(db, device, from, to)| == 2000
  {
    hide SoundDb, Window, MarkOf;
    WindowIsOrdered(db, device, from, to);
    var rows, marks := Window(db, device, from, to), Marks(db, device, from, to);
    if |rows| < 2000 {
      WindowCoversFew(db, device, from, to, id);
    }
  }

  lemma WindowCoversFew(db: Db, device: string, from: int, to: int, id: Identity)
    requires SoundDb(db) && InRange(db, id, device, from, to) && |Window(db, device, from, to)| < 2000
    ensures RowOf(db, id) in Window(db, device, from, to)
  {
    hide SoundDb, Window, MarkOf, Newer;
    WindowMarks(db, device, from, to);
    var rows, marks := Window(db, device, from, to), Marks(db, device, from, to);
    var cut := Cut(NewestMarks(db, device, from, to, MAX_POINTS + 1), MAX_POINTS);
    var m := MarkOf(RowOf(db, id));
    assert m in marks;
    SameSize(cut, marks);
    var k :| 0 <= k < |cut| && cut[k] == m;
    OneRowPerMark(db, id, rows[|rows| - 1 - k].id);
  }

  lemma SameSize(cut: seq<Mark>, marks: set<Mark>)
    requires |cut| == |marks| && Ordering.Ascending(Newer, cut) && forall m :: m in cut ==> m in marks
    ensures forall m :: m in marks ==> m in cut
  {
    NoRepeats(cut);
    var members := set m | m in cut;
    assert members <= marks;
    assert marks == members + (marks - members);
  }

  lemma {:induction false} NoRepeats(cut: seq<Mark>)
    requires Ordering.Ascending(Newer, cut)
    ensures |set m | m in cut| == |cut|
  {
    if cut != [] {
      NoRepeats(cut[1..]);
      assert cut[0] !in cut[1..];
      assert (set m | m in cut) == (set m | m in cut[1..]) + {cut[0]};
    }
  }
}
