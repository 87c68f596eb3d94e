/**
 Ordered selection: what `SELECT ... ORDER BY ... LIMIT n` returns, for any strict total order.
 */
module Ordering {

  ghost predicate StrictTotalOrder<T(!new)>(less: (T, T) -> bool) {
    && (forall x :: !less(x, x))
    && (forall x, y, z :: less(x, y) && less(y, z) ==> less(x, z))
    && (forall x, y :: x != y ==> less(x, y) || less(y, x))
  }

  ghost predicate Ascending<T>(less: (T, T) -> bool, s: seq<T>) {
    forall i, j :: 0 <= i < j < |s| ==> less(s[i], s[j])
  }

  /** `out` is the first `limit` members of `rows` in the given order, and all of them when fewer. */
  ghost predicate IsFirst<T(!new)>(less: (T, T) -> bool, rows: set<T>, limit: nat, out: seq<T>) {
    && Ascending(less, out)
    && (forall x :: x in out ==> x in rows)
    && |out| == (if |rows| < limit then |rows| else limit)
    && (forall x, y :: x in out && y in rows && y !in out ==> less(x, y))
  }

  ghost predicate IsLeast<T>(less: (T, T) -> bool, rows: set<T>, m: T) {
    m in rows && forall x :: x in rows && x != m ==> less(m, x)
  }

  lemma LeastExists<T(!new)>(less: (T, T) -> bool, rows: set<T>)
    requires StrictTotalOrder(less) && rows != {}
    ensures exists m :: IsLeast(less, rows, m)
  {
    var x :| x in rows;
    if rows == {x} {
      assert IsLeast(less, rows, x);
    } else {
      LeastExists(less, rows - {x});
      var m :| IsLeast(less, rows - {x}, m);
      assert IsLeast(less, rows, if less(m, x) then m else x);
    }
  }

  function First<T(!new, ==)>(less: (T, T) -> bool, rows: set<T>, limit: nat): (out: seq<T>)
    requires StrictTotalOrder(less)
    ensures IsFirst(less, rows, limit, out)
  {
    if limit == 0 || rows == {} then []
    else
      assert exists m :: IsLeast(less, rows, m) by { LeastExists(less, rows); }
      var m :| m in rows && forall x :: x in rows && x != m ==> less(m, x);
      [m] + First(less, rows - {m}, limit - 1)
  }

  lemma FirstHeadAndTail<T(!new)>(less: (T, T) -> bool, rows: set<T>, limit: nat, a: seq<T>)
    requires StrictTotalOrder(less) && IsFirst(less, rows, limit, a) && a != []
    ensures IsLeast(less, rows, a[0])
    ensures IsFirst(less, rows - {a[0]}, limit - 1, a[1..])
  {
    var m, t := a[0], a[1..];
    forall x | x in rows && x != m ensures less(m, x) {
      if x in a {
        var i :| 0 <= i < |a| && a[i] == x;
      }
    }
    forall x | x in t ensures x in rows - {m} {
      var i :| 0 <= i < |t| && t[i] == x;
      assert a[i + 1] == x;
    }
    assert forall x :: x in a ==> x == m || x in t;
  }

  /** The specification pins the answer down: no other list meets it. */
  lemma {:induction false} FirstIsUnique<T(!new)>(
      less: (T, T) -> bool, rows: set<T>, limit: nat, a: seq<T>, b: seq<T>)
    requires StrictTotalOrder(less)
    requires IsFirst(less, rows, limit, a) && IsFirst(less, rows, limit, b)
    ensures a == b
    decreases |a|
  {
    if a != [] {
      FirstHeadAndTail(less, rows, limit, a);
      FirstHeadAndTail(less, rows, limit, b);
      FirstIsUnique(less, rows - {a[0]}, limit - 1, a[1..], b[1..]);
    }
  }

  lemma AscendingHasNoRepeats<T(!new)>(less: (T, T) -> bool, s: seq<T>)
    requires StrictTotalOrder(less) && Ascending(less, s)
    ensures forall i, j :: 0 <= i < j < |s| ==> s[i] != s[j]
  {
  }

  /** Byte-wise order of two texts, SQLite's default collation. */
  predicate TextBefore(a: string, b: string) {
    if b == "" then false
    else if a == "" then true
    else if a[0] != b[0] then a[0] < b[0]
    else TextBefore(a[1..], b[1..])
  }

  lemma TextOrder()
    ensures StrictTotalOrder(TextBefore)
  {
    forall x: string ensures !TextBefore(x, x) { TextIrreflexive(x); }
    forall x: string, y: string, z: string | TextBefore(x, y) && TextBefore(y, z)
      ensures TextBefore(x, z)
    {
      TextTransitive(x, y, z);
    }
    forall x: string, y: string | x != y ensures TextBefore(x, y) || TextBefore(y, x) {
      TextConnected(x, y);
    }
  }

  lemma TextIrreflexive(x: string)
    ensures !TextBefore(x, x)
  {
  }

  lemma {:induction false} TextTransitive(x: string, y: string, z: string)
    requires TextBefore(x, y) && TextBefore(y, z)
    ensures TextBefore(x, z)
  {
    if x != "" && x[0] == y[0] && y[0] == z[0] {
      TextTransitive(x[1..], y[1..], z[1..]);
    }
  }

  lemma {:induction false} TextConnected(x: string, y: string)
    requires x != y
    ensures TextBefore(x, y) || TextBefore(y, x)
  {
    if x != "" && y != "" && x[0] == y[0] {
      assert x == [x[0]] + x[1..] && y == [y[0]] + y[1..];
      TextConnected(x[1..], y[1..]);
    }
  }
}
