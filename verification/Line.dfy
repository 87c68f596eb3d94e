/** The queue as a line: its events in delivery order, and how a drain moves it forward. */
module Line {
  import opened Ordering
  import opened Events
  import opened Store
  import opened StoreProperties
  import opened Forwarder
  import opened ForwarderProperties

  function EventAt(t: Tables, id: Identity): Event
    requires id in t.queue
  {
    Event(id, t.queue[id].payload, t.queue[id].receivedAt)
  }

  function PlaceIn(e: Event): Place { Place(e.receivedAt, e.id) }

  /** These are exactly the queued events, in delivery order. */
  ghost predicate InLine(t: Tables, line: seq<Event>) {
    && (forall i, j :: 0 <= i < j < |line| ==> Sooner(PlaceIn(line[i]), PlaceIn(line[j])))
    && (forall e :: e in line ==> e.id in t.queue && e == EventAt(t, e.id))
    && (forall id :: id in t.queue ==> EventAt(t, id) in line)
  }

  /** The line of a queue that is all pending. */
  function LineOf(t: Tables): (line: seq<Event>) {
    var ids := Head(t, |t.queue|);
    seq(|ids|, i requires 0 <= i < |ids| => EventAt(t, ids[i]))
  }

  ghost predicate AllPending(t: Tables) {
    forall id :: id in t.queue ==> t.queue[id].state == Pending
  }

  lemma PendingCount(t: Tables)
    requires AllPending(t)
    ensures |PendingPlaces(t)| == |t.queue|
  {
    hide Sooner;
    PlacesCount(t, PendingIds(t));
    assert PendingPlaces(t) == set id | id in PendingIds(t) :: Place(t.queue[id].receivedAt, id);
    assert PendingIds(t) == t.queue.Keys;
    assert |t.queue| == |t.queue.Keys|;
  }

  lemma LinePlace(t: Tables, i: nat)
    requires i < |LineOf(t)|
    ensures i < |FirstPending(t, |t.queue|)| && PlaceIn(LineOf(t)[i]) == FirstPending(t, |t.queue|)[i]
    ensures var e := LineOf(t)[i]; e.id in t.queue && e == EventAt(t, e.id)
  {
    hide Sooner;
    var places := FirstPending(t, |t.queue|);
    assert places[i] in places && places[i] in PendingPlaces(t);
  }

  lemma LineOfIsInLine(t: Tables)
    requires AllPending(t)
    ensures InLine(t, LineOf(t))
  {
    hide Sooner, LineOf;
    PendingCount(t);
    var places, line := FirstPending(t, |t.queue|), LineOf(t);
    assert |line| == |places| by { LineLength(t); }
    forall i | 0 <= i < |line|
      ensures PlaceIn(line[i]) == places[i] && line[i].id in t.queue && line[i] == EventAt(t, line[i].id)
    {
      LinePlace(t, i);
    }
    AscendingHasAll(places, PendingPlaces(t));
    forall id | id in t.queue ensures EventAt(t, id) in line {
      var place := Place(t.queue[id].receivedAt, id);
      assert place in PendingPlaces(t);
      var i :| 0 <= i < |places| && places[i] == place;
      assert line[i] == EventAt(t, id);
    }
  }

  lemma LineLength(t: Tables)
    ensures |LineOf(t)| == |FirstPending(t, |t.queue|)|
  {
    hide Sooner;
  }

  /** As many ascending members as the set has are all of them. */
  lemma AscendingHasAll(s: seq<Place>, all: set<Place>)
    requires Ascending(Sooner, s) && |s| == |all| && forall x :: x in s ==> x in all
    ensures forall x :: x in all ==> x in s
  {
    hide Sooner;
    AscendingCount(s);
    var members := set x | x in s;
    assert members <= all;
    assert all == members + (all - members);
  }

  lemma {:induction false} AscendingCount(s: seq<Place>)
    requires Ascending(Sooner, s)
    ensures |set x | x in s| == |s|
  {
    hide Sooner;
    if s != [] {
      AscendingCount(s[1..]);
      QueueOrder();
      AscendingHasNoRepeats(Sooner, s);
      assert s[0] !in s[1..];
      assert (set x | x in s) == (set x | x in s[1..]) + {s[0]};
    }
  }

  function Places(line: seq<Event>): (places: seq<Place>)
    ensures |places| == |line| && forall i :: 0 <= i < |line| ==> places[i] == PlaceIn(line[i])
  {
    seq(|line|, i requires 0 <= i < |line| => PlaceIn(line[i]))
  }

  lemma LinePlaces(t: Tables, line: seq<Event>)
    requires AllPending(t) && InLine(t, line)
    ensures Ascending(Sooner, Places(line)) && |line| == |t.queue|
    ensures forall x :: x in Places(line) <==> x in PendingPlaces(t)
  {
    hide Sooner;
    var places := Places(line);
    assert Ascending(Sooner, places);
    forall x ensures x in places <==> x in PendingPlaces(t) {
      if x in places {
        var i :| 0 <= i < |places| && places[i] == x;
        assert line[i] in line;
      }
      if x in PendingPlaces(t) {
        assert EventAt(t, x.id) in line;
        var i :| 0 <= i < |line| && line[i] == EventAt(t, x.id);
        assert places[i] == x;
      }
    }
    AscendingCount(places);
    PendingCount(t);
    assert (set x | x in places) == PendingPlaces(t);
  }

  lemma HeadPlaces(t: Tables, line: seq<Event>)
    requires AllPending(t) && InLine(t, line)
    ensures |line| == |t.queue|
    ensures IsFirst(Sooner, PendingPlaces(t), MAX_BATCH, Places(line[..ClaimSize(|line|)]))
  {
    hide Sooner, PendingPlaces, InLine, AllPending, Places;
    LinePlaces(t, line);
    PendingCount(t);
    var n, places := ClaimSize(|line|), Places(line);
    var head := Places(line[..n]);
    assert head == places[..n];
    forall k | 0 <= k < n ensures places[k] in head {
      assert head[k] == places[k];
    }
    forall x, y | x in head && y in PendingPlaces(t) && y !in head ensures Sooner(x, y) {
      var i :| 0 <= i < n && places[i] == x;
      assert y in places;
      var j :| 0 <= j < |places| && places[j] == y;
      assert j >= n;
    }
  }

  lemma ClaimPlaces(t: Tables)
    requires ClaimHead(t, MAX_BATCH).Ok?
    ensures Places(EventsOf(ClaimHead(t, MAX_BATCH).value.1)) == FirstPending(t, MAX_BATCH)
  {
    hide Sooner;
    var claims, places := ClaimHead(t, MAX_BATCH).value.1, FirstPending(t, MAX_BATCH);
    forall i | 0 <= i < |claims| ensures PlaceOf(claims[i]) == places[i] {
      assert places[i] in places;
    }
    assert |Places(EventsOf(claims))| == |claims| == |places|;
  }

  /** A claim takes the first 500 events of the line. */
  lemma HeadOfLine(t: Tables, line: seq<Event>)
    requires AllPending(t) && InLine(t, line) && ClaimHead(t, MAX_BATCH).Ok?
    ensures |line| == |t.queue|
    ensures EventsOf(ClaimHead(t, MAX_BATCH).value.1) == line[..ClaimSize(|line|)]
    ensures ClaimSize(|line|) == if |line| <= 500 then |line| else 500
  {
    hide Sooner, ClaimHead;
    var claims, head := ClaimHead(t, MAX_BATCH).value.1, line[..ClaimSize(|line|)];
    ClaimPlaces(t);
    HeadPlaces(t, line);
    QueueOrder();
    FirstIsUnique(Sooner, PendingPlaces(t), MAX_BATCH, FirstPending(t, MAX_BATCH), Places(head));
    ClaimTakesTheHead(t, MAX_BATCH);
    var events := EventsOf(claims);
    assert |events| == |Places(events)| == |head|;
    forall i | 0 <= i < |head| ensures events[i] == head[i] {
      assert Places(events)[i] == Places(head)[i];
      assert head[i] in line;
      assert claims[i].event == EventAt(t, claims[i].event.id);
    }
  }

  /** Without the head, the line is the rest. */
  lemma RestOfLine(t: Tables, w: Tables, line: seq<Event>, n: nat, gone: set<Identity>)
    requires InLine(t, line) && n <= |line|
    requires w.queue == t.queue - gone && gone == set i | 0 <= i < n :: line[i].id
    ensures InLine(w, line[n..])
  {
    hide Sooner;
    var rest := line[n..];
    forall e | e in rest ensures e.id in w.queue && e == EventAt(w, e.id) {
      var j :| 0 <= j < |rest| && rest[j] == e;
      assert line[n + j] == e && e in line;
      forall i | 0 <= i < n ensures line[i].id != e.id {
        LineIsDistinct(t, line, i, n + j);
      }
    }
    forall id | id in w.queue ensures EventAt(w, id) in rest {
      var i :| 0 <= i < |line| && line[i] == EventAt(t, id);
      assert i >= n;
      assert rest[i - n] == line[i];
    }
  }

  lemma LineIsDistinct(t: Tables, line: seq<Event>, i: nat, j: nat)
    requires InLine(t, line) && i < j < |line|
    ensures line[i].id != line[j].id
  {
    hide Sooner;
    QueueOrder();
    assert line[i] in line && line[j] in line;
    assert Sooner(PlaceIn(line[i]), PlaceIn(line[j]));
  }

  lemma SameLine(t: Tables, w: Tables, line: seq<Event>)
    requires InLine(t, line) && w.queue.Keys == t.queue.Keys
    requires forall id :: id in t.queue ==>
      w.queue[id].payload == t.queue[id].payload && w.queue[id].receivedAt == t.queue[id].receivedAt
    ensures InLine(w, line)
  {
    hide Sooner;
    forall id | id in w.queue ensures EventAt(w, id) in line {
      assert EventAt(w, id) == EventAt(t, id);
    }
  }

  /** One drain moves the line forward by its claim, or not at all. */
  lemma DrainMovesLine(t: Tables, line: seq<Event>, http: Http)
    requires Ready(t) && InLine(t, line)
    ensures ClaimHead(t, MAX_BATCH).Ok?
    ensures
      var w, claims := Drain(t, http, [], NO_FAULTS).0, ClaimHead(t, MAX_BATCH).value.1;
      InLine(w, if React(claims, http).Decide? then line[ClaimSize(|line|)..] else line)
  {
    hide Sooner, ClaimHead, React, Drain, WellFormed, InLine;
    DrainExactly(t, http);
    HeadOfLine(t, line);
    var w, claims := Drain(t, http, [], NO_FAULTS).0, ClaimHead(t, MAX_BATCH).value.1;
    if React(claims, http).Decide? {
      var n := ClaimSize(|line|);
      HeadIds(claims, line, n);
      RestOfLine(t, w, line, n, IdSet(claims));
    } else {
      SameLine(t, w, line);
    }
  }

  lemma HeadIds(claims: seq<Claim>, line: seq<Event>, n: nat)
    requires n <= |line| && EventsOf(claims) == line[..n]
    ensures IdSet(claims) == set i | 0 <= i < n :: line[i].id
  {
    assert |claims| == n;
    assert forall i :: 0 <= i < n ==> claims[i].event == line[..n][i];
    forall i | 0 <= i < n ensures claims[i].event.id == line[i].id {
      assert claims[i].event == line[i];
    }
    forall id ensures id in IdSet(claims) <==> id in set i | 0 <= i < n :: line[i].id {
      if id in IdSet(claims) {
        var i :| 0 <= i < |claims| && claims[i].event.id == id;
        assert line[i].id == id;
      }
      if i :| 0 <= i < n && line[i].id == id {
        assert claims[i].event.id == id;
      }
    }
  }
}
