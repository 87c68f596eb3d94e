/**
 The streaming duplicate-key check shared by the gateway's two JSON readers
 (gateway/src/telemetry/event.cpp and gateway/src/forwarder.cpp): one key set per nesting depth,
 cleared whenever an object starts at that depth.
 */
module KeyStream {
  import opened Options
  import opened Document

  /** `OutOfBounds` stands for the vector access the program leaves unchecked. */
  datatype KeyFault = TooDeep | DuplicateKey | OutOfBounds

  type KeySets = seq<set<string>>

  function Grow(keys: KeySets, size: nat): (grown: KeySets)
    ensures |grown| == if |keys| < size then size else |keys|
    ensures forall i :: 0 <= i < |keys| ==> grown[i] == keys[i]
  {
    if |keys| < size then keys + seq(size - |keys|, _ => {}) else keys
  }

  function Step(keys: KeySets, signal: Signal, limit: nat): Result<KeySets, KeyFault> {
    if signal.depth > limit then Err(TooDeep)
    else
      match signal
      case ObjectStart(depth) => Ok(Grow(keys, depth + 2)[depth + 1 := {}])
      case Key(depth, name) =>
        if depth >= |keys| then Err(OutOfBounds)
        else if name in keys[depth] then Err(DuplicateKey)
        else Ok(keys[depth := keys[depth] + {name}])
      case _ => Ok(keys)
  }

  function Run(keys: KeySets, stream: seq<Signal>, limit: nat): Result<KeySets, KeyFault>
    decreases |stream|
  {
    if stream == [] then Ok(keys)
    else
      match Step(keys, stream[0], limit)
      case Err(f) => Err(f)
      case Ok(next) => Run(next, stream[1..], limit)
  }

  /** The callback, driven by the parser: stops at the first signal it throws on. */
  method Check(stream: seq<Signal>, limit: nat) returns (fault: Option<KeyFault>)
    ensures fault == match Run([], stream, limit) case Ok(_) => None case Err(f) => Some(f)
  {
    var keys: KeySets := [];
    for i := 0 to |stream|
      invariant Run([], stream, limit) == Run(keys, stream[i..], limit)
    {
      var signal := stream[i];
      assert stream[i..][1..] == stream[i + 1..];
      if signal.depth > limit {
        return Some(TooDeep);
      }
      if signal.ObjectStart? {
        var child := signal.depth + 1;
        if |keys| <= child {
          keys := Grow(keys, child + 1);
        }
        keys := keys[child := {}];
      } else if signal.Key? {
        if signal.depth >= |keys| {
          return Some(OutOfBounds);
        }
        if signal.name in keys[signal.depth] {
          return Some(DuplicateKey);
        }
        keys := keys[signal.depth := keys[signal.depth] + {signal.name}];
      }
    }
    return None;
  }

  lemma {:induction false} RunConcat(keys: KeySets, a: seq<Signal>, b: seq<Signal>, limit: nat)
    ensures Run(keys, a + b, limit) ==
      match Run(keys, a, limit)
      case Err(f) => Err(f)
      case Ok(next) => Run(next, b, limit)
    decreases |a|
  {
    hide Step;
    if a == [] {
      assert a + b == b;
    } else {
      assert (a + b)[1..] == a[1..] + b;
      if Step(keys, a[0], limit).Ok? {
        RunConcat(Step(keys, a[0], limit).value, a[1..], b, limit);
      }
    }
  }

  /** Key sets of the objects still open below `depth` survive a whole value read at `depth`. */
  predicate Keeps(before: KeySets, after: KeySets, depth: nat) {
    |before| <= |after| && forall i :: 0 <= i <= depth && i < |before| ==> after[i] == before[i]
  }

  /** What reading a value at `depth` must come to. */
  predicate Reads(keys: KeySets, r: Result<KeySets, KeyFault>, depth: nat, within: bool, clean: bool) {
    match r
    case Ok(after) => within && clean && Keeps(keys, after, depth)
    case Err(TooDeep) => !within
    case Err(DuplicateKey) => !clean
    case Err(OutOfBounds) => false
  }

  function Names(fields: seq<Field>): set<string> {
    set f | f in fields :: f.key
  }

  predicate AllClean(items: seq<Doc>) { forall x :: x in items ==> NoRepeats(x) }

  predicate FieldsClean(fields: seq<Field>) { forall f :: f in fields ==> NoRepeats(f.value) }

  lemma {:induction false} RunOnDoc(keys: KeySets, d: Doc, depth: nat, limit: nat)
    ensures Reads(keys, Run(keys, Signals(d, depth), limit), depth, Within(d, depth, limit), NoRepeats(d))
    decreases d, 1
  {
    match d
    case Arr(items) =>
      var start, body, end := [ArrayStart(depth)], ItemSignals(items, depth + 1), [ArrayEnd(depth)];
      RunConcat(keys, start + body, end, limit);
      RunConcat(keys, start, body, limit);
      RunOnItems(keys, items, depth + 1, limit);
    case Obj(fields) =>
      var start, body, end := [ObjectStart(depth)], FieldSignals(fields, depth + 1), [ObjectEnd(depth)];
      RunConcat(keys, start + body, end, limit);
      RunConcat(keys, start, body, limit);
      var cleared := Grow(keys, depth + 2)[depth + 1 := {}];
      RunOnFields(cleared, fields, depth + 1, limit);
    case _ =>
  }

  lemma {:induction false} RunOnItems(keys: KeySets, items: seq<Doc>, depth: nat, limit: nat)
    requires depth > 0
    ensures Reads(keys, Run(keys, ItemSignals(items, depth), limit), depth - 1,
                  ItemsWithin(items, depth, limit), AllClean(items))
    decreases items, 0
  {
    if items != [] {
      var first, rest := Signals(items[0], depth), ItemSignals(items[1..], depth);
      RunConcat(keys, first, rest, limit);
      RunOnDoc(keys, items[0], depth, limit);
      assert AllClean(items) <==> NoRepeats(items[0]) && AllClean(items[1..]);
      var r := Run(keys, first, limit);
      if r.Ok? {
        RunOnItems(r.value, items[1..], depth, limit);
      }
    }
  }

  lemma FieldsCleanStep(fields: seq<Field>)
    requires fields != []
    ensures FieldsClean(fields) <==> NoRepeats(fields[0].value) && FieldsClean(fields[1..])
    ensures Names(fields) == {fields[0].key} + Names(fields[1..])
    ensures DistinctKeys(fields) <==> fields[0].key !in Names(fields[1..]) && DistinctKeys(fields[1..])
  {
    assert fields == [fields[0]] + fields[1..];
    if fields[0].key in Names(fields[1..]) {
      var i :| 0 <= i < |fields[1..]| && fields[1..][i].key == fields[0].key;
      assert fields[i + 1].key == fields[0].key;
    }
    if DistinctKeys(fields[1..]) && fields[0].key !in Names(fields[1..]) {
      forall i, j | 0 <= i < j < |fields| ensures fields[i].key != fields[j].key {
        assert fields[j] in fields[1..];
        if i > 0 {
          assert fields[1..][i - 1].key != fields[1..][j - 1].key;
        }
      }
    }
    if DistinctKeys(fields) {
      forall i, j | 0 <= i < j < |fields[1..]| ensures fields[1..][i].key != fields[1..][j].key {
        assert fields[1..][i] == fields[i + 1] && fields[1..][j] == fields[j + 1];
      }
    }
  }

  lemma {:induction false} RunOnFields(keys: KeySets, fields: seq<Field>, depth: nat, limit: nat)
    requires 0 < depth < |keys|
    ensures Reads(keys, Run(keys, FieldSignals(fields, depth), limit), depth - 1,
                  FieldsWithin(fields, depth, limit),
                  FieldsClean(fields) && DistinctKeys(fields) && Names(fields) !! keys[depth])
    decreases fields, 0
  {
    if fields != [] {
      var key, value := fields[0].key, fields[0].value;
      var first, middle, rest := [Key(depth, key)], Signals(value, depth), FieldSignals(fields[1..], depth);
      RunConcat(keys, first + middle, rest, limit);
      RunConcat(keys, first, middle, limit);
      FieldsCleanStep(fields);
      assert Run(keys, first, limit) == Step(keys, Key(depth, key), limit);
      if depth <= limit && key !in keys[depth] {
        var seen := keys[depth := keys[depth] + {key}];
        RunOnDoc(seen, value, depth, limit);
        var r := Run(seen, middle, limit);
        if r.Ok? {
          RunOnFields(r.value, fields[1..], depth, limit);
        }
      }
    }
  }

  /**
   The streaming check accepts exactly the documents within the depth limit in which no object
   repeats a key; a document it calls too deep is too deep, one it calls repetitive does repeat a
   key, and it never indexes its key sets out of bounds.
   */
  lemma StreamEqualsTree(d: Doc, limit: nat)
    ensures
      var r := Run([], Signals(d, 0), limit);
      && (r.Ok? <==> Within(d, 0, limit) && NoRepeats(d))
      && (r == Err(TooDeep) ==> !Within(d, 0, limit))
      && (r == Err(DuplicateKey) ==> !NoRepeats(d))
      && r != Err(OutOfBounds)
  {
    RunOnDoc([], d, 0, limit);
  }
}
