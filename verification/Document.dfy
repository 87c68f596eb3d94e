/**
 Parsed JSON documents, and the parser's signals: what `nlohmann::json::parse` hands to a callback.
 */
module Document {
  import opened Options
  import Json

  datatype Doc =
    | Null
    | Bool(b: bool)
    | Integer(n: int)
    | Real(digits: string)
    | Str(s: string)
    | Arr(items: seq<Doc>)
    | Obj(fields: seq<Field>)
  {
    /** The value of the first field with this key; the only one when keys do not repeat. */
    function Get(key: string): Option<Doc> {
      if Obj? then Find(fields, key) else None
    }
  }

  datatype Field = Field(key: string, value: Doc)

  function Find(fields: seq<Field>, key: string): Option<Doc> {
    if fields == [] then None
    else if fields[0].key == key then Some(fields[0].value)
    else Find(fields[1..], key)
  }

  lemma {:induction false} FindAt(fields: seq<Field>, key: string, i: nat)
    requires i < |fields| && fields[i].key == key
    requires forall j :: 0 <= j < i ==> fields[j].key != key
    ensures Find(fields, key) == Some(fields[i].value)
  {
    if i > 0 {
      FindAt(fields[1..], key, i - 1);
    }
  }

  lemma {:induction false} FindNone(fields: seq<Field>, key: string)
    requires forall j :: 0 <= j < |fields| ==> fields[j].key != key
    ensures Find(fields, key) == None
  {
    if fields != [] {
      FindNone(fields[1..], key);
    }
  }

  // From text to document

  predicate AllDigits(s: string) {
    forall i :: 0 <= i < |s| ==> Json.Digit(s[i])
  }

  function DigitsValue(s: string): nat
    requires AllDigits(s)
  {
    if s == "" then 0 else 10 * DigitsValue(s[..|s| - 1]) + Json.HexValue(s[|s| - 1])
  }

  /** An integer spelling is kept exactly when it fits 64 bits; everything else is floating point. */
  function NumberDoc(digits: string): Doc {
    var negative := digits != "" && digits[0] == '-';
    var t := if negative then digits[1..] else digits;
    if t == "" || !AllDigits(t) then Real(digits)
    else
      var n: int := if negative then 0 - DigitsValue(t) else DigitsValue(t);
      if -0x8000_0000_0000_0000 <= n < 0x1_0000_0000_0000_0000 then Integer(n) else Real(digits)
  }

  /** The parsed document, or nothing when some string holds a lone surrogate. */
  function Parsed(v: Json.Value): Option<Doc>
    decreases v, 1
  {
    match v
    case Literal(name) => Some(if name == "null" then Null else Bool(name == "true"))
    case Number(digits) => Some(NumberDoc(digits))
    case Quoted(raw) =>
      (match Json.Decode(raw) case None => None case Some(s) => Some(Str(s)))
    case Array(_, es) =>
      (match ParsedElements(es) case None => None case Some(items) => Some(Arr(items)))
    case Object(_, ms) =>
      (match ParsedMembers(ms) case None => None case Some(fields) => Some(Obj(fields)))
  }

  function ParsedElements(es: seq<Json.Element>): Option<seq<Doc>>
    decreases es, 0
  {
    if es == [] then Some([])
    else
      match (Parsed(es[0].value), ParsedElements(es[1..]))
      case (Some(d), Some(rest)) => Some([d] + rest)
      case _ => None
  }

  function ParsedMembers(ms: seq<Json.Member>): (r: Option<seq<Field>>)
    ensures r.Some? ==> |r.value| == |ms|
    decreases ms, 0
  {
    if ms == [] then Some([])
    else
      match (Json.Decode(ms[0].key), Parsed(ms[0].value), ParsedMembers(ms[1..]))
      case (Some(k), Some(d), Some(rest)) => Some([Field(k, d)] + rest)
      case _ => None
  }

  lemma {:induction false} ParsedMembersAt(ms: seq<Json.Member>, i: nat)
    requires ParsedMembers(ms).Some? && i < |ms|
    ensures
      var field := ParsedMembers(ms).value[i];
      Json.Decode(ms[i].key) == Some(field.key) && Parsed(ms[i].value) == Some(field.value)
  {
    hide Json.Decode;
    if i > 0 {
      ParsedMembersAt(ms[1..], i - 1);
      assert ParsedMembers(ms).value[i] == ParsedMembers(ms[1..]).value[i - 1];
    }
  }

  // The parser's signals

  datatype Signal =
    | Scalar(depth: nat)
    | ArrayStart(depth: nat)
    | ArrayEnd(depth: nat)
    | ObjectStart(depth: nat)
    | Key(depth: nat, name: string)
    | ObjectEnd(depth: nat)

  /** The depth reported is the number of containers open around the value; a key counts its own object. */
  function Signals(d: Doc, depth: nat): seq<Signal>
    decreases d, 1
  {
    match d
    case Arr(items) => [ArrayStart(depth)] + ItemSignals(items, depth + 1) + [ArrayEnd(depth)]
    case Obj(fields) => [ObjectStart(depth)] + FieldSignals(fields, depth + 1) + [ObjectEnd(depth)]
    case _ => [Scalar(depth)]
  }

  function ItemSignals(items: seq<Doc>, depth: nat): seq<Signal>
    decreases items, 0
  {
    if items == [] then [] else Signals(items[0], depth) + ItemSignals(items[1..], depth)
  }

  function FieldSignals(fields: seq<Field>, depth: nat): seq<Signal>
    decreases fields, 0
  {
    if fields == [] then []
    else [Key(depth, fields[0].key)] + Signals(fields[0].value, depth) + FieldSignals(fields[1..], depth)
  }

  // What the key check is about

  predicate Within(d: Doc, depth: nat, limit: nat)
    decreases d, 1
  {
    depth <= limit &&
    match d
    case Arr(items) => ItemsWithin(items, depth + 1, limit)
    case Obj(fields) => FieldsWithin(fields, depth + 1, limit)
    case _ => true
  }

  predicate ItemsWithin(items: seq<Doc>, depth: nat, limit: nat)
    decreases items, 0
  {
    items == [] || (Within(items[0], depth, limit) && ItemsWithin(items[1..], depth, limit))
  }

  predicate FieldsWithin(fields: seq<Field>, depth: nat, limit: nat)
    decreases fields, 0
  {
    fields == [] || (Within(fields[0].value, depth, limit) && FieldsWithin(fields[1..], depth, limit))
  }

  predicate DistinctKeys(fields: seq<Field>) {
    forall i, j :: 0 <= i < j < |fields| ==> fields[i].key != fields[j].key
  }

  /** No object anywhere in the tree repeats a key. */
  predicate NoRepeats(d: Doc) {
    match d
    case Arr(items) => forall x :: x in items ==> NoRepeats(x)
    case Obj(fields) => DistinctKeys(fields) && forall f :: f in fields ==> NoRepeats(f.value)
    case _ => true
  }
}
