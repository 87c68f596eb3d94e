/**
 JSON objects written without blanks and with keys that need no escapes, as programs write them.
 */
module CompactJson {
  import opened Options
  import opened Document
  import opened Events
  import Formatting
  import Json

  function Plain(key: string, value: Json.Value): Json.Member {
    Json.Member("", key, "", "", value, "")
  }

  function Members(keys: seq<string>, values: seq<Json.Value>): (ms: seq<Json.Member>)
    requires |keys| == |values|
    ensures |ms| == |keys| && forall i :: 0 <= i < |ms| ==> ms[i] == Plain(keys[i], values[i])
  {
    seq(|keys|, i requires 0 <= i < |keys| => Plain(keys[i], values[i]))
  }

  /** Characters no JSON string needs to escape. */
  predicate Printable(s: string) {
    forall i :: 0 <= i < |s| ==> s[i] >= ' ' && s[i] != '"' && s[i] != '\\'
  }

  lemma {:induction false} PrintableSpelling(s: string)
    requires Printable(s)
    ensures Json.ValidChars(s) && Json.Decode(s) == Some(s)
  {
    if s != "" {
      PrintableSpelling(s[1..]);
      assert s == [s[0]] + s[1..];
    }
  }

  lemma {:induction false} MembersValid(keys: seq<string>, values: seq<Json.Value>, i: nat)
    requires |keys| == |values| && i <= |keys|
    requires forall j :: 0 <= j < |keys| ==> Printable(keys[j]) && Json.Valid(values[j])
    ensures Json.ValidMembers(Members(keys, values)[i..])
    decreases |keys| - i
  {
    hide Printable, Json.Valid;
    if i < |keys| {
      var ms := Members(keys, values)[i..];
      MembersValid(keys, values, i + 1);
      assert ms[1..] == Members(keys, values)[i + 1..];
      PrintableSpelling(keys[i]);
      assert Json.ValidMember(ms[0]);
    }
  }

  lemma QuotedIsValid(raw: string)
    requires Json.ValidChars(raw)
    ensures Json.Valid(Json.Quoted(raw))
  {
  }

  lemma NumberIsValid(digits: string)
    requires Json.ValidNumber(digits)
    ensures Json.Valid(Json.Number(digits))
  {
  }

  lemma ObjectIsValid(ms: seq<Json.Member>)
    requires Json.ValidMembers(ms)
    ensures Json.Valid(Json.Object("", ms))
  {
  }

  // What a parser reads

  function Fields(keys: seq<string>, docs: seq<Doc>): (fields: seq<Field>)
    requires |keys| == |docs|
    ensures |fields| == |keys| && forall i :: 0 <= i < |keys| ==> fields[i] == Field(keys[i], docs[i])
  {
    seq(|keys|, i requires 0 <= i < |keys| => Field(keys[i], docs[i]))
  }

  lemma {:induction false} MembersParse(keys: seq<string>, values: seq<Json.Value>, docs: seq<Doc>, i: nat)
    requires |keys| == |values| == |docs| && i <= |keys|
    requires forall j :: 0 <= j < |keys| ==> Printable(keys[j]) && Parsed(values[j]) == Some(docs[j])
    ensures ParsedMembers(Members(keys, values)[i..]) == Some(Fields(keys, docs)[i..])
    decreases |keys| - i
  {
    hide Json.Decode, Parsed, Printable;
    var ms, fields := Members(keys, values)[i..], Fields(keys, docs)[i..];
    if i < |keys| {
      MembersParse(keys, values, docs, i + 1);
      assert ms[1..] == Members(keys, values)[i + 1..];
      PrintableSpelling(keys[i]);
      assert ms[0] == Plain(keys[i], values[i]);
      assert fields == [Field(keys[i], docs[i])] + Fields(keys, docs)[i + 1..];
    } else {
      assert ms == [] && fields == [];
    }
  }

  lemma ObjectParses(keys: seq<string>, values: seq<Json.Value>, docs: seq<Doc>)
    requires |keys| == |values| == |docs|
    requires forall j :: 0 <= j < |keys| ==> Printable(keys[j]) && Parsed(values[j]) == Some(docs[j])
    ensures Parsed(Json.Object("", Members(keys, values))) == Some(Obj(Fields(keys, docs)))
  {
    hide Json.Decode, Printable, ParsedMembers;
    MembersParse(keys, values, docs, 0);
    var ms := Members(keys, values);
    assert ms[0..] == ms && Fields(keys, docs)[0..] == Fields(keys, docs);
  }

  lemma WordParses(word: string)
    requires Printable(word)
    ensures Parsed(Json.Quoted(word)) == Some(Str(word))
  {
    hide Json.Decode;
    PrintableSpelling(word);
  }

  lemma NumberParses(n: nat)
    requires n <= MAX_COUNTER
    ensures Parsed(Json.Number(Formatting.Decimal(n))) == Some(Integer(n))
  {
    hide Formatting.Digits, NumberDoc;
    Formatting.DecimalIsNumber(n);
  }
}
