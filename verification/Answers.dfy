/**
 The batch response as the backend writes it (backend/app/telemetry/router.py): compact JSON that the gateway
 reads back as the response, and that a full batch keeps below the gateway's limit on answers.
 */
module Answers {
  import opened CompactJson
  import opened Document
  import opened Events
  import opened Options
  import opened Outcomes
  import EventParser
  import Formatting
  import Json
  import Splicer
  import Utf8
  import Verdicts

  // The text

  function StringValue(s: string): Json.Value {
    Json.Quoted(Splicer.Dump(s))
  }

  function TextValue(s: Option<string>): Json.Value {
    if s.Some? then StringValue(s.value) else Json.Literal("null")
  }

  function CountValue(n: Option<nat>): Json.Value {
    if n.Some? then Json.Number(Formatting.Decimal(n.value)) else Json.Literal("null")
  }

  function OutcomeWord(o: Outcome): string {
    match o
    case Accepted => "accepted"
    case Duplicate => "duplicate"
    case Rejected(_) => "rejected"
  }

  const ITEM_KEYS := ["device_id", "boot_id", "sequence_number", "outcome", "reason"]

  function ItemKeys(item: ResultItem): (keys: seq<string>)
    ensures |keys| == if item.outcome.Rejected? then 5 else 4
  {
    if item.outcome.Rejected? then ITEM_KEYS else ITEM_KEYS[..4]
  }

  function ItemValues(item: ResultItem): (values: seq<Json.Value>)
    ensures |values| == |ItemKeys(item)|
  {
    var identity := [TextValue(item.device), TextValue(item.boot), CountValue(item.sequence)];
    var outcome := [Json.Quoted(OutcomeWord(item.outcome))];
    if item.outcome.Rejected? then identity + outcome + [Json.Quoted(ReasonText(item.outcome.reason))]
    else identity + outcome
  }

  function ItemTree(item: ResultItem): Json.Value {
    Json.Object("", Members(ItemKeys(item), ItemValues(item)))
  }

  function Elements(items: seq<ResultItem>): (es: seq<Json.Element>)
    ensures |es| == |items| && forall i :: 0 <= i < |items| ==> es[i] == Json.Element("", ItemTree(items[i]), "")
  {
    seq(|items|, i requires 0 <= i < |items| => Json.Element("", ItemTree(items[i]), ""))
  }

  const ANSWER_KEYS := ["batch_id", "results"]

  function AnswerTree(batchId: string, items: seq<ResultItem>): Json.Value {
    Json.Object("", Members(ANSWER_KEYS, [StringValue(batchId), Json.Array("", Elements(items))]))
  }

  function AnswerText(batchId: string, items: seq<ResultItem>): string {
    Json.Text(AnswerTree(batchId, items))
  }

  // Well formed

  lemma NamesArePrintable()
    ensures forall i :: 0 <= i < 5 ==> Printable(ITEM_KEYS[i])
    ensures Printable("batch_id") && Printable("results")
  {
  }

  lemma OutcomesArePrintable(o: Outcome)
    ensures Printable(OutcomeWord(o)) && |OutcomeWord(o)| <= 9
  {
  }

  lemma ReasonsArePrintable(r: Reason)
    ensures Printable(ReasonText(r)) && |ReasonText(r)| <= 18
  {
    match r
    case UnknownDevice => assert Printable("unknown_device");
    case WrongGateway => assert Printable("wrong_gateway");
    case InvalidMetric => assert Printable("invalid_metric");
    case InvalidUnit => assert Printable("invalid_unit");
    case ValueOutOfRange => assert Printable("value_out_of_range");
    case MalformedValue => assert Printable("malformed_value");
    case IdentityConflict => assert Printable("identity_conflict");
  }

  lemma StringReads(s: string)
    ensures Json.Valid(StringValue(s)) && Parsed(StringValue(s)) == Some(Str(s))
  {
    hide Splicer.Dump, Json.Decode, Json.ValidChars;
    Splicer.DumpRoundTrips(s);
  }

  lemma WordReads(s: string)
    requires Printable(s)
    ensures Json.Valid(Json.Quoted(s)) && Parsed(Json.Quoted(s)) == Some(Str(s))
  {
    hide Json.Decode, Json.ValidChars;
    PrintableSpelling(s);
  }

  lemma IdentityReads(item: ResultItem)
    requires item.sequence.Some? ==> item.sequence.value <= MAX_COUNTER
    ensures Json.Valid(TextValue(item.device)) && Parsed(TextValue(item.device)) == Some(TextOrNull(item.device))
    ensures Json.Valid(TextValue(item.boot)) && Parsed(TextValue(item.boot)) == Some(TextOrNull(item.boot))
    ensures Json.Valid(CountValue(item.sequence))
    ensures Parsed(CountValue(item.sequence)) == Some(CountOrNull(item.sequence))
  {
    hide StringValue, Formatting.Digits, Json.ValidNumber;
    if item.device.Some? {
      StringReads(item.device.value);
    }
    if item.boot.Some? {
      StringReads(item.boot.value);
    }
    if item.sequence.Some? {
      Formatting.DecimalIsNumber(item.sequence.value);
      NumberParses(item.sequence.value);
    }
  }

  function ItemFields(item: ResultItem): (docs: seq<Doc>)
    ensures |docs| == |ItemKeys(item)|
  {
    var identity := [TextOrNull(item.device), TextOrNull(item.boot), CountOrNull(item.sequence)];
    var outcome := [Str(OutcomeWord(item.outcome))];
    if item.outcome.Rejected? then identity + outcome + [Str(ReasonText(item.outcome.reason))]
    else identity + outcome
  }

  lemma FieldsAreTheItem(item: ResultItem)
    ensures Obj(Fields(ItemKeys(item), ItemFields(item))) == ItemDoc(item)
  {
    hide ReasonText;
    var fields := Fields(ItemKeys(item), ItemFields(item));
    assert fields == ItemDoc(item).fields;
  }

  lemma ItemReads(item: ResultItem)
    requires item.sequence.Some? ==> item.sequence.value <= MAX_COUNTER
    ensures Json.Valid(ItemTree(item)) && Parsed(ItemTree(item)) == Some(ItemDoc(item))
  {
    hide Json.Valid, Parsed, Printable, TextValue, CountValue, TextOrNull, CountOrNull, ReasonText, OutcomeWord;
    var keys, values, docs := ItemKeys(item), ItemValues(item), ItemFields(item);
    NamesArePrintable();
    OutcomesArePrintable(item.outcome);
    IdentityReads(item);
    WordReads(OutcomeWord(item.outcome));
    if item.outcome.Rejected? {
      ReasonsArePrintable(item.outcome.reason);
      WordReads(ReasonText(item.outcome.reason));
    }
    MembersValid(keys, values, 0);
    var ms := Members(keys, values);
    assert ms[0..] == ms;
    ObjectIsValid(ms);
    ObjectParses(keys, values, docs);
    FieldsAreTheItem(item);
  }

  lemma {:induction false} ElementsRead(items: seq<ResultItem>)
    requires forall item :: item in items && item.sequence.Some? ==> item.sequence.value <= MAX_COUNTER
    ensures Json.ValidElements(Elements(items)) && ParsedElements(Elements(items)) == Some(ItemDocs(items))
  {
    hide Json.Valid, Parsed, ItemTree, ItemDoc;
    if items == [] {
      assert Elements(items) == [] && ItemDocs(items) == [];
    } else {
      assert items[0] in items;
      ItemReads(items[0]);
      ElementsRead(items[1..]);
      assert Elements(items)[1..] == Elements(items[1..]);
      assert ItemDocs(items) == [ItemDoc(items[0])] + ItemDocs(items[1..]);
    }
  }

  /** What the backend writes is one JSON object, and the gateway's parser reads the response back from it. */
  lemma AnswerReads(batchId: string, items: seq<ResultItem>)
    requires forall item :: item in items && item.sequence.Some? ==> item.sequence.value <= MAX_COUNTER
    ensures Json.Valid(AnswerTree(batchId, items))
    ensures Parsed(AnswerTree(batchId, items)) == Some(ResponseDoc(batchId, items))
  {
    hide Json.Valid, Parsed, Printable, StringValue, Json.ValidElements, ParsedElements;
    var es := Elements(items);
    var values, docs := [StringValue(batchId), Json.Array("", es)], [Str(batchId), Arr(ItemDocs(items))];
    NamesArePrintable();
    StringReads(batchId);
    ElementsRead(items);
    ArrayReads(es, ItemDocs(items));
    MembersValid(ANSWER_KEYS, values, 0);
    var ms := Members(ANSWER_KEYS, values);
    assert ms[0..] == ms;
    ObjectIsValid(ms);
    ObjectParses(ANSWER_KEYS, values, docs);
    assert Fields(ANSWER_KEYS, docs) == ResponseDoc(batchId, items).fields;
  }

  lemma ArrayReads(es: seq<Json.Element>, docs: seq<Doc>)
    requires Json.ValidElements(es) && ParsedElements(es) == Some(docs)
    ensures Json.Valid(Json.Array("", es)) && Parsed(Json.Array("", es)) == Some(Arr(docs))
  {
  }

  // Small enough

  lemma QuotedBytes(raw: string)
    ensures Json.Bytes(Json.Text(Json.Quoted(raw))) == 2 + Json.Bytes(raw)
  {
    hide Json.Bytes;
    Json.BytesConcat("\"", raw);
    Json.BytesConcat("\"" + raw, "\"");
    EventParser.AsciiBytes("\"");
  }

  /** A string of at most 128 bytes is written in at most 770. */
  lemma StringBytes(s: string)
    requires Json.Bytes(s) <= 128
    ensures Json.Bytes(Json.Text(StringValue(s))) <= 770
  {
    hide Json.Bytes, Splicer.Dump;
    QuotedBytes(Splicer.Dump(s));
    EventParser.DumpBytes(s);
  }

  lemma PairBytes(key: string, value: Json.Value)
    ensures Json.Bytes(Json.Span(Plain(key, value))) == Json.Bytes(key) + 3 + Json.Bytes(Json.Text(value))
  {
    hide Json.Bytes, Json.Text;
    var v := Json.Text(value);
    assert Json.Span(Plain(key, value)) == "\"" + key + "\":" + v;
    Json.BytesConcat("\"" + key + "\":", v);
    Json.BytesConcat("\"" + key, "\":");
    Json.BytesConcat("\"", key);
    EventParser.AsciiBytes("\"");
    EventParser.AsciiBytes("\":");
  }

  /** The bytes of the members from the i-th on, each with one for its separator. */
  function Sum(keys: seq<string>, values: seq<Json.Value>, i: nat): nat
    requires |keys| == |values| && i <= |keys|
    decreases |keys| - i
  {
    if i == |keys| then 0
    else Json.Bytes(keys[i]) + 4 + Json.Bytes(Json.Text(values[i])) + Sum(keys, values, i + 1)
  }

  lemma {:induction false} MembersBytes(keys: seq<string>, values: seq<Json.Value>, i: nat)
    requires |keys| == |values| && i < |keys|
    ensures Json.Bytes(Json.MembersText(Members(keys, values)[i..])) < Sum(keys, values, i)
    decreases |keys| - i
  {
    hide Json.Bytes, Json.Text, Json.Span;
    var ms := Members(keys, values)[i..];
    PairBytes(keys[i], values[i]);
    assert ms[0] == Plain(keys[i], values[i]);
    var first := ms[0].before + Json.Span(ms[0]);
    assert first == Json.Span(ms[0]);
    if |ms| > 1 {
      MembersBytes(keys, values, i + 1);
      assert ms[1..] == Members(keys, values)[i + 1..];
      Json.BytesConcat(first + ",", Json.MembersText(ms[1..]));
      Json.BytesConcat(first, ",");
      EventParser.AsciiBytes(",");
    }
  }

  lemma ObjectBytes(keys: seq<string>, values: seq<Json.Value>)
    requires |keys| == |values| > 0
    ensures Json.Bytes(Json.Text(Json.Object("", Members(keys, values)))) <= 1 + Sum(keys, values, 0)
  {
    hide Json.Bytes, Json.MembersText;
    var ms := Members(keys, values);
    MembersBytes(keys, values, 0);
    assert ms[0..] == ms;
    Json.BytesConcat("{" + Json.MembersText(ms), "}");
    Json.BytesConcat("{", Json.MembersText(ms));
    EventParser.AsciiBytes("{");
    EventParser.AsciiBytes("}");
  }

  /** What the gateway's own events allow: parts of at most 128 bytes and a 64-bit counter. */
  predicate Bounded(item: ResultItem) {
    && (item.device.Some? ==> Json.Bytes(item.device.value) <= 128)
    && (item.boot.Some? ==> Json.Bytes(item.boot.value) <= 128)
    && (item.sequence.Some? ==> item.sequence.value <= MAX_COUNTER)
  }

  lemma NullBytes()
    ensures Json.Bytes(Json.Text(Json.Literal("null"))) == 4
  {
    EventParser.AsciiBytes("null");
  }

  lemma DecimalBytes(n: nat)
    requires n <= MAX_COUNTER
    ensures Json.Bytes(Json.Text(Json.Number(Formatting.Decimal(n)))) <= 19
  {
    hide Json.Bytes, Formatting.Digits;
    Formatting.NineteenDigits(n);
    Formatting.DecimalDigits(n);
    var s := Formatting.Decimal(n);
    forall i | 0 <= i < |s| ensures s[i] < '\U{80}' {
      assert s[i] in s;
    }
    EventParser.AsciiBytes(s);
  }

  lemma WordBytes(s: string, most: nat)
    requires Utf8.Ascii(s) && |s| <= most
    ensures Json.Bytes(Json.Text(Json.Quoted(s))) <= 2 + most
  {
    hide Json.Bytes;
    EventParser.AsciiBytes(s);
    QuotedBytes(s);
  }

  lemma OutcomeBytes(o: Outcome)
    ensures Json.Bytes(Json.Text(Json.Quoted(OutcomeWord(o)))) <= 11
  {
    hide Json.Bytes, Json.Text;
    OutcomesArePrintable(o);
    assert Utf8.Ascii(OutcomeWord(o));
    WordBytes(OutcomeWord(o), 9);
  }

  lemma ReasonsArePlain(r: Reason)
    ensures Utf8.Ascii(ReasonText(r))
  {
    match r
    case UnknownDevice => assert Utf8.Ascii("unknown_device");
    case WrongGateway => assert Utf8.Ascii("wrong_gateway");
    case InvalidMetric => assert Utf8.Ascii("invalid_metric");
    case InvalidUnit => assert Utf8.Ascii("invalid_unit");
    case ValueOutOfRange => assert Utf8.Ascii("value_out_of_range");
    case MalformedValue => assert Utf8.Ascii("malformed_value");
    case IdentityConflict => assert Utf8.Ascii("identity_conflict");
  }

  lemma ReasonBytes(r: Reason)
    ensures Json.Bytes(Json.Text(Json.Quoted(ReasonText(r)))) <= 20
  {
    hide Json.Bytes, Json.Text, ReasonText;
    ReasonsArePrintable(r);
    ReasonsArePlain(r);
    WordBytes(ReasonText(r), 18);
  }

  lemma ItemKeyBytes()
    ensures Json.Bytes("device_id") == 9 && Json.Bytes("boot_id") == 7 && Json.Bytes("sequence_number") == 15
    ensures Json.Bytes("outcome") == 7 && Json.Bytes("reason") == 6
  {
    hide Json.Bytes;
    EventParser.AsciiBytes("device_id");
    EventParser.AsciiBytes("boot_id");
    EventParser.AsciiBytes("sequence_number");
    EventParser.AsciiBytes("outcome");
    EventParser.AsciiBytes("reason");
  }

  lemma IdentityBytes(item: ResultItem)
    requires Bounded(item)
    ensures Json.Bytes(Json.Text(TextValue(item.device))) <= 770 && Json.Bytes(Json.Text(TextValue(item.boot))) <= 770
    ensures Json.Bytes(Json.Text(CountValue(item.sequence))) <= 19
  {
    hide Json.Bytes, Json.Text, StringValue, Formatting.Digits;
    NullBytes();
    if item.device.Some? {
      StringBytes(item.device.value);
    }
    if item.boot.Some? {
      StringBytes(item.boot.value);
    }
    if item.sequence.Some? {
      DecimalBytes(item.sequence.value);
    }
  }

  lemma SumOfItem(keys: seq<string>, values: seq<Json.Value>)
    requires |keys| == |values| && 4 <= |keys| <= 5
    ensures
      Sum(keys, values, 0)
      == Json.Bytes(keys[0]) + Json.Bytes(Json.Text(values[0]))
         + Json.Bytes(keys[1]) + Json.Bytes(Json.Text(values[1]))
         + Json.Bytes(keys[2]) + Json.Bytes(Json.Text(values[2]))
         + Json.Bytes(keys[3]) + Json.Bytes(Json.Text(values[3]))
         + 16 + (if |keys| == 5 then Json.Bytes(keys[4]) + Json.Bytes(Json.Text(values[4])) + 4 else 0)
  {
    hide Json.Bytes, Json.Text;
    assert Sum(keys, values, 3) == Json.Bytes(keys[3]) + 4 + Json.Bytes(Json.Text(values[3])) + Sum(keys, values, 4);
    assert Sum(keys, values, 2) == Json.Bytes(keys[2]) + 4 + Json.Bytes(Json.Text(values[2])) + Sum(keys, values, 3);
    assert |keys| == 5 ==> Sum(keys, values, 5) == 0;
  }

  lemma ItemBytes(item: ResultItem)
    requires Bounded(item)
    ensures Json.Bytes(Json.Text(ItemTree(item))) <= 1656
  {
    hide Json.Bytes, Json.Text, Sum, TextValue, CountValue, OutcomeWord, ReasonText;
    var keys, values := ItemKeys(item), ItemValues(item);
    ObjectBytes(keys, values);
    SumOfItem(keys, values);
    ItemKeyBytes();
    IdentityBytes(item);
    OutcomeBytes(item.outcome);
    if item.outcome.Rejected? {
      ReasonBytes(item.outcome.reason);
    }
  }

  lemma {:induction false} ElementsBytes(items: seq<ResultItem>)
    requires items != [] && forall item :: item in items ==> Bounded(item)
    ensures Json.Bytes(Json.ElementsText(Elements(items))) < 1657 * |items|
  {
    hide Json.Bytes, Json.Text, ItemTree, Bounded;
    var es := Elements(items);
    assert items[0] in items;
    ItemBytes(items[0]);
    var first := es[0].before + Json.Text(es[0].value) + es[0].after;
    assert first == Json.Text(ItemTree(items[0]));
    if |items| > 1 {
      ElementsBytes(items[1..]);
      assert es[1..] == Elements(items[1..]);
      Json.BytesConcat(first + ",", Json.ElementsText(es[1..]));
      Json.BytesConcat(first, ",");
      EventParser.AsciiBytes(",");
    }
  }

  lemma ArrayBytes(items: seq<ResultItem>)
    requires forall item :: item in items ==> Bounded(item)
    ensures Json.Bytes(Json.Text(Json.Array("", Elements(items)))) <= 2 + 1657 * |items|
  {
    hide Json.Bytes, Json.ElementsText, Bounded;
    var es := Elements(items);
    var body := if es == [] then "" else Json.ElementsText(es);
    Json.BytesConcat("[" + body, "]");
    Json.BytesConcat("[", body);
    EventParser.AsciiBytes("[");
    EventParser.AsciiBytes("]");
    EventParser.AsciiBytes("");
    if items != [] {
      ElementsBytes(items);
    }
  }

  /** The answer to a full batch of bounded items stays below the megabyte the gateway's client accepts. */
  lemma AnswerFits(batchId: string, items: seq<ResultItem>)
    requires Json.Bytes(batchId) <= 128 && |items| <= 500
    requires forall item :: item in items ==> Bounded(item)
    ensures Json.Bytes(AnswerText(batchId, items)) <= Verdicts.MAX_RESPONSE_BYTES
  {
    hide Json.Bytes, Json.Text, StringValue, Bounded;
    var values := [StringValue(batchId), Json.Array("", Elements(items))];
    ObjectBytes(ANSWER_KEYS, values);
    StringBytes(batchId);
    ArrayBytes(items);
    AnswerKeyBytes();
    assert Sum(ANSWER_KEYS, values, 1)
      == Json.Bytes("results") + 4 + Json.Bytes(Json.Text(values[1])) + Sum(ANSWER_KEYS, values, 2);
  }

  lemma AnswerKeyBytes()
    ensures Json.Bytes("batch_id") == 8 && Json.Bytes("results") == 7
  {
    hide Json.Bytes;
    EventParser.AsciiBytes("batch_id");
    EventParser.AsciiBytes("results");
  }
}
