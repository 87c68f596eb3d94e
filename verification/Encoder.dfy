/**
 The firmware's event encoder (firmware/components/telemetry/telemetry_encoding.c): it builds one JSON
 event in a caller's bounded buffer and reports whether all of it fits.
 */
module Encoder {
  import Formatting
  import Json
  import Utf8

  /** A temperature as `%.4f` shows it; a negative reading may print as -0.0000. */
  datatype Temperature = NotFinite | Celsius(negative: bool, tenThousandths: nat)

  /** An empty `measuredAt` means no trustworthy clock at the reading. */
  datatype TelemetryEvent = TelemetryEvent(
    device: string, boot: string, sequence: int, uptime: int, temperature: Temperature, measuredAt: string)

  /** The event's strings are C strings. */
  predicate CStrings(e: TelemetryEvent) {
    Utf8.CText(e.device) && Utf8.CText(e.boot) && Utf8.CText(e.measuredAt)
  }

  predicate InRange(t: Temperature) {
    t.Celsius? && t.tenThousandths <= if t.negative then 550000 else 1250000
  }

  predicate Acceptable(e: TelemetryEvent) {
    && 0 < |e.device| <= 128 && 0 < |e.boot| <= 128
    && e.sequence >= 0 && e.uptime >= 0 && InRange(e.temperature)
  }

  // The text

  function EscapeChar(c: char): string {
    if c == '"' || c == '\\' then ['\\', c]
    else if c < ' ' then "\\u00" + [Json.HexDigitOf(c as int / 16), Json.HexDigitOf(c as int % 16)]
    else [c]
  }

  function Escape(s: string): string {
    if s == "" then "" else EscapeChar(s[0]) + Escape(s[1..])
  }

  function Quote(s: string): string {
    "\"" + Escape(s) + "\""
  }

  /** `%.4f` */
  function FixedPoint(t: Temperature): string
    requires t.Celsius?
  {
    (if t.negative then "-" else "") + Formatting.Decimal(t.tenThousandths / 10000) + "."
    + Formatting.Padded(t.tenThousandths % 10000, 4, 10)
  }

  function Opening(): string { "{\"schema_version\":1,\"device_id\":" }

  function BootKey(): string { ",\"boot_id\":" }

  function IdentityPart(e: TelemetryEvent): string {
    Opening() + Quote(e.device) + BootKey() + Quote(e.boot)
  }

  function SequencePart(sequence: nat): string {
    ",\"sequence_number\":" + Formatting.Decimal(sequence) + ",\"measured_at\":"
  }

  function Measured(at: string): string {
    if at == "" then "null" else Quote(at)
  }

  function ClockWord(at: string): string {
    if at == "" then "unsynchronised" else "synchronised"
  }

  function Quality(at: string): string {
    "{\"reading\":\"valid\",\"clock\":\"" + ClockWord(at) + "\"}"
  }

  function Closing(e: TelemetryEvent): string
    requires Acceptable(e)
  {
    ",\"device_uptime_ms\":" + Formatting.Decimal(e.uptime) + ",\"metric\":\"temperature\",\"value\":"
    + FixedPoint(e.temperature) + ",\"unit\":\"celsius\",\"quality\":" + Quality(e.measuredAt) + "}"
  }

  function Encoding(e: TelemetryEvent): string
    requires Acceptable(e)
  {
    IdentityPart(e) + SequencePart(e.sequence) + Measured(e.measuredAt) + Closing(e)
  }

  // The program's form

  /** The caller's buffer with the cursor and the count of bytes left, of which one is for the NUL. */
  class Writer {
    const out: array<char>
    const capacity: nat
    var cursor: nat
    var remaining: nat

    ghost predicate Valid()
      reads this
    {
      cursor + remaining == capacity <= out.Length && remaining > 0
    }

    ghost function Written(): string
      requires Valid()
      reads this, out
    {
      out[..cursor]
    }

    constructor (out: array<char>, capacity: nat)
      requires 0 < capacity <= out.Length
      ensures Valid() && this.out == out && this.capacity == capacity && Written() == ""
    {
      this.out, this.capacity := out, capacity;
      cursor, remaining := 0, capacity;
    }

    /** `memcpy` of the text and its NUL. */
    method Copy(value: string)
      requires Valid() && |value| < remaining
      modifies out
      ensures out[..cursor] == old(out[..cursor])
      ensures out[cursor..cursor + |value|] == value && out[cursor + |value|] == '\0'
      ensures out[capacity..] == old(out[capacity..])
    {
      forall i | 0 <= i <= |value| {
        out[cursor + i] := if i < |value| then value[i] else '\0';
      }
    }

    method Append(value: string) returns (ok: bool)
      requires Valid()
      modifies this, out
      ensures Valid()
      ensures ok == (|value| < old(remaining))
      ensures Written() == if ok then old(Written()) + value else old(Written())
      ensures ok ==> out[cursor] == '\0'
      ensures out[capacity..] == old(out[capacity..])
    {
      if |value| >= remaining {
        return false;
      }
      Copy(value);
      cursor, remaining := cursor + |value|, remaining - |value|;
      assert out[..cursor] == out[..old(cursor)] + out[old(cursor)..cursor];
      return true;
    }

    /** The loop over the characters. */
    method AppendEscaped(value: string) returns (ok: bool)
      requires Valid()
      modifies this, out
      ensures Valid()
      ensures ok == (|Escape(value)| < old(remaining))
      ensures ok ==> Written() == old(Written()) + Escape(value)
      ensures out[capacity..] == old(out[capacity..])
    {
      hide Escape, EscapeChar;
      ok := true;
      var i := 0;
      EscapeNothing();
      while i < |value|
        invariant 0 <= i <= |value| && Valid() && ok
        invariant Written() == old(Written()) + Escape(value[..i])
        invariant out[capacity..] == old(out[capacity..])
      {
        EscapeSnoc(value, i);
        ok := Append(EscapeChar(value[i]));
        i := i + 1;
        if !ok {
          EscapeGrows(value, i);
          return;
        }
      }
      assert value[..|value|] == value;
    }

    method AppendJsonString(value: string) returns (ok: bool)
      requires Valid()
      modifies this, out
      ensures Valid()
      ensures ok == (|Quote(value)| < old(remaining))
      ensures ok ==> Written() == old(Written()) + Quote(value) && out[cursor] == '\0'
      ensures out[capacity..] == old(out[capacity..])
    {
      hide Escape;
      ok := Append("\"");
      if !ok {
        return;
      }
      ok := AppendEscaped(value);
      if !ok {
        return;
      }
      ok := Append("\"");
      assert ok ==> Written() == old(Written()) + ("\"" + Escape(value) + "\"");
    }

    /** `snprintf` at the cursor: cut short to the space left, and the full length reported. */
    method Print(value: string) returns (length: nat)
      requires Valid()
      modifies out
      ensures length == |value|
      ensures out[..cursor] == old(out[..cursor])
      ensures length < remaining ==> out[cursor..cursor + length] == value && out[cursor + length] == '\0'
      ensures out[capacity..] == old(out[capacity..])
    {
      var shown := if |value| < remaining then value else value[..remaining - 1];
      Copy(shown);
      length := |value|;
    }

    /** Prints and moves on, or reports that the text was cut. */
    method AppendPrinted(value: string) returns (ok: bool)
      requires Valid()
      modifies this, out
      ensures Valid()
      ensures ok == (|value| < old(remaining))
      ensures ok ==> Written() == old(Written()) + value && out[cursor] == '\0'
      ensures out[capacity..] == old(out[capacity..])
    {
      var length := Print(value);
      if length >= remaining {
        return false;
      }
      cursor, remaining := cursor + length, remaining - length;
      assert out[..cursor] == out[..old(cursor)] + out[old(cursor)..cursor];
      return true;
    }
  }

  lemma {:induction false} EscapeConcat(a: string, b: string)
    ensures Escape(a + b) == Escape(a) + Escape(b)
  {
    hide EscapeChar;
    if a == "" {
      assert a + b == b;
    } else {
      assert (a + b)[1..] == a[1..] + b;
      EscapeConcat(a[1..], b);
    }
  }

  lemma EscapeNothing()
    ensures Escape("") == ""
  {
  }

  lemma EscapeGrows(s: string, i: nat)
    requires i <= |s|
    ensures |Escape(s)| >= |Escape(s[..i])|
  {
    hide Escape;
    assert s[..i] + s[i..] == s;
    EscapeConcat(s[..i], s[i..]);
  }

  lemma EscapeSnoc(s: string, i: nat)
    requires i < |s|
    ensures Escape(s[..i + 1]) == Escape(s[..i]) + EscapeChar(s[i])
  {
    hide EscapeChar;
    assert s[..i + 1] == s[..i] + [s[i]];
    EscapeConcat(s[..i], [s[i]]);
    assert [s[i]][1..] == "";
  }

  method AppendIdentity(w: Writer, e: TelemetryEvent) returns (ok: bool)
    requires w.Valid()
    modifies w, w.out
    ensures w.Valid()
    ensures ok == (|IdentityPart(e)| < old(w.remaining))
    ensures ok ==> w.Written() == old(w.Written()) + IdentityPart(e) && w.out[w.cursor] == '\0'
    ensures w.out[w.capacity..] == old(w.out[w.capacity..])
  {
    hide Opening, BootKey, Quote;
    ok := w.Append(Opening());
    if !ok {
      return;
    }
    ok := w.AppendJsonString(e.device);
    if !ok {
      return;
    }
    ok := w.Append(BootKey());
    if !ok {
      return;
    }
    ok := w.AppendJsonString(e.boot);
    assert ok ==> w.Written() == old(w.Written()) + (Opening() + Quote(e.device) + BootKey() + Quote(e.boot));
  }

  method AppendMeasured(w: Writer, at: string) returns (ok: bool)
    requires w.Valid()
    modifies w, w.out
    ensures w.Valid()
    ensures ok == (|Measured(at)| < old(w.remaining))
    ensures ok ==> w.Written() == old(w.Written()) + Measured(at) && w.out[w.cursor] == '\0'
    ensures w.out[w.capacity..] == old(w.out[w.capacity..])
  {
    hide Quote;
    if at == "" {
      ok := w.Append("null");
    } else {
      ok := w.AppendJsonString(at);
    }
  }

  /**
   The encoder never writes at or past the capacity, succeeds exactly when the event is acceptable
   and its text is shorter than the capacity, and then leaves exactly that text and a NUL.
   */
  method Encode(e: TelemetryEvent, out: array?<char>, capacity: nat) returns (ok: bool)
    requires CStrings(e) && (out != null ==> capacity <= out.Length)
    modifies out
    ensures ok <==> out != null && Acceptable(e) && |Encoding(e)| < capacity
    ensures ok ==> out[..|Encoding(e)|] == Encoding(e) && out[|Encoding(e)|] == '\0'
    ensures out != null ==> out[capacity..] == old(out[capacity..])
  {
    hide IdentityPart, SequencePart, Measured, Closing;
    if out == null || capacity == 0 {
      return false;
    }
    if !Acceptable(e) {
      return false;
    }
    var w := new Writer(out, capacity);
    ok := AppendIdentity(w, e);
    if !ok {
      return;
    }
    ok := w.AppendPrinted(SequencePart(e.sequence));
    if !ok {
      return;
    }
    ok := AppendMeasured(w, e.measuredAt);
    if !ok {
      return;
    }
    ok := w.AppendPrinted(Closing(e));
  }
}
