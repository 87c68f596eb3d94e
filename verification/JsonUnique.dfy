/**
 One JSON text has one tree: the text of a valid tree determines the tree, blanks included.
 */
module JsonUnique {
  import opened Json
  import Splicer

  /** A run of characters of one class, up to the first that is not, is determined by the text. */
  lemma {:induction false} Split(inside: char -> bool, a: string, b: string, x: string, y: string)
    requires forall i :: 0 <= i < |a| ==> inside(a[i])
    requires forall i :: 0 <= i < |b| ==> inside(b[i])
    requires (x == "" || !inside(x[0])) && (y == "" || !inside(y[0]))
    requires a + x == b + y
    ensures a == b && x == y
  {
    assert a == "" ==> a + x == x;
    assert b == "" ==> b + y == y;
    assert a != "" ==> (a + x)[0] == a[0];
    assert b != "" ==> (b + y)[0] == b[0];
    if a != "" && b != "" {
      assert (a + x)[1..] == a[1..] + x && (b + y)[1..] == b[1..] + y;
      Split(inside, a[1..], b[1..], x, y);
      assert a == [a[0]] + a[1..] && b == [b[0]] + b[1..];
    }
  }

  predicate IsBlank(c: char) { c in " \t\n\r" }

  predicate NumberChar(c: char) { Digit(c) || c in "+-.eE" }

  /** What may stand right after a value. */
  predicate Ends(rest: string) {
    rest == "" || IsBlank(rest[0]) || rest[0] in ",]}"
  }

  lemma BlanksSplit(a: string, b: string, x: string, y: string)
    requires Blank(a) && Blank(b) && a + x == b + y
    requires (x == "" || !IsBlank(x[0])) && (y == "" || !IsBlank(y[0]))
    ensures a == b && x == y
  {
    Split(IsBlank, a, b, x, y);
  }

  lemma HeadsDiffer(a: string, b: string, x: string, y: string)
    requires Blank(a) && Blank(b) && x != "" && y != ""
    requires !IsBlank(x[0]) && !IsBlank(y[0]) && x[0] != y[0]
    ensures a + x != b + y
  {
    if a + x == b + y {
      BlanksSplit(a, b, x, y);
    }
  }

  // Numbers and strings

  predicate AllNumberChars(s: string) {
    forall i :: 0 <= i < |s| ==> NumberChar(s[i])
  }

  lemma ExponentChars(s: string)
    requires ValidExponent(s)
    ensures AllNumberChars(s)
  {
    if s != "" {
      var t := if |s| > 1 && s[1] in "+-" then s[2..] else s[1..];
      assert s == s[..|s| - |t|] + t;
    }
  }

  lemma FractionChars(s: string)
    requires ValidFraction(s)
    ensures AllNumberChars(s)
  {
    hide ValidExponent;
    if s != "" && s[0] == '.' {
      var n := DigitRun(s[1..]);
      ExponentChars(s[1 + n..]);
      assert s == "." + s[1..][..n] + s[1 + n..];
    } else {
      ExponentChars(s);
    }
  }

  lemma NumberChars(digits: string)
    requires ValidNumber(digits)
    ensures AllNumberChars(digits) && digits != "" && (Digit(digits[0]) || digits[0] == '-')
  {
    hide ValidFraction;
    var t := if digits != "" && digits[0] == '-' then digits[1..] else digits;
    var n := DigitRun(t);
    FractionChars(t[n..]);
    assert t == t[..n] + t[n..];
    assert digits == t || digits == "-" + t;
  }

  lemma NumbersSplit(a: string, b: string, r: string, s: string)
    requires ValidNumber(a) && ValidNumber(b) && Ends(r) && Ends(s) && a + r == b + s
    ensures a == b && r == s
  {
    hide ValidNumber;
    NumberChars(a);
    NumberChars(b);
    Split(NumberChar, a, b, r, s);
  }

  lemma StringsSplit(a: string, b: string, r: string, s: string)
    requires ValidChars(a) && ValidChars(b) && "\"" + a + "\"" + r == "\"" + b + "\"" + s
    ensures a == b && r == s
  {
    var p, q := "\"" + a + "\"" + r, "\"" + b + "\"" + s;
    assert p[1..] == a + "\"" + r && q[1..] == b + "\"" + s;
    Splicer.StringEndOnChars(a, r);
    Splicer.StringEndOnChars(b, s);
    assert p[1..][..|a|] == a && q[1..][..|b|] == b;
    assert p[1..][|a| + 1..] == r && q[1..][|b| + 1..] == s;
  }

  // Values

  /** The first character tells the kind of value, and is no blank and no closing bracket. */
  lemma FirstCharacter(v: Value)
    requires Valid(v)
    ensures Text(v) != ""
    ensures
      var c := Text(v)[0];
      && (v.Literal? <==> c in "tfn") && (v.Number? <==> Digit(c) || c == '-')
      && (v.Quoted? <==> c == '"') && (v.Array? <==> c == '[') && (v.Object? <==> c == '{')
  {
    hide ValidNumber, ValidChars, ElementsText, MembersText, ValidElements, ValidMembers;
    if v.Number? {
      NumberChars(v.digits);
    }
  }

  lemma LiteralsSplit(a: string, b: string, r: string, s: string)
    requires Valid(Literal(a)) && Valid(Literal(b)) && a + r == b + s
    ensures a == b && r == s
  {
    assert (a + r)[0] == a[0] && (b + s)[0] == b[0];
    assert (a + r)[|a|..] == r && (b + s)[|b|..] == s;
  }

  /** A value at the start of a text, followed by what may follow a value, is determined by the text. */
  lemma {:induction false} ValuesSplit(a: Value, b: Value, r: string, s: string)
    requires Valid(a) && Valid(b) && Ends(r) && Ends(s) && Text(a) + r == Text(b) + s
    ensures a == b && r == s
    decreases a, 1
  {
    hide ValidNumber, ValidChars, ElementsText, MembersText, ValidElements, ValidMembers, Ends;
    FirstCharacter(a);
    FirstCharacter(b);
    assert (Text(a) + r)[0] == Text(a)[0] && (Text(b) + s)[0] == Text(b)[0];
    match a
    case Literal(name) => LiteralsSplit(name, b.name, r, s);
    case Number(digits) => NumbersSplit(digits, b.digits, r, s);
    case Quoted(raw) => StringsSplit(raw, b.raw, r, s);
    case Array(blank, es) => ArraysSplit(a, b, r, s);
    case Object(blank, ms) => ObjectsSplit(a, b, r, s);
  }

  /** What follows the opening bracket of an array. */
  function ArrayRest(v: Value, r: string): string
    requires v.Array?
  {
    (if v.elements == [] then v.blank else ElementsText(v.elements)) + ("]" + r)
  }

  lemma ArrayOpens(v: Value, r: string)
    requires v.Array?
    ensures Text(v) + r == "[" + ArrayRest(v, r)
  {
    hide ElementsText;
  }

  lemma {:induction false} ArraysSplit(a: Value, b: Value, r: string, s: string)
    requires a.Array? && b.Array? && Valid(a) && Valid(b) && Ends(r) && Ends(s) && Text(a) + r == Text(b) + s
    ensures a == b && r == s
    decreases a, 0
  {
    hide Text, ElementsText, Ends;
    ArrayOpens(a, r);
    ArrayOpens(b, s);
    assert ("[" + ArrayRest(a, r))[1..] == ArrayRest(a, r) && ("[" + ArrayRest(b, s))[1..] == ArrayRest(b, s);
    if a.elements != [] && b.elements != [] {
      ElementsSplit(a.elements, b.elements, r, s);
    } else if a.elements == [] && b.elements == [] {
      BlanksSplit(a.blank, b.blank, "]" + r, "]" + s);
      assert ("]" + r)[1..] == r && ("]" + s)[1..] == s;
    } else if a.elements == [] {
      EmptyIsNotFull(a.blank, r, b.elements, s);
    } else {
      EmptyIsNotFull(b.blank, s, a.elements, r);
    }
  }

  /** An element, then the comma and the other elements or the closing bracket. */
  function ElementsTail(es: seq<Element>, r: string): string
    requires es != []
  {
    if |es| == 1 then "]" + r else "," + (ElementsText(es[1..]) + ("]" + r))
  }

  lemma Regroup(before: string, span: string, comma: string, t: string, x: string)
    ensures before + span + comma + t + x == before + (span + (comma + (t + x)))
    ensures before + span + comma + t + x == before + span + (comma + (t + x))
  {
  }

  lemma ElementsOpen(es: seq<Element>, r: string)
    requires es != []
    ensures
      ElementsText(es) + ("]" + r)
      == es[0].before + (Text(es[0].value) + (es[0].after + ElementsTail(es, r)))
  {
    hide Text, ElementsText;
    var e, x := es[0], "]" + r;
    var v := Text(e.value);
    ElementsUnfold(es);
    Nest(e.before, v, e.after, ElementsTail(es, r));
    if |es| > 1 {
      Regroup("", e.before + v + e.after, ",", ElementsText(es[1..]), x);
      assert "" + (e.before + v + e.after) == e.before + v + e.after;
    }
  }

  lemma Nest(before: string, text: string, after: string, tail: string)
    ensures before + text + after + tail == before + (text + (after + tail))
  {
  }

  lemma ElementsUnfold(es: seq<Element>)
    requires es != []
    ensures
      var first := es[0].before + Text(es[0].value) + es[0].after;
      ElementsText(es) == if |es| == 1 then first else first + "," + ElementsText(es[1..])
  {
    hide Text;
  }

  lemma EmptyIsNotFull(blank: string, r: string, es: seq<Element>, s: string)
    requires Blank(blank) && es != [] && ValidElements(es)
    ensures blank + ("]" + r) != ElementsText(es) + ("]" + s)
  {
    hide ElementsText, Valid;
    ElementsOpen(es, s);
    FirstCharacter(es[0].value);
    var y := Text(es[0].value) + (es[0].after + ElementsTail(es, s));
    assert y[0] == Text(es[0].value)[0];
    HeadsDiffer(blank, es[0].before, "]" + r, y);
  }

  lemma {:induction false} ElementsSplit(es: seq<Element>, fs: seq<Element>, r: string, s: string)
    requires es != [] && fs != [] && ValidElements(es) && ValidElements(fs) && Ends(r) && Ends(s)
    requires ElementsText(es) + ("]" + r) == ElementsText(fs) + ("]" + s)
    ensures es == fs && r == s
    decreases es, 0
  {
    hide Text, ElementsText, Valid;
    ElementsOpen(es, r);
    ElementsOpen(fs, s);
    var e, f, x, y := es[0], fs[0], ElementsTail(es, r), ElementsTail(fs, s);
    FirstCharacter(e.value);
    FirstCharacter(f.value);
    BlanksSplit(e.before, f.before, Text(e.value) + (e.after + x), Text(f.value) + (f.after + y));
    EndsAfterBlanks(e.after, x);
    EndsAfterBlanks(f.after, y);
    ValuesSplit(e.value, f.value, e.after + x, f.after + y);
    BlanksSplit(e.after, f.after, x, y);
    assert x[1..] == if |es| == 1 then r else ElementsText(es[1..]) + ("]" + r);
    assert y[1..] == if |fs| == 1 then s else ElementsText(fs[1..]) + ("]" + s);
    if |es| > 1 {
      ElementsSplit(es[1..], fs[1..], r, s);
    }
    assert es == [e] + es[1..] && fs == [f] + fs[1..];
  }

  lemma EndsAfterBlanks(blank: string, rest: string)
    requires Blank(blank) && rest != "" && rest[0] in ",]}"
    ensures Ends(blank + rest)
  {
    if blank != "" {
      assert (blank + rest)[0] == blank[0];
    } else {
      assert blank + rest == rest;
    }
  }

  // Objects

  function ObjectRest(v: Value, r: string): string
    requires v.Object?
  {
    (if v.members == [] then v.blank else MembersText(v.members)) + ("}" + r)
  }

  lemma ObjectOpens(v: Value, r: string)
    requires v.Object?
    ensures Text(v) + r == "{" + ObjectRest(v, r)
  {
    hide MembersText;
  }

  lemma {:induction false} ObjectsSplit(a: Value, b: Value, r: string, s: string)
    requires a.Object? && b.Object? && Valid(a) && Valid(b) && Ends(r) && Ends(s) && Text(a) + r == Text(b) + s
    ensures a == b && r == s
    decreases a, 0
  {
    hide Text, MembersText, Ends;
    ObjectOpens(a, r);
    ObjectOpens(b, s);
    assert ("{" + ObjectRest(a, r))[1..] == ObjectRest(a, r) && ("{" + ObjectRest(b, s))[1..] == ObjectRest(b, s);
    if a.members != [] && b.members != [] {
      MembersSplit(a.members, b.members, r, s);
    } else if a.members == [] && b.members == [] {
      BlanksSplit(a.blank, b.blank, "}" + r, "}" + s);
      assert ("}" + r)[1..] == r && ("}" + s)[1..] == s;
    } else if a.members == [] {
      BareIsNotFull(a.blank, r, b.members, s);
    } else {
      BareIsNotFull(b.blank, s, a.members, r);
    }
  }

  function MembersTail(ms: seq<Member>, r: string): string
    requires ms != []
  {
    if |ms| == 1 then "}" + r else "," + (MembersText(ms[1..]) + ("}" + r))
  }

  /** A member from the end of its key on, with what follows it. */
  function AfterKey(m: Member, tail: string): string {
    m.afterKey + (":" + (m.beforeValue + (Text(m.value) + (m.after + tail))))
  }

  lemma MembersOpen(ms: seq<Member>, r: string)
    requires ms != []
    ensures
      MembersText(ms) + ("}" + r)
      == ms[0].before + ("\"" + ms[0].key + "\"" + AfterKey(ms[0], MembersTail(ms, r)))
  {
    hide Text;
    var m, x := ms[0], "}" + r;
    SpanOpens(m, MembersTail(ms, r));
    if |ms| > 1 {
      var t := MembersText(ms[1..]);
      Regroup(m.before, Span(m), ",", t, x);
    } else {
      assert m.before + Span(m) + x == m.before + (Span(m) + x);
    }
  }

  lemma SpanOpens(m: Member, tail: string)
    ensures Span(m) + tail == "\"" + m.key + "\"" + AfterKey(m, tail)
  {
    hide Text;
    var k, v := "\"" + m.key + "\"", Text(m.value);
    assert k + m.afterKey + ":" + m.beforeValue + v + m.after + tail
      == k + (m.afterKey + (":" + (m.beforeValue + (v + (m.after + tail)))));
  }

  lemma BareIsNotFull(blank: string, r: string, ms: seq<Member>, s: string)
    requires Blank(blank) && ms != [] && ValidMembers(ms)
    ensures blank + ("}" + r) != MembersText(ms) + ("}" + s)
  {
    hide MembersText, Valid, AfterKey;
    MembersOpen(ms, s);
    var y := "\"" + ms[0].key + "\"" + AfterKey(ms[0], MembersTail(ms, s));
    assert y[0] == '"';
    HeadsDiffer(blank, ms[0].before, "}" + r, y);
  }

  lemma {:induction false} MembersSplit(ms: seq<Member>, ns: seq<Member>, r: string, s: string)
    requires ms != [] && ns != [] && ValidMembers(ms) && ValidMembers(ns) && Ends(r) && Ends(s)
    requires MembersText(ms) + ("}" + r) == MembersText(ns) + ("}" + s)
    ensures ms == ns && r == s
    decreases ms, 0
  {
    hide Text, MembersText, Valid, AfterKey;
    MembersOpen(ms, r);
    MembersOpen(ns, s);
    var m, n, x, y := ms[0], ns[0], MembersTail(ms, r), MembersTail(ns, s);
    var p, q := "\"" + m.key + "\"" + AfterKey(m, x), "\"" + n.key + "\"" + AfterKey(n, y);
    assert p[0] == '"' && q[0] == '"';
    BlanksSplit(m.before, n.before, p, q);
    StringsSplit(m.key, n.key, AfterKey(m, x), AfterKey(n, y));
    MembersAfterKey(m, n, x, y);
    assert x[1..] == if |ms| == 1 then r else MembersText(ms[1..]) + ("}" + r);
    assert y[1..] == if |ns| == 1 then s else MembersText(ns[1..]) + ("}" + s);
    if |ms| > 1 {
      MembersSplit(ms[1..], ns[1..], r, s);
    }
    assert ms == [m] + ms[1..] && ns == [n] + ns[1..];
  }

  lemma {:induction false} MembersAfterKey(m: Member, n: Member, x: string, y: string)
    requires ValidMember(m) && ValidMember(n) && x != "" && y != "" && x[0] in ",]}" && y[0] in ",]}"
    requires AfterKey(m, x) == AfterKey(n, y)
    ensures m.afterKey == n.afterKey && m.beforeValue == n.beforeValue && m.value == n.value && m.after == n.after
    ensures x == y
    decreases m, 0
  {
    hide Text, Valid, Ends;
    var u, v := m.beforeValue + (Text(m.value) + (m.after + x)), n.beforeValue + (Text(n.value) + (n.after + y));
    BlanksSplit(m.afterKey, n.afterKey, ":" + u, ":" + v);
    assert (":" + u)[1..] == u && (":" + v)[1..] == v;
    FirstCharacter(m.value);
    FirstCharacter(n.value);
    BlanksSplit(m.beforeValue, n.beforeValue, Text(m.value) + (m.after + x), Text(n.value) + (n.after + y));
    EndsAfterBlanks(m.after, x);
    EndsAfterBlanks(n.after, y);
    ValuesSplit(m.value, n.value, m.after + x, n.after + y);
    BlanksSplit(m.after, n.after, x, y);
  }

  // One text, one tree

  lemma TextIsInjective(a: Value, b: Value)
    requires Valid(a) && Valid(b) && Text(a) == Text(b)
    ensures a == b
  {
    hide Text, Valid;
    assert Text(a) + "" == Text(a) && Text(b) + "" == Text(b);
    ValuesSplit(a, b, "", "");
  }

  /** The same with blanks before and after. */
  lemma PaddedTextIsInjective(p: string, a: Value, q: string, x: string, b: Value, y: string)
    requires Blank(p) && Blank(q) && Blank(x) && Blank(y) && Valid(a) && Valid(b)
    requires p + Text(a) + q == x + Text(b) + y
    ensures p == x && a == b && q == y
  {
    hide Text, Valid;
    FirstCharacter(a);
    FirstCharacter(b);
    assert p + Text(a) + q == p + (Text(a) + q) && x + Text(b) + y == x + (Text(b) + y);
    BlanksSplit(p, x, Text(a) + q, Text(b) + y);
    ValuesSplit(a, b, q, y);
  }
}
