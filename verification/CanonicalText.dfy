/** JSON strings: how the printer escapes a Python string and how a reader takes it back. */
module CanonicalText {
  import opened Wrappers

  /** A Python string is a sequence of code points, surrogates included. */
  type Point = p: int | 0 <= p <= 0x10FFFF
  type Text = seq<Point>

  predicate IsHigh(p: int) { 0xD800 <= p <= 0xDBFF }
  predicate IsLow(p: int) { 0xDC00 <= p <= 0xDFFF }

  function Combine(high: Point, low: Point): Point
    requires IsHigh(high) && IsLow(low)
  {
    0x10000 + (high - 0xD800) * 0x400 + (low - 0xDC00)
  }

  // ----- writing -----

  function HexDigit(d: nat): char
    requires d < 16
  {
    if d < 10 then '0' + d as char else 'a' + (d - 10) as char
  }

  function Hex4(n: nat): (r: string)
    requires n < 0x10000
    ensures |r| == 4
  {
    [HexDigit(n / 4096), HexDigit(n / 256 % 16), HexDigit(n / 16 % 16), HexDigit(n % 16)]
  }

  function UnicodeEscape(n: nat): string
    requires n < 0x10000
  {
    ['\\', 'u'] + Hex4(n)
  }

  /** `json.dumps` of one character: everything but printable ASCII is escaped. */
  function EscapePoint(p: Point): string {
    if p == 0x22 then ['\\', '"']
    else if p == 0x5C then ['\\', '\\']
    else if p == 0x0A then ['\\', 'n']
    else if p == 0x0D then ['\\', 'r']
    else if p == 0x09 then ['\\', 't']
    else if p == 0x0C then ['\\', 'f']
    else if p == 0x08 then ['\\', 'b']
    else if 0x20 <= p <= 0x7E then [p as char]
    else if p < 0x10000 then UnicodeEscape(p)
    else UnicodeEscape(0xD800 + (p - 0x10000) / 0x400) + UnicodeEscape(0xDC00 + (p - 0x10000) % 0x400)
  }

  function Escaped(s: Text): string {
    if s == [] then [] else EscapePoint(s[0]) + Escaped(s[1..])
  }

  function Quoted(s: Text): string { ['"'] + Escaped(s) + ['"'] }

  // ----- reading: RFC 8259, section 7 -----

  function HexValue(c: char): (r: int)
    ensures -1 <= r < 16
  {
    if '0' <= c <= '9' then c as int - '0' as int
    else if 'a' <= c <= 'f' then c as int - 'a' as int + 10
    else if 'A' <= c <= 'F' then c as int - 'A' as int + 10
    else -1
  }

  datatype Step = Bad | End(rest: string) | Unit(code: Point, rest: string)

  function HexUnit(t: string): Step {
    if |t| < 4 || exists i | 0 <= i < 4 :: HexValue(t[i]) < 0 then Bad
    else Unit(HexValue(t[0]) * 4096 + HexValue(t[1]) * 256 + HexValue(t[2]) * 16 + HexValue(t[3]), t[4..])
  }

  function AfterBackslash(t: string): Step {
    if t == "" then Bad
    else if t[0] == '"' then Unit(0x22, t[1..])
    else if t[0] == '\\' then Unit(0x5C, t[1..])
    else if t[0] == '/' then Unit(0x2F, t[1..])
    else if t[0] == 'n' then Unit(0x0A, t[1..])
    else if t[0] == 'r' then Unit(0x0D, t[1..])
    else if t[0] == 't' then Unit(0x09, t[1..])
    else if t[0] == 'f' then Unit(0x0C, t[1..])
    else if t[0] == 'b' then Unit(0x08, t[1..])
    else if t[0] == 'u' then HexUnit(t[1..])
    else Bad
  }

  /** One character or escape of a string body, or its closing quote. */
  function NextUnit(t: string): (r: Step)
    ensures r.Unit? ==> |r.rest| < |t|
    ensures r.End? ==> |r.rest| < |t|
  {
    if t == "" || t[0] as int < 0x20 then Bad
    else if t[0] == '"' then End(t[1..])
    else if t[0] == '\\' then AfterBackslash(t[1..])
    else Unit(t[0] as int, t[1..])
  }

  /** A string body up to its closing quote; a pair of surrogate escapes is one character. */
  function ParseChars(t: string): (r: Option<(Text, string)>)
    ensures r.Some? ==> |r.value.1| < |t|
    decreases |t|
  {
    match NextUnit(t)
    case Bad => None
    case End(rest) => Some(([], rest))
    case Unit(c, rest) =>
      if IsHigh(c) && NextUnit(rest).Unit? && IsLow(NextUnit(rest).code) then
        Prepend(Combine(c, NextUnit(rest).code), ParseChars(NextUnit(rest).rest))
      else Prepend(c, ParseChars(rest))
  }

  function Prepend(p: Point, r: Option<(Text, string)>): Option<(Text, string)> {
    if r.None? then None else Some(([p] + r.value.0, r.value.1))
  }

  // ----- reading back what was written -----

  /** Adjacent surrogates joined into the character they encode. */
  function Joined(s: Text): Text {
    if s == [] then []
    else if |s| >= 2 && IsHigh(s[0]) && IsLow(s[1]) then [Combine(s[0], s[1])] + Joined(s[2..])
    else [s[0]] + Joined(s[1..])
  }

  /** No high surrogate stands right before a low one. */
  ghost predicate NoPairs(s: Text) {
    forall i | 0 <= i < |s| - 1 :: IsHigh(s[i]) ==> !IsLow(s[i + 1])
  }

  lemma {:induction false} HexDigitValue(d: nat)
    requires d < 16
    ensures HexValue(HexDigit(d)) == d
  {
  }

  lemma {:induction false} Nibbles(n: nat)
    requires n < 0x10000
    ensures n / 4096 < 16
    ensures n / 4096 * 4096 + n / 256 % 16 * 256 + n / 16 % 16 * 16 + n % 16 == n
  {
    var a, b := n / 16, n / 256;
    assert b == a / 16 && n / 4096 == b / 16;
    assert n == 16 * a + n % 16 && a == 16 * b + a % 16 && b == 16 * (n / 4096) + b % 16;
  }

  lemma {:induction false} HexBack(n: nat, t: string)
    requires n < 0x10000
    ensures HexUnit(Hex4(n) + t) == Unit(n, t)
  {
    Nibbles(n);
    HexDigitValue(n / 4096);
    HexDigitValue(n / 256 % 16);
    HexDigitValue(n / 16 % 16);
    HexDigitValue(n % 16);
    hide HexValue, HexDigit;
    var u := Hex4(n) + t;
    assert u[0] == HexDigit(n / 4096) && u[1] == HexDigit(n / 256 % 16) && u[2] == HexDigit(n / 16 % 16)
           && u[3] == HexDigit(n % 16);
    assert u[4..] == t;
  }

  lemma {:induction false} EscapeBack(n: nat, t: string)
    requires n < 0x10000
    ensures NextUnit(UnicodeEscape(n) + t) == Unit(n, t)
  {
    HexBack(n, t);
    var u := UnicodeEscape(n) + t;
    assert u[1..][1..] == Hex4(n) + t;
    hide HexUnit, Hex4;
    assert u[0] == '\\' && u[1..][0] == 'u';
  }

  lemma {:induction false} NarrowBack(p: Point, t: string)
    requires p < 0x10000
    ensures NextUnit(EscapePoint(p) + t) == Unit(p, t)
  {
    hide UnicodeEscape, HexUnit;
    var u := EscapePoint(p) + t;
    if |EscapePoint(p)| == 1 && 0x20 <= p <= 0x7E {
      assert u[0] == p as char && u[1..] == t;
    } else if p == 0x22 || p == 0x5C || p == 0x0A || p == 0x0D || p == 0x09 || p == 0x0C || p == 0x08 {
      assert u[1..][1..] == t;
    } else {
      EscapeBack(p, t);
    }
  }

  lemma {:induction false} Halves(p: Point)
    requires p >= 0x10000
    ensures var v := p - 0x10000;
            IsHigh(0xD800 + v / 0x400) && IsLow(0xDC00 + v % 0x400)
            && Combine(0xD800 + v / 0x400, 0xDC00 + v % 0x400) == p
  {
  }

  lemma {:induction false} JoinStep(u: string, hi: Point, lo: Point, v: string, t: string)
    requires IsHigh(hi) && IsLow(lo) && NextUnit(u) == Unit(hi, v) && NextUnit(v) == Unit(lo, t)
    ensures ParseChars(u) == Prepend(Combine(hi, lo), ParseChars(t))
  {
    hide NextUnit, Combine, Prepend;
  }

  lemma {:induction false} WideBack(p: Point, t: string)
    requires p >= 0x10000
    ensures ParseChars(EscapePoint(p) + t) == Prepend(p, ParseChars(t))
    ensures NextUnit(EscapePoint(p) + t).Unit? && IsHigh(NextUnit(EscapePoint(p) + t).code)
  {
    Halves(p);
    var hi, lo := 0xD800 + (p - 0x10000) / 0x400, 0xDC00 + (p - 0x10000) % 0x400;
    assert EscapePoint(p) + t == UnicodeEscape(hi) + (UnicodeEscape(lo) + t);
    EscapeBack(hi, UnicodeEscape(lo) + t);
    EscapeBack(lo, t);
    hide NextUnit, UnicodeEscape, Combine, EscapePoint;
    JoinStep(EscapePoint(p) + t, hi, lo, UnicodeEscape(lo) + t, t);
  }

  /** What follows a high surrogate in the output is a low one exactly when it was in the string. */
  lemma {:induction false} NextWritten(s: Text, t: string)
    ensures var n := NextUnit(Escaped(s) + (['"'] + t));
            n.Unit? && IsLow(n.code) <==> s != [] && IsLow(s[0])
  {
    if s == [] {
      assert Escaped(s) + (['"'] + t) == ['"'] + t;
    } else {
      var u := Escaped(s[1..]) + (['"'] + t);
      assert Escaped(s) + (['"'] + t) == EscapePoint(s[0]) + u;
      if s[0] < 0x10000 { NarrowBack(s[0], u); } else { WideBack(s[0], u); }
    }
  }

  lemma {:induction false} QuoteEnds(t: string)
    ensures ParseChars(['"'] + t) == Some(([], t))
  {
    assert (['"'] + t)[1..] == t;
  }

  lemma {:induction false} EscapedStep(s: Text, u: string)
    requires s != []
    ensures Escaped(s) + u == EscapePoint(s[0]) + (Escaped(s[1..]) + u)
  {
  }

  /** Reading a written string gives it back with its surrogate pairs joined. */
  lemma {:induction false} ReadsBack(s: Text, t: string)
    ensures ParseChars(Escaped(s) + (['"'] + t)) == Some((Joined(s), t))
    decreases |s|
  {
    hide EscapePoint, NextUnit, Combine;
    var q := ['"'] + t;
    if s == [] {
      assert Escaped(s) + q == q;
      QuoteEnds(t);
    } else {
      var u := Escaped(s[1..]) + q;
      EscapedStep(s, q);
      ReadsBack(s[1..], t);
      if s[0] >= 0x10000 {
        WideBack(s[0], u);
      } else {
        NarrowBack(s[0], u);
        NextWritten(s[1..], t);
        hide Escaped;
        if |s| >= 2 && IsHigh(s[0]) && IsLow(s[1]) {
          assert s[1..][1..] == s[2..];
          EscapedStep(s[1..], q);
          NarrowBack(s[1], Escaped(s[2..]) + q);
          ReadsBack(s[2..], t);
        }
      }
    }
  }

  lemma {:induction false} JoinedShorter(s: Text)
    ensures |Joined(s)| <= |s|
    ensures NoPairs(s) ==> Joined(s) == s
    ensures !NoPairs(s) ==> |Joined(s)| < |s|
    decreases |s|
  {
    if s == [] {
    } else if |s| >= 2 && IsHigh(s[0]) && IsLow(s[1]) {
      JoinedShorter(s[2..]);
    } else {
      JoinedShorter(s[1..]);
      assert s == [s[0]] + s[1..];
      if NoPairs(s[1..]) {
        forall i | 0 <= i < |s| - 1 ensures IsHigh(s[i]) ==> !IsLow(s[i + 1]) {
          if i > 0 { assert s[i] == s[1..][i - 1] && s[i + 1] == s[1..][i]; }
        }
      } else {
        var i :| 0 <= i < |s[1..]| - 1 && IsHigh(s[1..][i]) && IsLow(s[1..][i + 1]);
        assert IsHigh(s[i + 1]) && IsLow(s[i + 2]);
      }
    }
  }

  /** A string comes back unchanged exactly when it has no adjacent surrogate pair. */
  lemma {:induction false} StringRoundTripIff(s: Text, t: string)
    ensures ParseChars(Escaped(s) + (['"'] + t)) == Some((s, t)) <==> NoPairs(s)
  {
    ReadsBack(s, t);
    JoinedShorter(s);
  }

  /** A reader never returns adjacent surrogates. */
  lemma {:induction false} ReadHasNoPairs(t: string)
    requires ParseChars(t).Some?
    ensures NoPairs(ParseChars(t).value.0)
    ensures var s := ParseChars(t).value.0; s != [] && IsLow(s[0]) ==> NextUnit(t).Unit? && IsLow(NextUnit(t).code)
    decreases |t|
  {
    match NextUnit(t)
    case End(_) =>
    case Unit(c, rest) =>
      hide NextUnit;
      if IsHigh(c) && NextUnit(rest).Unit? && IsLow(NextUnit(rest).code) {
        ReadHasNoPairs(NextUnit(rest).rest);
      } else {
        ReadHasNoPairs(rest);
      }
  }

  /** Printable ASCII only. */
  ghost predicate Ascii(s: string) {
    forall i | 0 <= i < |s| :: ' ' <= s[i] <= '~'
  }

  lemma {:induction false} PointIsAscii(p: Point)
    ensures Ascii(EscapePoint(p))
  {
    assert forall d: nat | d < 16 :: ' ' <= HexDigit(d) <= '~';
    hide HexDigit;
    if p >= 0x10000 { Halves(p); }
  }

  lemma {:induction false} EscapedIsAscii(s: Text)
    ensures Ascii(Escaped(s))
  {
    if s != [] {
      PointIsAscii(s[0]);
      EscapedIsAscii(s[1..]);
    }
  }
}
