/** Three dotted numbers, and what happens to them when more text follows. */
module VersionNumbers {
  import opened Numerals
  import opened Wrappers

  function DigitCount(s: string): (r: nat)
    ensures r <= |s| && (r < |s| ==> !IsDigit(s[r]))
    ensures forall i | 0 <= i < r :: IsDigit(s[i])
  {
    if s != "" && IsDigit(s[0]) then 1 + DigitCount(s[1..]) else 0
  }

  /** What follows one number and a dot. */
  function AfterDot(s: string): (r: Option<string>)
    ensures r.Some? ==> |r.value| < |s| && r.value == s[|s| - |r.value|..] && IsDigit(s[0])
  {
    var a := DigitCount(s);
    if 0 < a < |s| && s[a] == '.' then Some(s[a + 1..]) else None
  }

  /** What follows two numbers and their dots. */
  function AfterTwoDots(s: string): (r: Option<string>)
    ensures r.Some? ==> |r.value| < |s| && r.value == s[|s| - |r.value|..] && IsDigit(s[0])
  {
    var t := AfterDot(s);
    if t.None? then None else AfterDot(t.value)
  }

  /** How much of the text `\d+\.\d+\.\d+` takes at its start. */
  function VersionLength(s: string): (r: Option<nat>)
    ensures r.Some? ==> 0 < r.value <= |s| && IsDigit(s[0]) && (r.value < |s| ==> !IsDigit(s[r.value]))
  {
    var u := AfterTwoDots(s);
    if u.None? then None
    else
      var c := DigitCount(u.value);
      if c == 0 then None else Some(|s| - |u.value| + c)
  }

  predicate Numeric(c: char) { IsDigit(c) || c == '.' }

  predicate AllDigits(s: string) { s != "" && DigitCount(s) == |s| }

  /** One or two dotted numbers, which more text may turn into three. */
  predicate OpenEnd(v: string) {
    AllDigits(v) || (AfterDot(v).Some? && AllDigits(AfterDot(v).value))
  }

  /** No text behind it makes it start with three dotted numbers, unless that text begins with a digit. */
  predicate Inert(v: string) { VersionLength(v).None? && !OpenEnd(v) }

  /** Exactly three dotted numbers. */
  predicate Plain(v: string) { VersionLength(v) == Some(|v|) }

  /** What may stand behind a whole number. */
  predicate NoDigitFirst(c: string) { c != "" ==> !IsDigit(c[0]) }

  predicate WordEnd(g: string) { g != "" && !Numeric(g[|g| - 1]) }

  lemma {:induction false} CountExtends(v: string, c: string)
    requires NoDigitFirst(c)
    ensures DigitCount(v + c) == DigitCount(v)
  {
    if v == "" {
      assert v + c == c;
    } else {
      assert (v + c)[1..] == v[1..] + c;
      CountExtends(v[1..], c);
    }
  }

  lemma {:induction false} CountInside(v: string, c: string)
    requires DigitCount(v) < |v|
    ensures DigitCount(v + c) == DigitCount(v)
  {
    if IsDigit(v[0]) {
      assert (v + c)[1..] == v[1..] + c;
      CountInside(v[1..], c);
    }
  }

  lemma {:induction false} CountAtWordEnd(g: string, x: string)
    requires WordEnd(g)
    ensures DigitCount(g + x) == DigitCount(g) < |g|
  {
    CountInside(g, x);
  }

  lemma {:induction false} AfterDotExtends(v: string, c: string)
    requires NoDigitFirst(c)
    ensures AfterDot(v).Some? ==> AfterDot(v + c) == Some(AfterDot(v).value + c)
    ensures AfterDot(v).None? && (!AllDigits(v) || (c != "" ==> c[0] != '.')) ==> AfterDot(v + c).None?
  {
    CountExtends(v, c);
    var a := DigitCount(v);
    if a < |v| { assert (v + c)[a + 1..] == v[a + 1..] + c; }
  }

  /** A number is found again when text that cannot lengthen it is put behind. */
  lemma {:induction false} VersionExtends(v: string, c: string)
    requires NoDigitFirst(c)
    ensures VersionLength(v).Some? ==> VersionLength(v + c) == VersionLength(v)
    ensures Inert(v) ==> VersionLength(v + c).None?
    ensures c != "" && c[0] != '.' ==> VersionLength(v + c) == VersionLength(v)
  {
    hide AfterDot, DigitCount, AllDigits;
    AfterDotExtends(v, c);
    if AfterDot(v).Some? {
      var t := AfterDot(v).value;
      AfterDotExtends(t, c);
      if AfterDot(t).Some? { CountExtends(AfterDot(t).value, c); }
    }
  }

  lemma {:induction false} AfterDotWithin(g: string, x: string)
    requires WordEnd(g)
    ensures AfterDot(g).None? ==> AfterDot(g + x).None?
    ensures AfterDot(g).Some? ==> WordEnd(AfterDot(g).value) && AfterDot(g + x) == Some(AfterDot(g).value + x)
  {
    CountInside(g, x);
    var a := DigitCount(g);
    if g[a] == '.' { assert (g + x)[a + 1..] == g[a + 1..] + x; }
  }

  /** A number that starts before a character that is neither digit nor dot ends before it. */
  lemma {:induction false} VersionWithin(g: string, x: string)
    requires WordEnd(g)
    ensures VersionLength(g + x) == VersionLength(g)
    ensures VersionLength(g).Some? ==> VersionLength(g).value < |g|
  {
    hide AfterDot, DigitCount;
    AfterDotWithin(g, x);
    if AfterDot(g).Some? {
      var t := AfterDot(g).value;
      AfterDotWithin(t, x);
      if AfterDot(t).Some? { CountAtWordEnd(AfterDot(t).value, x); }
    }
  }

  lemma {:induction false} NoNumberFirst(s: string)
    requires s != "" && !IsDigit(s[0])
    ensures VersionLength(s).None?
  {
  }

  lemma {:induction false} PlainStays(u: string, c: string)
    requires Plain(u) && NoDigitFirst(c)
    ensures VersionLength(u + c) == Some(|u|)
  {
    VersionExtends(u, c);
  }

  lemma {:induction false} NumberThenDot(s: string)
    requires AfterDot(s).Some?
    ensures forall i | 0 <= i < |s| - |AfterDot(s).value| :: Numeric(s[i])
  {
  }

  lemma {:induction false} VersionIsNumeric(v: string)
    requires VersionLength(v).Some?
    ensures forall i | 0 <= i < VersionLength(v).value :: Numeric(v[i])
  {
    hide AfterDot;
    var t := AfterDot(v).value;
    var u := AfterDot(t).value;
    NumberThenDot(v);
    NumberThenDot(t);
    assert forall i | |v| - |t| <= i < |v| - |u| :: v[i] == t[i - (|v| - |t|)];
    assert forall i | |v| - |u| <= i < |v| :: v[i] == u[i - (|v| - |u|)];
  }

  // ----- writing and completing numbers -----

  function Zeros(n: nat): (s: string)
    ensures |s| == n && forall i | 0 <= i < n :: s[i] == '0'
  {
    if n == 0 then "" else "0" + Zeros(n - 1)
  }

  lemma {:induction false} DigitsOnly(s: string)
    requires s != "" && forall i | 0 <= i < |s| :: IsDigit(s[i])
    ensures AllDigits(s)
  {
    if |s| > 1 { DigitsOnly(s[1..]); }
  }

  lemma {:induction false} AfterDotOf(x: string, y: string)
    requires AllDigits(x)
    ensures AfterDot(x + "." + y) == Some(y)
  {
    assert x + "." + y == x + ("." + y);
    CountExtends(x, "." + y);
    assert (x + "." + y)[|x| + 1..] == y;
  }

  lemma {:induction false} ThreeNumbers(x: string, y: string, z: string)
    requires AllDigits(x) && AllDigits(y) && AllDigits(z)
    ensures Plain(x + "." + y + "." + z)
  {
    hide AfterDot, DigitCount;
    assert x + "." + y + "." + z == x + "." + (y + "." + z);
    AfterDotOf(x, y + "." + z);
    AfterDotOf(y, z);
  }

  lemma {:induction false} TwoNumbers(v: string)
    requires AfterDot(v).Some?
    ensures var y := AfterDot(v).value;
            |y| < |v| && AllDigits(v[..|v| - |y| - 1]) && v == v[..|v| - |y| - 1] + "." + y
  {
    DigitsOnly(v[..DigitCount(v)]);
  }

  lemma {:induction false} ClosesOne(v: string, z: string) returns (c: string)
    requires AllDigits(v) && AllDigits(z)
    ensures c == "." + z + "." + z && Plain(v + c)
  {
    hide Plain, AllDigits;
    c := "." + z + "." + z;
    assert v + c == v + "." + z + "." + z;
    ThreeNumbers(v, z, z);
  }

  lemma {:induction false} ClosesTwo(v: string, z: string) returns (c: string)
    requires AfterDot(v).Some? && AllDigits(AfterDot(v).value) && AllDigits(z)
    ensures c == "." + z && Plain(v + c)
  {
    hide Plain, AllDigits, AfterDot;
    c := "." + z;
    TwoNumbers(v);
    var y := AfterDot(v).value;
    var x := v[..|v| - |y| - 1];
    assert v + c == x + "." + y + "." + z;
    ThreeNumbers(x, y, z);
  }

  /** One or two numbers become three of any length. */
  lemma {:induction false} OpenEndCloses(v: string, n: nat) returns (c: string)
    requires OpenEnd(v)
    ensures |c| > n && !IsDigit(c[0]) && (forall i | 0 <= i < |c| :: Numeric(c[i]))
    ensures Plain(v + c)
  {
    hide Plain, AllDigits, AfterDot;
    var z := Zeros(n + 1);
    DigitsOnly(z);
    if AllDigits(v) {
      c := ClosesOne(v, z);
    } else {
      c := ClosesTwo(v, z);
    }
  }

  lemma {:induction false} SingleDigit()
    ensures OpenEnd("0")
  {
    DigitsOnly("0");
  }
}
