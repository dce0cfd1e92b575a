/** Replacing the version after a fixed prefix, everywhere in a text, and when doing so settles. */
module VersionRules {
  import opened Numerals
  import opened VersionNumbers
  import opened Wrappers

  type Prefix = p: string | p != "" witness "@"

  /** `literal` says that the replacement is not read as a template. */
  datatype Rule = Rule(prefix: Prefix, version: string, literal: bool)

  /** The prefix is a word: something, without digits and dots. */
  ghost predicate Wordy(p: string) { p != "" && forall i | 0 <= i < |p| :: !Numeric(p[i]) }

  /** The length of the version after the prefix, if the text starts with both. */
  function Match(s: string, prefix: string): (r: Option<nat>)
    ensures r.Some? ==> prefix <= s && 0 < r.value && |prefix| + r.value <= |s| && IsDigit(s[|prefix|])
    ensures r.Some? ==> NoDigitFirst(s[|prefix| + r.value..])
  {
    if prefix <= s then VersionLength(s[|prefix|..]) else None
  }

  /** `_replace_version_after`: every match, from the left, gets the new version. */
  function Substitute(s: string, r: Rule): string
    decreases |s|
  {
    if s == "" then ""
    else
      var m := Match(s, r.prefix);
      if m.Some? then r.prefix + r.version + Substitute(s[|r.prefix| + m.value..], r)
      else [s[0]] + Substitute(s[1..], r)
  }

  /** What one step of the substitution takes, and what it writes for it. */
  function Width(s: string, prefix: string): (k: nat)
    requires s != ""
    ensures 0 < k <= |s|
  {
    if Match(s, prefix).Some? then |prefix| + Match(s, prefix).value else 1
  }

  function Head(s: string, r: Rule): string
    requires s != ""
  {
    if Match(s, r.prefix).Some? then r.prefix + r.version else s[..1]
  }

  lemma {:induction false} SubstituteStep(s: string, r: Rule)
    requires s != ""
    ensures Substitute(s, r) == Head(s, r) + Substitute(s[Width(s, r.prefix)..], r)
  {
    hide Match;
  }

  /** A match, if there is one at the start, already has the new version. */
  predicate UpToDate(s: string, r: Rule) {
    Match(s, r.prefix).Some? ==> Match(s, r.prefix) == Some(|r.version|) && r.version <= s[|r.prefix|..]
  }

  ghost predicate Stable(s: string, r: Rule) {
    forall i | 0 <= i <= |s| :: UpToDate(s[i..], r)
  }

  lemma {:induction false} StableSuffix(s: string, k: nat, r: Rule)
    requires k <= |s| && Stable(s, r)
    ensures UpToDate(s, r) && Stable(s[k..], r)
  {
    hide UpToDate;
    assert s[0..] == s;
    forall i | 0 <= i <= |s[k..]| ensures UpToDate(s[k..][i..], r) {
      assert s[k..][i..] == s[k + i..];
    }
  }

  lemma {:induction false} UpToDateMatch(s: string, r: Rule)
    requires Match(s, r.prefix).Some? && UpToDate(s, r)
    ensures s == r.prefix + r.version + s[|r.prefix| + Match(s, r.prefix).value..]
  {
    hide VersionLength;
  }

  lemma {:induction false} StableUnchanged(s: string, r: Rule)
    requires Stable(s, r)
    ensures Substitute(s, r) == s
    decreases |s|
  {
    hide VersionLength, Stable, UpToDate, Match;
    if s != "" {
      var m := Match(s, r.prefix);
      var k := if m.Some? then |r.prefix| + m.value else 1;
      StableSuffix(s, k, r);
      StableUnchanged(s[k..], r);
      if m.Some? { UpToDateMatch(s, r); }
    }
  }

  // ----- when it settles -----

  /** Whatever follows, other than a digit, the prefix and a version do not start here. */
  predicate NeverMatches(prefix: string, w: string) {
    !(w < prefix) && (prefix <= w ==> Inert(w[|prefix|..]))
  }

  /** Nothing the rule writes is rewritten by it again into something else. */
  ghost predicate Settled(r: Rule) {
    forall k | 0 <= k < |r.prefix + r.version| ::
      NeverMatches(r.prefix, (r.prefix + r.version)[k..]) || (k == 0 && Plain(r.version))
  }

  ghost predicate Occurs(p: string, q: string) { exists z :: 0 <= z <= |q| && p <= q[z..] }

  /** What r writes is of no concern to a rule with the given prefix. */
  ghost predicate Apart(prefix: string, r: Rule) {
    !Occurs(r.prefix, prefix)
    && forall k | 0 <= k < |r.prefix + r.version| :: NeverMatches(prefix, (r.prefix + r.version)[k..])
  }

  lemma {:induction false} PrefixOfBoth(p: string, w: string, c: string)
    requires p <= w + c
    ensures |p| <= |w| ==> p <= w
    ensures |w| <= |p| ==> w <= p
  {
    assert p == (w + c)[..|p|];
  }

  lemma {:induction false} NoMatchAt(prefix: string, w: string, c: string)
    requires NeverMatches(prefix, w) && NoDigitFirst(c)
    ensures Match(w + c, prefix).None?
  {
    hide Inert, VersionLength;
    if prefix <= w + c {
      PrefixOfBoth(prefix, w, c);
      assert (w + c)[|prefix|..] == w[|prefix|..] + c;
      VersionExtends(w[|prefix|..], c);
    }
  }

  /** Where the substitution first changes the text: both texts share what comes before, prefix included. */
  lemma {:induction false} PushPrefix(c: char, a: string, n: nat, b: string)
    requires n <= |a| && a[..n] <= b
    ensures ([c] + a)[..n + 1] <= [c] + b
  {
    assert ([c] + a)[..n + 1] == [c] + a[..n];
  }

  lemma {:induction false} FirstChange(s: string, r: Rule) returns (z: nat)
    ensures z <= |s|
    ensures Substitute(s, r) == s || (z + |r.prefix| <= |s| && Match(s[z..], r.prefix).Some?
                                      && s[..z + |r.prefix|] <= Substitute(s, r))
    decreases |s|
  {
    hide VersionLength, Match;
    z := 0;
    if s != "" {
      assert s[0..] == s;
      if Match(s, r.prefix).None? {
        var y := FirstChange(s[1..], r);
        z := y + 1;
        assert s == [s[0]] + s[1..] && s[z..] == s[1..][y..];
        if Substitute(s[1..], r) != s[1..] {
          PushPrefix(s[0], s[1..], y + |r.prefix|, Substitute(s[1..], r));
        }
      }
    }
  }

  lemma {:induction false} CommonStart(g: string, x: string, y: string, q: Rule)
    requires WordEnd(g) && !(g <= q.prefix) && UpToDate(g + x, q)
    ensures UpToDate(g + y, q)
  {
    hide VersionLength;
    var n := |q.prefix|;
    if q.prefix <= g + y {
      PrefixOfBoth(q.prefix, g, y);
      assert (g + x)[..n] == g[..n] == (g + y)[..n];
      assert (g + x)[n..] == g[n..] + x && (g + y)[n..] == g[n..] + y;
      VersionWithin(g[n..], x);
      VersionWithin(g[n..], y);
    }
  }

  lemma {:induction false} OccursBehind(q: string, z: nat, p: string)
    requires z + |p| <= |q| && q[z..z + |p|] == p
    ensures Occurs(p, q)
  {
    assert p <= q[z..];
  }

  lemma {:induction false} HeadKept(s: string, q: Rule, r: Rule)
    requires Wordy(r.prefix) && Match(s, r.prefix).None?
    requires q == r || !Occurs(r.prefix, q.prefix)
    requires UpToDate(s, q)
    ensures UpToDate(Substitute(s, r), q)
  {
    hide Match, UpToDate, Substitute;
    var z := FirstChange(s, r);
    var out := Substitute(s, r);
    if out != s {
      assert s[0..] == s;
      var e := z + |r.prefix|;
      var g := s[..e];
      assert s == g + s[e..] && out == g + out[e..];
      assert g[e - 1] == r.prefix[|r.prefix| - 1] && WordEnd(g);
      assert g[z..] == s[z..][..|r.prefix|] == r.prefix;
      if g <= q.prefix { OccursBehind(q.prefix, z, r.prefix); }
      CommonStart(g, s[e..], out[e..], q);
    }
  }

  /** What another rule needs to stay up to date when r is applied; for r itself, what it needs to become so. */
  ghost predicate Keeps(q: Rule, r: Rule) { if q == r then Settled(r) else Apart(q.prefix, r) }

  lemma {:induction false} WrittenIsUpToDate(r: Rule, c: string)
    requires Plain(r.version) && NoDigitFirst(c)
    ensures UpToDate(r.prefix + r.version + c, r)
  {
    hide Plain, VersionLength;
    assert (r.prefix + r.version + c)[|r.prefix|..] == r.version + c;
    PlainStays(r.version, c);
  }

  lemma {:induction false} InsideKept(k: nat, c: string, q: Rule, r: Rule)
    requires k < |r.prefix + r.version| && NoDigitFirst(c) && Keeps(q, r)
    ensures UpToDate((r.prefix + r.version + c)[k..], q)
  {
    hide NeverMatches, Plain, Match;
    var w := (r.prefix + r.version)[k..];
    assert (r.prefix + r.version + c)[k..] == w + c;
    if NeverMatches(q.prefix, w) {
      NoMatchAt(q.prefix, w, c);
    } else {
      WrittenIsUpToDate(r, c);
    }
  }

  lemma {:induction false} DigitFirstKept(s: string, r: Rule)
    requires Wordy(r.prefix)
    ensures NoDigitFirst(s) ==> NoDigitFirst(Substitute(s, r))
  {
    hide Match;
  }

  /** Applying r brings r up to date everywhere if it is settled, and keeps the rules it is apart from up to date. */
  lemma {:induction false} SubstituteKeeps(s: string, q: Rule, r: Rule)
    requires Wordy(r.prefix) && Keeps(q, r) && (q != r ==> Stable(s, q))
    ensures Stable(Substitute(s, r), q)
    decreases |s|
  {
    hide UpToDate, Settled, Match;
    var out := Substitute(s, r);
    if s == "" {
      EmptyIsStable(q);
    } else if Match(s, r.prefix).Some? {
      var k := |r.prefix| + Match(s, r.prefix).value;
      var rest := Substitute(s[k..], r);
      if q != r { StableSuffix(s, k, q); }
      SubstituteKeeps(s[k..], q, r);
      DigitFirstKept(s[k..], r);
      StableAfter(r, rest, q);
    } else {
      if q != r { StableSuffix(s, 1, q); }
      SubstituteKeeps(s[1..], q, r);
      NoMatchUpToDate(s, r);
      HeadKept(s, q, r);
      StableHead(s[0], Substitute(s[1..], r), q);
    }
  }

  lemma {:induction false} EmptyIsStable(q: Rule)
    ensures Stable("", q)
  {
  }

  lemma {:induction false} NoMatchUpToDate(s: string, r: Rule)
    ensures Match(s, r.prefix).None? ==> UpToDate(s, r)
  {
  }

  lemma {:induction false} StableHead(c: char, t: string, q: Rule)
    requires Stable(t, q) && UpToDate([c] + t, q)
    ensures Stable([c] + t, q)
  {
    hide UpToDate;
    var s := [c] + t;
    forall i | 0 <= i <= |s| ensures UpToDate(s[i..], q) {
      if i == 0 { assert s[0..] == s; } else { assert s[i..] == t[i - 1..]; }
    }
  }

  lemma {:induction false} StableAfter(r: Rule, rest: string, q: Rule)
    requires Stable(rest, q) && NoDigitFirst(rest) && Keeps(q, r)
    ensures Stable(r.prefix + r.version + rest, q)
  {
    hide UpToDate, Keeps, Stable;
    forall i | 0 <= i < |r.prefix + r.version| ensures UpToDate((r.prefix + r.version + rest)[i..], q) {
      InsideKept(i, rest, q, r);
    }
    StableConcat(r.prefix + r.version, rest, q);
  }

  lemma {:induction false} StableConcat(w: string, rest: string, q: Rule)
    requires Stable(rest, q) && forall i | 0 <= i < |w| :: UpToDate((w + rest)[i..], q)
    ensures Stable(w + rest, q)
  {
    hide UpToDate;
    var s := w + rest;
    forall i | 0 <= i <= |s| ensures UpToDate(s[i..], q) {
      if i >= |w| { assert s[i..] == rest[i - |w|..]; }
    }
  }

  lemma {:induction false} SettledIsStable(s: string, r: Rule)
    requires Wordy(r.prefix) && Settled(r)
    ensures Stable(Substitute(s, r), r) && Substitute(Substitute(s, r), r) == Substitute(s, r)
  {
    hide Match, UpToDate, Stable, Settled, Substitute;
    SubstituteKeeps(s, r, r);
    StableUnchanged(Substitute(s, r), r);
  }

  // ----- cutting a text in two -----

  /** No match runs over the border between a and b. */
  ghost predicate Border(a: string, b: string, p: string) {
    || a == ""
    || (!Numeric(a[|a| - 1]) && a[|a| - 1] !in p)
    || (b != "" && !Numeric(b[0]) && (b[0] !in p || p <= b))
  }

  lemma {:induction false} LongMatch(a: string, b: string, p: string)
    requires Wordy(p) && Border(a, b, p) && a != "" && |a| < |p| && p <= a + b
    ensures Match(a + b, p).None?
  {
    assert p[|a| - 1] == a[|a| - 1];
    assert p[|a|] == b[0];
    assert (a + b)[|p|..][0] == b[|p| - |a|] == p[|p| - |a|];
    NoNumberFirst((a + b)[|p|..]);
  }

  lemma {:induction false} ShortMatch(a: string, b: string, p: string)
    requires Border(a, b, p) && p != "" && p <= a
    ensures Match(a + b, p) == Match(a, p)
  {
    hide VersionLength;
    assert (a + b)[|p|..] == a[|p|..] + b;
    assert (a + b)[..|p|] == a[..|p|];
    if b != "" && !Numeric(b[0]) {
      VersionExtends(a[|p|..], b);
    } else {
      assert a[|p| - 1] == p[|p| - 1];
      VersionWithin(a[|p|..], b);
    }
  }

  lemma {:induction false} MatchAtBorder(a: string, b: string, p: string)
    requires Wordy(p) && Border(a, b, p) && a != ""
    ensures Match(a + b, p) == Match(a, p)
  {
    hide VersionLength, Border;
    if p <= a {
      ShortMatch(a, b, p);
    } else if p <= a + b {
      PrefixOfBoth(p, a, b);
      LongMatch(a, b, p);
    }
  }

  lemma {:induction false} HeadAtBorder(a: string, b: string, r: Rule)
    requires Wordy(r.prefix) && Border(a, b, r.prefix) && a != ""
    ensures Head(a + b, r) == Head(a, r) && Width(a + b, r.prefix) == Width(a, r.prefix)
  {
    hide Match, Border;
    MatchAtBorder(a, b, r.prefix);
    assert a[..1] == (a + b)[..1];
  }

  lemma {:induction false} CutNothing(b: string, r: Rule)
    ensures Substitute("" + b, r) == Substitute("", r) + Substitute(b, r)
  {
    assert "" + b == b;
  }

  lemma {:induction false} Regroup(head: string, x: string, y: string)
    ensures head + x + y == head + (x + y)
  {
  }

  /** The two sides of a border are rewritten on their own. */
  lemma {:induction false} CutAtBorder(a: string, b: string, r: Rule)
    requires Wordy(r.prefix) && Border(a, b, r.prefix)
    ensures Substitute(a + b, r) == Substitute(a, r) + Substitute(b, r)
    decreases |a|
  {
    hide Substitute, Width, Head;
    if a == "" {
      CutNothing(b, r);
    } else {
      HeadAtBorder(a, b, r);
      var k := Width(a, r.prefix);
      assert (a + b)[k..] == a[k..] + b;
      CutAtBorder(a[k..], b, r);
      SubstituteStep(a, r);
      SubstituteStep(a + b, r);
      Regroup(Head(a, r), Substitute(a[k..], r), Substitute(b, r));
    }
  }

  // ----- the text that does not settle -----

  /** What is left of a prefix, and a number. */
  ghost predicate Leftover(c: string, p: string) {
    exists i :: 0 < i <= |p| && NumberAfter(c, p[i..])
  }

  ghost predicate NumberAfter(c: string, tail: string) {
    tail <= c && forall j | |tail| <= j < |c| :: Numeric(c[j])
  }

  lemma {:induction false} NothingInLeftover(c: string, p: string, q: Rule)
    requires Leftover(c, p) && Wordy(q.prefix) && (q.prefix == p || !Occurs(q.prefix, p))
    ensures Stable(c, q)
  {
    hide UpToDate, Occurs;
    var i :| 0 < i <= |p| && NumberAfter(c, p[i..]);
    hide Leftover;
    forall j | 0 <= j <= |c| ensures UpToDate(c[j..], q) {
      if q.prefix <= c[j..] { InsideTail(c, p[i..], j, q.prefix); InsideWhole(p, i, j, q.prefix); }
      NotThere(c[j..], q);
    }
  }

  lemma {:induction false} InsideTail(c: string, tail: string, j: nat, q: string)
    requires NumberAfter(c, tail) && Wordy(q) && j <= |c| && q <= c[j..]
    ensures j + |q| <= |tail| && q <= tail[j..]
  {
    assert q[|q| - 1] == c[j + |q| - 1];
    assert q == c[j..][..|q|] == tail[j..][..|q|];
  }

  lemma {:induction false} InsideWhole(p: string, i: nat, j: nat, q: string)
    requires i + j <= |p| && q <= p[i..][j..]
    ensures Occurs(q, p)
  {
    assert p[i..][j..] == p[i + j..];
  }

  lemma {:induction false} NotThere(s: string, q: Rule)
    requires !(q.prefix <= s)
    ensures UpToDate(s, q)
  {
  }

  const ZERO := "0.0.0"

  /** A text with an old version is brought up to date. */
  lemma {:induction false} OldVersion(r: Rule, c: string)
    requires Wordy(r.prefix) && NoDigitFirst(c) && Stable(c, r)
    ensures Substitute(r.prefix + ZERO + c, r) == r.prefix + r.version + c
  {
    hide VersionLength, Stable;
    var t := r.prefix + ZERO + c;
    assert t[|r.prefix|..] == ZERO + c && t[|r.prefix| + 5..] == c;
    DigitsOnly("0");
    ThreeNumbers("0", "0", "0");
    assert ZERO == "0" + "." + "0" + "." + "0";
    PlainStays(ZERO, c);
    StableUnchanged(c, r);
  }

  /** A text that ends with a match of any length. */
  lemma {:induction false} RewrittenAt(r: Rule, a: string, n: string)
    requires Wordy(r.prefix) && Plain(n)
    ensures Substitute(a + (r.prefix + n), r) == Substitute(a, r) + (r.prefix + r.version)
  {
    hide Plain, VersionLength;
    CutAtBorder(a, r.prefix + n, r);
    assert (r.prefix + n)[|r.prefix|..] == n;
    PlainMatch(r.prefix + n, n, r);
  }

  lemma {:induction false} PlainMatch(s: string, n: string, r: Rule)
    requires s == r.prefix + n && s[|r.prefix|..] == n && Plain(n)
    ensures Substitute(s, r) == r.prefix + r.version
  {
    hide VersionLength;
    assert s[|s|..] == "";
  }

  lemma {:induction false} NotShorter(s: string, r: Rule)
    requires |s| <= |r.prefix| + |r.version|
    ensures |Substitute(s, r)| >= |s|
    decreases |s|
  {
    hide Match;
    if s != "" { NotShorter(s[Width(s, r.prefix)..], r); }
  }

  lemma {:induction false} GrowsAt(r: Rule, a: string, w: string)
    requires Wordy(r.prefix) && |a| + |w| == |r.prefix + r.version|
    requires Match(w, r.prefix).Some? && (a == "" ==> Width(w, r.prefix) < |w|)
    ensures |Substitute(a + w, r)| > |a + w|
  {
    hide Match, Substitute;
    var rest := w[Width(w, r.prefix)..];
    assert w[0] == r.prefix[0];
    CutAtBorder(a, w, r);
    SubstituteStep(w, r);
    NotShorter(a, r);
    NotShorter(rest, r);
  }

  /** A match inside what the rule writes makes the text longer. */
  lemma {:induction false} GrowsInside(r: Rule, k: nat)
    requires Wordy(r.prefix) && k < |r.prefix + r.version|
    requires Match((r.prefix + r.version)[k..], r.prefix).Some? && (k == 0 ==> !Plain(r.version))
    ensures |Substitute(r.prefix + r.version, r)| > |r.prefix + r.version|
  {
    hide VersionLength, Substitute;
    var x := r.prefix + r.version;
    assert x[|r.prefix|..] == r.version;
    assert k == 0 ==> x[k..] == x;
    assert x == x[..k] + x[k..];
    GrowsAt(r, x[..k], x[k..]);
  }

  lemma {:induction false} Shrinks(r: Rule, a: string, w: string, n: string, c: string)
    requires Wordy(r.prefix) && r.prefix + r.version == a + w && w + c == r.prefix + n
    requires Plain(n) && |n| > |Substitute(a, r)| + |r.version|
    ensures Substitute(r.prefix + r.version + c, r) != r.prefix + r.version + c
  {
    hide Plain, Substitute;
    assert r.prefix + r.version + c == a + (w + c);
    RewrittenAt(r, a, n);
  }

  lemma {:induction false} CompletedPrefix(r: Rule, k: nat, w: string) returns (c: string)
    requires Wordy(r.prefix) && k < |r.prefix + r.version| && w == (r.prefix + r.version)[k..] && w < r.prefix
    ensures Leftover(c, r.prefix) && NoDigitFirst(c)
    ensures Substitute(r.prefix + r.version + c, r) != r.prefix + r.version + c
  {
    hide Plain, Substitute, OpenEnd;
    var a, tail := (r.prefix + r.version)[..k], r.prefix[|w|..];
    SingleDigit();
    var num := OpenEndCloses("0", |Substitute(a, r)| + |r.version|);
    c := tail + ("0" + num);
    assert NumberAfter(c, tail);
    assert w + c == r.prefix + ("0" + num);
    Shrinks(r, a, w, "0" + num, c);
  }

  lemma {:induction false} CompletedNumber(r: Rule, k: nat, w: string) returns (c: string)
    requires Wordy(r.prefix) && k < |r.prefix + r.version| && w == (r.prefix + r.version)[k..]
    requires r.prefix <= w && OpenEnd(w[|r.prefix|..])
    ensures Leftover(c, r.prefix) && NoDigitFirst(c)
    ensures Substitute(r.prefix + r.version + c, r) != r.prefix + r.version + c
  {
    hide Plain, Substitute, OpenEnd;
    var a, v := (r.prefix + r.version)[..k], w[|r.prefix|..];
    c := OpenEndCloses(v, |Substitute(a, r)| + |r.version|);
    assert NumberAfter(c, r.prefix[|r.prefix|..]);
    assert w + c == r.prefix + (v + c);
    Shrinks(r, a, w, v + c, c);
  }

  lemma {:induction false} UnsettledText(r: Rule) returns (c: string)
    requires Wordy(r.prefix) && !Settled(r)
    ensures Leftover(c, r.prefix) && NoDigitFirst(c)
    ensures Substitute(r.prefix + r.version + c, r) != r.prefix + r.version + c
  {
    hide Leftover, OpenEnd, Plain, VersionLength, Substitute;
    var x := r.prefix + r.version;
    var k :| 0 <= k < |x| && !NeverMatches(r.prefix, x[k..]) && !(k == 0 && Plain(r.version));
    if Match(x[k..], r.prefix).Some? {
      GrowsInside(r, k);
      c := "";
      assert x + c == x;
      EmptyLeftover(r.prefix);
    } else if x[k..] < r.prefix {
      c := CompletedPrefix(r, k, x[k..]);
    } else {
      c := CompletedNumber(r, k, x[k..]);
    }
  }

  lemma {:induction false} EmptyLeftover(p: string)
    requires p != ""
    ensures Leftover("", p)
  {
    assert NumberAfter("", p[|p|..]);
  }

  /** A rule settles on every text exactly when it is settled: three dotted numbers, or nothing that a prefix
      or a number can be completed from. */
  lemma {:induction false} SettlesIffSettled(r: Rule)
    requires Wordy(r.prefix)
    ensures (forall t :: Substitute(Substitute(t, r), r) == Substitute(t, r)) <==> Settled(r)
  {
    hide Substitute, Settled;
    if Settled(r) {
      forall t ensures Substitute(Substitute(t, r), r) == Substitute(t, r) { SettledIsStable(t, r); }
    } else {
      var c := UnsettledText(r);
      NothingInLeftover(c, r.prefix, r);
      OldVersion(r, c);
      var t := r.prefix + ZERO + c;
      assert Substitute(Substitute(t, r), r) != Substitute(t, r);
    }
  }

  /** In a written number the next word is found only where the prefix holds it. */
  lemma {:induction false} PlainInside(q: string, r: Rule, k: nat)
    requires Wordy(q) && Plain(r.version) && k < |r.prefix + r.version|
    ensures NeverMatches(q, (r.prefix + r.version)[k..]) || (k + |q| <= |r.prefix| && r.prefix[k..k + |q|] == q)
  {
    VersionIsNumeric(r.version);
    hide Inert, VersionLength, Wordy, Numeric;
    var p, u := r.prefix, r.version;
    var a := if k < |p| then p[k..] else "";
    var v := if k < |p| then u else u[k - |p|..];
    assert (p + u)[k..] == a + v;
    hide Plain, NeverMatches;
    WordBefore(q, a, v);
  }

  lemma {:induction false} WordBefore(q: string, a: string, u: string)
    requires Wordy(q) && u != "" && Numeric(u[0])
    ensures NeverMatches(q, a + u) || q <= a
    ensures q <= a + u ==> q <= a
  {
    hide Inert, Numeric;
    assert (a + u)[|a|] == u[0];
    if q <= a + u { PrefixOfBoth(q, a, u); }
  }

  lemma {:induction false} PlainSettled(r: Rule)
    requires Wordy(r.prefix) && Plain(r.version)
    ensures Settled(r)
  {
    hide NeverMatches, Plain;
    forall k | 0 <= k < |r.prefix + r.version|
      ensures NeverMatches(r.prefix, (r.prefix + r.version)[k..]) || (k == 0 && Plain(r.version))
    {
      PlainInside(r.prefix, r, k);
    }
  }

  lemma {:induction false} PlainApart(q: Prefix, r: Rule)
    requires Wordy(q) && Plain(r.version) && !Occurs(q, r.prefix) && !Occurs(r.prefix, q)
    ensures Apart(q, r)
  {
    hide NeverMatches, Plain, Occurs, Wordy;
    forall k | 0 <= k < |r.prefix + r.version| ensures NeverMatches(q, (r.prefix + r.version)[k..]) {
      PlainInside(q, r, k);
      if !NeverMatches(q, (r.prefix + r.version)[k..]) { OccursBehind(r.prefix, k, q); }
    }
  }

  lemma {:induction false} SettledAtStart(r: Rule)
    requires Wordy(r.prefix) && Settled(r)
    ensures Inert(r.version) || Plain(r.version)
  {
    hide Inert, Plain;
    var x := r.prefix + r.version;
    assert x[0..] == x && x[|r.prefix|..] == r.version;
    assert NeverMatches(r.prefix, x[0..]) || Plain(r.version);
  }

  /** A version that starts with three dotted numbers settles only if it is no more than that; every such
      version settles. */
  lemma {:induction false} NumberedSettlesIff(r: Rule)
    requires Wordy(r.prefix) && VersionLength(r.version).Some?
    ensures (forall t :: Substitute(Substitute(t, r), r) == Substitute(t, r)) <==> Plain(r.version)
  {
    hide Substitute, VersionLength, OpenEnd;
    SettlesIffSettled(r);
    if Plain(r.version) {
      PlainSettled(r);
    } else if Settled(r) {
      SettledAtStart(r);
    }
  }

  // ----- nothing but versions changes -----

  lemma {:induction false} CommonMatch(g: string, x: string, y: string, p: string)
    requires WordEnd(g) && |p| < |g|
    ensures Match(g + x, p) == Match(g + y, p)
  {
    hide VersionLength;
    var n := |p|;
    assert (g + x)[..n] == g[..n] == (g + y)[..n];
    assert (g + x)[n..] == g[n..] + x && (g + y)[n..] == g[n..] + y;
    VersionWithin(g[n..], x);
    VersionWithin(g[n..], y);
  }

  lemma {:induction false} NoNewMatch(s: string, r: Rule)
    requires Wordy(r.prefix) && Match(s, r.prefix).None?
    ensures Match(Substitute(s, r), r.prefix).None?
  {
    hide Match, Substitute;
    var z := FirstChange(s, r);
    var out := Substitute(s, r);
    if out != s {
      assert s[0..] == s;
      var e := z + |r.prefix|;
      var g := s[..e];
      assert s == g + s[e..] && out == g + out[e..];
      assert g[e - 1] == r.prefix[|r.prefix| - 1] && WordEnd(g);
      CommonMatch(g, s[e..], out[e..], r.prefix);
    }
  }

  /** Whatever ordinary versions were written before, the text is the one that the last version alone would give:
      a write changes nothing but versions behind its prefix. */
  lemma {:induction false} LastVersionWins(s: string, a: Rule, b: Rule)
    requires Wordy(a.prefix) && a.prefix == b.prefix && Plain(a.version)
    ensures Substitute(Substitute(s, a), b) == Substitute(s, b)
    decreases |s|
  {
    hide Match, Plain, Substitute, VersionLength;
    if s == "" {
      NothingToWrite(a);
      NothingToWrite(b);
    } else {
      var m := Match(s, a.prefix);
      var k := Width(s, a.prefix);
      LastVersionWins(s[k..], a, b);
      SubstituteStep(s, a);
      SubstituteStep(s, b);
      if m.Some? {
        DigitFirstKept(s[k..], a);
        Overwritten(a, b, Substitute(s[k..], a));
      } else {
        NoNewMatch(s, a);
        SubstituteStep(Substitute(s, a), b);
        assert Substitute(s, a)[1..] == Substitute(s[1..], a);
      }
    }
  }

  lemma {:induction false} NothingToWrite(r: Rule)
    ensures Substitute("", r) == ""
  {
  }

  lemma {:induction false} MatchedStep(s: string, r: Rule, n: string, x: string)
    requires s == r.prefix + (n + x) && Match(s, r.prefix) == Some(|n|)
    ensures Substitute(s, r) == r.prefix + r.version + Substitute(x, r)
  {
    hide Substitute, Match;
    SubstituteStep(s, r);
    DropTwo(r.prefix, n, x);
  }

  lemma {:induction false} DropTwo(p: string, n: string, x: string)
    ensures (p + (n + x))[|p| + |n|..] == x
  {
  }

  lemma {:induction false} MatchIs(s: string, r: Rule, n: string, x: string)
    requires s == r.prefix + (n + x) && Plain(n) && NoDigitFirst(x)
    ensures Match(s, r.prefix) == Some(|n|)
  {
    hide Plain, VersionLength;
    assert s[|r.prefix|..] == n + x;
    PlainStays(n, x);
  }

  lemma {:induction false} Overwritten(a: Rule, b: Rule, rest: string)
    requires a.prefix == b.prefix && Plain(a.version) && NoDigitFirst(rest)
    ensures Substitute(a.prefix + a.version + rest, b) == b.prefix + b.version + Substitute(rest, b)
  {
    hide Plain, Substitute, Match, NoDigitFirst;
    var s := b.prefix + (a.version + rest);
    Regroup(a.prefix, a.version, rest);
    MatchIs(s, b, a.version, rest);
    MatchedStep(s, b, a.version, rest);
  }
}
