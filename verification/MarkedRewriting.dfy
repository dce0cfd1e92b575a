/** Rewriting versions around a marked block: the markers stay where they are. */
module MarkedRewriting {
  import opened ReleaseBlock
  import opened VersionNumbers
  import opened VersionRewrites
  import opened VersionRules
  import opened Wrappers

  /** The marker's two ends are in nothing the rule reads or writes, and a prefix's last character is not in
      the marker. */
  predicate Marks(m: string, r: Rule) {
    && m != "" && !Numeric(m[0]) && !Numeric(m[|m| - 1])
    && m[0] !in r.prefix && m[0] !in r.version && m[|m| - 1] !in r.prefix
    && r.prefix[|r.prefix| - 1] !in m
  }

  /** The first marker in the text begins behind a. */
  ghost predicate First(a: string, m: string) { forall j: nat | j < |a| :: !At(a + m, m, j) }

  // ----- one rule -----

  lemma {:induction false} LastIn(p: string, q: string)
    ensures p != "" && p <= q ==> p[|p| - 1] in q
  {
    if p != "" && p <= q { assert q[|p| - 1] == p[|p| - 1]; }
  }

  lemma {:induction false} SameStart(p: string, m: string, s: string, t: string)
    requires p <= s && p <= t && p != "" && p[|p| - 1] !in m && m <= s
    ensures m <= t
  {
    assert p == s[..|p|] && m == s[..|m|];
    assert |p| <= |m| ==> p <= m;
    LastIn(p, m);
    assert m == p[..|m|] == t[..|m|];
  }

  /** A text without the last character of the prefix starts a text exactly when it starts the rewritten one. */
  lemma {:induction false} StartKept(m: string, s: string, r: Rule)
    requires r.prefix[|r.prefix| - 1] !in m
    ensures m <= s <==> m <= Substitute(s, r)
    decreases |s|
  {
    hide Match;
    if s != "" && m != "" {
      SubstituteStep(s, r);
      hide Substitute;
      if Match(s, r.prefix).Some? {
        StartOfMatch(m, s, r);
      } else {
        StartKept(m[1..], s[1..], r);
        PopFirst(m, s);
        PopFirst(m, Substitute(s, r));
        assert (s[..1] + Substitute(s[1..], r))[1..] == Substitute(s[1..], r);
      }
    }
  }

  lemma {:induction false} PopFirst(m: string, s: string)
    requires m != "" && s != ""
    ensures m <= s <==> m[0] == s[0] && m[1..] <= s[1..]
  {
    if m[0] == s[0] && m[1..] <= s[1..] { assert m == [m[0]] + m[1..] && s == [s[0]] + s[1..]; }
  }

  lemma {:induction false} StartOfMatch(m: string, s: string, r: Rule)
    requires s != "" && Match(s, r.prefix).Some? && r.prefix[|r.prefix| - 1] !in m
    ensures m <= s <==> m <= Substitute(s, r)
  {
    SubstituteStep(s, r);
    hide Match, Substitute;
    var t := Substitute(s, r);
    assert r.prefix <= t;
    if m <= s { SameStart(r.prefix, m, s, t); }
    if m <= t { SameStart(r.prefix, m, t, s); }
  }

  lemma {:induction false} MarkerUntouched(m: string, r: Rule)
    requires r.prefix[|r.prefix| - 1] !in m
    ensures Substitute(m, r) == m
  {
    hide UpToDate;
    forall i | 0 <= i <= |m| ensures UpToDate(m[i..], r) {
      LastIn(r.prefix, m[i..]);
      NotThere(m[i..], r);
    }
    StableUnchanged(m, r);
  }

  /** The markers cut the text in pieces that are rewritten on their own. */
  lemma {:induction false} AroundMarker(a: string, m: string, b: string, r: Rule)
    requires Wordy(r.prefix) && Marks(m, r)
    ensures Substitute(a + m + b, r) == Substitute(a, r) + m + Substitute(b, r)
  {
    hide Substitute;
    assert a + m + b == a + (m + b);
    CutAtBorder(a, m + b, r);
    CutAtBorder(m, b, r);
    MarkerUntouched(m, r);
    Regroup(Substitute(a, r), m, Substitute(b, r));
  }

  lemma {:induction false} FirstStep(a: string, m: string, k: nat)
    requires k <= |a|
    ensures First(a, m) <==> First(a[k..], m) && forall j: nat | j < k :: !At(a + m, m, j)
  {
    forall j: nat | k <= j < |a| ensures At(a + m, m, j) <==> At(a[k..] + m, m, j - k) {
      assert (a + m)[j..j + |m|] == (a[k..] + m)[j - k..j - k + |m|];
    }
    if First(a[k..], m) && forall j: nat | j < k :: !At(a + m, m, j) {
      forall j: nat | j < |a| ensures !At(a + m, m, j) {
        if j >= k { assert !At(a[k..] + m, m, j - k); }
      }
    }
    if First(a, m) {
      forall j: nat | j < |a[k..]| ensures !At(a[k..] + m, m, j) {
        assert !At(a + m, m, j + k);
      }
    }
  }

  lemma {:induction false} NotInHead(h: string, t: string, m: string, j: nat)
    requires m != "" && m[0] !in h && j < |h|
    ensures !At(h + t, m, j)
  {
    AtFirst(h + t, m, j);
  }

  lemma {:induction false} AtFirst(s: string, m: string, j: nat)
    requires m != "" && j < |s|
    ensures At(s, m, j) ==> s[j] == m[0]
  {
    if At(s, m, j) { assert s[j..j + |m|][0] == s[j]; }
  }

  /** Rewriting makes no marker: the first one stays the first. */
  lemma {:induction false} FirstKept(a: string, m: string, r: Rule)
    requires Wordy(r.prefix) && Marks(m, r) && First(a, m)
    ensures First(Substitute(a, r), m)
    decreases |a|
  {
    hide First, At, Substitute, Match;
    if a == "" {
      NothingFirst(m, r);
    } else {
      var k := Width(a, r.prefix);
      var t := Substitute(a[k..], r);
      FirstStep(a, m, k);
      FirstKept(a[k..], m, r);
      SubstituteStep(a, r);
      var h := Head(a, r);
      assert (h + t)[|h|..] == t;
      FirstStep(h + t, m, |h|);
      if Match(a, r.prefix).Some? {
        forall j: nat | j < |h| ensures !At(h + t + m, m, j) {
          Regroup(h, t, m);
          NotInHead(h, t + m, m, j);
        }
      } else {
        AtStartKept(a, m, r);
      }
    }
  }

  lemma {:induction false} NothingFirst(m: string, r: Rule)
    ensures First(Substitute("", r), m)
  {
  }

  lemma {:induction false} AtStartKept(a: string, m: string, r: Rule)
    requires Wordy(r.prefix) && Marks(m, r) && !At(a + m, m, 0)
    ensures !At(Substitute(a, r) + m, m, 0)
  {
    hide Substitute;
    AroundMarker(a, m, "", r);
    assert a + m + "" == a + m;
    MarkerUntouched("", r);
    assert Substitute(a, r) + m + "" == Substitute(a, r) + m;
    StartKept(m, a + m, r);
    AtStart(a + m, m);
    AtStart(Substitute(a, r) + m, m);
  }

  lemma {:induction false} AtStart(s: string, m: string)
    ensures At(s, m, 0) <==> m <= s
  {
  }

  // ----- all rules -----

  /** A text cut at its markers. */
  datatype Parts = Parts(before: string, middle: string, after: string)
  {
    function Text(start: string, end: string): string {
      before + start + middle + end + after
    }

    /** The markers are the first ones. */
    ghost predicate Exact(start: string, end: string) {
      First(before, start) && First(middle, end)
    }
  }

  predicate AllMark(m: string, rules: seq<Rule>) { forall r | r in rules :: Marks(m, r) }

  function RewriteParts(p: Parts, rules: seq<Rule>): Parts {
    Parts(Rewrite(p.before, rules), Rewrite(p.middle, rules), Rewrite(p.after, rules))
  }

  lemma {:induction false} SubstituteParts(p: Parts, start: string, end: string, r: Rule)
    requires Wordy(r.prefix) && Marks(start, r) && Marks(end, r)
    ensures Substitute(p.Text(start, end), r)
         == Parts(Substitute(p.before, r), Substitute(p.middle, r), Substitute(p.after, r)).Text(start, end)
  {
    hide Substitute, Marks, Wordy;
    assert p.Text(start, end) == p.before + start + (p.middle + end + p.after);
    AroundMarker(p.before, start, p.middle + end + p.after, r);
    AroundMarker(p.middle, end, p.after, r);
  }

  /** The pieces between the markers are rewritten on their own, and the markers stay the first ones. */
  lemma {:induction false} RewriteAround(p: Parts, start: string, end: string, rules: seq<Rule>)
    requires (forall r | r in rules :: Wordy(r.prefix)) && AllMark(start, rules) && AllMark(end, rules)
    ensures Rewrite(p.Text(start, end), rules) == RewriteParts(p, rules).Text(start, end)
    ensures First(p.before, start) ==> First(Rewrite(p.before, rules), start)
    ensures First(p.middle, end) ==> First(Rewrite(p.middle, rules), end)
  {
    hide First, Parts.Text, Marks, Wordy, Substitute;
    if rules != [] {
      var n := |rules| - 1;
      RewriteAround(p, start, end, rules[..n]);
      var q := RewriteParts(p, rules[..n]);
      SubstituteParts(q, start, end, rules[n]);
      if First(p.before, start) { FirstKept(q.before, start, rules[n]); }
      if First(p.middle, end) { FirstKept(q.middle, end, rules[n]); }
    }
  }

  lemma {:induction false} FindFirst(a: string, m: string, b: string)
    requires First(a, m)
    ensures Find(a + m + b, m, 0) == Some(|a|)
  {
    hide Find;
    var t := a + m + b;
    forall j: nat | 0 <= j < |a| ensures !At(t, m, j) { AtPrefix(a + m, b, m, j); }
    assert t[|a|..|a| + |m|] == m;
    FindIs(t, m, 0, |a|);
  }

  lemma {:induction false} FindBehind(h: string, t: string, m: string, k: nat)
    requires Find(t, m, 0) == Some(k)
    ensures Find(h + t, m, |h|) == Some(|h| + k)
  {
    forall j: nat | |h| <= j <= |h| + k ensures At(h + t, m, j) <==> At(t, m, j - |h|) { AtShift(h, t, m, j); }
    hide At, Find;
    FindIs(h + t, m, |h|, |h| + k);
  }

  lemma {:induction false} AtShift(h: string, t: string, m: string, j: nat)
    requires |h| <= j
    ensures At(h + t, m, j) <==> At(t, m, j - |h|)
  {
    if j + |m| <= |h + t| { assert (h + t)[j..j + |m|] == t[j - |h|..j - |h| + |m|]; }
  }

  /** The first block lies between the first markers. */
  lemma {:induction false} BlockOfParts(p: Parts, start: string, end: string)
    requires p.Exact(start, end)
    ensures FirstBlock(p.Text(start, end), start, end)
         == Some((|p.before|, |p.before| + |start| + |p.middle| + |end|))
  {
    hide Find, First;
    var head, tail := p.before + start, p.middle + end + p.after;
    assert p.Text(start, end) == head + tail == p.before + start + tail;
    FindFirst(p.before, start, tail);
    FindFirst(p.middle, end, p.after);
    FindBehind(head, tail, end, |p.middle|);
    BlockIs(p.Text(start, end), start, end, |p.before|, |head| + |p.middle|);
  }

  lemma {:induction false} FirstBefore(t: string, m: string, i: nat)
    requires At(t, m, i) && forall x: nat | x < i :: !At(t, m, x)
    ensures First(t[..i], m)
  {
    var a := t[..i];
    assert t == a + m + t[i + |m|..];
    forall x: nat | x < i ensures !At(a + m, m, x) { AtPrefix(a + m, t[i + |m|..], m, x); }
  }

  lemma {:induction false} FirstBetween(t: string, m: string, h: nat, j: nat)
    requires h <= j && At(t, m, j) && forall x: nat | h <= x < j :: !At(t, m, x)
    ensures First(t[h..j], m)
  {
    var u := t[h..];
    assert t == t[..h] + u;
    forall x: nat | x <= j - h ensures At(u, m, x) <==> At(t, m, x + h) { AtShift(t[..h], u, m, x + h); }
    assert t[h..j] == u[..j - h];
    hide At;
    FirstBefore(u, m, j - h);
  }

  lemma {:induction false} Pieces(t: string, start: string, end: string, i: nat, j: nat)
    requires At(t, start, i) && i + |start| <= j && At(t, end, j)
    ensures Parts(t[..i], t[i + |start|..j], t[j + |end|..]).Text(start, end) == t
  {
    assert t == t[..i] + t[i..i + |start|] + t[i + |start|..j] + t[j..j + |end|] + t[j + |end|..];
  }

  lemma {:induction false} BlockMarkers(t: string, start: string, end: string) returns (i: nat, j: nat)
    requires FirstBlock(t, start, end).Some?
    ensures At(t, start, i) && forall x: nat | x < i :: !At(t, start, x)
    ensures i + |start| <= j && At(t, end, j) && forall x: nat | i + |start| <= x < j :: !At(t, end, x)
  {
    hide At;
    i := Find(t, start, 0).value;
    j := Find(t, end, i + |start|).value;
  }

  lemma {:induction false} PartsOfBlock(t: string, start: string, end: string) returns (p: Parts)
    requires FirstBlock(t, start, end).Some?
    ensures p.Text(start, end) == t && p.Exact(start, end)
  {
    var i, j := BlockMarkers(t, start, end);
    Pieces(t, start, end, i, j);
    hide First, FirstBlock, At, Parts.Text;
    FirstBefore(t, start, i);
    FirstBetween(t, end, i + |start|, j);
    p := Parts(t[..i], t[i + |start|..j], t[j + |end|..]);
  }

  lemma {:induction false} SameParts(p: Parts, q: Parts, start: string, end: string)
    requires p.Exact(start, end) && q.Exact(start, end) && p.Text(start, end) == q.Text(start, end)
    ensures p == q
  {
    hide First, FirstBlock;
    BlockOfParts(p, start, end);
    BlockOfParts(q, start, end);
    var t := p.Text(start, end);
    assert p.before == t[..|p.before|] == q.before;
    SameTails(p, q, start, end, t);
  }

  lemma {:induction false} SameTails(p: Parts, q: Parts, start: string, end: string, t: string)
    requires t == p.Text(start, end) == q.Text(start, end) && |p.before| == |q.before| && |p.middle| == |q.middle|
    ensures p.middle == q.middle && p.after == q.after
  {
    var i, n := |p.before| + |start|, |p.middle|;
    assert p.middle == t[i..i + n] == q.middle;
    assert p.after == t[i + n + |end|..] == q.after;
  }

  // ----- rewriting, then replacing the block -----

  /** What `sync_root_readme` does to a text, its notes apart. */
  function Renew(t: string, rules: seq<Rule>, start: string, end: string, block: string): Outcome {
    ReplaceBlock(Rewrite(t, rules), start, end, block)
  }

  ghost predicate RenewalSettles(rules: seq<Rule>, start: string, end: string, block: string) {
    forall t | Renew(t, rules, start, end, block).Replaced? ::
      Renew(Renew(t, rules, start, end, block).text, rules, start, end, block) == Renew(t, rules, start, end, block)
  }

  lemma {:induction false} ReplaceParts(p: Parts, start: string, end: string, block: string)
    requires p.Exact(start, end) && '\\' !in block
    ensures ReplaceBlock(p.Text(start, end), start, end, block) == Replaced(p.before + block + p.after)
  {
    hide First, FirstBlock;
    BlockOfParts(p, start, end);
    var t := p.Text(start, end);
    assert t[..|p.before|] == p.before;
    assert t[|p.before| + |start| + |p.middle| + |end|..] == p.after;
  }

  /** The block that is put in place of the old one, if it is one block, is rewritten and put in place again. */
  lemma {:induction false} RenewParts(p: Parts, rules: seq<Rule>, start: string, end: string, middle: string)
    requires (forall r | r in rules :: Wordy(r.prefix)) && AllMark(start, rules) && AllMark(end, rules)
    requires p.Exact(start, end) && '\\' !in start + middle + end
    ensures Renew(p.Text(start, end), rules, start, end, start + middle + end)
         == Replaced(Rewrite(p.before, rules) + (start + middle + end) + Rewrite(p.after, rules))
  {
    hide First, ReplaceBlock, AllMark, Wordy, Parts.Text, Rewrite;
    RewriteAround(p, start, end, rules);
    ReplaceParts(RewriteParts(p, rules), start, end, start + middle + end);
  }

  lemma {:induction false} NewParts(p: Parts, start: string, end: string, middle: string)
    ensures p.before + (start + middle + end) + p.after == p.(middle := middle).Text(start, end)
  {
  }

  lemma {:induction false} RenewedIsKept(t: string, rules: seq<Rule>, start: string, end: string, middle: string)
    requires Compatible(rules) && AllMark(start, rules) && AllMark(end, rules)
    requires (forall r | r in rules :: Settled(r)) && First(middle, end)
    requires '\\' !in start + middle + end && Renew(t, rules, start, end, start + middle + end).Replaced?
    ensures var once := Renew(t, rules, start, end, start + middle + end);
            Renew(once.text, rules, start, end, start + middle + end) == once
  {
    hide First, AllMark, Settled, Rewrite, Parts.Text, FirstBlock;
    var t1 := Rewrite(t, rules);
    var p := PartsOfBlock(t1, start, end);
    RewriteSettlesIff(rules);
    hide Compatible;
    RewriteAround(p, start, end, rules);
    SameParts(RewriteParts(p, rules), p, start, end);
    ReplaceParts(p, start, end, start + middle + end);
    NewParts(p, start, end, middle);
    RenewParts(p.(middle := middle), rules, start, end, middle);
  }

  // ----- and when that does not settle -----

  lemma {:induction false} NoneInside(a: string, m: string)
    requires m != "" && m[0] !in a
    ensures First(a, m)
  {
    hide At;
    forall j: nat | j < |a| ensures !At(a + m, m, j) { NotInHead(a, m, m, j); }
  }

  lemma {:induction false} LeftoverChars(c: string, p: string)
    requires Leftover(c, p)
    ensures forall x | x in c :: x in p || Numeric(x)
  {
    var i :| 0 < i <= |p| && NumberAfter(c, p[i..]);
    forall j | 0 <= j < |c| ensures c[j] in p || Numeric(c[j]) {
      if j < |p| - i { assert c[j] == p[i..][j]; }
    }
  }

  lemma {:induction false} RewriteEmptiness(s: string, rules: seq<Rule>)
    ensures Rewrite(s, rules) == "" <==> s == ""
  {
    hide Match;
    if rules != [] { RewriteEmptiness(s, rules[..|rules| - 1]); }
  }

  lemma {:induction false} UnsettledRule(rules: seq<Rule>, i: nat, start: string, end: string, middle: string)
    requires Compatible(rules) && AllMark(start, rules) && AllMark(end, rules)
    requires '\\' !in start + middle + end && First(middle, end) && i < |rules| && !Settled(rules[i])
    ensures !RenewalSettles(rules, start, end, start + middle + end)
  {
    var r := rules[i];
    hide Settled, Leftover;
    var c := UnsettledList(rules, i);
    LeftoverChars(c, r.prefix);
    assert Marks(start, r);
    var t, x := r.prefix + ZERO + c, r.prefix + r.version + c;
    NoneInside(t, start);
    NoneInside(x, start);
    RewriteEmptiness("", rules);
    var p, q, block := Parts(t, "", ""), Parts(x, middle, ""), start + middle + end;
    assert p.Exact(start, end) && q.Exact(start, end);
    hide First, Rewrite, Renew, Parts.Text;
    RenewParts(p, rules, start, end, middle);
    RenewParts(q, rules, start, end, middle);
    NewParts(q, start, end, middle);
    SameBefore(Rewrite(x, rules), x, block);
    var text := p.Text(start, end);
    assert Renew(Renew(text, rules, start, end, block).text, rules, start, end, block)
        != Renew(text, rules, start, end, block);
  }

  lemma {:induction false} SameBefore(a: string, b: string, c: string)
    ensures a + c + "" == b + c + "" ==> a == b
  {
    if a + c + "" == b + c + "" {
      assert a == (a + c + "")[..|a|] && b == (b + c + "")[..|b|] && |a| == |b|;
    }
  }

  /** A block that holds its end marker early is one whose first block is shorter. */
  lemma {:induction false} EarlyEnd(start: string, end: string, middle: string) returns (p: Parts)
    requires !First(middle, end)
    ensures p.Text(start, end) == start + middle + end && p.Exact(start, end) && p.before == "" && p.after != ""
  {
    var block := start + middle + end;
    Delimited(start, middle, end);
    OwnBlock(start, end, block);
    p := PartsOfBlock(block, start, end);
    hide First, FirstBlock;
    BlockOfParts(p, start, end);
    SameMiddle(p, start, end, middle);
  }

  lemma {:induction false} SameMiddle(p: Parts, start: string, end: string, middle: string)
    requires p.before == "" && p.Text(start, end) == start + middle + end
    ensures p.after == "" ==> p.middle == middle
  {
    var t := start + middle + end;
    if p.after == "" {
      assert p.middle == t[|start|..|start| + |p.middle|];
      assert middle == t[|start|..|start| + |middle|];
    }
  }

  lemma {:induction false} EarlyEndGrows(rules: seq<Rule>, start: string, end: string, middle: string)
    requires (forall r | r in rules :: Wordy(r.prefix)) && AllMark(start, rules) && AllMark(end, rules)
    requires '\\' !in start + middle + end && !First(middle, end)
    ensures !RenewalSettles(rules, start, end, start + middle + end)
  {
    hide First, Rewrite, Renew, Parts.Text, AllMark, Wordy;
    var block, none := start + middle + end, Parts("", "", "");
    NothingBefore(start);
    NothingBefore(end);
    var p := EarlyEnd(start, end, middle);
    RewriteEmptiness("", rules);
    RewriteEmptiness(p.after, rules);
    RenewParts(none, rules, start, end, middle);
    RenewParts(p, rules, start, end, middle);
    var text := none.Text(start, end);
    assert "" + block + "" == block;
    assert Renew(Renew(text, rules, start, end, block).text, rules, start, end, block)
        != Renew(text, rules, start, end, block);
  }

  lemma {:induction false} OneBlockIff(start: string, end: string, middle: string)
    ensures OneBlock(start + middle + end, start, end) <==> First(middle, end)
  {
    hide First, FirstBlock;
    if First(middle, end) {
      var p := Parts("", middle, "");
      NothingBefore(start);
      BlockOfParts(p, start, end);
      assert p.Text(start, end) == start + middle + end;
    } else {
      var p := EarlyEnd(start, end, middle);
      BlockOfParts(p, start, end);
    }
  }

  lemma {:induction false} NothingBefore(m: string)
    ensures First("", m)
  {
  }

  /** Rewriting the versions and then replacing the block settles on every text exactly when every rule is
      settled and the replacement is one block. */
  lemma {:induction false} RenewalSettlesIff(rules: seq<Rule>, start: string, end: string, middle: string)
    requires Compatible(rules) && AllMark(start, rules) && AllMark(end, rules) && '\\' !in start + middle + end
    ensures RenewalSettles(rules, start, end, start + middle + end)
       <==> (forall r | r in rules :: Settled(r)) && OneBlock(start + middle + end, start, end)
  {
    hide AllMark, Settled, Renew, First, OneBlock;
    OneBlockIff(start, end, middle);
    var block := start + middle + end;
    if !First(middle, end) {
      EarlyEndGrows(rules, start, end, middle);
    } else if i :| 0 <= i < |rules| && !Settled(rules[i]) {
      UnsettledRule(rules, i, start, end, middle);
    } else {
      forall t | Renew(t, rules, start, end, block).Replaced?
        ensures Renew(Renew(t, rules, start, end, block).text, rules, start, end, block)
             == Renew(t, rules, start, end, block)
      {
        RenewedIsKept(t, rules, start, end, middle);
      }
    }
  }
}
