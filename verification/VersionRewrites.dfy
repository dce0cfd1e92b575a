/** Several version rules applied one after the other, and when the whole rewriting settles. */
module VersionRewrites {
  import opened VersionNumbers
  import opened VersionRules

  /** The rules are applied to the whole text one after the other. */
  function Rewrite(s: string, rules: seq<Rule>): string
  {
    if rules == [] then s
    else Substitute(Rewrite(s, rules[..|rules| - 1]), rules[|rules| - 1])
  }

  /** The loop over the rules. */
  method RewriteAll(s: string, rules: seq<Rule>) returns (t: string)
    ensures t == Rewrite(s, rules)
  {
    t := s;
    for k := 0 to |rules|
      invariant t == Rewrite(s, rules[..k])
    {
      assert rules[..k + 1][..k] == rules[..k];
      t := Substitute(t, rules[k]);
    }
    assert rules[..|rules|] == rules;
  }

  /** Earlier rules are applied first. */
  lemma {:induction false} RewriteConcat(s: string, a: seq<Rule>, b: seq<Rule>)
    ensures Rewrite(s, a + b) == Rewrite(Rewrite(s, a), b)
  {
    if b == [] {
      assert a + b == a;
    } else {
      assert (a + b)[..|a + b| - 1] == a + b[..|b| - 1];
      RewriteConcat(s, a, b[..|b| - 1]);
    }
  }

  /** No prefix holds another, and what one rule writes is of no concern to the others. */
  ghost predicate Compatible(rules: seq<Rule>) {
    && (forall r | r in rules :: Wordy(r.prefix))
    && forall i, j | 0 <= i < |rules| && 0 <= j < |rules| && i != j :: Apart(rules[i].prefix, rules[j])
  }

  ghost predicate AllStable(s: string, rules: seq<Rule>) {
    forall r | r in rules :: Stable(s, r)
  }

  lemma {:induction false} StableRewrite(s: string, rules: seq<Rule>)
    requires AllStable(s, rules)
    ensures Rewrite(s, rules) == s
  {
    hide Stable;
    if rules != [] {
      StableRewrite(s, rules[..|rules| - 1]);
      StableUnchanged(s, rules[|rules| - 1]);
    }
  }

  lemma {:induction false} RulesKeep(rules: seq<Rule>, i: nat, j: nat)
    requires Compatible(rules) && i < |rules| && j < |rules|
    requires Settled(rules[j])
    ensures Keeps(rules[i], rules[j])
  {
    hide Settled, Apart;
  }

  /** Settled rules that leave each other alone bring a text up to date for all of them at once. */
  lemma {:induction false} RewriteIsStable(s: string, rules: seq<Rule>)
    requires Compatible(rules) && forall r | r in rules :: Settled(r)
    ensures AllStable(Rewrite(s, rules), rules)
  {
    hide Stable, Settled, Apart, Substitute, Keeps;
    if rules != [] {
      var n := |rules| - 1;
      RewriteIsStable(s, rules[..n]);
      var t := Rewrite(s, rules[..n]);
      forall i | 0 <= i < |rules| ensures Stable(Substitute(t, rules[n]), rules[i]) {
        RulesKeep(rules, i, n);
        assert i < n ==> rules[i] in rules[..n];
        SubstituteKeeps(t, rules[i], rules[n]);
      }
    }
  }

  /** When only one rule finds anything, before and after, the others may be left out. */
  lemma {:induction false} OnlyOneRule(s: string, rules: seq<Rule>, i: nat)
    requires i < |rules|
    requires forall j | 0 <= j < |rules| && j != i :: Stable(s, rules[j]) && Stable(Substitute(s, rules[i]), rules[j])
    ensures Rewrite(s, rules) == Substitute(s, rules[i])
  {
    hide Stable, Substitute;
    var n := |rules| - 1;
    if i == n {
      StableRewrite(s, rules[..n]);
    } else {
      OnlyOneRule(s, rules[..n], i);
      StableUnchanged(Substitute(s, rules[i]), rules[n]);
    }
  }

  /** A word that the prefix does not hold is nowhere in the prefix and an old version. */
  lemma {:induction false} OldIsFree(p: string, c: string, q: Rule)
    requires Wordy(q.prefix) && !Occurs(q.prefix, p) && Stable(c, q)
    ensures Stable(p + ZERO + c, q)
  {
    hide UpToDate, Occurs, Stable;
    forall k | 0 <= k < |p + ZERO| ensures UpToDate((p + ZERO + c)[k..], q) {
      var a := if k < |p| then p[k..] else "";
      var u := if k < |p| then ZERO + c else ZERO[k - |p|..] + c;
      assert (p + ZERO + c)[k..] == a + u;
      WordBefore(q.prefix, a, u);
      if q.prefix <= a { OccursBehind(p, k, q.prefix); }
      NotThere(a + u, q);
    }
    StableConcat(p + ZERO, c, q);
  }

  /** The text that shows a rule not to be settled shows it to the whole list. */
  lemma {:induction false} UnsettledList(rules: seq<Rule>, i: nat) returns (c: string)
    requires Compatible(rules) && i < |rules| && !Settled(rules[i])
    ensures Leftover(c, rules[i].prefix)
    ensures var x := rules[i].prefix + rules[i].version + c;
            Rewrite(rules[i].prefix + ZERO + c, rules) == x && Rewrite(x, rules) != x
  {
    hide Stable, Settled, Substitute, Leftover, Apart;
    var r := rules[i];
    c := UnsettledText(r);
    NothingInLeftover(c, r.prefix, r);
    OldVersion(r, c);
    var x := r.prefix + r.version + c;
    forall j | 0 <= j < |rules| && j != i
      ensures Stable(r.prefix + ZERO + c, rules[j]) && Stable(x, rules[j]) && Stable(Substitute(x, r), rules[j])
    {
      OthersFree(r, rules[j], c);
    }
    OnlyOneRule(r.prefix + ZERO + c, rules, i);
    OnlyOneRule(x, rules, i);
  }

  lemma {:induction false} OthersFree(r: Rule, q: Rule, c: string)
    requires Wordy(r.prefix) && Wordy(q.prefix) && Apart(q.prefix, r) && Apart(r.prefix, q)
    requires Leftover(c, r.prefix) && NoDigitFirst(c)
    ensures Stable(r.prefix + ZERO + c, q)
    ensures Stable(r.prefix + r.version + c, q) && Stable(Substitute(r.prefix + r.version + c, r), q)
  {
    ApartDiffers(r, q);
    assert !Occurs(q.prefix, r.prefix);
    hide Stable, Substitute, Leftover, Occurs, Apart;
    NothingInLeftover(c, r.prefix, q);
    OldIsFree(r.prefix, c, q);
    assert Keeps(q, r);
    hide Wordy, Keeps;
    StableAfter(r, c, q);
    SubstituteKeeps(r.prefix + r.version + c, q, r);
  }

  lemma {:induction false} ApartDiffers(r: Rule, q: Rule)
    requires Apart(q.prefix, r)
    ensures q != r
  {
    assert r.prefix[0..] == r.prefix;
    assert Occurs(r.prefix, r.prefix);
  }

  ghost predicate RewriteSettles(rules: seq<Rule>)
  {
    forall t :: Rewrite(Rewrite(t, rules), rules) == Rewrite(t, rules)
  }

  /** Rules that leave each other alone settle together, on every text, exactly when each is settled. */
  lemma {:induction false} RewriteSettlesIff(rules: seq<Rule>)
    requires Compatible(rules)
    ensures RewriteSettles(rules) <==> forall r | r in rules :: Settled(r)
  {
    hide Settled, Rewrite, Apart;
    if i :| 0 <= i < |rules| && !Settled(rules[i]) {
      var c := UnsettledList(rules, i);
    } else {
      forall t ensures Rewrite(Rewrite(t, rules), rules) == Rewrite(t, rules) {
        RewriteIsStable(t, rules);
        StableRewrite(Rewrite(t, rules), rules);
      }
    }
  }
}
