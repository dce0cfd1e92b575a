/** When a frozen policy pays for its synthesis: the projected break-even and the observed crossing. */
module BreakEven {
  import opened Ordering
  import opened PolicyEpisodes
  import opened Wrappers

  datatype Resource = Seconds | ModelCalls | TokenCount

  function Cost(row: EpisodeRow, resource: Resource): real {
    match resource
    case Seconds => row.seconds
    case ModelCalls => |row.calls| as real
    case TokenCount => row.tokens
  }

  /** What a row counts for: its own cost, or that of the model's row with the same seed. */
  datatype Measure = Own(resource: Resource) | Partner(model: map<int, EpisodeRow>, resource: Resource)

  function Weigh(row: EpisodeRow, m: Measure): real {
    match m
    case Own(resource) => Cost(row, resource)
    case Partner(model, resource) => if row.seed in model then Cost(model[row.seed], resource) else 0.0
  }

  function Total(rows: seq<EpisodeRow>, m: Measure): real {
    if rows == [] then 0.0 else Total(rows[..|rows| - 1], m) + Weigh(rows[|rows| - 1], m)
  }

  lemma {:induction false} TotalStep(rows: seq<EpisodeRow>, k: nat, m: Measure)
    requires k < |rows|
    ensures Total(rows[..k + 1], m) == Total(rows[..k], m) + Weigh(rows[k], m)
  {
    assert rows[..k + 1][..k] == rows[..k];
  }

  // ----- the projection -----

  function Mean(total: real, episodes: nat): real
    requires episodes > 0
  {
    total / episodes as real
  }

  /** `break_even`: None, or the floor of set-up over the saving per episode, plus one. */
  function ProjectedBreakEven(setup: real, model: real, arm: real, episodes: nat): Option<int>
    requires episodes > 0
  {
    var savings := (model - arm) / episodes as real;
    if savings > 0.0 then Some((setup / savings).Floor + 1) else None
  }

  /** After n episodes the arm with its set-up has cost less than the model. */
  predicate Cheaper(setup: real, model: real, arm: real, episodes: nat, n: nat)
    requires episodes > 0
  {
    setup + n as real * Mean(arm, episodes) < n as real * Mean(model, episodes)
  }

  lemma {:induction false} QuotientBound(x: real, s: real, n: real)
    requires s > 0.0
    ensures n * s > x <==> n > x / s
  {
    var q := x / s;
    assert q * s == x;
    if n > q { Scale(q, n, s); }
    if n <= q { ScaleLe(n, q, s); }
  }

  lemma {:induction false} Scale(a: real, b: real, s: real)
    requires a < b && s > 0.0
    ensures a * s < b * s
  {
  }

  lemma {:induction false} ScaleLe(a: real, b: real, s: real)
    requires a <= b && s > 0.0
    ensures a * s <= b * s
  {
  }

  lemma {:induction false} CheaperMeansSaving(setup: real, model: real, arm: real, episodes: nat, n: nat)
    requires episodes > 0
    ensures Cheaper(setup, model, arm, episodes, n) <==> n as real * ((model - arm) / episodes as real) > setup
  {
    var e := episodes as real;
    var a, m := arm / e, model / e;
    assert (model - arm) / e == m - a;
    assert n as real * (m - a) == n as real * m - n as real * a;
  }

  /** With as many arm episodes as model episodes the projection is exact: a horizon is cheaper exactly when a
      break-even is reported and the horizon has reached it; none is reported exactly when no horizon ever is. */
  lemma {:induction false} BreakEvenIsExact(setup: real, model: real, arm: real, episodes: nat, n: nat)
    requires episodes > 0 && setup >= 0.0
    ensures var b := ProjectedBreakEven(setup, model, arm, episodes);
            && (Cheaper(setup, model, arm, episodes, n) <==> b.Some? && n >= b.value)
            && (b.Some? ==> b.value >= 1)
  {
    var s := (model - arm) / episodes as real;
    CheaperMeansSaving(setup, model, arm, episodes, n);
    if s > 0.0 {
      QuotientBound(setup, s, n as real);
      var q := setup / s;
      assert q >= 0.0;
      assert n as real > q <==> n >= q.Floor + 1;
    } else {
      assert n as real * s <= 0.0;
    }
  }

  lemma {:induction false} NoneIffNeverCheaper(setup: real, model: real, arm: real, episodes: nat)
    requires episodes > 0 && setup >= 0.0
    ensures ProjectedBreakEven(setup, model, arm, episodes).None?
       <==> forall n: nat :: !Cheaper(setup, model, arm, episodes, n)
  {
    var b := ProjectedBreakEven(setup, model, arm, episodes);
    forall n: nat ensures Cheaper(setup, model, arm, episodes, n) <==> b.Some? && n >= b.value {
      BreakEvenIsExact(setup, model, arm, episodes, n);
    }
    hide ProjectedBreakEven, Cheaper;
    if b.Some? {
      BreakEvenIsExact(setup, model, arm, episodes, 0);
      var n: nat := b.value;
      assert Cheaper(setup, model, arm, episodes, n);
    }
  }

  /** The pilot's gate: at most 100 episodes to break even means cheaper at a hundred episodes. */
  lemma {:induction false} GateMeansCheaperAtHundred(setup: real, model: real, arm: real, episodes: nat)
    requires episodes > 0 && setup >= 0.0
    ensures var b := ProjectedBreakEven(setup, model, arm, episodes);
            b.Some? && b.value <= 100 <==> Cheaper(setup, model, arm, episodes, 100)
  {
    BreakEvenIsExact(setup, model, arm, episodes, 100);
  }

  // ----- the observation -----

  /** `{r["seed"]: r for r in ...}`: the last row with a seed wins. */
  function BySeed(rows: seq<EpisodeRow>): (m: map<int, EpisodeRow>)
    ensures forall i | 0 <= i < |rows| :: rows[i].seed in m
  {
    if rows == [] then map[]
    else
      var last := rows[|rows| - 1];
      BySeed(rows[..|rows| - 1])[last.seed := last]
  }

  function PlaceBySeed(row: EpisodeRow, s: seq<EpisodeRow>): (r: seq<EpisodeRow>)
    ensures multiset(r) == multiset(s) + multiset{row}
  {
    if s == [] then [row]
    else
      assert s == [s[0]] + s[1..];
      if row.seed <= s[0].seed then [row] + s else [s[0]] + PlaceBySeed(row, s[1..])
  }

  function SortedBySeed(rows: seq<EpisodeRow>): (r: seq<EpisodeRow>)
    ensures multiset(r) == multiset(rows)
  {
    if rows == [] then []
    else
      assert rows == [rows[0]] + rows[1..];
      PlaceBySeed(rows[0], SortedBySeed(rows[1..]))
  }

  ghost predicate Ascending(s: seq<EpisodeRow>) {
    forall i, j | 0 <= i < j < |s| :: s[i].seed <= s[j].seed
  }

  lemma {:induction false} PlacedMembers(row: EpisodeRow, s: seq<EpisodeRow>)
    ensures forall i | 0 <= i < |PlaceBySeed(row, s)| :: PlaceBySeed(row, s)[i] == row || PlaceBySeed(row, s)[i] in s
  {
    if s != [] { PlacedMembers(row, s[1..]); }
  }

  lemma {:induction false} PlacedAscending(row: EpisodeRow, s: seq<EpisodeRow>)
    requires Ascending(s)
    ensures Ascending(PlaceBySeed(row, s))
  {
    if s != [] && row.seed > s[0].seed {
      PlacedAscending(row, s[1..]);
      PlacedMembers(row, s[1..]);
      var r := PlaceBySeed(row, s[1..]);
      assert PlaceBySeed(row, s) == [s[0]] + r;
      hide PlaceBySeed;
      forall i | 0 <= i < |r| ensures s[0].seed <= r[i].seed {
        if r[i] != row {
          var k :| 0 <= k < |s[1..]| && s[1..][k] == r[i];
          assert s[k + 1] == r[i];
        }
      }
    }
  }

  function WithSeed(s: seq<EpisodeRow>, seed: int): seq<EpisodeRow> {
    if s == [] then [] else (if s[0].seed == seed then [s[0]] else []) + WithSeed(s[1..], seed)
  }

  lemma {:induction false} PlacedWithSeed(row: EpisodeRow, s: seq<EpisodeRow>, seed: int)
    requires Ascending(s)
    ensures WithSeed(PlaceBySeed(row, s), seed) == (if row.seed == seed then [row] else []) + WithSeed(s, seed)
  {
    if s != [] && row.seed > s[0].seed {
      PlacedWithSeed(row, s[1..], seed);
      var r := PlaceBySeed(row, s[1..]);
      assert ([s[0]] + r)[1..] == r;
      if row.seed == seed { assert WithSeed(s, seed) == WithSeed(s[1..], seed); }
    } else {
      assert ([row] + s)[1..] == s;
    }
  }

  /** Rows with one seed keep the order they came in. */
  lemma {:induction false} SortedKeepsTies(rows: seq<EpisodeRow>, seed: int)
    ensures WithSeed(SortedBySeed(rows), seed) == WithSeed(rows, seed)
  {
    if rows != [] {
      SortedKeepsTies(rows[1..], seed);
      SortedAscending(rows[1..]);
      PlacedWithSeed(rows[0], SortedBySeed(rows[1..]), seed);
    }
  }

  /** The rows are walked in seed order. */
  lemma {:induction false} SortedAscending(rows: seq<EpisodeRow>)
    ensures Ascending(SortedBySeed(rows))
  {
    if rows != [] {
      SortedAscending(rows[1..]);
      PlacedAscending(rows[0], SortedBySeed(rows[1..]));
    }
  }

  ghost predicate Covers(model: map<int, EpisodeRow>, group: seq<EpisodeRow>) {
    forall i | 0 <= i < |group| :: group[i].seed in model
  }

  /** Over the first n seeds the arm with its set-up cost less than the model. */
  ghost predicate AheadAfter(setup: real, group: seq<EpisodeRow>, model: map<int, EpisodeRow>, resource: Resource,
                             n: nat)
    requires n <= |group|
  {
    setup + Total(group[..n], Own(resource)) < Total(group[..n], Partner(model, resource))
  }

  /** The least n up to k after which the arm is ahead, if there is one. */
  ghost predicate LeastAhead(setup: real, group: seq<EpisodeRow>, model: map<int, EpisodeRow>, resource: Resource,
                             k: nat, crossing: Option<nat>)
    requires k <= |group|
  {
    match crossing
    case None => forall n | 1 <= n <= k :: !AheadAfter(setup, group, model, resource, n)
    case Some(c) => 1 <= c <= k && AheadAfter(setup, group, model, resource, c)
                    && forall n | 1 <= n < c :: !AheadAfter(setup, group, model, resource, n)
  }

  lemma {:induction false} AheadStep(setup: real, group: seq<EpisodeRow>, model: map<int, EpisodeRow>,
                                     resource: Resource, k: nat, c: Option<nat>)
    requires k < |group| && LeastAhead(setup, group, model, resource, k, c)
    ensures LeastAhead(setup, group, model, resource, k + 1,
                       if c.None? && AheadAfter(setup, group, model, resource, k + 1) then Some(k + 1) else c)
  {
    hide AheadAfter;
  }

  /** The crossing loop: the least number of seeds, in seed order, after which the arm is ahead. */
  method ObservedCrossing(setup: real, rows: seq<EpisodeRow>, model: map<int, EpisodeRow>, resource: Resource)
    returns (crossing: Option<nat>)
    requires Covers(model, SortedBySeed(rows))
    ensures LeastAhead(setup, SortedBySeed(rows), model, resource, |SortedBySeed(rows)|, crossing)
  {
    var group := SortedBySeed(rows);
    var armTotal, modelTotal := setup, 0.0;
    crossing := None;
    hide Total, LeastAhead, SortedBySeed;
    NoneAheadYet(setup, group, model, resource);
    for k := 0 to |group|
      invariant armTotal == setup + Total(group[..k], Own(resource))
                && modelTotal == Total(group[..k], Partner(model, resource))
      invariant LeastAhead(setup, group, model, resource, k, crossing)
    {
      TotalStep(group, k, Own(resource));
      TotalStep(group, k, Partner(model, resource));
      AheadStep(setup, group, model, resource, k, crossing);
      armTotal := armTotal + Cost(group[k], resource);
      modelTotal := modelTotal + Cost(model[group[k].seed], resource);
      if crossing.None? && armTotal < modelTotal {
        crossing := Some(k + 1);
      }
    }
  }

  lemma {:induction false} NoneAheadYet(setup: real, group: seq<EpisodeRow>, model: map<int, EpisodeRow>,
                                        resource: Resource)
    ensures LeastAhead(setup, group, model, resource, 0, None)
    ensures forall m :: Total(group[..0], m) == 0.0
  {
  }

  // ----- projection and observation agree at the end -----

  lemma {:induction false} TotalConcat(a: seq<EpisodeRow>, b: seq<EpisodeRow>, m: Measure)
    ensures Total(a + b, m) == Total(a, m) + Total(b, m)
  {
    hide Weigh;
    if b == [] {
      assert a + b == a;
    } else {
      TotalConcat(a, b[..|b| - 1], m);
      assert (a + b)[..|a + b| - 1] == a + b[..|b| - 1];
    }
  }

  lemma {:induction false} TotalWithout(b: seq<EpisodeRow>, i: nat, m: Measure)
    requires i < |b|
    ensures Total(b, m) == Total(b[..i] + b[i + 1..], m) + Weigh(b[i], m)
  {
    TotalStep(b, i, m);
    assert b == b[..i + 1] + b[i + 1..];
    hide Total, Weigh;
    TotalConcat(b[..i + 1], b[i + 1..], m);
    TotalConcat(b[..i], b[i + 1..], m);
  }

  lemma {:induction false} FindIn(a: seq<EpisodeRow>, b: seq<EpisodeRow>) returns (i: nat)
    requires multiset(a) == multiset(b) && a != []
    ensures i < |b| && b[i] == a[|a| - 1]
    ensures multiset(a[..|a| - 1]) == multiset(b[..i] + b[i + 1..])
  {
    SameElements(a, b);
    var x := a[|a| - 1];
    assert x in a && x in b;
    i :| 0 <= i < |b| && b[i] == x;
    RemovedMultiset(b, i);
    assert a == a[..|a| - 1] + [x];
  }

  lemma {:induction false} TotalForgetsOrder(a: seq<EpisodeRow>, b: seq<EpisodeRow>, m: Measure)
    requires multiset(a) == multiset(b)
    ensures Total(a, m) == Total(b, m)
    decreases |a|
  {
    if a == [] {
      SameElements(a, b);
    } else {
      hide Weigh;
      var i := FindIn(a, b);
      assert Total(a, m) == Total(a[..|a| - 1], m) + Weigh(a[|a| - 1], m);
      hide Total;
      TotalForgetsOrder(a[..|a| - 1], b[..i] + b[i + 1..], m);
      TotalWithout(b, i, m);
    }
  }

  /** The totals are the rows' model calls, their tokens, and the seconds of one row after the other. */
  lemma {:induction false} ResourceTotals(rows: seq<EpisodeRow>)
    ensures Total(rows, Own(ModelCalls)) == |RowCalls(rows)| as real
    ensures Total(rows, Own(TokenCount)) == RowTokens(rows)
    ensures Total(rows, Own(Seconds)) == if rows == [] then 0.0
                                         else rows[0].seconds + Total(rows[1..], Own(Seconds))
  {
    if rows != [] {
      ResourceTotals(rows[..|rows| - 1]);
      assert [rows[0]][..0] == [] && rows == [rows[0]] + rows[1..];
      TotalConcat([rows[0]], rows[1..], Own(Seconds));
    }
  }

  ghost predicate DistinctSeeds(rows: seq<EpisodeRow>) {
    forall i, j | 0 <= i < j < |rows| :: rows[i].seed != rows[j].seed
  }

  /** A seed stands for the last row that has it. */
  lemma {:induction false} BySeedAt(rows: seq<EpisodeRow>, i: nat)
    requires i < |rows| && forall j | i < j < |rows| :: rows[j].seed != rows[i].seed
    ensures BySeed(rows)[rows[i].seed] == rows[i]
  {
    if i < |rows| - 1 { BySeedAt(rows[..|rows| - 1], i); }
  }

  /** The two groups played the same seeds, each once. */
  ghost predicate SameSeeds(a: seq<EpisodeRow>, b: seq<EpisodeRow>) {
    |a| == |b| && DistinctSeeds(a) && forall i | 0 <= i < |a| :: a[i].seed == b[i].seed
  }

  lemma {:induction false} PartnersAreModel(model: seq<EpisodeRow>, group: seq<EpisodeRow>, resource: Resource, n: nat)
    requires SameSeeds(model, group) && n <= |group|
    ensures Covers(BySeed(model), group)
    ensures Total(group[..n], Partner(BySeed(model), resource)) == Total(model[..n], Own(resource))
  {
    forall i | 0 <= i < |group| ensures group[i].seed in BySeed(model) && BySeed(model)[group[i].seed] == model[i] {
      BySeedAt(model, i);
    }
    if n > 0 {
      hide BySeed;
      PartnersAreModel(model, group, resource, n - 1);
      TotalStep(group, n - 1, Partner(BySeed(model), resource));
      TotalStep(model, n - 1, Own(resource));
      hide Total;
    }
  }

  lemma {:induction false} CoversSorted(m: map<int, EpisodeRow>, group: seq<EpisodeRow>)
    requires Covers(m, group)
    ensures Covers(m, SortedBySeed(group)) && |SortedBySeed(group)| == |group|
  {
    var sorted := SortedBySeed(group);
    SameElements(sorted, group);
    hide SortedBySeed;
    forall i | 0 <= i < |sorted| ensures sorted[i].seed in m {
      assert sorted[i] in sorted && sorted[i] in group;
    }
  }

  /** On the benchmark's own episodes the projection says "by the number of episodes played" exactly when the
      arm was observed ahead after the last of them. */
  lemma {:induction false} ProjectionMatchesObservation(setup: real, model: seq<EpisodeRow>, arm: seq<EpisodeRow>,
                                                        resource: Resource)
    requires setup >= 0.0 && model != [] && SameSeeds(model, arm)
    ensures Covers(BySeed(model), SortedBySeed(arm)) && |SortedBySeed(arm)| == |arm|
    ensures var b := ProjectedBreakEven(setup, Total(model, Own(resource)), Total(arm, Own(resource)), |arm|);
            b.Some? && b.value <= |arm| <==> AheadAfter(setup, SortedBySeed(arm), BySeed(model), resource, |arm|)
  {
    var sorted := SortedBySeed(arm);
    var m := BySeed(model);
    PartnersAreModel(model, arm, resource, |arm|);
    CoversSorted(m, arm);
    TotalForgetsOrder(sorted, arm, Own(resource));
    TotalForgetsOrder(sorted, arm, Partner(m, resource));
    assert sorted[..|arm|] == sorted && arm[..|arm|] == arm && model[..|arm|] == model;
    hide Total, SortedBySeed, BySeed, ProjectedBreakEven, Cheaper;
    BreakEvenIsExact(setup, Total(model, Own(resource)), Total(arm, Own(resource)), |arm|, |arm|);
    CheaperAtEnd(setup, Total(model, Own(resource)), Total(arm, Own(resource)), |arm|);
  }

  lemma {:induction false} CheaperAtEnd(setup: real, model: real, arm: real, episodes: nat)
    requires episodes > 0
    ensures Cheaper(setup, model, arm, episodes, episodes) <==> setup + arm < model
  {
    var e := episodes as real;
    assert e * (arm / e) == arm && e * (model / e) == model;
  }

  /** The rows `Evaluate` returns have groups of that kind: every arm played the held-out seeds, in order. */
  lemma {:induction false} EvaluatedGroupsMatch(rows: seq<EpisodeRow>, heldout: seq<int>, shifted: seq<int>, arm: Arm)
    requires Heads(rows) == SplitPlan(heldout, false) + SplitPlan(shifted, true) && Distinct(heldout)
    ensures SameSeeds(Group(rows, Model, false), Group(rows, arm, false))
    ensures |Group(rows, arm, false)| == |heldout|
  {
    ArmsPlayEverySeed(heldout, shifted, arm);
    ArmsPlayEverySeed(heldout, shifted, Model);
    GroupSeeds(rows, arm, false);
    GroupSeeds(rows, Model, false);
    hide SeedsOf, SplitPlan, Group, Heads;
  }
}
