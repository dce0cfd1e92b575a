/** The greedy, weight-descending test sharder.
    A dict is a distinct key list in insertion order together with its map. */
module Sharding {
  import opened Ordering
  import opened Wrappers

  ghost predicate IsDict(keys: seq<string>, sizes: map<string, nat>) {
    Distinct(keys) && forall k :: k in keys <==> k in sizes
  }

  function At(w: map<string, nat>, name: string): nat {
    if name in w then w[name] else 0
  }

  /** Sum of the weights of those `names` that lie in `shard`. */
  function LoadOf(names: seq<string>, w: map<string, nat>, shard: set<string>): nat {
    if names == [] then 0
    else LoadOf(names[..|names| - 1], w, shard)
         + (if names[|names| - 1] in shard then At(w, names[|names| - 1]) else 0)
  }

  function Total(names: seq<string>, w: map<string, nat>): nat {
    if names == [] then 0 else Total(names[..|names| - 1], w) + At(w, names[|names| - 1])
  }

  /** An isolated module is given the weight of the whole suite. */
  function Weights(keys: seq<string>, sizes: map<string, nat>, isolated: set<string>): map<string, nat> {
    map name | name in sizes :: if name in isolated then Total(keys, sizes) else sizes[name]
  }

  predicate KeyLe(w: map<string, nat>, a: string, b: string) {
    At(w, a) > At(w, b) || (At(w, a) == At(w, b) && StrLe(a, b))
  }

  function ByWeight(w: map<string, nat>): (string, string) -> bool {
    (a, b) => KeyLe(w, a, b)
  }

  lemma {:induction false} ByWeightTotal(w: map<string, nat>)
    ensures TotalOrder(ByWeight(w))
  {
    StrLeIsTotalOrder();
  }

  function PlacementOrder(keys: seq<string>, sizes: map<string, nat>, isolated: set<string>): seq<string> {
    Sort(ByWeight(Weights(keys, sizes, isolated)), keys)
  }

  // ----- the greedy loop as a function -----

  datatype Bins = Bins(shards: seq<set<string>>, sizes: seq<nat>)

  /** Index of the smallest size, the first one on ties. */
  function Least(sizes: seq<nat>): (i: nat)
    requires |sizes| > 0
    ensures i < |sizes|
    ensures forall j | 0 <= j < |sizes| :: sizes[i] <= sizes[j]
    ensures forall j | 0 <= j < i :: sizes[i] < sizes[j]
  {
    if |sizes| == 1 then 0
    else
      var i := Least(sizes[..|sizes| - 1]);
      if sizes[|sizes| - 1] < sizes[i] then |sizes| - 1 else i
  }

  function Place(b: Bins, name: string, weight: nat): (r: Bins)
    requires |b.shards| == |b.sizes| > 0
    ensures |r.shards| == |r.sizes| == |b.shards|
  {
    var i := Least(b.sizes);
    Bins(b.shards[i := b.shards[i] + {name}], b.sizes[i := b.sizes[i] + weight])
  }

  function Fill(order: seq<string>, w: map<string, nat>, count: nat): (r: Bins)
    requires count > 0
    ensures |r.shards| == |r.sizes| == count
  {
    if order == [] then Bins(seq(count, _ => {}), seq(count, _ => 0))
    else Place(Fill(order[..|order| - 1], w, count), order[|order| - 1], At(w, order[|order| - 1]))
  }

  /** The shards `partition_modules` returns for a positive shard count. */
  function Partition(keys: seq<string>, sizes: map<string, nat>, count: nat,
                     isolated: set<string>): (r: seq<set<string>>)
    requires count > 0
    ensures |r| == count
  {
    Fill(PlacementOrder(keys, sizes, isolated), Weights(keys, sizes, isolated), count).shards
  }

  method LeastLoaded(loads: seq<nat>) returns (index: nat)
    requires |loads| > 0
    ensures index == Least(loads)
  {
    index := 0;
    var candidate := 1;
    while candidate < |loads|
      invariant 0 <= index < candidate <= |loads|
      invariant index == Least(loads[..candidate])
    {
      assert loads[..candidate + 1][..candidate] == loads[..candidate];
      if loads[candidate] < loads[index] {
        index := candidate;
      }
      candidate := candidate + 1;
    }
    assert loads[..candidate] == loads;
  }

  method PlaceModule(shards: seq<set<string>>, loads: seq<nat>, name: string, weight: nat)
    returns (shards': seq<set<string>>, loads': seq<nat>)
    requires |shards| == |loads| > 0
    ensures Bins(shards', loads') == Place(Bins(shards, loads), name, weight)
  {
    var index := LeastLoaded(loads);
    shards' := shards[index := shards[index] + {name}];
    loads' := loads[index := loads[index] + weight];
  }

  method FillShards(order: seq<string>, w: map<string, nat>, count: nat) returns (shards: seq<set<string>>)
    requires count > 0
    ensures shards == Fill(order, w, count).shards
  {
    shards := seq(count, _ => {});
    var loads: seq<nat> := seq(count, _ => 0);
    var k := 0;
    assert Fill(order[..0], w, count) == Bins(shards, loads);
    hide Fill, Place, At;
    while k < |order|
      invariant 0 <= k <= |order|
      invariant Fill(order[..k], w, count) == Bins(shards, loads)
    {
      FillNext(order, k, w, count);
      assert |shards| == |Bins(shards, loads).shards| == |loads| == count;
      shards, loads := PlaceModule(shards, loads, order[k], At(w, order[k]));
      k := k + 1;
    }
    assert order[..k] == order;
  }

  lemma {:induction false} FillNext(order: seq<string>, k: nat, w: map<string, nat>, count: nat)
    requires k < |order| && count > 0
    ensures Fill(order[..k + 1], w, count) == Place(Fill(order[..k], w, count), order[k], At(w, order[k]))
  {
    assert order[..k + 1][..k] == order[..k];
  }

  method PartitionModules(keys: seq<string>, sizes: map<string, nat>, count: int, isolated: set<string>)
    returns (r: Result<seq<set<string>>>)
    requires IsDict(keys, sizes)
    ensures r.Err? <==> count < 1
    ensures r.Ok? ==> r.value == Partition(keys, sizes, count, isolated)
  {
    if count < 1 {
      return Err("shard count must be positive");
    }
    var w := Weights(keys, sizes, isolated);
    var shards := FillShards(PlacementOrder(keys, sizes, isolated), w, count);
    r := Ok(shards);
  }

  // ----- exact cover -----

  ghost predicate Held(shards: seq<set<string>>, name: string) {
    exists i | 0 <= i < |shards| :: name in shards[i]
  }

  /** Every listed name lies in exactly one shard and the shards hold nothing else. */
  ghost predicate Covers(names: seq<string>, shards: seq<set<string>>) {
    && (forall n | n in names :: Held(shards, n))
    && (forall i, n | 0 <= i < |shards| && n in shards[i] :: n in names)
    && (forall i, j, n | 0 <= i < j < |shards| :: !(n in shards[i] && n in shards[j]))
  }

  lemma {:induction false} FillCovers(order: seq<string>, w: map<string, nat>, count: nat)
    requires count > 0 && Distinct(order)
    ensures Covers(order, Fill(order, w, count).shards)
  {
    if order != [] {
      var last := |order| - 1;
      FillCovers(order[..last], w, count);
      var b := Fill(order[..last], w, count);
      var r := Fill(order, w, count).shards;
      var i := Least(b.sizes);
      assert order[last] !in order[..last];
      assert order[last] in r[i];
      forall n | n in order ensures Held(r, n) {
        if n != order[last] {
          assert n in order[..last];
          var j :| 0 <= j < count && n in b.shards[j];
          assert n in r[j];
        }
      }
      forall j, n | 0 <= j < count && n in r[j] ensures n in order {
        if n != order[last] {
          assert n in b.shards[j];
          assert n in order[..last];
        }
      }
    }
  }

  // ----- loads -----

  lemma {:induction false} LoadIgnoresStrangers(names: seq<string>, w: map<string, nat>, s: set<string>, x: string)
    requires x !in names
    ensures LoadOf(names, w, s + {x}) == LoadOf(names, w, s)
  {
    if names != [] {
      assert x !in names[..|names| - 1];
      LoadIgnoresStrangers(names[..|names| - 1], w, s, x);
    }
  }

  /** The running `sizes` are the loads of the shards. */
  lemma {:induction false} FillSizes(order: seq<string>, w: map<string, nat>, count: nat)
    requires count > 0 && Distinct(order)
    ensures forall i | 0 <= i < count ::
              Fill(order, w, count).sizes[i] == LoadOf(order, w, Fill(order, w, count).shards[i])
  {
    if order == [] {
    } else {
      var last := |order| - 1;
      FillSizes(order[..last], w, count);
      FillCovers(order[..last], w, count);
      var b := Fill(order[..last], w, count);
      assert order[last] !in order[..last];
      forall i | 0 <= i < count
        ensures Fill(order, w, count).sizes[i] == LoadOf(order, w, Fill(order, w, count).shards[i])
      {
        LoadIgnoresStrangers(order[..last], w, b.shards[i], order[last]);
      }
    }
  }

  function SumLoads(names: seq<string>, w: map<string, nat>, shards: seq<set<string>>): nat {
    if shards == [] then 0
    else SumLoads(names, w, shards[..|shards| - 1]) + LoadOf(names, w, shards[|shards| - 1])
  }

  lemma {:induction false} SumLoadsAtLeast(names: seq<string>, w: map<string, nat>, shards: seq<set<string>>, lo: nat)
    requires forall i | 0 <= i < |shards| :: lo <= LoadOf(names, w, shards[i])
    ensures |shards| * lo <= SumLoads(names, w, shards)
  {
    if shards != [] {
      SumLoadsAtLeast(names, w, shards[..|shards| - 1], lo);
      MulStep(|shards| - 1, lo);
    }
  }

  lemma {:induction false} SumLoadsAtMost(names: seq<string>, w: map<string, nat>, shards: seq<set<string>>, hi: nat)
    requires forall i | 0 <= i < |shards| :: LoadOf(names, w, shards[i]) <= hi
    ensures SumLoads(names, w, shards) <= |shards| * hi
  {
    if shards != [] {
      SumLoadsAtMost(names, w, shards[..|shards| - 1], hi);
      MulStep(|shards| - 1, hi);
    }
  }

  lemma {:induction false} MulStep(n: nat, x: nat)
    ensures (n + 1) * x == n * x + x
  {
  }

  lemma {:induction false} MulMono(n: nat, x: nat, y: nat)
    requires x <= y
    ensures n * x <= n * y
  {
  }

  lemma {:induction false} SumLoadsStep(names: seq<string>, w: map<string, nat>, shards: seq<set<string>>)
    requires names != []
    requires forall i, j | 0 <= i < j < |shards| ::
             !(names[|names| - 1] in shards[i] && names[|names| - 1] in shards[j])
    ensures SumLoads(names, w, shards) == SumLoads(names[..|names| - 1], w, shards)
            + (if Held(shards, names[|names| - 1]) then At(w, names[|names| - 1]) else 0)
  {
    if shards != [] {
      var n := |shards| - 1;
      SumLoadsStep(names, w, shards[..n]);
      if names[|names| - 1] in shards[n] {
        assert forall i | 0 <= i < n :: names[|names| - 1] !in shards[..n][i];
      } else if Held(shards, names[|names| - 1]) {
        var i :| 0 <= i < |shards| && names[|names| - 1] in shards[i];
        assert names[|names| - 1] in shards[..n][i];
      }
    }
  }

  /** Splitting the modules over shards splits their total weight. */
  lemma {:induction false} LoadsSumToTotal(names: seq<string>, w: map<string, nat>, shards: seq<set<string>>)
    requires forall n | n in names :: Held(shards, n)
    requires forall i, j, n | 0 <= i < j < |shards| :: !(n in shards[i] && n in shards[j])
    ensures SumLoads(names, w, shards) == Total(names, w)
  {
    if names == [] {
      SumLoadsAtMost(names, w, shards, 0);
    } else {
      assert forall n | n in names[..|names| - 1] :: n in names;
      LoadsSumToTotal(names[..|names| - 1], w, shards);
      assert names[|names| - 1] in names;
      SumLoadsStep(names, w, shards);
    }
  }

  lemma {:induction false} CoverSumsToTotal(names: seq<string>, w: map<string, nat>, shards: seq<set<string>>)
    requires Covers(names, shards)
    ensures SumLoads(names, w, shards) == Total(names, w)
  {
    LoadsSumToTotal(names, w, shards);
  }

  // ----- Graham's bound -----

  /** In units of half a shard: a module too heavy to share a shard with weight `p` costs two, any other one. */
  function Charge(w: map<string, nat>, p: nat, opt: nat): map<string, nat> {
    map name | name in w :: if w[name] + p > opt then 2 else 1
  }

  lemma {:induction false} ChargeLower(names: seq<string>, w: map<string, nat>, shard: set<string>, p: nat, opt: nat)
    requires forall n | n in names :: n in w
    requires p <= opt
    ensures LoadOf(names, Charge(w, p, opt), shard) == 0 ==> LoadOf(names, w, shard) == 0
    ensures LoadOf(names, Charge(w, p, opt), shard) == 1 ==> LoadOf(names, w, shard) <= opt - p
  {
    if names != [] {
      assert names[|names| - 1] in names;
      ChargeLower(names[..|names| - 1], w, shard, p, opt);
    }
  }

  lemma {:induction false} ChargeUpper(names: seq<string>, w: map<string, nat>, shard: set<string>, p: nat, opt: nat)
    requires forall n | n in names :: n in w && w[n] >= p
    requires 3 * p > opt
    ensures var c := LoadOf(names, Charge(w, p, opt), shard);
            var l := LoadOf(names, w, shard);
            && (c >= 1 ==> l >= p)
            && (c >= 2 ==> l >= 2 * p || l + p > opt)
            && (c >= 3 ==> l > opt)
  {
    if names != [] {
      assert names[|names| - 1] in names;
      ChargeUpper(names[..|names| - 1], w, shard, p, opt);
    }
  }

  ghost predicate Descending(order: seq<string>, w: map<string, nat>) {
    forall i, j | 0 <= i < j < |order| :: At(w, order[i]) >= At(w, order[j])
  }

  /** If even the least loaded shard cannot take the next module within `opt`, the module weighs at most opt / 3. */
  lemma {:induction false} LateModuleIsLight(order: seq<string>, w: map<string, nat>, count: nat,
                                             other: seq<set<string>>, opt: nat)
    requires count > 0 && order != [] && Distinct(order) && Descending(order, w)
    requires forall n | n in order :: n in w
    requires |other| == count && Covers(order, other)
    requires forall i | 0 <= i < count :: LoadOf(order, w, other[i]) <= opt
    requires var b := Fill(order[..|order| - 1], w, count);
             b.sizes[Least(b.sizes)] + At(w, order[|order| - 1]) > opt
    ensures 3 * At(w, order[|order| - 1]) <= opt
  {
    var last := |order| - 1;
    var before := order[..last];
    var p := At(w, order[last]);
    var b := Fill(before, w, count);
    if 3 * p > opt {
      assert p <= opt by {
        assert order[last] in order;
        var i :| 0 <= i < count && order[last] in other[i];
        assert LoadOf(order, w, other[i]) >= p;
      }
      var c := Charge(w, p, opt);
      assert forall n | n in order :: n in w && w[n] >= p;
      FillSizes(before, w, count);
      FillCovers(before, w, count);
      forall i | 0 <= i < count ensures LoadOf(before, c, b.shards[i]) >= 2 {
        assert forall n | n in before :: n in w;
        ChargeLower(before, w, b.shards[i], p, opt);
      }
      assert order[last] in order && At(c, order[last]) >= 1;
      ChargeTotalLower(before, c, b.shards);
      forall i | 0 <= i < count ensures LoadOf(order, c, other[i]) <= 2 {
        ChargeUpper(order, w, other[i], p, opt);
      }
      LoadsSumToTotal(order, c, other);
      SumLoadsAtMost(order, c, other, 2);
      assert false;
    }
  }

  lemma {:induction false} ChargeTotalLower(names: seq<string>, c: map<string, nat>, shards: seq<set<string>>)
    requires Covers(names, shards)
    requires forall i | 0 <= i < |shards| :: LoadOf(names, c, shards[i]) >= 2
    ensures Total(names, c) >= 2 * |shards|
  {
    LoadsSumToTotal(names, c, shards);
    SumLoadsAtLeast(names, c, shards, 2);
  }

  /** The list-scheduling step: the least loaded of `count` shards holds at most the average. */
  lemma {:induction false} LeastIsBelowAverage(order: seq<string>, w: map<string, nat>, count: nat)
    requires count > 0 && Distinct(order)
    ensures var b := Fill(order, w, count); count * b.sizes[Least(b.sizes)] <= Total(order, w)
  {
    var b := Fill(order, w, count);
    FillSizes(order, w, count);
    FillCovers(order, w, count);
    LoadsSumToTotal(order, w, b.shards);
    SumLoadsAtLeast(order, w, b.shards, b.sizes[Least(b.sizes)]);
  }

  /** load <= (4/3 - 1/(3m)) opt, over the integers. */
  ghost predicate WithinGraham(m: nat, load: nat, opt: nat) {
    3 * m * load <= (4 * m - 1) * opt
  }

  lemma {:induction false} GrahamArithmetic(m: nat, least: nat, p: nat, opt: nat, rest: nat)
    requires m > 0 && m * least <= rest && rest + p <= m * opt && 3 * p <= opt
    ensures WithinGraham(m, least + p, opt)
  {
    var n := m - 1;
    MulMono(n, 3 * p, opt);
    MulStep(n, opt);
    Expand(n, least, p, opt);
  }

  /** The two sides of the bound for m = n + 1 shards, multiplied out. */
  lemma {:induction false} Expand(n: nat, least: nat, p: nat, opt: nat)
    ensures 3 * (n + 1) * (least + p) == 3 * ((n + 1) * least) + n * (3 * p) + 3 * p
    ensures (4 * (n + 1) - 1) * opt == 3 * ((n + 1) * opt) + n * opt
  {
  }

  lemma {:induction false} WithinOptimum(m: nat, load: nat, opt: nat)
    requires m > 0 && load <= opt
    ensures WithinGraham(m, load, opt)
  {
    MulMono(m, load, opt);
    Expand(m - 1, load, 0, opt);
  }

  /** The module placed last on the heaviest shard decides the bound. */
  lemma {:induction false} GrahamAtCriticalModule(order: seq<string>, w: map<string, nat>, count: nat,
                                                  other: seq<set<string>>, opt: nat)
    requires count > 0 && order != [] && Distinct(order) && Descending(order, w)
    requires forall n | n in order :: n in w
    requires |other| == count && Covers(order, other)
    requires forall i | 0 <= i < count :: LoadOf(order, w, other[i]) <= opt
    ensures var b := Fill(order[..|order| - 1], w, count);
            WithinGraham(count, b.sizes[Least(b.sizes)] + At(w, order[|order| - 1]), opt)
  {
    hide Fill, Covers, Descending, WithinGraham;
    var before := order[..|order| - 1];
    var b := Fill(before, w, count);
    var least, p := b.sizes[Least(b.sizes)], At(w, order[|order| - 1]);
    if least + p <= opt {
      WithinOptimum(count, least + p, opt);
    } else {
      LateModuleIsLight(order, w, count, other, opt);
      LeastIsBelowAverage(before, w, count);
      CoverSumsToTotal(order, w, other);
      SumLoadsAtMost(order, w, other, opt);
      GrahamArithmetic(count, least, p, opt, Total(before, w));
    }
  }

  function Without(shards: seq<set<string>>, name: string): (r: seq<set<string>>)
    ensures |r| == |shards|
  {
    seq(|shards|, i requires 0 <= i < |shards| => shards[i] - {name})
  }

  lemma {:induction false} CoversPrefix(order: seq<string>, w: map<string, nat>, other: seq<set<string>>)
    requires order != [] && Distinct(order) && Covers(order, other)
    ensures Covers(order[..|order| - 1], Without(other, order[|order| - 1]))
    ensures forall i | 0 <= i < |other| ::
              LoadOf(order[..|order| - 1], w, Without(other, order[|order| - 1])[i]) <= LoadOf(order, w, other[i])
  {
    var last := order[|order| - 1];
    var before := order[..|order| - 1];
    var less := Without(other, last);
    forall n | n in before ensures Held(less, n) {
      assert n in order;
      var i :| 0 <= i < |other| && n in other[i];
      assert n in less[i];
    }
    forall i, n | 0 <= i < |less| && n in less[i] ensures n in before {
      assert n in other[i] && n in order;
    }
    forall i | 0 <= i < |other| ensures LoadOf(before, w, less[i]) <= LoadOf(order, w, other[i]) {
      LoadRestrict(before, w, less[i], other[i]);
    }
  }

  lemma {:induction false} GrahamOnOrder(order: seq<string>, w: map<string, nat>, count: nat, other: seq<set<string>>,
                                         opt: nat, s: nat)
    requires count > 0 && Distinct(order) && Descending(order, w) && s < count
    requires forall n | n in order :: n in w
    requires |other| == count && Covers(order, other)
    requires forall i | 0 <= i < count :: LoadOf(order, w, other[i]) <= opt
    ensures WithinGraham(count, Fill(order, w, count).sizes[s], opt)
    decreases |order|
  {
    hide Fill, Covers, Descending, WithinGraham, LoadOf, Without;
    if order == [] {
      FillEmpty(w, count, s);
      WithinOptimum(count, 0, opt);
    } else {
      var before := order[..|order| - 1];
      FillNext(order, |order| - 1, w, count);
      assert order[..|order|] == order;
      if s == Least(Fill(before, w, count).sizes) {
        GrahamAtCriticalModule(order, w, count, other, opt);
      } else {
        CoversPrefix(order, w, other);
        DescendingPrefix(order, w);
        var less := Without(other, order[|order| - 1]);
        forall i | 0 <= i < count ensures LoadOf(before, w, less[i]) <= opt {
          assert LoadOf(order, w, other[i]) <= opt;
        }
        GrahamOnOrder(before, w, count, less, opt, s);
      }
    }
  }

  lemma {:induction false} FillEmpty(w: map<string, nat>, count: nat, s: nat)
    requires s < count
    ensures Fill([], w, count).sizes[s] == 0
  {
  }

  lemma {:induction false} DescendingPrefix(order: seq<string>, w: map<string, nat>)
    requires order != [] && Descending(order, w)
    ensures Descending(order[..|order| - 1], w)
  {
  }

  lemma {:induction false} LoadRestrict(names: seq<string>, w: map<string, nat>, s: set<string>, t: set<string>)
    requires forall n | n in names :: n in s <==> n in t
    ensures LoadOf(names, w, s) == LoadOf(names, w, t)
  {
    if names != [] {
      assert names[|names| - 1] in names;
      forall n | n in names[..|names| - 1] ensures n in s <==> n in t { assert n in names; }
      LoadRestrict(names[..|names| - 1], w, s, t);
    }
  }

  // ----- the loads do not depend on the order of the dict -----

  lemma {:induction false} LoadOfConcat(a: seq<string>, b: seq<string>, w: map<string, nat>, s: set<string>)
    ensures LoadOf(a + b, w, s) == LoadOf(a, w, s) + LoadOf(b, w, s)
    decreases |b|
  {
    if b == [] {
      assert a + b == a;
    } else {
      assert (a + b)[..|a + b| - 1] == a + b[..|b| - 1];
      LoadOfConcat(a, b[..|b| - 1], w, s);
    }
  }

  lemma {:induction false} LoadOfRemoved(b: seq<string>, i: nat, w: map<string, nat>, s: set<string>)
    requires i < |b|
    ensures LoadOf(b, w, s) == LoadOf(b[..i] + b[i + 1..], w, s) + (if b[i] in s then At(w, b[i]) else 0)
  {
    assert b == b[..i] + [b[i]] + b[i + 1..];
    LoadOfConcat(b[..i], b[i + 1..], w, s);
    LoadOfConcat(b[..i] + [b[i]], b[i + 1..], w, s);
    assert (b[..i] + [b[i]])[..i] == b[..i];
  }

  lemma {:induction false} LoadOfPermutation(a: seq<string>, b: seq<string>, w: map<string, nat>, s: set<string>)
    requires multiset(a) == multiset(b)
    ensures LoadOf(a, w, s) == LoadOf(b, w, s)
    decreases |a|
  {
    SameElements(a, b);
    if a != [] {
      var last := |a| - 1;
      assert a[last] in b;
      var i :| 0 <= i < |b| && b[i] == a[last];
      RemovedMultiset(a, last);
      RemovedMultiset(b, i);
      assert a[..last] + a[last + 1..] == a[..last];
      LoadOfPermutation(a[..last], b[..i] + b[i + 1..], w, s);
      LoadOfRemoved(b, i, w, s);
    }
  }

  lemma {:induction false} TotalIsLoad(names: seq<string>, w: map<string, nat>, s: set<string>)
    requires forall n | n in names :: n in s
    ensures Total(names, w) == LoadOf(names, w, s)
  {
    if names != [] {
      assert names[|names| - 1] in names;
      assert forall n | n in names[..|names| - 1] :: n in names;
      TotalIsLoad(names[..|names| - 1], w, s);
    }
  }

  lemma {:induction false} PlacementOrderFacts(keys: seq<string>, sizes: map<string, nat>, isolated: set<string>)
    requires IsDict(keys, sizes)
    ensures var order := PlacementOrder(keys, sizes, isolated);
            var w := Weights(keys, sizes, isolated);
            && Distinct(order) && Descending(order, w) && multiset(order) == multiset(keys)
            && (forall n :: n in order <==> n in keys) && (forall n | n in order :: n in w)
  {
    var w := Weights(keys, sizes, isolated);
    ByWeightTotal(w);
    SortSorted(ByWeight(w), keys);
    SortDistinct(ByWeight(w), keys);
    var order := PlacementOrder(keys, sizes, isolated);
    forall i, j | 0 <= i < j < |order| ensures At(w, order[i]) >= At(w, order[j]) {
      assert ByWeight(w)(order[i], order[j]);
    }
  }

  /** Every module lands on exactly one shard. */
  lemma {:induction false} PartitionCovers(keys: seq<string>, sizes: map<string, nat>, count: nat,
                                           isolated: set<string>)
    requires IsDict(keys, sizes) && count > 0
    ensures Covers(keys, Partition(keys, sizes, count, isolated))
  {
    PlacementOrderFacts(keys, sizes, isolated);
    FillCovers(PlacementOrder(keys, sizes, isolated), Weights(keys, sizes, isolated), count);
  }

  /** Graham's bound: if some assignment of the modules to `count` shards keeps every load within `opt`,
      the greedy shards stay within (4/3 - 1/(3 count)) opt. */
  lemma {:induction false} GrahamBound(keys: seq<string>, sizes: map<string, nat>, count: nat, isolated: set<string>,
                    other: seq<set<string>>, opt: nat, s: nat)
    requires IsDict(keys, sizes) && s < count
    requires |other| == count && Covers(keys, other)
    requires forall i | 0 <= i < count :: LoadOf(keys, Weights(keys, sizes, isolated), other[i]) <= opt
    ensures 3 * count * LoadOf(keys, Weights(keys, sizes, isolated), Partition(keys, sizes, count, isolated)[s])
            <= (4 * count - 1) * opt
  {
    var order, w := PlacementOrder(keys, sizes, isolated), Weights(keys, sizes, isolated);
    PlacementOrderFacts(keys, sizes, isolated);
    forall i | 0 <= i < count ensures LoadOf(order, w, other[i]) <= opt {
      LoadOfPermutation(order, keys, w, other[i]);
    }
    GrahamOnOrder(order, w, count, other, opt, s);
    FillSizes(order, w, count);
    LoadOfPermutation(order, keys, w, Partition(keys, sizes, count, isolated)[s]);
  }

  /** Two dicts with the same entries are sharded alike, whatever their insertion order. */
  lemma {:induction false} PartitionForgetsInsertionOrder(a: seq<string>, b: seq<string>, sizes: map<string, nat>,
                                                          count: nat, isolated: set<string>)
    requires IsDict(a, sizes) && IsDict(b, sizes) && count > 0
    ensures Partition(a, sizes, count, isolated) == Partition(b, sizes, count, isolated)
  {
    DistinctSameMultiset(a, b);
    var all := set n | n in sizes;
    TotalIsLoad(a, sizes, all);
    TotalIsLoad(b, sizes, all);
    LoadOfPermutation(a, b, sizes, all);
    var w := Weights(a, sizes, isolated);
    assert w == Weights(b, sizes, isolated);
    ByWeightTotal(w);
    SortForgetsOrder(ByWeight(w), a, b);
  }

  // ----- the reserved shard -----

  function IsolatedCount(names: seq<string>, isolated: set<string>): nat {
    if names == [] then 0
    else IsolatedCount(names[..|names| - 1], isolated) + (if names[|names| - 1] in isolated then 1 else 0)
  }

  /** With spare capacity the weights sum to less than `count` suites. */
  lemma {:induction false} SpareCapacity(keys: seq<string>, prefix: seq<string>, sizes: map<string, nat>,
                                         isolated: set<string>)
    requires forall n | n in prefix :: n in sizes
    ensures Total(prefix, Weights(keys, sizes, isolated)) + LoadOf(prefix, sizes, isolated)
            == IsolatedCount(prefix, isolated) * Total(keys, sizes) + Total(prefix, sizes)
  {
    if prefix != [] {
      assert prefix[|prefix| - 1] in prefix;
      assert forall n | n in prefix[..|prefix| - 1] :: n in prefix;
      SpareCapacity(keys, prefix[..|prefix| - 1], sizes, isolated);
      MulStep(IsolatedCount(prefix[..|prefix| - 1], isolated), Total(keys, sizes));
    }
  }

  lemma {:induction false} SomeIsolatedLoad(names: seq<string>, sizes: map<string, nat>, isolated: set<string>,
                                            x: string)
    requires x in names && x in isolated
    ensures LoadOf(names, sizes, isolated) >= At(sizes, x)
  {
    if names[|names| - 1] != x { SomeIsolatedLoad(names[..|names| - 1], sizes, isolated, x); }
  }

  /** In the making: isolated modules sit alone, and until an ordinary one is placed nothing else does. */
  ghost predicate Reserving(order: seq<string>, b: Bins, isolated: set<string>, suite: nat) {
    && (forall i, n | 0 <= i < |b.shards| && n in b.shards[i] && n in isolated ::
          b.shards[i] == {n} && i < |b.sizes| && b.sizes[i] >= suite)
    && ((forall n | n in order :: n in isolated) ==>
          forall i, n | 0 <= i < |b.shards| && n in b.shards[i] :: n in isolated)
  }

  lemma {:induction false} PlaceReserves(before: seq<string>, name: string, b: Bins, weight: nat,
                                         isolated: set<string>, suite: nat)
    requires |b.shards| == |b.sizes| > 0 && Reserving(before, b, isolated, suite)
    requires b.sizes[Least(b.sizes)] < suite
    requires name in isolated ==> weight == suite && forall n | n in before :: n in isolated
    ensures Reserving(before + [name], Place(b, name, weight), isolated, suite)
  {
    var i := Least(b.sizes);
    assert forall n | n in b.shards[i] :: n !in isolated;
    if name in isolated {
      assert b.shards[i] == {};
    } else {
      assert name in before + [name];
    }
  }

  lemma {:induction false} RoomForAnother(order: seq<string>, w: map<string, nat>, count: nat, suite: nat)
    requires count > 0 && Distinct(order) && Total(order, w) < count * suite
    ensures var b := Fill(order, w, count); b.sizes[Least(b.sizes)] < suite
  {
    hide Fill, Least;
    var b := Fill(order, w, count);
    LeastIsBelowAverage(order, w, count);
    if b.sizes[Least(b.sizes)] >= suite {
      MulMono(count, suite, b.sizes[Least(b.sizes)]);
      assert false;
    }
  }

  lemma {:induction false} FillReserves(order: seq<string>, w: map<string, nat>, count: nat, isolated: set<string>,
                                        suite: nat)
    requires count > 0 && Distinct(order)
    requires Total(order, w) < count * suite
    requires forall i | 0 <= i < |order| && order[i] in isolated :: At(w, order[i]) == suite
    requires forall i, j | 0 <= i < j < |order| && order[j] in isolated :: order[i] in isolated
    ensures Reserving(order, Fill(order, w, count), isolated, suite)
  {
    hide Reserving, Place, Least, Fill, Total;
    if order == [] {
      EmptyReserves(w, count, isolated, suite);
    } else {
      var last := |order| - 1;
      var before := order[..last];
      TotalOfPrefix(order, w);
      FillReserves(before, w, count, isolated, suite);
      RoomForAnother(before, w, count, suite);
      FillNext(order, last, w, count);
      assert order[..last + 1] == order == before + [order[last]];
      assert order[last] in isolated ==> forall n | n in before :: n in isolated;
      PlaceReserves(before, order[last], Fill(before, w, count), At(w, order[last]), isolated, suite);
    }
  }

  lemma {:induction false} EmptyReserves(w: map<string, nat>, count: nat, isolated: set<string>, suite: nat)
    requires count > 0
    ensures Reserving([], Fill([], w, count), isolated, suite)
  {
  }

  lemma {:induction false} TotalOfPrefix(names: seq<string>, w: map<string, nat>)
    requires names != []
    ensures Total(names[..|names| - 1], w) <= Total(names, w)
  {
  }

  lemma {:induction false} WeightsFit(keys: seq<string>, sizes: map<string, nat>, count: nat, isolated: set<string>,
                                      name: string)
    requires IsDict(keys, sizes) && IsolatedCount(keys, isolated) < count
    requires name in isolated && name in keys && sizes[name] > 0
    ensures Total(PlacementOrder(keys, sizes, isolated), Weights(keys, sizes, isolated)) < count * Total(keys, sizes)
  {
    var order, w := PlacementOrder(keys, sizes, isolated), Weights(keys, sizes, isolated);
    PlacementOrderFacts(keys, sizes, isolated);
    SpareCapacity(keys, keys, sizes, isolated);
    SomeIsolatedLoad(keys, sizes, isolated, name);
    MulStep(IsolatedCount(keys, isolated), Total(keys, sizes));
    MulLe(IsolatedCount(keys, isolated) + 1, count, Total(keys, sizes));
    var all := set n | n in keys;
    TotalIsLoad(keys, w, all);
    TotalIsLoad(order, w, all);
    LoadOfPermutation(order, keys, w, all);
  }

  /** An isolated module is placed before every ordinary one. */
  lemma {:induction false} IsolatedFirst(keys: seq<string>, sizes: map<string, nat>, isolated: set<string>)
    requires IsDict(keys, sizes) && forall n | n in keys :: sizes[n] > 0
    ensures var order := PlacementOrder(keys, sizes, isolated);
            forall i, j | 0 <= i < j < |order| && order[j] in isolated :: order[i] in isolated
  {
    var order, w := PlacementOrder(keys, sizes, isolated), Weights(keys, sizes, isolated);
    PlacementOrderFacts(keys, sizes, isolated);
    forall i, j | 0 <= i < j < |order| && order[j] in isolated ensures order[i] in isolated {
      if order[i] !in isolated {
        assert order[i] in keys && order[j] in keys;
        assert At(w, order[i]) >= At(w, order[j]);
        TwoModules(keys, sizes, order[i], order[j]);
      }
    }
  }

  lemma {:induction false} PartitionReserves(keys: seq<string>, sizes: map<string, nat>, count: nat,
                                             isolated: set<string>, name: string)
    requires IsDict(keys, sizes) && IsolatedCount(keys, isolated) < count
    requires forall n | n in keys :: sizes[n] > 0
    requires name in isolated && name in keys
    ensures var order := PlacementOrder(keys, sizes, isolated);
            Reserving(order, Fill(order, Weights(keys, sizes, isolated), count), isolated, Total(keys, sizes))
  {
    var order, w, suite := PlacementOrder(keys, sizes, isolated), Weights(keys, sizes, isolated), Total(keys, sizes);
    assert Distinct(order) && forall n | n in order :: n in w by { PlacementOrderFacts(keys, sizes, isolated); }
    assert forall i | 0 <= i < |order| && order[i] in isolated :: At(w, order[i]) == suite;
    IsolatedFirst(keys, sizes, isolated);
    WeightsFit(keys, sizes, count, isolated, name);
    FillReserves(order, w, count, isolated, suite);
  }

  /** Fewer isolated modules than shards: each of them runs alone. */
  lemma {:induction false} IsolatedModuleIsAlone(keys: seq<string>, sizes: map<string, nat>, count: nat,
                                                 isolated: set<string>, s: nat, name: string)
    requires IsDict(keys, sizes) && s < count
    requires IsolatedCount(keys, isolated) < count
    requires forall n | n in keys :: sizes[n] > 0
    requires name in isolated && name in Partition(keys, sizes, count, isolated)[s]
    ensures Partition(keys, sizes, count, isolated)[s] == {name}
  {
    assert name in keys by { PartitionCovers(keys, sizes, count, isolated); }
    PartitionReserves(keys, sizes, count, isolated, name);
  }

  lemma {:induction false} MulLe(a: nat, b: nat, x: nat)
    requires a <= b
    ensures a * x <= b * x
  {
  }

  lemma {:induction false} TwoModules(names: seq<string>, sizes: map<string, nat>, a: string, b: string)
    requires a in names && b in names && a != b
    ensures Total(names, sizes) >= At(sizes, a) + At(sizes, b)
  {
    var last := names[|names| - 1];
    if last == a {
      OneModule(names[..|names| - 1], sizes, b);
    } else if last == b {
      OneModule(names[..|names| - 1], sizes, a);
    } else {
      TwoModules(names[..|names| - 1], sizes, a, b);
    }
  }

  lemma {:induction false} OneModule(names: seq<string>, sizes: map<string, nat>, a: string)
    requires a in names
    ensures Total(names, sizes) >= At(sizes, a)
  {
    if names[|names| - 1] != a { OneModule(names[..|names| - 1], sizes, a); }
  }
}
