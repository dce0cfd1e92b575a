/** In which order modules are placed and where each of them goes, read off the returned shards. */
module ShardingOrder {
  import opened Ordering
  import opened Sharding

  /** The heavier module goes first, and of equally heavy ones the one that comes first by name. */
  ghost predicate Ahead(w: map<string, nat>, a: string, b: string) {
    At(w, a) > At(w, b) || (At(w, a) == At(w, b) && a != b && StrLe(a, b))
  }

  lemma {:induction false} AheadIffKeyLe(w: map<string, nat>, a: string, b: string)
    ensures Ahead(w, a, b) <==> a != b && KeyLe(w, a, b)
  {
  }

  lemma {:induction false} OneWay(w: map<string, nat>, a: string, b: string)
    requires a != b
    ensures !(KeyLe(w, a, b) && KeyLe(w, b, a))
  {
    StrLeIsTotalOrder();
  }

  lemma {:induction false} OrderSorted(keys: seq<string>, sizes: map<string, nat>, isolated: set<string>)
    requires IsDict(keys, sizes)
    ensures Sorted(ByWeight(Weights(keys, sizes, isolated)), PlacementOrder(keys, sizes, isolated))
  {
    ByWeightTotal(Weights(keys, sizes, isolated));
    SortSorted(ByWeight(Weights(keys, sizes, isolated)), keys);
  }

  /** Modules are placed in descending weight and, among equal weights, in ascending order of their names. */
  lemma {:induction false} PlacedInOrder(keys: seq<string>, sizes: map<string, nat>, isolated: set<string>, i: nat,
                                         j: nat)
    requires IsDict(keys, sizes) && i < j < |PlacementOrder(keys, sizes, isolated)|
    ensures var order, w := PlacementOrder(keys, sizes, isolated), Weights(keys, sizes, isolated);
            Ahead(w, order[i], order[j]) && !Ahead(w, order[j], order[i])
  {
    var order, w := PlacementOrder(keys, sizes, isolated), Weights(keys, sizes, isolated);
    OrderSorted(keys, sizes, isolated);
    PlacementOrderFacts(keys, sizes, isolated);
    hide PlacementOrder, Weights;
    AheadIffKeyLe(w, order[i], order[j]);
    AheadIffKeyLe(w, order[j], order[i]);
    assert ByWeight(w)(order[i], order[j]);
    hide KeyLe;
    OneWay(w, order[i], order[j]);
  }

  /** A module weighs the number of its tests, an isolated one as much as the whole suite. */
  lemma {:induction false} WeightIs(keys: seq<string>, sizes: map<string, nat>, isolated: set<string>, name: string)
    requires IsDict(keys, sizes) && name in keys
    ensures name in isolated ==> At(Weights(keys, sizes, isolated), name) == LoadOf(keys, sizes, sizes.Keys)
    ensures name !in isolated ==> At(Weights(keys, sizes, isolated), name) == sizes[name]
  {
    TotalIsLoad(keys, sizes, sizes.Keys);
  }

  // ----- where a module goes -----

  /** Later placements do not touch what was placed before. */
  lemma {:induction false} FillPrefix(order: seq<string>, w: map<string, nat>, count: nat, k: nat, j: nat, x: string)
    requires count > 0 && Distinct(order) && k <= |order| && j < count && x in order[..k]
    ensures x in Fill(order, w, count).shards[j] <==> x in Fill(order[..k], w, count).shards[j]
    decreases |order|
  {
    if k == |order| {
      assert order[..k] == order;
    } else {
      var n := |order| - 1;
      assert order[..n][..k] == order[..k];
      FillPrefix(order[..n], w, count, k, j, x);
      assert x != order[n];
      hide Fill;
      FillNext(order, n, w, count);
      assert order[..n + 1] == order;
    }
  }

  lemma {:induction false} PlacedAt(order: seq<string>, w: map<string, nat>, count: nat, k: nat)
    requires count > 0 && Distinct(order) && k < |order|
    ensures order[k] in Fill(order, w, count).shards[Least(Fill(order[..k], w, count).sizes)]
  {
    FillNext(order, k, w, count);
    var i := Least(Fill(order[..k], w, count).sizes);
    assert order[..k + 1][k] == order[k];
    FillPrefix(order, w, count, k + 1, i, order[k]);
    hide Fill, Least;
  }

  lemma {:induction false} NoLoad(names: seq<string>, w: map<string, nat>, s: set<string>)
    requires forall n | n in names :: n !in s
    ensures LoadOf(names, w, s) == 0
  {
    if names != [] {
      assert names[|names| - 1] in names;
      forall n | n in names[..|names| - 1] ensures n !in s { assert n in names; }
      NoLoad(names[..|names| - 1], w, s);
    }
  }

  /** What a shard holds of the modules that go before n. */
  ghost function Before(w: map<string, nat>, shard: set<string>, n: string): set<string> {
    set x | x in shard && Ahead(w, x, n)
  }

  ghost predicate InPlace(order: seq<string>, w: map<string, nat>) {
    && Distinct(order)
    && forall i, j | 0 <= i < j < |order| :: Ahead(w, order[i], order[j]) && !Ahead(w, order[j], order[i])
  }

  lemma {:induction false} EarlierAre(order: seq<string>, w: map<string, nat>, count: nat, k: nat, j: nat, x: string)
    requires InPlace(order, w) && j < count && k < |order| && x in order[..k]
    ensures x in Before(w, Fill(order, w, count).shards[j], order[k]) <==> x in Fill(order[..k], w, count).shards[j]
  {
    hide Ahead, Fill;
    var i :| 0 <= i < k && order[i] == x;
    FillPrefix(order, w, count, k, j, x);
  }

  lemma {:induction false} LaterAreNot(order: seq<string>, w: map<string, nat>, shard: set<string>, k: nat, x: string)
    requires InPlace(order, w) && k < |order| && x in order[k..]
    ensures x !in Before(w, shard, order[k])
  {
    var i :| 0 <= i < |order| - k && order[k..][i] == x;
    assert x == order[k + i];
    if i > 0 { assert !Ahead(w, order[k + i], order[k]); }
  }

  /** The load of the earlier modules of a shard is its size when n is placed. */
  lemma {:induction false} EarlierLoad(keys: seq<string>, order: seq<string>, w: map<string, nat>, count: nat,
                                       k: nat, j: nat)
    requires InPlace(order, w) && multiset(keys) == multiset(order) && j < count && k < |order|
    ensures LoadOf(keys, w, Before(w, Fill(order, w, count).shards[j], order[k]))
         == Fill(order[..k], w, count).sizes[j]
  {
    hide Before, Fill, LoadOf, InPlace;
    var earlier, placed := Before(w, Fill(order, w, count).shards[j], order[k]), Fill(order[..k], w, count).shards[j];
    forall x | x in order[..k] ensures x in earlier <==> x in placed { EarlierAre(order, w, count, k, j, x); }
    forall x | x in order[k..] ensures x !in earlier { LaterAreNot(order, w, Fill(order, w, count).shards[j], k, x); }
    LoadOfPermutation(keys, order, w, earlier);
    assert order == order[..k] + order[k..];
    LoadOfConcat(order[..k], order[k..], w, earlier);
    NoLoad(order[k..], w, earlier);
    LoadRestrict(order[..k], w, earlier, placed);
    InPlacePrefix(order, w, k);
    FillSizes(order[..k], w, count);
  }

  lemma {:induction false} InPlacePrefix(order: seq<string>, w: map<string, nat>, k: nat)
    requires InPlace(order, w) && k <= |order|
    ensures Distinct(order[..k])
  {
  }

  lemma {:induction false} ChosenShard(order: seq<string>, w: map<string, nat>, count: nat, k: nat, i: nat)
    requires InPlace(order, w) && i < count && k < |order| && order[k] in Fill(order, w, count).shards[i]
    ensures i == Least(Fill(order[..k], w, count).sizes)
  {
    hide Ahead, Fill, Least;
    PlacedAt(order, w, count, k);
    FillCovers(order, w, count);
  }

  lemma {:induction false} OrderInPlace(keys: seq<string>, sizes: map<string, nat>, isolated: set<string>)
    requires IsDict(keys, sizes)
    ensures InPlace(PlacementOrder(keys, sizes, isolated), Weights(keys, sizes, isolated))
  {
    PlacementOrderFacts(keys, sizes, isolated);
    var order := PlacementOrder(keys, sizes, isolated);
    hide PlacementOrder, Weights, Ahead;
    forall i, j | 0 <= i < j < |order|
      ensures Ahead(Weights(keys, sizes, isolated), order[i], order[j])
      ensures !Ahead(Weights(keys, sizes, isolated), order[j], order[i])
    {
      PlacedInOrder(keys, sizes, isolated, i, j);
    }
  }

  /** Each module lies on the first of the shards that were least loaded when its turn came. */
  lemma {:induction false} FirstLeastLoaded(keys: seq<string>, sizes: map<string, nat>, count: nat,
                                            isolated: set<string>, i: nat, j: nat, n: string)
    requires IsDict(keys, sizes) && i < count && j < count && n in Partition(keys, sizes, count, isolated)[i]
    ensures var w, shards := Weights(keys, sizes, isolated), Partition(keys, sizes, count, isolated);
            var own, other := LoadOf(keys, w, Before(w, shards[i], n)), LoadOf(keys, w, Before(w, shards[j], n));
            own <= other && (j < i ==> own < other)
  {
    var order, w := PlacementOrder(keys, sizes, isolated), Weights(keys, sizes, isolated);
    PlacementOrderFacts(keys, sizes, isolated);
    assert n in order by { PartitionCovers(keys, sizes, count, isolated); }
    OrderInPlace(keys, sizes, isolated);
    var k :| 0 <= k < |order| && order[k] == n;
    assert Partition(keys, sizes, count, isolated) == Fill(order, w, count).shards;
    hide PlacementOrder, Weights, Partition, Before, Fill, LoadOf, InPlace, Least;
    ChosenShard(order, w, count, k, i);
    EarlierLoad(keys, order, w, count, k, i);
    EarlierLoad(keys, order, w, count, k, j);
  }
}
