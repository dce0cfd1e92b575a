/** The greedy cap-set builder of the workspace benchmark. */
module CapSet {
  import opened Ordering

  type Vector = seq<int>

  function Least3(x: nat, y: nat, z: nat): nat {
    if x <= y && x <= z then x else if y <= z then y else z
  }

  /** `_is_line`: coordinates sum to 0 modulo 3, as far as the shortest vector reaches. */
  predicate IsLine(a: Vector, b: Vector, c: Vector) {
    forall i | 0 <= i < Least3(|a|, |b|, |c|) :: (a[i] + b[i] + c[i]) % 3 == 0
  }

  // ----- sorted(pool, key=priority, reverse=True) -----

  function Place(v: Vector, s: seq<Vector>, priority: Vector -> int): (r: seq<Vector>)
    ensures multiset(r) == multiset(s) + multiset{v}
  {
    if s == [] then [v]
    else
      assert s == [s[0]] + s[1..];
      if priority(s[0]) <= priority(v) then [v] + s else [s[0]] + Place(v, s[1..], priority)
  }

  function ByPriority(pool: seq<Vector>, priority: Vector -> int): (r: seq<Vector>)
    ensures multiset(r) == multiset(pool)
  {
    if pool == [] then []
    else
      assert pool == [pool[0]] + pool[1..];
      Place(pool[0], ByPriority(pool[1..], priority), priority)
  }

  ghost predicate Descending(s: seq<Vector>, priority: Vector -> int) {
    forall i, j | 0 <= i < j < |s| :: priority(s[i]) >= priority(s[j])
  }

  function Level(s: seq<Vector>, priority: Vector -> int, p: int): seq<Vector> {
    if s == [] then [] else (if priority(s[0]) == p then [s[0]] else []) + Level(s[1..], priority, p)
  }

  lemma {:induction false} PlaceMembers(v: Vector, s: seq<Vector>, priority: Vector -> int)
    ensures forall x | x in Place(v, s, priority) :: x == v || x in s
  {
    assert forall x | x in Place(v, s, priority) :: x in multiset(Place(v, s, priority));
    assert forall x | x in multiset(s) :: x in s;
  }

  lemma {:induction false} PlaceDescends(v: Vector, s: seq<Vector>, priority: Vector -> int)
    requires Descending(s, priority)
    ensures Descending(Place(v, s, priority), priority)
  {
    if s != [] && priority(s[0]) > priority(v) {
      PlaceDescends(v, s[1..], priority);
      PlaceMembers(v, s[1..], priority);
      var r := Place(v, s[1..], priority);
      assert forall i | 0 <= i < |r| :: r[i] in r;
    }
  }

  lemma {:induction false} PlaceLevel(v: Vector, s: seq<Vector>, priority: Vector -> int, p: int)
    requires Descending(s, priority)
    ensures Level(Place(v, s, priority), priority, p) == (if priority(v) == p then [v] else []) + Level(s, priority, p)
  {
    if s != [] && priority(s[0]) > priority(v) {
      PlaceLevel(v, s[1..], priority, p);
      var r := Place(v, s[1..], priority);
      assert ([s[0]] + r)[1..] == r;
      if priority(v) == p { LevelAbsent(s, priority, p); }
    } else {
      assert ([v] + s)[1..] == s;
    }
  }

  lemma {:induction false} LevelAbsent(s: seq<Vector>, priority: Vector -> int, p: int)
    requires s != [] && priority(s[0]) != p
    ensures Level(s, priority, p) == Level(s[1..], priority, p)
  {
  }

  /** The order tried: highest priority first, equal priorities in pool order. */
  lemma {:induction false} TriedInPriorityOrder(pool: seq<Vector>, priority: Vector -> int, p: int)
    ensures Descending(ByPriority(pool, priority), priority)
    ensures Level(ByPriority(pool, priority), priority, p) == Level(pool, priority, p)
  {
    if pool != [] {
      TriedInPriorityOrder(pool[1..], priority, p);
      PlaceDescends(pool[0], ByPriority(pool[1..], priority), priority);
      PlaceLevel(pool[0], ByPriority(pool[1..], priority), priority, p);
    }
  }

  // ----- the builder -----

  /** v completes no line with two earlier choices. */
  predicate Fits(v: Vector, chosen: seq<Vector>) {
    forall i, j | 0 <= j < i < |chosen| :: !IsLine(v, chosen[i], chosen[j])
  }

  /** No three choices form a line. */
  ghost predicate IsCap(chosen: seq<Vector>) {
    forall i, j, k | 0 <= i < j < k < |chosen| :: !IsLine(chosen[k], chosen[j], chosen[i])
  }

  function Greedy(tried: seq<Vector>): seq<Vector> {
    if tried == [] then []
    else
      var chosen := Greedy(tried[..|tried| - 1]);
      var v := tried[|tried| - 1];
      if Fits(v, chosen) then chosen + [v] else chosen
  }

  method IsFit(v: Vector, chosen: seq<Vector>) returns (fits: bool)
    ensures fits == Fits(v, chosen)
  {
    for i := 0 to |chosen|
      invariant forall k, j | 0 <= j < k < i :: !IsLine(v, chosen[k], chosen[j])
    {
      for j := 0 to i
        invariant forall l | 0 <= l < j :: !IsLine(v, chosen[i], chosen[l])
      {
        if IsLine(v, chosen[i], chosen[j]) {
          return false;
        }
      }
    }
    fits := true;
  }

  /** `build_cap`. */
  method BuildCap(pool: seq<Vector>, priority: Vector -> int) returns (chosen: seq<Vector>)
    ensures chosen == Greedy(ByPriority(pool, priority))
  {
    var tried := ByPriority(pool, priority);
    chosen := [];
    for n := 0 to |tried|
      invariant chosen == Greedy(tried[..n])
    {
      assert tried[..n + 1][..n] == tried[..n] && tried[..n + 1][n] == tried[n];
      var fits := IsFit(tried[n], chosen);
      if fits {
        chosen := chosen + [tried[n]];
      }
    }
    assert tried[..|tried|] == tried;
  }

  // ----- it is a cap, and cannot be extended -----

  lemma {:induction false} GreedyIsCap(tried: seq<Vector>)
    ensures IsCap(Greedy(tried))
  {
    if tried != [] { GreedyIsCap(tried[..|tried| - 1]); }
  }

  /** Any three choices, in any order. */
  lemma {:induction false} CapInAnyOrder(chosen: seq<Vector>, i: nat, j: nat, k: nat)
    requires IsCap(chosen) && i < |chosen| && j < |chosen| && k < |chosen| && i != j && j != k && i != k
    ensures !IsLine(chosen[i], chosen[j], chosen[k])
  {
    LineIsSymmetric(chosen[i], chosen[j], chosen[k]);
    LineIsSymmetric(chosen[j], chosen[k], chosen[i]);
    LineIsSymmetric(chosen[k], chosen[i], chosen[j]);
    hide IsLine;
    var last := if i > j && i > k then i else if j > k then j else k;
    var first := if i < j && i < k then i else if j < k then j else k;
    var middle := i + j + k - first - last;
    assert first < middle < last;
    assert !IsLine(chosen[last], chosen[middle], chosen[first]);
  }

  lemma {:induction false} LineIsSymmetric(a: Vector, b: Vector, c: Vector)
    ensures IsLine(a, b, c) <==> IsLine(b, c, a)
    ensures IsLine(a, b, c) <==> IsLine(a, c, b)
  {
    assert forall i | 0 <= i < Least3(|a|, |b|, |c|) :: a[i] + b[i] + c[i] == b[i] + c[i] + a[i] == a[i] + c[i] + b[i];
  }

  /** Whatever was tried and not chosen completes a line with two choices. */
  lemma {:induction false} RejectedCompletesALine(tried: seq<Vector>, v: Vector)
    requires v in tried && v !in Greedy(tried)
    ensures exists i, j :: 0 <= j < i < |Greedy(tried)| && IsLine(v, Greedy(tried)[i], Greedy(tried)[j])
  {
    var n := |tried| - 1;
    var before := Greedy(tried[..n]);
    assert tried == tried[..n] + [tried[n]];
    assert before <= Greedy(tried);
    if v in tried[..n] {
      RejectedCompletesALine(tried[..n], v);
      var i, j :| 0 <= j < i < |before| && IsLine(v, before[i], before[j]);
      assert IsLine(v, Greedy(tried)[i], Greedy(tried)[j]);
    } else {
      assert !Fits(v, before);
      var i, j :| 0 <= j < i < |before| && IsLine(v, before[i], before[j]);
      assert IsLine(v, Greedy(tried)[i], Greedy(tried)[j]);
    }
  }

  lemma {:induction false} ChosenWereTried(tried: seq<Vector>)
    ensures forall v | v in Greedy(tried) :: v in tried
    ensures |Greedy(tried)| <= |tried|
  {
    if tried != [] {
      ChosenWereTried(tried[..|tried| - 1]);
      assert tried == tried[..|tried| - 1] + [tried[|tried| - 1]];
    }
  }

  /** The result is a cap, drawn from the pool, and every vector left out completes a line with two chosen. */
  lemma {:induction false} CapIsMaximal(pool: seq<Vector>, priority: Vector -> int)
    ensures var chosen := Greedy(ByPriority(pool, priority));
            && IsCap(chosen)
            && (forall v | v in chosen :: v in pool)
            && (forall v | v in pool && v !in chosen :: !Fits(v, chosen))
  {
    var tried := ByPriority(pool, priority);
    SameElements(tried, pool);
    GreedyIsCap(tried);
    ChosenWereTried(tried);
    forall v | v in pool && v !in Greedy(tried) ensures !Fits(v, Greedy(tried)) {
      RejectedCompletesALine(tried, v);
    }
  }

  // ----- the size of the cap -----

  ghost predicate OverTrits(v: Vector, d: nat) {
    |v| == d && forall i | 0 <= i < d :: 0 <= v[i] < 3
  }

  /** The one vector that completes the line through a and b. */
  function Completion(a: Vector, b: Vector): Vector
    requires |a| == |b|
  {
    seq(|a|, i requires 0 <= i < |a| => (6 - a[i] - b[i]) % 3)
  }

  lemma {:induction false} LineHasOneCompletion(v: Vector, a: Vector, b: Vector, d: nat)
    requires OverTrits(v, d) && OverTrits(a, d) && OverTrits(b, d)
    ensures IsLine(v, a, b) <==> v == Completion(a, b)
  {
    if IsLine(v, a, b) {
      forall i | 0 <= i < d ensures v[i] == Completion(a, b)[i] {
        assert (v[i] + a[i] + b[i]) % 3 == 0;
      }
    }
  }

  function Triangle(k: nat): nat {
    if k == 0 then 0 else Triangle(k - 1) + k
  }

  lemma {:induction false} TriangleClosed(k: nat)
    ensures 2 * Triangle(k) == k * (k + 1)
  {
    if k > 0 { TriangleClosed(k - 1); }
  }

  ghost predicate AllOver(s: seq<Vector>, d: nat) {
    forall i | 0 <= i < |s| :: OverTrits(s[i], d)
  }

  /** The chosen vectors and the completions of all their pairs. */
  ghost function Reach(chosen: seq<Vector>, d: nat): (r: seq<Vector>)
    requires AllOver(chosen, d)
    ensures |r| == Triangle(|chosen|)
  {
    if chosen == [] then []
    else
      var k := |chosen| - 1;
      assert AllOver(chosen[..k], d);
      Reach(chosen[..k], d) + [chosen[k]]
      + seq(k, j requires 0 <= j < k && |chosen[j]| == |chosen[k]| => Completion(chosen[k], chosen[j]))
  }

  lemma {:induction false} ReachHasPairs(chosen: seq<Vector>, d: nat, i: nat, j: nat)
    requires AllOver(chosen, d) && j < i < |chosen|
    ensures Completion(chosen[i], chosen[j]) in Reach(chosen, d)
  {
    var k := |chosen| - 1;
    assert AllOver(chosen[..k], d);
    var last := seq(k, j requires 0 <= j < k && |chosen[j]| == |chosen[k]| => Completion(chosen[k], chosen[j]));
    assert Reach(chosen, d) == Reach(chosen[..k], d) + [chosen[k]] + last;
    if i < k {
      ReachHasPairs(chosen[..k], d, i, j);
    } else {
      assert last[j] == Completion(chosen[i], chosen[j]);
    }
  }

  lemma {:induction false} ReachHasChosen(chosen: seq<Vector>, d: nat, i: nat)
    requires AllOver(chosen, d) && i < |chosen|
    ensures chosen[i] in Reach(chosen, d)
  {
    var k := |chosen| - 1;
    assert AllOver(chosen[..k], d);
    if i < k { ReachHasChosen(chosen[..k], d, i); }
  }

  lemma {:induction false} DistinctWithin(a: seq<Vector>, b: seq<Vector>)
    requires Distinct(a) && forall v | v in a :: v in b
    ensures |a| <= |b|
  {
    if a != [] {
      assert a[0] in b;
      var i :| 0 <= i < |b| && b[i] == a[0];
      var rest := b[..i] + b[i + 1..];
      forall v | v in a[1..] ensures v in rest {
        assert v in a && v in b;
        var j :| 0 <= j < |b| && b[j] == v;
        if j < i { assert rest[j] == v; } else { assert rest[j - 1] == v; }
      }
      DistinctWithin(a[1..], rest);
    }
  }

  /** A duplicate-free pool of size n over {0,1,2}^d leaves a cap of size k with n <= k(k+1)/2. */
  lemma {:induction false} CapSizeBound(pool: seq<Vector>, priority: Vector -> int, d: nat)
    requires Distinct(pool) && AllOver(pool, d)
    ensures var k := |Greedy(ByPriority(pool, priority))|; 2 * |pool| <= k * (k + 1) && k <= |pool|
  {
    var tried := ByPriority(pool, priority);
    var chosen := Greedy(tried);
    SameElements(tried, pool);
    ChosenWereTried(tried);
    hide *;
    assert forall v | v in chosen :: v in pool;
    OverWithin(pool, chosen, d);
    forall v | v in pool ensures v in Reach(chosen, d) {
      OverMember(pool, v, d);
      PoolIsReached(tried, chosen, v, d);
    }
    DistinctWithin(pool, Reach(chosen, d));
    TriangleClosed(|chosen|);
  }

  lemma {:induction false} OverMember(pool: seq<Vector>, v: Vector, d: nat)
    requires AllOver(pool, d) && v in pool
    ensures OverTrits(v, d)
  {
    hide OverTrits;
    var n :| 0 <= n < |pool| && pool[n] == v;
  }

  lemma {:induction false} OverWithin(pool: seq<Vector>, chosen: seq<Vector>, d: nat)
    requires AllOver(pool, d) && forall v | v in chosen :: v in pool
    ensures AllOver(chosen, d)
  {
    hide OverTrits;
    forall i | 0 <= i < |chosen| ensures OverTrits(chosen[i], d) {
      assert chosen[i] in chosen;
      OverMember(pool, chosen[i], d);
    }
  }

  lemma {:induction false} PoolIsReached(tried: seq<Vector>, chosen: seq<Vector>, v: Vector, d: nat)
    requires chosen == Greedy(tried) && v in tried && OverTrits(v, d) && AllOver(chosen, d)
    ensures v in Reach(chosen, d)
  {
    hide Greedy, Reach, OverTrits, IsLine, Completion;
    if v in chosen {
      var i :| 0 <= i < |chosen| && chosen[i] == v;
      ReachHasChosen(chosen, d, i);
    } else {
      RejectedCompletesALine(tried, v);
      var i, j :| 0 <= j < i < |chosen| && IsLine(v, chosen[i], chosen[j]);
      LineHasOneCompletion(v, chosen[i], chosen[j], d);
      SameDimension(chosen, d, i, j);
      ReachHasPairs(chosen, d, i, j);
    }
  }

  lemma {:induction false} SameDimension(chosen: seq<Vector>, d: nat, i: nat, j: nat)
    requires AllOver(chosen, d) && j < i < |chosen|
    ensures |chosen[i]| == |chosen[j]|
  {
  }
}
