/** What the topological sort is for: dependencies first, in the least such order, whatever the input order. */
module TopoTheorems {
  import opened Collections
  import opened Ordering
  import opened TopoOrder

  ghost predicate DependsOn(deps: Deps, n: string, c: set<string>)
    requires n in deps
  {
    exists d :: d in c && d in deps[n]
  }

  /** A knot: a set of names each of which depends on one of the set. */
  ghost predicate Tangled(deps: Deps, c: set<string>) {
    c != {} && c <= deps.Keys && forall n | n in c :: DependsOn(deps, n, c)
  }

  ghost predicate Acyclic(deps: Deps) {
    forall c :: !Tangled(deps, c)
  }

  /** Everything a name depends on stands before it. */
  ghost predicate DependencyFirst(deps: Deps, order: seq<string>) {
    forall i, d | 0 <= i < |order| && order[i] in deps && d in deps[order[i]] :: d in order[..i]
  }

  ghost predicate Lists(deps: Deps, order: seq<string>) {
    Distinct(order) && forall n :: n in order <==> n in deps
  }

  /** Lists compared name by name, each name by code points. */
  ghost predicate ListLe(a: seq<string>, b: seq<string>) {
    if a == [] then true
    else if b == [] then false
    else if a[0] == b[0] then ListLe(a[1..], b[1..])
    else StrLe(a[0], b[0])
  }

  ghost predicate FirstAfter(deps: Deps, done: set<string>, order: seq<string>) {
    forall i, d | 0 <= i < |order| && order[i] in deps && d in deps[order[i]] :: d in done || d in order[..i]
  }

  // ----- the greedy order -----

  lemma {:induction false} LeastOf(s: set<string>) returns (n: string)
    requires s != {}
    ensures n in s && forall m | m in s :: StrLe(n, m)
    decreases |s|
  {
    StrLeIsTotalOrder();
    hide StrLe;
    n :| n in s;
    assert StrLe(n, n);
    if s != {n} {
      assert s - {n} != {};
      var k := LeastOf(s - {n});
      assert forall m | m in s :: m == n || m in s - {n};
      if StrLe(k, n) { n := k; }
    }
  }

  lemma {:induction false} LeastIsReady(deps: Deps, done: set<string>, pending: set<string>, ready: set<string>)
    requires pending <= deps.Keys && ready != {} && forall m :: m in ready <==> m in pending && Ready(deps, done, m)
    ensures SomeReady(deps, done, pending)
  {
    hide StrLe;
    var least := LeastOf(ready);
    assert LeastReady(deps, done, pending, least);
  }

  lemma {:induction false} NoneReadyWhenStuck(deps: Deps, done: set<string>, pending: set<string>, n: string)
    requires pending <= deps.Keys && !SomeReady(deps, done, pending) && n in pending
    ensures !Ready(deps, done, n)
  {
    hide StrLe;
    var ready := set m | m in pending && Ready(deps, done, m);
    if ready != {} {
      LeastIsReady(deps, done, pending, ready);
      assert false;
    }
    assert n !in ready;
  }

  lemma {:induction false} KahnPlacesPending(deps: Deps, done: set<string>, pending: set<string>)
    ensures Distinct(Kahn(deps, done, pending))
    ensures forall n | n in Kahn(deps, done, pending) :: n in pending
    decreases |pending|
  {
    if SomeReady(deps, done, pending) {
      var n :| LeastReady(deps, done, pending, n);
      KahnStep(deps, done, pending, n);
      KahnPlacesPending(deps, done + {n}, pending - {n});
    }
  }

  lemma {:induction false} FirstAfterStep(deps: Deps, done: set<string>, n: string, rest: seq<string>)
    requires n in deps && deps[n] <= done && FirstAfter(deps, done + {n}, rest)
    ensures FirstAfter(deps, done, [n] + rest)
  {
    var order := [n] + rest;
    forall i, d | 0 <= i < |order| && order[i] in deps && d in deps[order[i]] ensures d in done || d in order[..i] {
      if i > 0 {
        assert order[i] == rest[i - 1] && order[..i] == [n] + rest[..i - 1];
        assert n in [n] && (d in done + {n} || d in rest[..i - 1]);
      }
    }
  }

  lemma {:induction false} KahnIsFirst(deps: Deps, done: set<string>, pending: set<string>)
    ensures FirstAfter(deps, done, Kahn(deps, done, pending))
    decreases |pending|
  {
    if SomeReady(deps, done, pending) {
      var n :| LeastReady(deps, done, pending, n);
      KahnStep(deps, done, pending, n);
      KahnIsFirst(deps, done + {n}, pending - {n});
      FirstAfterStep(deps, done, n, Kahn(deps, done + {n}, pending - {n}));
    }
  }

  lemma {:induction false} KahnStops(deps: Deps, done: set<string>, pending: set<string>, placed: set<string>)
    requires placed == Elements(Kahn(deps, done, pending))
    ensures !SomeReady(deps, done + placed, pending - placed)
    decreases |pending|
  {
    if SomeReady(deps, done, pending) {
      var n :| LeastReady(deps, done, pending, n);
      KahnStep(deps, done, pending, n);
      var later := Kahn(deps, done + {n}, pending - {n});
      assert n in pending && pending - {n} < pending;
      hide *;
      KahnStops(deps, done + {n}, pending - {n}, Elements(later));
      MoveOne(done, pending, n, later);
    } else {
      assert placed == {};
      assert done + placed == done && pending - placed == pending;
    }
  }

  lemma {:induction false} MoveOne(done: set<string>, pending: set<string>, n: string, later: seq<string>)
    ensures done + Elements([n] + later) == done + {n} + Elements(later)
    ensures pending - Elements([n] + later) == pending - {n} - Elements(later)
  {
    assert Elements([n] + later) == {n} + Elements(later);
  }

  // ----- what is left over -----

  ghost function Unplaced(deps: Deps): set<string> {
    deps.Keys - Elements(Kahn(deps, {}, deps.Keys))
  }

  lemma {:induction false} StuckIsTangled(deps: Deps, done: set<string>, pending: set<string>)
    requires forall n, d | n in deps && d in deps[n] :: d in deps
    requires done + pending == deps.Keys && !SomeReady(deps, done, pending) && pending != {}
    ensures Tangled(deps, pending)
  {
    forall n | n in pending ensures DependsOn(deps, n, pending) {
      NoneReadyWhenStuck(deps, done, pending, n);
      var d :| d in deps[n] && d !in done;
      assert d in deps && d in pending;
    }
  }

  lemma {:induction false} KnotNeedsEarlier(deps: Deps, order: seq<string>, c: set<string>, i: nat)
    requires DependencyFirst(deps, order) && Tangled(deps, c) && i < |order| && order[i] in c
    ensures exists n :: n in order[..i] && n in c
  {
    assert DependsOn(deps, order[i], c);
    var d :| d in c && d in deps[order[i]];
    assert d in order[..i];
  }

  /** No dependency-first list mentions a member of a knot. */
  lemma {:induction false} KnotsAreAvoided(deps: Deps, order: seq<string>, c: set<string>, i: nat)
    requires DependencyFirst(deps, order) && Tangled(deps, c) && i <= |order|
    ensures forall n | n in order[..i] :: n !in c
  {
    hide DependencyFirst, Tangled;
    if i > 0 {
      KnotsAreAvoided(deps, order, c, i - 1);
      assert order[..i] == order[..i - 1] + [order[i - 1]];
      if order[i - 1] in c { KnotNeedsEarlier(deps, order, c, i - 1); }
    }
  }

  /** The names Kahn's algorithm cannot place are the largest knot. */
  lemma {:induction false} UnplacedIsLargestKnot(names: seq<string>, deps: Deps)
    requires WellFormed(names, deps)
    ensures Unplaced(deps) == {} || Tangled(deps, Unplaced(deps))
    ensures forall c | Tangled(deps, c) :: c <= Unplaced(deps)
  {
    var order := Kahn(deps, {}, deps.Keys);
    var placed := Elements(order);
    hide Kahn, SomeReady, DependsOn, DependencyFirst;
    KahnPlacesPending(deps, {}, deps.Keys);
    KahnStops(deps, {}, deps.Keys, placed);
    assert {} + placed == placed && placed + Unplaced(deps) == deps.Keys;
    if Unplaced(deps) != {} { StuckIsTangled(deps, placed, Unplaced(deps)); }
    KahnIsFirst(deps, {}, deps.Keys);
    AfterNothing(deps, order);
    forall c | Tangled(deps, c) ensures c <= Unplaced(deps) {
      KnotsAreAvoided(deps, order, c, |order|);
      assert order[..|order|] == order;
      assert c <= deps.Keys;
    }
  }

  lemma {:induction false} AfterNothing(deps: Deps, order: seq<string>)
    requires FirstAfter(deps, {}, order)
    ensures DependencyFirst(deps, order)
  {
    var done: set<string> := {};
    assert FirstAfter(deps, done, order);
    forall i, d | 0 <= i < |order| && order[i] in deps && d in deps[order[i]] ensures d in order[..i] {
      assert d in order[..i] || d in done;
    }
  }

  lemma {:induction false} AcyclicIffPlaced(names: seq<string>, deps: Deps)
    requires WellFormed(names, deps)
    ensures Acyclic(deps) <==> Unplaced(deps) == {}
  {
    UnplacedIsLargestKnot(names, deps);
    if Unplaced(deps) == {} {
      forall c ensures !Tangled(deps, c) {
        assert c <= {} ==> c == {};
      }
    }
  }

  lemma {:induction false} RemainingMembers(names: seq<string>, placed: seq<string>)
    ensures forall n :: n in Remaining(names, placed) <==> n in names && n !in placed
    ensures Distinct(names) ==> Distinct(Remaining(names, placed))
  {
    if names != [] {
      RemainingMembers(names[1..], placed);
      assert names == [names[0]] + names[1..];
    }
  }

  // ----- the sort -----

  /** The result is always a permutation of the input. */
  lemma {:induction false} SortPermutes(names: seq<string>, deps: Deps)
    requires WellFormed(names, deps)
    ensures Lists(deps, SortedNames(names, deps))
    ensures multiset(SortedNames(names, deps)) == multiset(names)
  {
    var placed := Kahn(deps, {}, deps.Keys);
    KahnPlacesPending(deps, {}, deps.Keys);
    RemainingMembers(names, placed);
    hide Kahn, Remaining;
    var r := SortedNames(names, deps);
    assert forall i | 0 <= i < |placed| :: r[i] in placed;
    assert forall i | |placed| <= i < |r| :: r[i] == Remaining(names, placed)[i - |placed|] && r[i] !in placed;
    assert Distinct(r);
    DistinctSameMultiset(r, names);
  }

  lemma {:induction false} NothingRemains(names: seq<string>, placed: seq<string>)
    requires forall n | n in names :: n in placed
    ensures Remaining(names, placed) == []
  {
    if names != [] {
      assert names[0] in names && forall n | n in names[1..] :: n in names;
      NothingRemains(names[1..], placed);
    }
  }

  lemma {:induction false} AcyclicSort(names: seq<string>, deps: Deps)
    requires WellFormed(names, deps) && Acyclic(deps)
    ensures SortedNames(names, deps) == Kahn(deps, {}, deps.Keys)
    ensures DependencyFirst(deps, SortedNames(names, deps))
  {
    var placed := Kahn(deps, {}, deps.Keys);
    AcyclicIffPlaced(names, deps);
    KahnIsFirst(deps, {}, deps.Keys);
    AfterNothing(deps, placed);
    hide Kahn, Remaining, Acyclic, DependencyFirst, FirstAfter, Distinct;
    assert forall n | n in names :: n in deps.Keys && n !in Unplaced(deps);
    NothingRemains(names, placed);
    assert placed + [] == placed;
  }

  lemma {:induction false} KnotMeansUnlisted(deps: Deps, order: seq<string>, c: set<string>)
    requires Tangled(deps, c) && DependencyFirst(deps, order)
    ensures !Lists(deps, order)
  {
    hide DependsOn, DependencyFirst, Distinct;
    KnotsAreAvoided(deps, order, c, |order|);
    assert order[..|order|] == order;
    var n :| n in c;
    assert n in deps;
  }

  lemma {:induction false} ListedMeansAcyclic(deps: Deps, order: seq<string>)
    requires Lists(deps, order) && DependencyFirst(deps, order)
    ensures Acyclic(deps)
  {
    hide Tangled, DependencyFirst, Lists;
    forall c ensures !Tangled(deps, c) {
      if Tangled(deps, c) { KnotMeansUnlisted(deps, order, c); }
    }
  }

  /** The result has dependencies first exactly when there is no knot, that is, whenever any order has. */
  lemma {:induction false} SortedFirstIffAcyclic(names: seq<string>, deps: Deps)
    requires WellFormed(names, deps)
    ensures DependencyFirst(deps, SortedNames(names, deps)) <==> Acyclic(deps)
    ensures (exists order :: Lists(deps, order) && DependencyFirst(deps, order)) <==> Acyclic(deps)
  {
    hide SortedNames, DependencyFirst, Acyclic;
    SortPermutes(names, deps);
    if Acyclic(deps) {
      AcyclicSort(names, deps);
    }
    if order :| Lists(deps, order) && DependencyFirst(deps, order) {
      ListedMeansAcyclic(deps, order);
    }
  }

  lemma {:induction false} FirstAfterTail(deps: Deps, done: set<string>, order: seq<string>)
    requires FirstAfter(deps, done, order) && order != []
    ensures order[0] in deps ==> deps[order[0]] <= done
    ensures FirstAfter(deps, done + {order[0]}, order[1..])
  {
    forall i, d | 0 <= i < |order[1..]| && order[1..][i] in deps && d in deps[order[1..][i]]
      ensures d in done + {order[0]} || d in order[1..][..i]
    {
      assert order[1..][i] == order[i + 1];
      assert d in done || d in order[..i + 1];
      assert order[..i + 1] == [order[0]] + order[1..][..i];
    }
    if order[0] in deps {
      forall d | d in deps[order[0]] ensures d in done { assert d !in order[..0]; }
    }
  }

  lemma {:induction false} TailElements(s: seq<string>, elements: set<string>, rest: seq<string>)
    requires s != [] && Distinct(s) && forall n | n in s :: n in elements
    requires forall n | n in [s[0]] + rest :: n in s
    requires forall n | n in rest :: n in elements - {s[0]}
    ensures Distinct(s[1..]) && forall n | n in s[1..] :: n in elements - {s[0]}
    ensures forall n | n in rest :: n in s[1..]
  {
    assert s == [s[0]] + s[1..];
    forall n | n in rest ensures n in s[1..] { assert n in [s[0]] + rest; }
  }

  lemma {:induction false} KahnIsLeast(deps: Deps, done: set<string>, pending: set<string>, other: seq<string>)
    requires pending <= deps.Keys && FirstAfter(deps, done, other)
    requires Distinct(other) && (forall n | n in other :: n in pending)
    requires forall n | n in Kahn(deps, done, pending) :: n in other
    ensures ListLe(Kahn(deps, done, pending), other)
    decreases |other|
  {
    if SomeReady(deps, done, pending) {
      var n :| LeastReady(deps, done, pending, n);
      hide FirstAfter, SomeReady, Kahn, StrLe;
      KahnStep(deps, done, pending, n);
      assert n in [n] && n in pending && n in other;
      FirstAfterTail(deps, done, other);
      assert other[0] in other && Ready(deps, done, other[0]);
      assert StrLe(n, other[0]);
      hide LeastReady;
      if n == other[0] {
        KahnPlacesPending(deps, done + {n}, pending - {n});
        TailElements(other, pending, Kahn(deps, done + {n}, pending - {n}));
        KahnIsLeast(deps, done + {n}, pending - {n}, other[1..]);
      }
    } else {
      assert Kahn(deps, done, pending) == [];
    }
  }

  /** Of all dependency-first arrangements the result is the least, name by name. */
  lemma {:induction false} SortIsLeast(names: seq<string>, deps: Deps, other: seq<string>)
    requires WellFormed(names, deps)
    requires Lists(deps, other) && DependencyFirst(deps, other)
    ensures ListLe(SortedNames(names, deps), other)
  {
    ListedMeansAcyclic(deps, other);
    AcyclicSort(names, deps);
    KahnPlacesPending(deps, {}, deps.Keys);
    KahnIsLeast(deps, {}, deps.Keys, other);
  }

  lemma {:induction false} BeforeLeftOver(placed: seq<string>, left: seq<string>)
    ensures (placed + left)[..|placed|] == placed && (placed + left)[|placed|..] == left
  {
  }

  /** Also with knots: the names that can be placed come first, in the least of their dependency-first arrangements. */
  lemma {:induction false} PlacedComeFirst(names: seq<string>, deps: Deps, other: seq<string>)
    requires WellFormed(names, deps) && Distinct(other) && DependencyFirst(deps, other)
    requires forall n :: n in other <==> n in deps && n !in Unplaced(deps)
    ensures |other| <= |SortedNames(names, deps)|
    ensures var placed := SortedNames(names, deps)[..|other|];
            multiset(placed) == multiset(other) && DependencyFirst(deps, placed) && ListLe(placed, other)
  {
    var placed, left := Kahn(deps, {}, deps.Keys), Remaining(names, Kahn(deps, {}, deps.Keys));
    KahnPlacesPending(deps, {}, deps.Keys);
    KahnIsFirst(deps, {}, deps.Keys);
    assert SortedNames(names, deps) == placed + left;
    hide Kahn, Remaining, SortedNames, ListLe;
    assert forall n :: n in placed <==> n in other;
    KahnIsLeast(deps, {}, deps.Keys, other);
    AfterNothing(deps, placed);
    DistinctSameMultiset(placed, other);
    assert |placed| == |other| by { assert |multiset(placed)| == |multiset(other)|; }
    BeforeLeftOver(placed, left);
  }

  lemma {:induction false} RemainingOrder(names: seq<string>, placed: seq<string>, i: nat, j: nat)
    returns (a: nat, b: nat)
    requires i < j < |Remaining(names, placed)|
    ensures a < b < |names|
    ensures names[a] == Remaining(names, placed)[i] && names[b] == Remaining(names, placed)[j]
  {
    if names[0] in placed {
      a, b := RemainingOrder(names[1..], placed, i, j);
      a, b := a + 1, b + 1;
    } else if i > 0 {
      a, b := RemainingOrder(names[1..], placed, i - 1, j - 1);
      a, b := a + 1, b + 1;
    } else {
      a := 0;
      RemainingMembers(names[1..], placed);
      assert Remaining(names, placed)[j] == Remaining(names[1..], placed)[j - 1];
      assert Remaining(names[1..], placed)[j - 1] in names[1..];
      var c :| 0 <= c < |names[1..]| && names[1..][c] == Remaining(names[1..], placed)[j - 1];
      b := c + 1;
    }
  }

  /** The names of the largest knot come last, in their input order. */
  lemma {:induction false} KnotsComeLast(names: seq<string>, deps: Deps, i: nat, j: nat)
    requires WellFormed(names, deps) && i < j < |SortedNames(names, deps)|
    requires SortedNames(names, deps)[i] in Unplaced(deps)
    ensures SortedNames(names, deps)[j] in Unplaced(deps)
    ensures exists a, b :: 0 <= a < b < |names| && names[a] == SortedNames(names, deps)[i]
                           && names[b] == SortedNames(names, deps)[j]
  {
    hide SortedNames, Kahn, Remaining;
    var placed := Kahn(deps, {}, deps.Keys);
    var left := LeftOver(names, deps);
    BehindPlaced(placed, left, i);
    BehindPlaced(placed, left, j);
    hide WellFormed, Unplaced;
    var a, b := RemainingOrder(names, placed, i - |placed|, j - |placed|);
  }

  lemma {:induction false} BehindPlaced(placed: seq<string>, left: seq<string>, i: nat)
    requires i < |placed + left|
    ensures i < |placed| ==> (placed + left)[i] in placed
    ensures i >= |placed| ==> (placed + left)[i] == left[i - |placed|] && left[i - |placed|] in left
  {
  }

  // ----- the input order -----

  lemma {:induction false} TwoListed(s: set<string>, r: seq<string>)
    requires Distinct(r) && forall n :: n in r <==> n in s
    ensures |r| >= 2 <==> |s| >= 2
  {
    if |r| >= 2 {
      assert r[0] in r && r[1] in r && r[0] != r[1];
      SubsetCount({r[0], r[1]}, s);
    } else if r == [] {
      assert s == {};
    } else {
      assert r[0] in r && s == {r[0]};
    }
  }

  lemma {:induction false} LeftOver(names: seq<string>, deps: Deps) returns (left: seq<string>)
    requires WellFormed(names, deps)
    ensures left == Remaining(names, Kahn(deps, {}, deps.Keys))
    ensures SortedNames(names, deps) == Kahn(deps, {}, deps.Keys) + left
    ensures Distinct(left) && forall n :: n in left <==> n in Unplaced(deps)
  {
    left := Remaining(names, Kahn(deps, {}, deps.Keys));
    RemainingMembers(names, Kahn(deps, {}, deps.Keys));
  }

  /** The same names with x moved to the front. */
  lemma {:induction false} Fronted(names: seq<string>, deps: Deps, x: string) returns (other: seq<string>)
    requires WellFormed(names, deps) && x in names
    ensures WellFormed(other, deps) && other != [] && other[0] == x
  {
    RemainingMembers(names, [x]);
    other := [x] + Remaining(names, [x]);
    assert x in [x];
  }

  lemma {:induction false} AtMostOneLeft(names: seq<string>, other: seq<string>, deps: Deps)
    requires WellFormed(names, deps) && WellFormed(other, deps) && |Unplaced(deps)| <= 1
    ensures SortedNames(other, deps) == SortedNames(names, deps)
  {
    hide SortedNames, Unplaced, WellFormed;
    var a := LeftOver(names, deps);
    var b := LeftOver(other, deps);
    TwoListed(Unplaced(deps), a);
    TwoListed(Unplaced(deps), b);
    if a != [] { assert a[0] in a && a[0] in b; }
    if b != [] { assert b[0] in b && b[0] in a; }
    assert a == b;
  }

  lemma {:induction false} TwoLeft(names: seq<string>, deps: Deps) returns (other: seq<string>)
    requires WellFormed(names, deps) && |Unplaced(deps)| >= 2
    ensures WellFormed(other, deps) && SortedNames(other, deps) != SortedNames(names, deps)
  {
    hide SortedNames, Kahn;
    var a := LeftOver(names, deps);
    TwoListed(Unplaced(deps), a);
    assert a[1] in a;
    other := Fronted(names, deps, a[1]);
    var b := LeftOver(other, deps);
    assert b[0] == a[1] != a[0];
    var placed := Kahn(deps, {}, deps.Keys);
    assert (placed + a)[|placed|] != (placed + b)[|placed|];
  }

  /** Models declared in another order give the same result exactly when at most one of them is left
      unplaced; with no knot, none is. */
  lemma {:induction false} InputOrderForgottenIff(names: seq<string>, deps: Deps)
    requires WellFormed(names, deps)
    ensures (forall other | WellFormed(other, deps) :: SortedNames(other, deps) == SortedNames(names, deps))
            <==> |Unplaced(deps)| <= 1
    ensures Acyclic(deps) ==> |Unplaced(deps)| == 0
  {
    hide SortedNames, Unplaced, WellFormed, Acyclic;
    AcyclicIffPlaced(names, deps);
    if |Unplaced(deps)| <= 1 {
      forall other | WellFormed(other, deps) ensures SortedNames(other, deps) == SortedNames(names, deps) {
        AtMostOneLeft(names, other, deps);
      }
    } else {
      var other := TwoLeft(names, deps);
    }
  }

  /** Two models that refer to each other come out in the order they went in. */
  lemma {:induction false} KnotKeepsInputOrder()
    ensures var deps: Deps := map["a" := {"b"}, "b" := {"a"}];
            && WellFormed(["a", "b"], deps) && SortedNames(["a", "b"], deps) == ["a", "b"]
            && WellFormed(["b", "a"], deps) && SortedNames(["b", "a"], deps) == ["b", "a"]
  {
    var deps: Deps := map["a" := {"b"}, "b" := {"a"}];
    assert "b" in deps["a"] && "a" in deps["b"] && deps.Keys == {"a", "b"};
    assert !SomeReady(deps, {}, deps.Keys);
    assert Kahn(deps, {}, deps.Keys) == [];
    hide Kahn, SomeReady;
    TwoRemain("a", "b");
    TwoRemain("b", "a");
    assert [] + ["a", "b"] == ["a", "b"] && [] + ["b", "a"] == ["b", "a"];
  }

  lemma {:induction false} TwoRemain(x: string, y: string)
    ensures Remaining([x, y], []) == [x, y]
  {
    assert [x, y][1..] == [y] && [y][1..] == [];
    assert Remaining([y], []) == [y] + Remaining([], []);
  }
}
