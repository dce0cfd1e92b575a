/** The pytest hook that keeps one shard of the collected items. */
module ShardPlugin {
  import opened Ordering
  import opened Sharding

  predicate SeparatorAt(s: string, i: nat) {
    i + 1 < |s| && s[i] == ':' && s[i + 1] == ':'
  }

  /** A node id up to its first "::". */
  function ModuleOf(nodeid: string): (r: string)
    ensures r <= nodeid
    ensures forall i: nat | i < |r| :: !SeparatorAt(nodeid, i)
    ensures r == nodeid || SeparatorAt(nodeid, |r|)
  {
    if nodeid == "" || SeparatorAt(nodeid, 0) then ""
    else
      var rest := ModuleOf(nodeid[1..]);
      assert forall i: nat | 0 < i :: SeparatorAt(nodeid, i) <==> SeparatorAt(nodeid[1..], i - 1);
      [nodeid[0]] + rest
  }

  /** The module of a test is what stands before the first two colons of its node id. */
  lemma {:induction false} ModuleIs(nodeid: string)
    ensures ModuleOf(nodeid) <= nodeid
    ensures forall i: nat | i < |ModuleOf(nodeid)| && i + 1 < |nodeid| :: !(nodeid[i] == ':' && nodeid[i + 1] == ':')
    ensures var n := |ModuleOf(nodeid)|;
            n < |nodeid| ==> n + 1 < |nodeid| && nodeid[n] == ':' && nodeid[n + 1] == ':'
  {
    forall i: nat | i < |ModuleOf(nodeid)| && i + 1 < |nodeid| ensures !(nodeid[i] == ':' && nodeid[i + 1] == ':') {
      assert !SeparatorAt(nodeid, i);
    }
  }

  /** The keys of the counting dict, in order of first appearance. */
  function Modules(items: seq<string>): seq<string> {
    if items == [] then []
    else
      var seen := Modules(items[..|items| - 1]);
      var m := ModuleOf(items[|items| - 1]);
      if m in seen then seen else seen + [m]
  }

  function Counts(items: seq<string>): map<string, nat> {
    if items == [] then map[]
    else
      var c := Counts(items[..|items| - 1]);
      var m := ModuleOf(items[|items| - 1]);
      c[m := At(c, m) + 1]
  }

  lemma {:induction false} CountsIsDict(items: seq<string>)
    ensures IsDict(Modules(items), Counts(items))
    ensures forall m | m in Counts(items) :: Counts(items)[m] > 0
    ensures forall x | x in items :: ModuleOf(x) in Modules(items)
  {
    if items != [] { CountsIsDict(items[..|items| - 1]); }
  }

  function Keep(items: seq<string>, selected: set<string>): seq<string> {
    if items == [] then []
    else Keep(items[..|items| - 1], selected)
         + (if ModuleOf(items[|items| - 1]) in selected then [items[|items| - 1]] else [])
  }

  function Drop(items: seq<string>, selected: set<string>): seq<string> {
    if items == [] then []
    else Drop(items[..|items| - 1], selected)
         + (if ModuleOf(items[|items| - 1]) in selected then [] else [items[|items| - 1]])
  }

  /** Both parts hold their items in the order of the collection, and each item goes by its module. */
  lemma {:induction false} SplitInOrder(a: seq<string>, b: seq<string>, selected: set<string>, item: string)
    ensures Keep(a + b, selected) == Keep(a, selected) + Keep(b, selected)
    ensures Drop(a + b, selected) == Drop(a, selected) + Drop(b, selected)
    ensures Keep([item], selected) == (if ModuleOf(item) in selected then [item] else [])
    ensures Drop([item], selected) == (if ModuleOf(item) in selected then [] else [item])
  {
    hide ModuleOf;
    assert [item][..0] == [];
    if b == [] {
      assert a + b == a;
    } else {
      assert (a + b)[..|a + b| - 1] == a + b[..|b| - 1];
      SplitInOrder(a, b[..|b| - 1], selected, item);
    }
  }

  const ISOLATED_MODULES: set<string> := {"tests/test_false_promotion_calibration.py"}

  function Shards(items: seq<string>, count: nat): (r: seq<set<string>>)
    requires count > 0
    ensures |r| == count
  {
    Partition(Modules(items), Counts(items), count, ISOLATED_MODULES)
  }

  /** The list pytest passes to the hook, and what the hook reports as deselected. */
  class Session {
    var items: seq<string>
    var deselected: seq<string>

    constructor (collected: seq<string>)
      ensures items == collected && deselected == []
    {
      items, deselected := collected, [];
    }
  }

  class Plugin {
    const index: nat
    const count: nat

    constructor (index: nat, count: nat)
      requires 1 <= index <= count
      ensures this.index == index && this.count == count
    {
      this.index, this.count := index, count;
    }

    method CollectionModifyItems(session: Session)
      requires 1 <= index <= count
      modifies session
      ensures session.items == Keep(old(session.items), Shards(old(session.items), count)[index - 1])
      ensures session.deselected == Drop(old(session.items), Shards(old(session.items), count)[index - 1])
    {
      hide Partition, Counts, Modules, ModuleOf;
      var items := session.items;
      var keys, counts := CountModules(items);
      CountsIsDict(items);
      var shards := PartitionModules(keys, counts, count, ISOLATED_MODULES);
      var selected := shards.value[index - 1];
      var kept, removed := [], [];
      var k := 0;
      while k < |items|
        invariant 0 <= k <= |items|
        invariant kept == Keep(items[..k], selected) && removed == Drop(items[..k], selected)
      {
        assert items[..k + 1][..k] == items[..k];
        if ModuleOf(items[k]) in selected {
          kept := kept + [items[k]];
        } else {
          removed := removed + [items[k]];
        }
        k := k + 1;
      }
      assert items[..k] == items;
      session.items, session.deselected := kept, removed;
    }
  }

  method CountModules(items: seq<string>) returns (keys: seq<string>, counts: map<string, nat>)
    ensures keys == Modules(items) && counts == Counts(items)
  {
    keys, counts := [], map[];
    var k := 0;
    while k < |items|
      invariant 0 <= k <= |items|
      invariant keys == Modules(items[..k]) && counts == Counts(items[..k])
    {
      assert items[..k + 1][..k] == items[..k];
      var m := ModuleOf(items[k]);
      if m !in keys {
        keys := keys + [m];
      }
      counts := counts[m := At(counts, m) + 1];
      k := k + 1;
    }
    assert items[..k] == items;
  }

  // ----- what the shards of one collection add up to -----

  function AllKept(items: seq<string>, shards: seq<set<string>>): seq<string> {
    if shards == [] then [] else AllKept(items, shards[..|shards| - 1]) + Keep(items, shards[|shards| - 1])
  }

  lemma {:induction false} AllKeptStep(items: seq<string>, shards: seq<set<string>>)
    requires items != []
    requires forall i, j, n | 0 <= i < j < |shards| :: !(n in shards[i] && n in shards[j])
    ensures multiset(AllKept(items, shards)) == multiset(AllKept(items[..|items| - 1], shards))
            + (if Held(shards, ModuleOf(items[|items| - 1])) then multiset{items[|items| - 1]} else multiset{})
  {
    if shards != [] {
      var n := |shards| - 1;
      var last, before := items[|items| - 1], items[..|items| - 1];
      var m := ModuleOf(last);
      assert Keep(items, shards[n]) == Keep(before, shards[n]) + (if m in shards[n] then [last] else []);
      assert AllKept(items, shards) == AllKept(items, shards[..n]) + Keep(items, shards[n]);
      assert AllKept(before, shards) == AllKept(before, shards[..n]) + Keep(before, shards[n]);
      HeldByLast(shards, m);
      hide ModuleOf, Held, Keep, AllKept;
      AllKeptStep(items, shards[..n]);
      var now, was := AllKept(items, shards[..n]), AllKept(before, shards[..n]);
      assert multiset(AllKept(items, shards)) == multiset(now) + multiset(Keep(items, shards[n]));
    }
  }

  lemma {:induction false} HeldByLast(shards: seq<set<string>>, m: string)
    requires shards != []
    requires forall i, j, n | 0 <= i < j < |shards| :: !(n in shards[i] && n in shards[j])
    ensures Held(shards, m) <==> (m in shards[|shards| - 1] || Held(shards[..|shards| - 1], m))
    ensures m in shards[|shards| - 1] ==> !Held(shards[..|shards| - 1], m)
  {
    var n := |shards| - 1;
    if Held(shards, m) {
      var i :| 0 <= i < |shards| && m in shards[i];
      assert i < n ==> m in shards[..n][i];
    }
    if Held(shards[..n], m) {
      var i :| 0 <= i < n && m in shards[..n][i];
      assert m in shards[i];
    }
  }

  lemma {:induction false} NothingKept(shards: seq<set<string>>)
    ensures AllKept([], shards) == []
  {
    if shards != [] { NothingKept(shards[..|shards| - 1]); }
  }

  lemma {:induction false} KeptTogether(items: seq<string>, shards: seq<set<string>>)
    requires forall x | x in items :: Held(shards, ModuleOf(x))
    requires forall i, j, n | 0 <= i < j < |shards| :: !(n in shards[i] && n in shards[j])
    ensures multiset(AllKept(items, shards)) == multiset(items)
  {
    if items == [] {
      NothingKept(shards);
    } else {
      assert items == items[..|items| - 1] + [items[|items| - 1]];
      assert items[|items| - 1] in items;
      assert forall x | x in items[..|items| - 1] :: x in items;
      KeptTogether(items[..|items| - 1], shards);
      AllKeptStep(items, shards);
    }
  }

  /** Independent processes 1..count over one collection keep every item exactly once between them. */
  lemma {:induction false} ShardsAreExactCover(items: seq<string>, count: nat)
    requires count > 0
    ensures multiset(AllKept(items, Shards(items, count))) == multiset(items)
    ensures forall x | x in items :: Held(Shards(items, count), ModuleOf(x))
    ensures forall i, j, x | 0 <= i < j < count && x in items ::
              !(ModuleOf(x) in Shards(items, count)[i] && ModuleOf(x) in Shards(items, count)[j])
  {
    CountsIsDict(items);
    PartitionCovers(Modules(items), Counts(items), count, ISOLATED_MODULES);
    KeptTogether(items, Shards(items, count));
  }

  lemma {:induction false} AtMostOneIsolated(names: seq<string>)
    requires Distinct(names)
    ensures IsolatedCount(names, ISOLATED_MODULES) <= 1
    ensures "tests/test_false_promotion_calibration.py" !in names ==> IsolatedCount(names, ISOLATED_MODULES) == 0
  {
    if names != [] { AtMostOneIsolated(names[..|names| - 1]); }
  }

  /** With at least two shards the calibration module never shares its shard. */
  lemma {:induction false} CalibrationRunsAlone(items: seq<string>, count: nat, s: nat)
    requires s < count && count >= 2
    requires "tests/test_false_promotion_calibration.py" in Shards(items, count)[s]
    ensures forall x | x in Keep(items, Shards(items, count)[s]) ::
              ModuleOf(x) == "tests/test_false_promotion_calibration.py"
  {
    CountsIsDict(items);
    AtMostOneIsolated(Modules(items));
    var name := "tests/test_false_promotion_calibration.py";
    IsolatedModuleIsAlone(Modules(items), Counts(items), count, ISOLATED_MODULES, s, name);
    KeptBelong(items, {name});
  }

  lemma {:induction false} KeptBelong(items: seq<string>, selected: set<string>)
    ensures forall x | x in Keep(items, selected) :: ModuleOf(x) in selected
  {
    if items != [] { KeptBelong(items[..|items| - 1], selected); }
  }
}
