/** The frozen corpus: what its validator accepts. */
module Corpus {
  import opened StudyTypes

  /** The cases of one split. */
  type Cases = seq<Case>

  datatype Verdict = Accepted | GroupLeakage | MissingCohort | DuplicateCase | MixedGroup

  // ----- what a sound corpus is -----

  function All(splits: seq<Cases>): Cases {
    if splits == [] then [] else All(splits[..|splits| - 1]) + splits[|splits| - 1]
  }

  /** No two of these cases share an id or an input. */
  ghost predicate Fresh(cases: Cases) {
    forall i, j | 0 <= i < j < |cases| :: cases[i].id != cases[j].id && cases[i].input != cases[j].input
  }

  ghost predicate ShareGroup(s: Cases, t: Cases) {
    exists i, j :: 0 <= i < |s| && 0 <= j < |t| && s[i].group == t[j].group
  }

  ghost predicate BothCohorts(split: Cases) {
    && (exists i :: 0 <= i < |split| && split[i].cohort == Supported)
    && (exists i :: 0 <= i < |split| && split[i].cohort == Shifted)
  }

  /** Cases of one group have one cohort. */
  ghost predicate PureGroups(cases: Cases) {
    forall i, j | 0 <= i < |cases| && 0 <= j < |cases| ::
      cases[i].group == cases[j].group ==> cases[i].cohort == cases[j].cohort
  }

  ghost predicate Isolated(splits: seq<Cases>) {
    && Fresh(All(splits))
    && (forall a, b | 0 <= a < b < |splits| :: !ShareGroup(splits[a], splits[b]))
    && (forall a | 0 <= a < |splits| :: BothCohorts(splits[a]))
    && PureGroups(All(splits))
  }

  // ----- what the validator accumulates -----

  function Ids(split: Cases): (r: set<string>)
    ensures forall x :: x in r <==> exists i :: 0 <= i < |split| && split[i].id == x
  {
    set i | 0 <= i < |split| :: split[i].id
  }

  function Digests(split: Cases): (r: set<string>)
    ensures forall x :: x in r <==> exists i :: 0 <= i < |split| && split[i].input == x
  {
    set i | 0 <= i < |split| :: split[i].input
  }

  function Groups(split: Cases): (r: set<string>)
    ensures forall x :: x in r <==> exists i :: 0 <= i < |split| && split[i].group == x
  {
    set i | 0 <= i < |split| :: split[i].group
  }

  function Cohorts(split: Cases): (r: set<Cohort>)
    ensures forall x :: x in r <==> exists i :: 0 <= i < |split| && split[i].cohort == x
  {
    set i | 0 <= i < |split| :: split[i].cohort
  }

  lemma {:induction false} FreshStep(cases: Cases, c: Case)
    ensures Fresh(cases + [c]) <==> Fresh(cases) && c.id !in Ids(cases) && c.input !in Digests(cases)
    ensures Ids(cases + [c]) == Ids(cases) + {c.id} && Digests(cases + [c]) == Digests(cases) + {c.input}
  {
    var all := cases + [c];
    assert all[|cases|] == c;
    assert forall i | 0 <= i < |cases| :: all[i] == cases[i];
    if Fresh(all) {
      forall i | 0 <= i < |cases| ensures cases[i].id != c.id && cases[i].input != c.input {
        assert all[i].id != all[|cases|].id;
      }
      forall i, j | 0 <= i < j < |cases| ensures cases[i].id != cases[j].id && cases[i].input != cases[j].input {
        assert all[i].id != all[j].id;
      }
    }
  }

  lemma {:induction false} FreshPrefix(a: Cases, b: Cases)
    requires Fresh(a + b)
    ensures Fresh(a)
  {
    assert forall i | 0 <= i < |a| :: a[i] == (a + b)[i];
  }

  /** The inner loop: the first repeated id or input rejects. */
  method AddCases(seen: Cases, split: Cases, ids: set<string>, inputs: set<string>)
    returns (ok: bool, ids': set<string>, inputs': set<string>)
    requires Fresh(seen) && ids == Ids(seen) && inputs == Digests(seen)
    ensures ok <==> Fresh(seen + split)
    ensures ok ==> ids' == Ids(seen + split) && inputs' == Digests(seen + split)
  {
    ids', inputs' := ids, inputs;
    assert seen + split[..0] == seen;
    hide Fresh;
    for j := 0 to |split|
      invariant Fresh(seen + split[..j]) && ids' == Ids(seen + split[..j]) && inputs' == Digests(seen + split[..j])
    {
      FreshStep(seen + split[..j], split[j]);
      assert seen + split[..j] + [split[j]] == seen + split[..j + 1];
      if split[j].id in ids' || split[j].input in inputs' {
        if Fresh(seen + split) {
          assert seen + split == seen + split[..j + 1] + split[j + 1..];
          FreshPrefix(seen + split[..j + 1], split[j + 1..]);
        }
        return false, ids', inputs';
      }
      ids', inputs' := ids' + {split[j].id}, inputs' + {split[j].input};
    }
    assert split[..|split|] == split;
    ok := true;
  }

  ghost predicate GroupsApart(splits: seq<Cases>) {
    forall a, b | 0 <= a < b < |splits| :: Groups(splits[a]) !! Groups(splits[b])
  }

  ghost predicate CohortsFull(splits: seq<Cases>) {
    forall a | 0 <= a < |splits| :: Cohorts(splits[a]) == {Supported, Shifted}
  }

  /** Splits accepted so far: their groups apart, both cohorts each, all cases fresh. */
  ghost predicate GoodSplits(splits: seq<Cases>) {
    Fresh(All(splits)) && GroupsApart(splits) && CohortsFull(splits)
  }

  /** The cohorts of a group's cases. */
  function GroupCohorts(cases: Cases, group: string): (r: set<Cohort>)
    ensures forall c :: c in r <==> exists i :: 0 <= i < |cases| && cases[i].group == group && cases[i].cohort == c
  {
    set i | 0 <= i < |cases| && cases[i].group == group :: cases[i].cohort
  }

  lemma {:induction false} AllGroups(splits: seq<Cases>, g: string)
    ensures g in Groups(All(splits)) <==> exists a :: 0 <= a < |splits| && g in Groups(splits[a])
  {
    if splits != [] {
      var n := |splits| - 1;
      AllGroups(splits[..n], g);
      GroupsConcat(All(splits[..n]), splits[n], g);
      if g in Groups(All(splits[..n])) {
        var a :| 0 <= a < |splits[..n]| && g in Groups(splits[..n][a]);
        assert g in Groups(splits[a]);
      }
      if exists a :: 0 <= a < |splits| && g in Groups(splits[a]) {
        var a :| 0 <= a < |splits| && g in Groups(splits[a]);
        if a < n { assert g in Groups(splits[..n][a]); }
      }
    }
  }

  lemma {:induction false} GroupsConcat(a: Cases, b: Cases, g: string)
    ensures g in Groups(a + b) <==> g in Groups(a) || g in Groups(b)
  {
    var s := a + b;
    assert forall i | 0 <= i < |a| :: a[i] == s[i];
    assert forall i | 0 <= i < |b| :: b[i] == s[|a| + i];
  }

  lemma {:induction false} ApartFromAll(splits: seq<Cases>, split: Cases)
    requires GroupsApart(splits + [split])
    ensures GroupsApart(splits) && Groups(All(splits)) !! Groups(split)
  {
    var all := splits + [split];
    assert forall a | 0 <= a < |splits| :: all[a] == splits[a];
    hide All, Groups;
    forall g | g in Groups(All(splits)) ensures g !in Groups(split) {
      AllGroups(splits, g);
      var a :| 0 <= a < |splits| && g in Groups(splits[a]);
      assert Groups(all[a]) !! Groups(all[|splits|]);
    }
  }

  lemma {:induction false} ApartWithOneMore(splits: seq<Cases>, split: Cases)
    requires GroupsApart(splits) && Groups(All(splits)) !! Groups(split)
    ensures GroupsApart(splits + [split])
  {
    var all := splits + [split];
    hide All, Groups;
    forall a | 0 <= a < |splits| ensures Groups(splits[a]) !! Groups(split) {
      forall g | g in Groups(splits[a]) ensures g !in Groups(split) { AllGroups(splits, g); }
    }
    forall a, b | 0 <= a < b < |all| ensures Groups(all[a]) !! Groups(all[b]) {
      assert all[a] == splits[a] && (b < |splits| ==> all[b] == splits[b]);
    }
  }

  lemma {:induction false} CohortsStep(splits: seq<Cases>, split: Cases)
    ensures CohortsFull(splits + [split]) <==> CohortsFull(splits) && Cohorts(split) == {Supported, Shifted}
  {
    hide Cohorts;
    var all := splits + [split];
    assert all[|splits|] == split && forall a | 0 <= a < |splits| :: all[a] == splits[a];
  }

  lemma {:induction false} AllStep(splits: seq<Cases>, split: Cases)
    ensures All(splits + [split]) == All(splits) + split
  {
    assert (splits + [split])[..|splits|] == splits;
  }

  lemma {:induction false} GoodStep(splits: seq<Cases>, split: Cases)
    ensures GoodSplits(splits + [split]) <==>
      GoodSplits(splits) && Fresh(All(splits) + split) && Groups(All(splits)) !! Groups(split)
      && Cohorts(split) == {Supported, Shifted}
  {
    AllStep(splits, split);
    CohortsStep(splits, split);
    hide Fresh, Groups, Cohorts, All, GroupsApart, CohortsFull;
    if Fresh(All(splits) + split) { FreshPrefix(All(splits), split); }
    if GroupsApart(splits + [split]) { ApartFromAll(splits, split); }
    if GroupsApart(splits) && Groups(All(splits)) !! Groups(split) { ApartWithOneMore(splits, split); }
  }

  lemma {:induction false} GoodPrefix(splits: seq<Cases>, k: nat)
    requires GoodSplits(splits) && k <= |splits|
    ensures GoodSplits(splits[..k])
    decreases |splits|
  {
    hide GoodSplits;
    if k < |splits| {
      var n := |splits| - 1;
      assert splits == splits[..n] + [splits[n]];
      GoodStep(splits[..n], splits[n]);
      GoodPrefix(splits[..n], k);
      assert splits[..n][..k] == splits[..k];
    } else {
      assert splits[..k] == splits;
    }
  }

  lemma {:induction false} OneCohort(s: set<Cohort>)
    ensures |s| == 1 <==> s == {Supported} || s == {Shifted}
  {
    if |s| == 1 {
      var c :| c in s;
      assert |s - {c}| == 0;
      assert s - {c} == {};
      assert s == {c};
      assert c == Supported || c == Shifted;
    }
  }

  lemma {:induction false} PureIff(cases: Cases)
    ensures PureGroups(cases) <==> forall g | g in Groups(cases) :: |GroupCohorts(cases, g)| == 1
  {
    if PureGroups(cases) {
      forall g | g in Groups(cases) ensures |GroupCohorts(cases, g)| == 1 {
        OneCohort(GroupCohorts(cases, g));
        var i :| 0 <= i < |cases| && cases[i].group == g;
        assert GroupCohorts(cases, g) == {cases[i].cohort};
      }
    }
    if forall g | g in Groups(cases) :: |GroupCohorts(cases, g)| == 1 {
      forall i, j | 0 <= i < |cases| && 0 <= j < |cases| && cases[i].group == cases[j].group
        ensures cases[i].cohort == cases[j].cohort {
        var g := cases[i].group;
        OneCohort(GroupCohorts(cases, g));
        assert cases[i].cohort in GroupCohorts(cases, g) && cases[j].cohort in GroupCohorts(cases, g);
      }
    }
  }

  lemma {:induction false} SplitFacts(s: Cases, t: Cases)
    ensures !ShareGroup(s, t) <==> Groups(s) !! Groups(t)
    ensures BothCohorts(s) <==> Cohorts(s) == {Supported, Shifted}
  {
    if !(Groups(s) !! Groups(t)) {
      var g :| g in Groups(s) && g in Groups(t);
      var i :| 0 <= i < |s| && s[i].group == g;
      var j :| 0 <= j < |t| && t[j].group == g;
      assert s[i].group == t[j].group;
    }
    if ShareGroup(s, t) {
      var i, j :| 0 <= i < |s| && 0 <= j < |t| && s[i].group == t[j].group;
      assert s[i].group in Groups(s) && s[i].group in Groups(t);
    }
    assert BothCohorts(s) ==> Supported in Cohorts(s) && Shifted in Cohorts(s);
    assert Cohorts(s) <= {Supported, Shifted};
    if Cohorts(s) == {Supported, Shifted} {
      assert Supported in Cohorts(s) && Shifted in Cohorts(s);
    }
  }

  lemma {:induction false} IsolatedIff(splits: seq<Cases>)
    ensures Isolated(splits) <==> GoodSplits(splits) && PureGroups(All(splits))
  {
    forall a, b | 0 <= a < b < |splits|
      ensures !ShareGroup(splits[a], splits[b]) <==> Groups(splits[a]) !! Groups(splits[b]) {
      SplitFacts(splits[a], splits[b]);
    }
    forall a | 0 <= a < |splits| ensures BothCohorts(splits[a]) <==> Cohorts(splits[a]) == {Supported, Shifted} {
      SplitFacts(splits[a], splits[a]);
    }
    hide ShareGroup, BothCohorts, Groups, Cohorts, Fresh, PureGroups, All;
  }

  /** The last loop: every group seen must have one cohort. */
  method GroupsArePure(cases: Cases, groups: set<string>) returns (ok: bool)
    requires groups == Groups(cases)
    ensures ok <==> PureGroups(cases)
  {
    PureIff(cases);
    hide PureGroups, Groups;
    var rest := groups;
    while rest != {}
      invariant rest <= groups && forall g | g in groups && g !in rest :: |GroupCohorts(cases, g)| == 1
    {
      var g :| g in rest;
      if |GroupCohorts(cases, g)| != 1 {
        return false;
      }
      rest := rest - {g};
    }
    ok := true;
  }

  /** The corpus has the fault the verdict names. */
  ghost predicate Faulty(splits: seq<Cases>, verdict: Verdict) {
    match verdict
    case Accepted => false
    case GroupLeakage => exists a, b :: 0 <= a < b < |splits| && ShareGroup(splits[a], splits[b])
    case MissingCohort => exists a :: 0 <= a < |splits| && !BothCohorts(splits[a])
    case DuplicateCase => !Fresh(All(splits))
    case MixedGroup => !PureGroups(All(splits))
  }

  lemma {:induction false} LeakageIsReal(splits: seq<Cases>, k: nat)
    requires k < |splits| && Groups(All(splits[..k])) * Groups(splits[k]) != {}
    ensures Faulty(splits, GroupLeakage)
  {
    hide ShareGroup, Groups, All;
    var g :| g in Groups(All(splits[..k])) * Groups(splits[k]);
    AllGroups(splits[..k], g);
    var a :| 0 <= a < k && g in Groups(splits[..k][a]);
    SplitFacts(splits[a], splits[k]);
    assert g in Groups(splits[a]) && g in Groups(splits[k]);
    assert ShareGroup(splits[a], splits[k]);
  }

  lemma {:induction false} CohortIsMissing(splits: seq<Cases>, k: nat)
    requires k < |splits| && Cohorts(splits[k]) != {Supported, Shifted}
    ensures Faulty(splits, MissingCohort)
  {
    SplitFacts(splits[k], splits[k]);
    hide BothCohorts, Cohorts;
  }

  lemma {:induction false} FreshUpTo(splits: seq<Cases>, k: nat)
    requires Fresh(All(splits)) && k <= |splits|
    ensures Fresh(All(splits[..k]))
    decreases |splits|
  {
    hide Fresh;
    if k < |splits| {
      var n := |splits| - 1;
      FreshPrefix(All(splits[..n]), splits[n]);
      FreshUpTo(splits[..n], k);
      assert splits[..n][..k] == splits[..k];
    } else {
      assert splits[..k] == splits;
    }
  }

  /** `isolated_splits`: the incremental check accepts exactly the isolated corpora, and a rejection names a
      fault the corpus has. */
  method IsolatedSplits(splits: seq<Cases>) returns (verdict: Verdict)
    ensures verdict == Accepted <==> Isolated(splits)
    ensures verdict != Accepted ==> Faulty(splits, verdict)
  {
    IsolatedIff(splits);
    hide Isolated, Groups, Cohorts, Ids, Digests, All, Fresh, Faulty;
    var ids, inputs, groups := {}, {}, {};
    NothingYet();
    assert splits[..0] == [];
    for k := 0 to |splits|
      invariant GoodSplits(splits[..k])
      invariant ids == Ids(All(splits[..k])) && inputs == Digests(All(splits[..k]))
                && groups == Groups(All(splits[..k]))
    {
      var split := splits[k];
      Extend(splits, k);
      if groups * Groups(split) != {} {
        LeakageIsReal(splits, k);
        return GroupLeakage;
      }
      groups := groups + Groups(split);
      if Cohorts(split) != {Supported, Shifted} {
        CohortIsMissing(splits, k);
        return MissingCohort;
      }
      var ok;
      ok, ids, inputs := AddCases(All(splits[..k]), split, ids, inputs);
      if !ok {
        DuplicateIsReal(splits, k);
        return DuplicateCase;
      }
    }
    assert splits[..|splits|] == splits;
    var pure := GroupsArePure(All(splits), groups);
    MixedIsReal(splits);
    hide PureGroups;
    verdict := if pure then Accepted else MixedGroup;
  }

  lemma {:induction false} DuplicateIsReal(splits: seq<Cases>, k: nat)
    requires k < |splits| && !Fresh(All(splits[..k]) + splits[k])
    ensures Faulty(splits, DuplicateCase)
  {
    assert splits[..k + 1][..k] == splits[..k] && splits[..k + 1][k] == splits[k];
    assert All(splits[..k + 1]) == All(splits[..k]) + splits[k];
    hide Fresh, All;
    if Fresh(All(splits)) { FreshUpTo(splits, k + 1); }
  }

  lemma {:induction false} MixedIsReal(splits: seq<Cases>)
    ensures Faulty(splits, MixedGroup) <==> !PureGroups(All(splits))
  {
  }

  lemma {:induction false} NothingYet()
    ensures GoodSplits([]) && Ids(All([])) == {} && Digests(All([])) == {} && Groups(All([])) == {}
  {
  }

  lemma {:induction false} Extend(splits: seq<Cases>, k: nat)
    requires k < |splits|
    ensures GoodSplits(splits[..k + 1]) <==>
      GoodSplits(splits[..k]) && Fresh(All(splits[..k]) + splits[k])
        && Groups(All(splits[..k])) * Groups(splits[k]) == {}
      && Cohorts(splits[k]) == {Supported, Shifted}
    ensures GoodSplits(splits) ==> GoodSplits(splits[..k + 1])
    ensures GoodSplits(splits[..k]) ==> Fresh(All(splits[..k]))
    ensures All(splits[..k + 1]) == All(splits[..k]) + splits[k]
    ensures Groups(All(splits[..k + 1])) == Groups(All(splits[..k])) + Groups(splits[k])
  {
    assert splits[..k + 1] == splits[..k] + [splits[k]];
    assert splits[..k + 1][..k] == splits[..k];
    var before := All(splits[..k]);
    assert All(splits[..k + 1]) == before + splits[k];
    assert GoodSplits(splits[..k]) ==> Fresh(before);
    hide GoodSplits, All, Fresh, Cohorts;
    GroupsUnion(before, splits[k]);
    hide Groups;
    GoodStep(splits[..k], splits[k]);
    DisjointIff(Groups(before), Groups(splits[k]));
    if GoodSplits(splits) { GoodPrefix(splits, k + 1); }
  }

  lemma {:induction false} DisjointIff(a: set<string>, b: set<string>)
    ensures a !! b <==> a * b == {}
  {
    if a !! b { assert a * b == {}; }
    if a * b == {} { forall x | x in a ensures x !in b { assert x !in a * b; } }
  }

  lemma {:induction false} GroupsUnion(a: Cases, b: Cases)
    ensures Groups(a + b) == Groups(a) + Groups(b)
  {
    forall g ensures g in Groups(a + b) <==> g in Groups(a) || g in Groups(b) {
      GroupsConcat(a, b, g);
    }
  }
}
