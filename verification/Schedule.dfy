/** The paired case order with Latin rotation of the arms. */
module Schedule {
  import opened Ordering
  import opened StudyTypes

  datatype Slot = Slot(case_: Case, arms: seq<Arm>)

  function CohortCount(cases: seq<Case>, c: Cohort): nat {
    if cases == [] then 0
    else CohortCount(cases[..|cases| - 1], c) + (if cases[|cases| - 1].cohort == c then 1 else 0)
  }

  function Rotate(arms: seq<Arm>, position: nat): seq<Arm>
    requires position <= |arms|
  {
    arms[position..] + arms[..position]
  }

  /** The schedule for one shuffled case order and one shuffled arm order. */
  function Plan(ordered: seq<Case>, arms: seq<Arm>): (r: seq<Slot>)
    requires |arms| == 4
    ensures |r| == |ordered|
  {
    if ordered == [] then []
    else
      var before := ordered[..|ordered| - 1];
      var c := ordered[|ordered| - 1];
      Plan(before, arms) + [Slot(c, Rotate(arms, CohortCount(before, c.cohort) % 4))]
  }

  /** `ordered` and `arms` are what the seeded shuffles made of the cases and of ARMS. */
  method MakeSchedule(ordered: seq<Case>, arms: seq<Arm>) returns (result: seq<Slot>)
    requires multiset(arms) == multiset(ARMS)
    ensures |arms| == 4 && result == Plan(ordered, arms)
  {
    FourArms(arms);
    var positions := map[Supported := 0, Shifted := 0];
    result := [];
    var k := 0;
    forall c: Cohort ensures c in positions && positions[c] == CohortCount(ordered[..0], c) {
      match c {
        case Supported =>
        case Shifted =>
      }
    }
    while k < |ordered|
      invariant 0 <= k <= |ordered|
      invariant forall c: Cohort :: c in positions && positions[c] == CohortCount(ordered[..k], c)
      invariant result == Plan(ordered[..k], arms)
    {
      var c := ordered[k];
      assert ordered[..k + 1][..k] == ordered[..k];
      var position := positions[c.cohort] % 4;
      result := result + [Slot(c, arms[position..] + arms[..position])];
      positions := positions[c.cohort := positions[c.cohort] + 1];
      k := k + 1;
    }
    assert ordered[..k] == ordered;
  }

  lemma {:induction false} FourArms(arms: seq<Arm>)
    requires multiset(arms) == multiset(ARMS)
    ensures |arms| == 4
    ensures forall a: Arm :: a in arms
    ensures forall i, j | 0 <= i < j < 4 :: arms[i] != arms[j]
  {
    assert multiset(ARMS) == multiset{Baseline, Textual, Executable, CheapTextual};
    assert |multiset(arms)| == 4;
    forall a: Arm ensures a in arms && multiset(arms)[a] == 1 {
      assert a.Baseline? || a.Textual? || a.Executable? || a.CheapTextual?;
      assert a in multiset(arms);
    }
    MultisetDistinct(arms);
  }

  lemma {:induction false} PlanCases(ordered: seq<Case>, arms: seq<Arm>)
    requires |arms| == 4
    ensures forall i | 0 <= i < |ordered| :: Plan(ordered, arms)[i].case_ == ordered[i]
  {
    if ordered != [] { PlanCases(ordered[..|ordered| - 1], arms); }
  }

  lemma {:induction false} PlanRotates(ordered: seq<Case>, arms: seq<Arm>, i: nat)
    requires |arms| == 4 && i < |ordered|
    ensures Plan(ordered, arms)[i].arms == Rotate(arms, CohortCount(ordered[..i], ordered[i].cohort) % 4)
  {
    var n := |ordered| - 1;
    if i < n {
      PlanRotates(ordered[..n], arms, i);
      assert ordered[..n][..i] == ordered[..i];
    }
  }

  lemma {:induction false} RotationPermutes(arms: seq<Arm>, position: nat)
    requires position <= |arms|
    ensures multiset(Rotate(arms, position)) == multiset(arms)
  {
    assert arms == arms[..position] + arms[position..];
  }

  /** The q-th arm of a case stands as many places further in the shuffled order as its cohort had cases before it,
      starting over at the end. */
  lemma {:induction false} ArmAt(ordered: seq<Case>, arms: seq<Arm>, i: nat, q: nat)
    requires |arms| == 4 && i < |ordered| && q < 4
    ensures |Plan(ordered, arms)[i].arms| == 4
    ensures Plan(ordered, arms)[i].arms[q] == arms[(CohortCount(ordered[..i], ordered[i].cohort) + q) % 4]
  {
    PlanRotates(ordered, arms, i);
    hide Plan, CohortCount, Rotate;
    RotatedBy(arms, CohortCount(ordered[..i], ordered[i].cohort), q);
  }

  lemma {:induction false} RotatedBy(arms: seq<Arm>, n: nat, q: nat)
    requires |arms| == 4 && q < 4
    ensures |Rotate(arms, n % 4)| == 4 && Rotate(arms, n % 4)[q] == arms[(n + q) % 4]
  {
    AddModFour(n, q);
    RotatedAt(arms, n % 4, q);
  }

  lemma {:induction false} AddModFour(n: nat, q: nat)
    requires q < 4
    ensures (n + q) % 4 == if n % 4 + q < 4 then n % 4 + q else n % 4 + q - 4
  {
  }

  /** Every arm list of the schedule is a rotation of the shuffled arms, by the number of earlier cases in its cohort,
      so it is a permutation of ARMS. */
  lemma {:induction false} PlanArms(ordered: seq<Case>, arms: seq<Arm>)
    requires multiset(arms) == multiset(ARMS)
    ensures |arms| == 4
    ensures forall i | 0 <= i < |ordered| ::
              Plan(ordered, arms)[i].arms == Rotate(arms, CohortCount(ordered[..i], ordered[i].cohort) % 4)
    ensures forall i | 0 <= i < |ordered| :: multiset(Plan(ordered, arms)[i].arms) == multiset(ARMS)
  {
    FourArms(arms);
    hide Plan, Rotate, CohortCount;
    forall i | 0 <= i < |ordered|
      ensures Plan(ordered, arms)[i].arms == Rotate(arms, CohortCount(ordered[..i], ordered[i].cohort) % 4)
      ensures multiset(Plan(ordered, arms)[i].arms) == multiset(ARMS)
    {
      PlanRotates(ordered, arms, i);
      RotationPermutes(arms, CohortCount(ordered[..i], ordered[i].cohort) % 4);
    }
  }

  /** How often arm `a` runs at position `q` in cohort `c`. */
  function Tally(slots: seq<Slot>, c: Cohort, a: Arm, q: nat): nat {
    if slots == [] then 0
    else
      var s := slots[|slots| - 1];
      Tally(slots[..|slots| - 1], c, a, q)
      + (if s.case_.cohort == c && q < |s.arms| && s.arms[q] == a then 1 else 0)
  }

  /** Addition modulo four. */
  function Slide(p: nat, q: nat): nat {
    if p + q < 4 then p + q else p + q - 4
  }

  lemma {:induction false} RotatedAt(arms: seq<Arm>, p: nat, q: nat)
    requires |arms| == 4 && p < 4 && q < 4
    ensures Rotate(arms, p)[q] == arms[Slide(p, q)]
  {
  }

  /** How many of the first n rotations put index t of the arm order at position q. */
  function Hits(n: nat, t: nat, q: nat): nat {
    if n == 0 then 0 else Hits(n - 1, t, q) + (if Slide((n - 1) % 4, q) == t then 1 else 0)
  }

  lemma {:induction false} NextPosition(n: nat)
    ensures (n + 1) % 4 == if n % 4 == 3 then 0 else n % 4 + 1
  {
  }

  /** Any four consecutive rotations hit exactly once. */
  lemma {:induction false} HitsOfFour(n: nat, t: nat, q: nat)
    requires t < 4 && q < 4
    ensures Hits(n + 4, t, q) == Hits(n, t, q) + 1
  {
    NextPosition(n);
    NextPosition(n + 1);
    NextPosition(n + 2);
    NextHit(n, t, q);
    NextHit(n + 1, t, q);
    NextHit(n + 2, t, q);
    NextHit(n + 3, t, q);
    hide Hits;
  }

  lemma {:induction false} NextHit(n: nat, t: nat, q: nat)
    ensures Hits(n + 1, t, q) == Hits(n, t, q) + if Slide(n % 4, q) == t then 1 else 0
  {
  }

  lemma {:induction false} FewHits(n: nat, t: nat, q: nat)
    requires n < 4
    ensures Hits(n, t, q) <= (if n == 0 then 0 else 1)
  {
    assert Hits(1, t, q) == if Slide(0, q) == t then 1 else 0;
    assert Hits(2, t, q) == Hits(1, t, q) + if Slide(1, q) == t then 1 else 0;
    assert Hits(3, t, q) == Hits(2, t, q) + if Slide(2, q) == t then 1 else 0;
  }

  lemma {:induction false} HitsBalanced(n: nat, t: nat, q: nat)
    requires t < 4 && q < 4
    ensures n / 4 <= Hits(n, t, q) <= (n + 3) / 4
  {
    if n < 4 {
      FewHits(n, t, q);
    } else {
      HitsBalanced(n - 4, t, q);
      HitsOfFour(n - 4, t, q);
    }
  }

  lemma {:induction false} TallyStep(ordered: seq<Case>, arms: seq<Arm>, c: Cohort, t: nat, q: nat)
    requires |arms| == 4 && t < 4 && q < 4 && ordered != []
    requires forall i, j | 0 <= i < j < 4 :: arms[i] != arms[j]
    ensures var before := ordered[..|ordered| - 1];
            var last := ordered[|ordered| - 1].cohort;
            Tally(Plan(ordered, arms), c, arms[t], q) == Tally(Plan(before, arms), c, arms[t], q)
            + (if last == c && Slide(CohortCount(before, last) % 4, q) == t then 1 else 0)
  {
    var before := ordered[..|ordered| - 1];
    var p := CohortCount(before, ordered[|ordered| - 1].cohort) % 4;
    assert Plan(ordered, arms)[..|ordered| - 1] == Plan(before, arms);
    assert Plan(ordered, arms)[|ordered| - 1].arms == Rotate(arms, p);
    RotatedAt(arms, p, q);
  }

  lemma {:induction false} CohortStep(ordered: seq<Case>, c: Cohort, t: nat, q: nat)
    requires ordered != []
    ensures var before := ordered[..|ordered| - 1];
            var last := ordered[|ordered| - 1].cohort;
            Hits(CohortCount(ordered, c), t, q) == Hits(CohortCount(before, c), t, q)
            + (if last == c && Slide(CohortCount(before, last) % 4, q) == t then 1 else 0)
  {
    hide Slide;
  }

  lemma {:induction false} TallyIsHits(ordered: seq<Case>, arms: seq<Arm>, c: Cohort, t: nat, q: nat)
    requires |arms| == 4 && t < 4 && q < 4
    requires forall i, j | 0 <= i < j < 4 :: arms[i] != arms[j]
    ensures Tally(Plan(ordered, arms), c, arms[t], q) == Hits(CohortCount(ordered, c), t, q)
  {
    if ordered != [] {
      TallyIsHits(ordered[..|ordered| - 1], arms, c, t, q);
      TallyStep(ordered, arms, c, t, q);
      CohortStep(ordered, c, t, q);
      hide Tally, Plan, Slide, CohortCount, Hits;
    } else {
      assert Plan(ordered, arms) == [];
    }
  }

  /** Latin balance: in a cohort of n cases every arm holds every position floor(n/4) or ceil(n/4) times. */
  lemma {:induction false} LatinBalance(ordered: seq<Case>, arms: seq<Arm>, c: Cohort, a: Arm, q: nat)
    requires multiset(arms) == multiset(ARMS) && q < 4
    ensures |arms| == 4
    ensures var n := CohortCount(ordered, c);
            n / 4 <= Tally(Plan(ordered, arms), c, a, q) <= (n + 3) / 4
  {
    FourArms(arms);
    var t :| 0 <= t < 4 && arms[t] == a;
    TallyIsHits(ordered, arms, c, t, q);
    HitsBalanced(CohortCount(ordered, c), t, q);
  }
}
