/** What the report's amounts are, and the verdict in those terms: counts and totals taken directly over the rows. */
module StudyEconomics {
  import opened StudyDecision
  import opened StudyReport
  import opened StudyTypes
  import opened Wrappers

  // ----- counting and adding up -----

  function Count<T>(xs: seq<T>, p: T -> bool): nat {
    if xs == [] then 0 else (if p(xs[0]) then 1 else 0) + Count(xs[1..], p)
  }

  function Total<T>(xs: seq<T>, p: T -> bool, amount: T -> real): real {
    if xs == [] then 0.0 else (if p(xs[0]) then amount(xs[0]) else 0.0) + Total(xs[1..], p, amount)
  }

  lemma {:induction false} CountConcat<T>(a: seq<T>, b: seq<T>, p: T -> bool)
    ensures Count(a + b, p) == Count(a, p) + Count(b, p)
  {
    if a == [] {
      assert a + b == b;
    } else {
      assert (a + b)[1..] == a[1..] + b;
      CountConcat(a[1..], b, p);
    }
  }

  lemma {:induction false} TotalConcat<T>(a: seq<T>, b: seq<T>, p: T -> bool, amount: T -> real)
    ensures Total(a + b, p, amount) == Total(a, p, amount) + Total(b, p, amount)
  {
    if a == [] {
      assert a + b == b;
    } else {
      assert (a + b)[1..] == a[1..] + b;
      TotalConcat(a[1..], b, p, amount);
    }
  }

  lemma {:induction false} CountLast<T>(xs: seq<T>, p: T -> bool)
    requires xs != []
    ensures Count(xs, p) == Count(xs[..|xs| - 1], p) + if p(xs[|xs| - 1]) then 1 else 0
  {
    var n := |xs| - 1;
    assert xs == xs[..n] + [xs[n]];
    CountConcat(xs[..n], [xs[n]], p);
    assert [xs[n]][1..] == [];
  }

  lemma {:induction false} TotalLast<T>(xs: seq<T>, p: T -> bool, amount: T -> real)
    requires xs != []
    ensures Total(xs, p, amount)
         == Total(xs[..|xs| - 1], p, amount) + if p(xs[|xs| - 1]) then amount(xs[|xs| - 1]) else 0.0
  {
    var n := |xs| - 1;
    assert xs == xs[..n] + [xs[n]];
    TotalConcat(xs[..n], [xs[n]], p, amount);
    assert [xs[n]][1..] == [];
  }

  // ----- the rows of an arm and a cohort -----

  function Of(arm: Arm): Row -> bool { (r: Row) => r.arm == arm }

  function In(arm: Arm, cohort: Cohort): Row -> bool { (r: Row) => r.arm == arm && r.cohort == cohort }

  function For(arm: Arm): Discovery -> bool { (d: Discovery) => arm in d.arms }

  /** What a row adds to the total cost; an unknown cost adds nothing here. */
  function RowCost(r: Row): real {
    match r.totalCost case None => 0.0 case Some(x) => x
  }

  function SetupCost(d: Discovery): real {
    match d.cost case None => 0.0 case Some(x) => x
  }

  lemma {:induction false} NoRows(arm: Arm, cohort: Cohort)
    ensures ArmRows([], arm) == [] && Cell(ArmRows([], arm), cohort) == [] && Sum([]) == 0.0
    ensures CountCorrect([]) == CountAccepted([]) == CountProposals([]) == CountVerified([]) == 0
  {
  }

  lemma {:induction false} NoneOf<T>(p: T -> bool, amount: T -> real)
    ensures Count([], p) == 0 && Total([], p, amount) == 0.0
  {
  }

  lemma {:induction false} FilteredCount(rows: seq<Row>, arm: Arm, cohort: Cohort)
    ensures |Cell(ArmRows(rows, arm), cohort)| == Count(rows, In(arm, cohort))
  {
    hide Cell, ArmRows, Count;
    if rows == [] {
      NoRows(arm, cohort);
      NoneOf(In(arm, cohort), RowCost);
    } else {
      var n := |rows| - 1;
      FilteredCount(rows[..n], arm, cohort);
      CountLast(rows, In(arm, cohort));
      CellSnoc(rows, arm, cohort);
      var before, last := Cell(ArmRows(rows[..n], arm), cohort), rows[n];
      assert |before + [last]| == |before| + 1;
      assert before + [] == before;
    }
  }

  lemma {:induction false} CellSnoc(rows: seq<Row>, arm: Arm, cohort: Cohort)
    requires rows != []
    ensures var last := rows[|rows| - 1];
            Cell(ArmRows(rows, arm), cohort) == Cell(ArmRows(rows[..|rows| - 1], arm), cohort)
                                                + if last.arm == arm && last.cohort == cohort then [last] else []
  {
    var last, before := rows[|rows| - 1], ArmRows(rows[..|rows| - 1], arm);
    assert last.arm == arm ==> (before + [last])[..|before|] == before;
    assert last.arm != arm ==> before + [] == before;
  }

  lemma {:induction false} CorrectSnoc(rows: seq<Row>, r: Row)
    ensures CountCorrect(rows + [r]) == CountCorrect(rows) + if r.correct then 1 else 0
    ensures CountAccepted(rows + [r]) == CountAccepted(rows) + if r.accepted then 1 else 0
    ensures CountProposals(rows + [r]) == CountProposals(rows) + r.proposals
    ensures CountVerified(rows + [r]) == CountVerified(rows) + r.verified
  {
    assert (rows + [r])[..|rows|] == rows;
  }

  function CorrectIn(arm: Arm, cohort: Cohort): Row -> bool {
    (r: Row) => r.arm == arm && r.cohort == cohort && r.correct
  }

  function AcceptedIn(arm: Arm, cohort: Cohort): Row -> bool {
    (r: Row) => r.arm == arm && r.cohort == cohort && r.accepted
  }

  function Proposals(r: Row): real { r.proposals as real }

  function Verified(r: Row): real { r.verified as real }

  /** The rows that a cell counts as hits. */
  lemma {:induction false} CellCorrect(rows: seq<Row>, arm: Arm, cohort: Cohort)
    ensures CountCorrect(Cell(ArmRows(rows, arm), cohort)) == Count(rows, CorrectIn(arm, cohort))
  {
    hide Cell, ArmRows, CountCorrect, Count;
    if rows == [] {
      NoRows(arm, cohort);
      NoneOf(CorrectIn(arm, cohort), RowCost);
    } else {
      var n := |rows| - 1;
      CellCorrect(rows[..n], arm, cohort);
      CountLast(rows, CorrectIn(arm, cohort));
      CellSnoc(rows, arm, cohort);
      var before, last := Cell(ArmRows(rows[..n], arm), cohort), rows[n];
      CorrectSnoc(before, last);
      assert before + [] == before;
    }
  }

  lemma {:induction false} CellAccepted(rows: seq<Row>, arm: Arm, cohort: Cohort)
    ensures CountAccepted(Cell(ArmRows(rows, arm), cohort)) == Count(rows, AcceptedIn(arm, cohort))
  {
    hide Cell, ArmRows, CountAccepted, Count;
    if rows == [] {
      NoRows(arm, cohort);
      NoneOf(AcceptedIn(arm, cohort), RowCost);
    } else {
      var n := |rows| - 1;
      CellAccepted(rows[..n], arm, cohort);
      CountLast(rows, AcceptedIn(arm, cohort));
      CellSnoc(rows, arm, cohort);
      var before, last := Cell(ArmRows(rows[..n], arm), cohort), rows[n];
      CorrectSnoc(before, last);
      assert before + [] == before;
    }
  }

  lemma {:induction false} CellProposals(rows: seq<Row>, arm: Arm, cohort: Cohort)
    ensures CountProposals(Cell(ArmRows(rows, arm), cohort)) as real == Total(rows, In(arm, cohort), Proposals)
  {
    hide Cell, ArmRows, CountProposals, Total;
    if rows == [] {
      NoRows(arm, cohort);
      NoneOf(In(arm, cohort), Proposals);
    } else {
      var n := |rows| - 1;
      CellProposals(rows[..n], arm, cohort);
      TotalLast(rows, In(arm, cohort), Proposals);
      CellSnoc(rows, arm, cohort);
      var before, last := Cell(ArmRows(rows[..n], arm), cohort), rows[n];
      CorrectSnoc(before, last);
      assert before + [] == before;
    }
  }

  lemma {:induction false} CellVerified(rows: seq<Row>, arm: Arm, cohort: Cohort)
    ensures CountVerified(Cell(ArmRows(rows, arm), cohort)) as real == Total(rows, In(arm, cohort), Verified)
  {
    hide Cell, ArmRows, CountVerified, Total;
    if rows == [] {
      NoRows(arm, cohort);
      NoneOf(In(arm, cohort), Verified);
    } else {
      var n := |rows| - 1;
      CellVerified(rows[..n], arm, cohort);
      TotalLast(rows, In(arm, cohort), Verified);
      CellSnoc(rows, arm, cohort);
      var before, last := Cell(ArmRows(rows[..n], arm), cohort), rows[n];
      CorrectSnoc(before, last);
      assert before + [] == before;
    }
  }

  // ----- the projected amount -----

  lemma {:induction false} SumSnoc(values: seq<Option<real>>, v: Option<real>)
    ensures Sum(values + [v]) == Sum(values) + match v case None => 0.0 case Some(x) => x
  {
    assert (values + [v])[..|values|] == values;
  }

  lemma {:induction false} ValuesSnoc(rows: seq<Row>, r: Row, m: Metric)
    ensures Values(rows + [r], m) == Values(rows, m) + [OfRow(r, m)]
  {
  }

  lemma {:induction false} ArmTotal(rows: seq<Row>, arm: Arm)
    ensures Sum(Values(ArmRows(rows, arm), TotalCost)) == Total(rows, Of(arm), RowCost)
  {
    hide Sum, Total;
    if rows == [] {
      NoRows(arm, Supported);
      NoneOf(Of(arm), RowCost);
      assert Values([], TotalCost) == [];
    } else {
      var n := |rows| - 1;
      var before, last := ArmRows(rows[..n], arm), rows[n];
      ArmTotal(rows[..n], arm);
      TotalLast(rows, Of(arm), RowCost);
      assert ArmRows(rows, arm) == before + if last.arm == arm then [last] else [];
      hide ArmRows;
      ValuesSnoc(before, last, TotalCost);
      SumSnoc(Values(before, TotalCost), OfRow(last, TotalCost));
      assert before + [] == before;
    }
  }

  lemma {:induction false} CellSum(rows: seq<Row>, arm: Arm, cohort: Cohort)
    ensures Sum(Values(Cell(ArmRows(rows, arm), cohort), TotalCost)) == Total(rows, In(arm, cohort), RowCost)
  {
    hide Cell, ArmRows, Sum, Total;
    if rows == [] {
      NoRows(arm, cohort);
      NoneOf(In(arm, cohort), RowCost);
      assert Values([], TotalCost) == [];
    } else {
      var n := |rows| - 1;
      CellSum(rows[..n], arm, cohort);
      TotalLast(rows, In(arm, cohort), RowCost);
      CellSnoc(rows, arm, cohort);
      var before, last := Cell(ArmRows(rows[..n], arm), cohort), rows[n];
      ValuesSnoc(before, last, TotalCost);
      SumSnoc(Values(before, TotalCost), OfRow(last, TotalCost));
      assert before + [] == before;
    }
  }

  lemma {:induction false} SetupTotal(discovery: seq<Discovery>, arm: Arm)
    ensures Sum(ArmValues(discovery, arm, TotalCost)) == Total(discovery, For(arm), SetupCost)
  {
    hide Sum, Total;
    if discovery == [] {
      NoRows(arm, Supported);
      NoneOf(For(arm), SetupCost);
    } else {
      var n := |discovery| - 1;
      var before, last := ArmValues(discovery[..n], arm, TotalCost), discovery[n];
      SetupTotal(discovery[..n], arm);
      TotalLast(discovery, For(arm), SetupCost);
      assert ArmValues(discovery, arm, TotalCost)
          == before + if arm in last.arms then [OfDiscovery(last, TotalCost)] else [];
      hide ArmValues;
      SumSnoc(before, OfDiscovery(last, TotalCost));
      assert before + [] == before;
    }
  }

  /** What has been paid for an arm: its part of the set-up and every one of its evaluation rows. */
  function Paid(rows: seq<Row>, discovery: seq<Discovery>, arm: Arm): real {
    Total(discovery, For(arm), SetupCost) + Total(rows, Of(arm), RowCost)
  }

  function MeanCost(rows: seq<Row>, arm: Arm, cohort: Cohort): real
    requires Count(rows, In(arm, cohort)) > 0
  {
    Total(rows, In(arm, cohort), RowCost) / Count(rows, In(arm, cohort)) as real
  }

  /** The projected cost pays what has been paid and then, for each task of the horizon, the mean cost of its cohort. */
  lemma {:induction false} ProjectedAmount(rows: seq<Row>, discovery: seq<Discovery>, affected: set<Arm>, arm: Arm,
                                           horizon: nat, shifted: real)
    requires Projected(rows, discovery, affected, arm, TotalCost, horizon, shifted).Some?
    ensures Count(rows, In(arm, Supported)) > 0 && Count(rows, In(arm, Shifted)) > 0
    ensures Projected(rows, discovery, affected, arm, TotalCost, horizon, shifted).value
         == Paid(rows, discovery, arm)
            + horizon as real
              * ((1.0 - shifted) * MeanCost(rows, arm, Supported) + shifted * MeanCost(rows, arm, Shifted))
  {
    hide Projected, Cell, ArmRows, Count, Total, Qualification, CellTotal, Paid, In;
    var total, a, n, b, k := ProjectedFrom(rows, discovery, affected, arm, horizon, shifted);
    CellAmount(rows, arm, Supported);
    CellAmount(rows, arm, Shifted);
    PaidIsQualification(rows, discovery, affected, arm);
    assert MeanCost(rows, arm, Supported) == a / n as real && MeanCost(rows, arm, Shifted) == b / k as real;
    hide MeanCost;
    Mixture(total, horizon as real, shifted, a, n as real, b, k as real);
  }

  /** The formula, with the amounts that go into it. */
  lemma {:induction false} ProjectedFrom(rows: seq<Row>, discovery: seq<Discovery>, affected: set<Arm>, arm: Arm,
                                         horizon: nat, shifted: real)
    returns (total: real, a: real, n: nat, b: real, k: nat)
    requires Projected(rows, discovery, affected, arm, TotalCost, horizon, shifted).Some?
    ensures Qualification(rows, discovery, affected, arm, TotalCost) == Some(total)
    ensures CellTotal(rows, arm, Supported, TotalCost) == Some(a) && CellTotal(rows, arm, Shifted, TotalCost) == Some(b)
    ensures n == |Cell(ArmRows(rows, arm), Supported)| > 0 && k == |Cell(ArmRows(rows, arm), Shifted)| > 0
    ensures Projected(rows, discovery, affected, arm, TotalCost, horizon, shifted).value
         == total + horizon as real * ((1.0 - shifted) * a / n as real + shifted * b / k as real)
  {
    hide Cell, ArmRows, KnownSum, Qualification;
    total := Qualification(rows, discovery, affected, arm, TotalCost).value;
    a, n := CellTotal(rows, arm, Supported, TotalCost).value, |Cell(ArmRows(rows, arm), Supported)|;
    b, k := CellTotal(rows, arm, Shifted, TotalCost).value, |Cell(ArmRows(rows, arm), Shifted)|;
  }

  lemma {:induction false} Mixture(total: real, h: real, f: real, a: real, n: real, b: real, k: real)
    requires n > 0.0 && k > 0.0
    ensures total + h * ((1.0 - f) * a / n + f * b / k) == total + h * ((1.0 - f) * (a / n) + f * (b / k))
  {
    Fraction(1.0 - f, a, n);
    Fraction(f, b, k);
  }

  lemma {:induction false} CellAmount(rows: seq<Row>, arm: Arm, cohort: Cohort)
    requires CellTotal(rows, arm, cohort, TotalCost).Some?
    ensures |Cell(ArmRows(rows, arm), cohort)| == Count(rows, In(arm, cohort)) > 0
    ensures CellTotal(rows, arm, cohort, TotalCost).value == Total(rows, In(arm, cohort), RowCost)
  {
    FilteredCount(rows, arm, cohort);
    CellSum(rows, arm, cohort);
    hide Cell, ArmRows, Count, Total, Sum, In;
  }

  lemma {:induction false} Fraction(f: real, a: real, n: real)
    requires n > 0.0
    ensures f * a / n == f * (a / n)
  {
  }

  lemma {:induction false} PaidIsQualification(rows: seq<Row>, discovery: seq<Discovery>, affected: set<Arm>, arm: Arm)
    requires Qualification(rows, discovery, affected, arm, TotalCost).Some?
    ensures Qualification(rows, discovery, affected, arm, TotalCost).value == Paid(rows, discovery, arm)
  {
    var values := Values(ArmRows(rows, arm), TotalCost);
    KnownSumConcat([Setup(discovery, arm, TotalCost)], values);
    KnownSumOne(Setup(discovery, arm, TotalCost));
    ArmTotal(rows, arm);
    SetupTotal(discovery, arm);
  }

  /** Without shifted tasks only the supported mean counts, with nothing else only the shifted one, and in between the
      projection is linear in the frequency. */
  lemma {:induction false} ProjectedWeights(rows: seq<Row>, discovery: seq<Discovery>, affected: set<Arm>, arm: Arm,
                                            horizon: nat, shifted: real)
    requires arm !in affected && AllCostsKnown(rows, discovery, arm, TotalCost)
    ensures Count(rows, In(arm, Supported)) > 0 && Count(rows, In(arm, Shifted)) > 0
    ensures var none := Paid(rows, discovery, arm) + horizon as real * MeanCost(rows, arm, Supported);
            var all := Paid(rows, discovery, arm) + horizon as real * MeanCost(rows, arm, Shifted);
            var projected := Projected(rows, discovery, affected, arm, TotalCost, horizon, shifted);
            && projected == Some((1.0 - shifted) * none + shifted * all)
            && (shifted == 0.0 ==> projected.value == none) && (shifted == 1.0 ==> projected.value == all)
  {
    hide Projected, AllCostsKnown, Paid, Count, Total, In, MeanCost;
    ProjectedMix(rows, discovery, affected, arm, horizon, shifted);
    Ends(Paid(rows, discovery, arm) + horizon as real * MeanCost(rows, arm, Supported),
         Paid(rows, discovery, arm) + horizon as real * MeanCost(rows, arm, Shifted), shifted);
  }

  lemma {:induction false} ProjectedMix(rows: seq<Row>, discovery: seq<Discovery>, affected: set<Arm>, arm: Arm,
                                        horizon: nat, shifted: real)
    requires arm !in affected && AllCostsKnown(rows, discovery, arm, TotalCost)
    ensures Count(rows, In(arm, Supported)) > 0 && Count(rows, In(arm, Shifted)) > 0
    ensures var paid, h := Paid(rows, discovery, arm), horizon as real;
            Projected(rows, discovery, affected, arm, TotalCost, horizon, shifted)
            == Some((1.0 - shifted) * (paid + h * MeanCost(rows, arm, Supported))
                    + shifted * (paid + h * MeanCost(rows, arm, Shifted)))
  {
    hide Projected, AllCostsKnown, Paid, Count, Total, In, MeanCost;
    ProjectedKnown(rows, discovery, affected, arm, TotalCost, horizon, shifted);
    ProjectedAmount(rows, discovery, affected, arm, horizon, shifted);
    Weighted(Paid(rows, discovery, arm), horizon as real, MeanCost(rows, arm, Supported),
             MeanCost(rows, arm, Shifted), shifted);
  }

  lemma {:induction false} Ends(x: real, y: real, f: real)
    ensures f == 0.0 ==> (1.0 - f) * x + f * y == x
    ensures f == 1.0 ==> (1.0 - f) * x + f * y == y
  {
  }

  lemma {:induction false} Weighted(paid: real, h: real, a: real, b: real, f: real)
    ensures paid + h * ((1.0 - f) * a + f * b) == (1.0 - f) * (paid + h * a) + f * (paid + h * b)
  {
  }

  // ----- sampling groups -----

  ghost predicate Plays(r: Row, arm: Arm, cohort: Cohort, id: string) {
    r.arm == arm && r.cohort == cohort && r.caseId == id
  }

  /** The last row of its case in an arm and a cohort: the one the report pairs. */
  ghost predicate LastOf(rows: seq<Row>, i: nat, arm: Arm, cohort: Cohort) {
    && i < |rows| && Plays(rows[i], arm, cohort, rows[i].caseId)
    && forall j | i < j < |rows| :: !Plays(rows[j], arm, cohort, rows[i].caseId)
  }

  lemma {:induction false} ByCaseHas(rows: seq<Row>, arm: Arm, cohort: Cohort, id: string)
    ensures id in ByCase(rows, arm, cohort) <==> exists i :: 0 <= i < |rows| && Plays(rows[i], arm, cohort, id)
  {
    if rows != [] {
      var n := |rows| - 1;
      ByCaseHas(rows[..n], arm, cohort, id);
      assert Plays(rows[n], arm, cohort, id) ==> id in ByCase(rows, arm, cohort);
      if id in ByCase(rows, arm, cohort) && !Plays(rows[n], arm, cohort, id) {
        var i :| 0 <= i < n && Plays(rows[..n][i], arm, cohort, id);
        assert Plays(rows[i], arm, cohort, id);
      }
      if i :| 0 <= i < n && Plays(rows[i], arm, cohort, id) { assert Plays(rows[..n][i], arm, cohort, id); }
    }
  }

  lemma {:induction false} ByCaseIs(rows: seq<Row>, arm: Arm, cohort: Cohort, i: nat)
    requires LastOf(rows, i, arm, cohort)
    ensures rows[i].caseId in ByCase(rows, arm, cohort) && ByCase(rows, arm, cohort)[rows[i].caseId] == rows[i]
  {
    var n := |rows| - 1;
    if i < n {
      assert forall j | 0 <= j < n :: rows[..n][j] == rows[j];
      ByCaseIs(rows[..n], arm, cohort, i);
      assert !Plays(rows[n], arm, cohort, rows[i].caseId);
    }
  }

  lemma {:induction false} SomeLast(rows: seq<Row>, arm: Arm, cohort: Cohort, i: nat) returns (k: nat)
    requires i < |rows| && Plays(rows[i], arm, cohort, rows[i].caseId)
    ensures LastOf(rows, k, arm, cohort) && rows[k].caseId == rows[i].caseId
    decreases |rows| - i
  {
    if j :| i < j < |rows| && Plays(rows[j], arm, cohort, rows[i].caseId) {
      k := SomeLast(rows, arm, cohort, j);
    } else {
      k := i;
    }
  }

  /** The sampling groups are the groups of the candidate's cases that the incumbent played too. */
  lemma {:induction false} GroupsMean(rows: seq<Row>, cohort: Cohort, candidate: Arm, incumbent: Arm, group: string)
    ensures group in SamplingGroups(rows, cohort, candidate, incumbent) <==>
              exists i: nat, j :: LastOf(rows, i, candidate, cohort) && rows[i].group == group
                                  && 0 <= j < |rows| && Plays(rows[j], incumbent, cohort, rows[i].caseId)
  {
    var left, right := ByCase(rows, candidate, cohort), ByCase(rows, incumbent, cohort);
    if group in SamplingGroups(rows, cohort, candidate, incumbent) {
      var id :| id in left && id in right && left[id].group == group;
      ByCaseHas(rows, candidate, cohort, id);
      ByCaseHas(rows, incumbent, cohort, id);
      var k :| 0 <= k < |rows| && Plays(rows[k], candidate, cohort, id);
      var i := SomeLast(rows, candidate, cohort, k);
      ByCaseIs(rows, candidate, cohort, i);
    }
    if i: nat, j :| LastOf(rows, i, candidate, cohort) && rows[i].group == group
                    && 0 <= j < |rows| && Plays(rows[j], incumbent, cohort, rows[i].caseId) {
      ByCaseIs(rows, candidate, cohort, i);
      ByCaseHas(rows, incumbent, cohort, rows[i].caseId);
    }
  }

  /** The paired rows are the executable ones whose case the reference played, each as often as it was played. */
  lemma {:induction false} PairedRows(rows: seq<Row>, right: map<string, Row>)
    ensures |Paired(rows, right)| == Count(rows, (r: Row) => r.arm == Executable && r.caseId in right)
    ensures forall k | 0 <= k < |Paired(rows, right)| :: Paired(rows, right)[k] in rows
  {
    var p := (r: Row) => r.arm == Executable && r.caseId in right;
    if rows != [] {
      var n := |rows| - 1;
      PairedRows(rows[..n], right);
      CountLast(rows, p);
    }
  }

  lemma {:induction false} PairedConcat(a: seq<Row>, b: seq<Row>, right: map<string, Row>)
    ensures Paired(a + b, right) == Paired(a, right) + Paired(b, right)
  {
    if b == [] {
      assert a + b == a;
    } else {
      assert (a + b)[..|a + b| - 1] == a + b[..|b| - 1];
      PairedConcat(a, b[..|b| - 1], right);
    }
  }

  // ----- the verdict -----

  /** Every comparison of the report has enough sampling groups and every cohort enough cases. */
  ghost predicate SampleMet(e: Evidence, p: Protocol) {
    forall c: Cohort :: Count(e.rows, In(Baseline, c)) >= p.minCases && GroupsMet(e, p, c)
  }

  /** A share of at least the bound; there is no share of nothing. */
  ghost predicate ShareMet(hits: nat, total: nat, bound: real) {
    total > 0 && hits as real >= bound * total as real
  }

  ghost predicate NoRegression(e: Evidence, p: Protocol, c: Cohort, reference: Arm) {
    |SamplingGroups(e.rows, c, Executable, reference)| >= 2
      && e.low(c, Executable, reference) >= -p.acceptableRegression
  }

  ghost predicate QualityMet(e: Evidence, p: Protocol) {
    && (forall c: Cohort :: CohortMet(e, p, c))
    && ShareMet(Count(e.rows, AcceptedIn(Executable, Supported)), Count(e.rows, In(Executable, Supported)),
                p.minCoverage)
    && Total(e.rows, In(Executable, Supported), Verified) == Total(e.rows, In(Executable, Supported), Proposals) > 0.0
  }

  ghost predicate CostsMet(e: Evidence) {
    && (forall arm: Arm :: AllCostsKnown(e.rows, e.discovery, arm, TotalCost))
    && forall r | r in e.rows && r.arm == Executable && r.skillRan :: r.cpuSeconds.Some? && r.peakMemory.Some?
  }

  /** The amount that the decision compares, written out. */
  ghost function Amount(e: Evidence, p: Protocol, arm: Arm): real
    requires Count(e.rows, In(arm, Supported)) > 0 && Count(e.rows, In(arm, Shifted)) > 0
  {
    Paid(e.rows, e.discovery, arm)
    + p.horizon as real * ((1.0 - p.frequency) * MeanCost(e.rows, arm, Supported)
                           + p.frequency * MeanCost(e.rows, arm, Shifted))
  }

  ghost predicate BothCohortsPlayed(e: Evidence) {
    forall arm: Arm :: Count(e.rows, In(arm, Supported)) > 0 && Count(e.rows, In(arm, Shifted)) > 0
  }

  ghost predicate SavingsMet(e: Evidence, p: Protocol)
    requires BothCohortsPlayed(e)
  {
    && Amount(e, p, Executable) <= (1.0 - p.minSavings) * Amount(e, p, Textual)
    && Amount(e, p, Executable) <= (1.0 - p.minSavings) * Amount(e, p, CheapTextual)
  }

  lemma {:induction false} EnoughMeans(e: Evidence, p: Protocol)
    ensures Enough(e, p) <==> SampleMet(e, p)
  {
    hide Cell, ArmRows, Count, SamplingGroups, In, COHORTS, COMPARED;
    Compared();
    if Enough(e, p) {
      forall c: Cohort ensures Count(e.rows, In(Baseline, c)) >= p.minCases && GroupsMet(e, p, c) {
        BothCohorts(c);
        FilteredCount(e.rows, Baseline, c);
        forall q | q in COMPARED ensures |SamplingGroups(e.rows, c, q.0, q.1)| >= p.minGroups { assert c in COHORTS; }
        EachGroup(e, p, c);
      }
    }
    if SampleMet(e, p) {
      forall c ensures |Cell(ArmRows(e.rows, Baseline), c)| >= p.minCases { FilteredCount(e.rows, Baseline, c); }
      forall c, q | c in COHORTS && q in COMPARED ensures |SamplingGroups(e.rows, c, q.0, q.1)| >= p.minGroups {
        assert GroupsMet(e, p, c);
      }
    }
  }

  ghost predicate GroupsMet(e: Evidence, p: Protocol, c: Cohort) {
    && |SamplingGroups(e.rows, c, Textual, Baseline)| >= p.minGroups
    && |SamplingGroups(e.rows, c, Executable, Textual)| >= p.minGroups
    && |SamplingGroups(e.rows, c, Executable, CheapTextual)| >= p.minGroups
    && |SamplingGroups(e.rows, c, CheapTextual, Textual)| >= p.minGroups
  }

  lemma {:induction false} Compared()
    ensures forall q :: q in COMPARED <==>
              q == (Textual, Baseline) || q == (Executable, Textual) || q == (Executable, CheapTextual)
              || q == (CheapTextual, Textual)
  {
    assert COMPARED[0] == (Textual, Baseline) && COMPARED[1] == (Executable, Textual);
    assert COMPARED[2] == (Executable, CheapTextual) && COMPARED[3] == (CheapTextual, Textual);
  }

  lemma {:induction false} EachGroup(e: Evidence, p: Protocol, c: Cohort)
    requires forall q | q in COMPARED :: |SamplingGroups(e.rows, c, q.0, q.1)| >= p.minGroups
    ensures GroupsMet(e, p, c)
  {
    Compared();
    hide COMPARED, SamplingGroups;
    var a, b, x, y := (Textual, Baseline), (Executable, Textual), (Executable, CheapTextual), (CheapTextual, Textual);
    assert a in COMPARED && b in COMPARED && x in COMPARED && y in COMPARED;
    assert |SamplingGroups(e.rows, c, a.0, a.1)| >= p.minGroups && |SamplingGroups(e.rows, c, b.0, b.1)| >= p.minGroups;
    assert |SamplingGroups(e.rows, c, x.0, x.1)| >= p.minGroups && |SamplingGroups(e.rows, c, y.0, y.1)| >= p.minGroups;
  }

  lemma {:induction false} RateMet(hits: nat, total: nat, bound: real)
    ensures AtLeast(Rate(hits, total), bound) <==> ShareMet(hits, total, bound)
  {
    if total > 0 {
      var h, n := hits as real, total as real;
      assert h / n * n == h;
    }
  }

  lemma {:induction false} CorrectMet(e: Evidence, p: Protocol, c: Cohort)
    ensures var cell := Cell(ArmRows(e.rows, Executable), c);
            AtLeast(Rate(CountCorrect(cell), |cell|), p.qualityFloor)
            <==> ShareMet(Count(e.rows, CorrectIn(Executable, c)), Count(e.rows, In(Executable, c)), p.qualityFloor)
  {
    hide Cell, ArmRows, Count, CountCorrect, In, CorrectIn, Rate, AtLeast, ShareMet;
    FilteredCount(e.rows, Executable, c);
    CellCorrect(e.rows, Executable, c);
    RateMet(Count(e.rows, CorrectIn(Executable, c)), Count(e.rows, In(Executable, c)), p.qualityFloor);
  }

  lemma {:induction false} CoverageMet(e: Evidence, p: Protocol)
    ensures var skill := Cell(ArmRows(e.rows, Executable), Supported);
            AtLeast(Rate(CountAccepted(skill), |skill|), p.minCoverage)
            <==> ShareMet(Count(e.rows, AcceptedIn(Executable, Supported)), Count(e.rows, In(Executable, Supported)),
                          p.minCoverage)
  {
    hide Cell, ArmRows, Count, CountAccepted, In, AcceptedIn, Rate, AtLeast, ShareMet;
    FilteredCount(e.rows, Executable, Supported);
    CellAccepted(e.rows, Executable, Supported);
    RateMet(Count(e.rows, AcceptedIn(Executable, Supported)), Count(e.rows, In(Executable, Supported)), p.minCoverage);
  }

  lemma {:induction false} PrecisionMet(e: Evidence)
    ensures var skill := Cell(ArmRows(e.rows, Executable), Supported);
            Rate(CountVerified(skill), CountProposals(skill)) == Some(1.0)
            <==> Total(e.rows, In(Executable, Supported), Verified)
                 == Total(e.rows, In(Executable, Supported), Proposals) > 0.0
  {
    hide Cell, ArmRows, Total, CountVerified, CountProposals, In, Rate;
    var skill := Cell(ArmRows(e.rows, Executable), Supported);
    CellProposals(e.rows, Executable, Supported);
    CellVerified(e.rows, Executable, Supported);
    RateOne(CountVerified(skill), CountProposals(skill));
  }

  lemma {:induction false} IntervalMet(e: Evidence, p: Protocol, c: Cohort, reference: Arm)
    ensures AtLeast(Interval(e, c, Executable, reference), -p.acceptableRegression)
       <==> NoRegression(e, p, c, reference)
  {
    hide SamplingGroups;
  }

  lemma {:induction false} QualityMeans(e: Evidence, p: Protocol)
    ensures Quality(e, p) <==> IsComplete(e) && SampleMet(e, p) && QualityMet(e, p)
  {
    hide Cell, ArmRows, Count, Total, CountCorrect, CountAccepted, CountVerified, CountProposals, SamplingGroups;
    hide In, CorrectIn, AcceptedIn, Rate, AtLeast, ShareMet, Interval, NoRegression, Enough, SampleMet, IsComplete;
    hide Quality;
    EnoughMeans(e, p);
    QualityByCohort(e, p);
    CoverageMet(e, p);
    PrecisionMet(e);
    forall c: Cohort ensures CohortMet(e, p, c) <==> CellMet(e, p, c) {
      CorrectMet(e, p, c);
      IntervalMet(e, p, c, Textual);
      IntervalMet(e, p, c, CheapTextual);
    }
  }

  /** What quality asks of the executable arm in one cohort, in the report's terms and over the rows. */
  ghost predicate CellMet(e: Evidence, p: Protocol, c: Cohort) {
    var cell := Cell(ArmRows(e.rows, Executable), c);
    && AtLeast(Rate(CountCorrect(cell), |cell|), p.qualityFloor)
    && AtLeast(Interval(e, c, Executable, Textual), -p.acceptableRegression)
    && AtLeast(Interval(e, c, Executable, CheapTextual), -p.acceptableRegression)
  }

  ghost predicate CohortMet(e: Evidence, p: Protocol, c: Cohort) {
    && ShareMet(Count(e.rows, CorrectIn(Executable, c)), Count(e.rows, In(Executable, c)), p.qualityFloor)
    && NoRegression(e, p, c, Textual) && NoRegression(e, p, c, CheapTextual)
  }

  lemma {:induction false} QualityByCohort(e: Evidence, p: Protocol)
    ensures var skill := Cell(ArmRows(e.rows, Executable), Supported);
            Quality(e, p) <==>
              && IsComplete(e) && Enough(e, p) && (forall c: Cohort :: CellMet(e, p, c))
              && AtLeast(Rate(CountAccepted(skill), |skill|), p.minCoverage)
              && Rate(CountVerified(skill), CountProposals(skill)) == Some(1.0)
  {
    forall c: Cohort ensures c in COHORTS { BothCohorts(c); }
    hide Cell, ArmRows, CountCorrect, CountAccepted, CountVerified, CountProposals, Rate, AtLeast, Interval, Enough;
    hide IsComplete, COHORTS;
    forall c ensures CellMet(e, p, c) <==>
        && AtLeast(Rate(CountCorrect(Cell(ArmRows(e.rows, Executable), c)), |Cell(ArmRows(e.rows, Executable), c)|),
                   p.qualityFloor)
        && AtLeast(Interval(e, c, Executable, Textual), -p.acceptableRegression)
        && AtLeast(Interval(e, c, Executable, CheapTextual), -p.acceptableRegression)
    {
    }
  }

  lemma {:induction false} CostsMean(e: Evidence, p: Protocol)
    requires e.unreconciled == []
    ensures EconomicsKnown(e, p) <==> CostsMet(e)
  {
    assert Affected(e) == {};
    forall arm: Arm ensures arm in ARMS { AllArms(arm); }
    hide Projected, AllCostsKnown, ARMS, Affected;
    forall arm: Arm ensures FinalCost(e, p, arm).Some? <==> AllCostsKnown(e.rows, e.discovery, arm, TotalCost) {
      ProjectedKnown(e.rows, e.discovery, Affected(e), arm, TotalCost, p.horizon, p.frequency);
    }
  }

  lemma {:induction false} AmountIs(e: Evidence, p: Protocol, arm: Arm)
    requires FinalCost(e, p, arm).Some?
    ensures Count(e.rows, In(arm, Supported)) > 0 && Count(e.rows, In(arm, Shifted)) > 0
    ensures FinalCost(e, p, arm).value == Amount(e, p, arm)
  {
    hide Projected, MeanCost, Paid, Count, In, Affected;
    ProjectedAmount(e.rows, e.discovery, Affected(e), arm, p.horizon, p.frequency);
  }

  lemma {:induction false} SavingsMean(e: Evidence, p: Protocol)
    requires EconomicsKnown(e, p)
    ensures BothCohortsPlayed(e) && (Savings(e, p) <==> SavingsMet(e, p))
  {
    hide FinalCost, Amount, Count, In, MeasuredSkill, ARMS;
    forall arm: Arm
      ensures Count(e.rows, In(arm, Supported)) > 0 && Count(e.rows, In(arm, Shifted)) > 0
      ensures FinalCost(e, p, arm).Some? && FinalCost(e, p, arm).value == Amount(e, p, arm)
    {
      AllArms(arm);
      AmountIs(e, p, arm);
    }
  }

  /** The whole verdict, read off the rows, the ledger and the protocol. */
  lemma {:induction false} DecisionTable(e: Evidence, p: Protocol)
    ensures Decide(e, p) == InfrastructureOnly <==> !e.live
    ensures Decide(e, p) == DevelopmentOnly <==> e.live && e.split == Development
    ensures Decide(e, p) == InconclusiveIncomplete <==>
              e.live && e.split == Heldout && !(IsComplete(e) && SampleMet(e, p))
    ensures Decide(e, p) == NoGoQuality <==>
              e.live && e.split == Heldout && IsComplete(e) && SampleMet(e, p) && !QualityMet(e, p)
    ensures Decide(e, p) == InconclusiveUnmeasured <==>
              e.live && e.split == Heldout && IsComplete(e) && SampleMet(e, p) && QualityMet(e, p) && !CostsMet(e)
    ensures IsComplete(e) && CostsMet(e) ==> BothCohortsPlayed(e)
    ensures Decide(e, p) == ConditionalGo <==>
              && e.live && e.split == Heldout && IsComplete(e) && SampleMet(e, p) && QualityMet(e, p) && CostsMet(e)
              && SavingsMet(e, p)
    ensures Decide(e, p) == NoGoEconomics <==>
              && e.live && e.split == Heldout && IsComplete(e) && SampleMet(e, p) && QualityMet(e, p) && CostsMet(e)
              && !SavingsMet(e, p)
  {
    hide Enough, SampleMet, Quality, QualityMet, EconomicsKnown, CostsMet, Savings, SavingsMet, BothCohortsPlayed;
    EnoughMeans(e, p);
    QualityMeans(e, p);
    if IsComplete(e) {
      CostsMean(e, p);
      if CostsMet(e) { SavingsMean(e, p); }
    }
  }
}
