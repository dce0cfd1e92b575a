/** The report's verdict: from rows, discovery ledger and status to one decision. */
module StudyDecision {
  import opened StudyReport
  import opened StudyTypes
  import opened Wrappers

  datatype Protocol = Protocol(horizon: nat, frequency: real, minSavings: real, minCases: nat, minGroups: nat,
                               qualityFloor: real, acceptableRegression: real, minCoverage: real)

  datatype Decision = InfrastructureOnly | DevelopmentOnly | InconclusiveIncomplete | NoGoQuality
                    | InconclusiveUnmeasured | ConditionalGo | NoGoEconomics

  const COHORTS: seq<Cohort> := [Supported, Shifted]

  function Cell(rows: seq<Row>, cohort: Cohort): seq<Row> {
    if rows == [] then []
    else Cell(rows[..|rows| - 1], cohort) + (if rows[|rows| - 1].cohort == cohort then [rows[|rows| - 1]] else [])
  }

  function CountCorrect(rows: seq<Row>): nat {
    if rows == [] then 0 else CountCorrect(rows[..|rows| - 1]) + (if rows[|rows| - 1].correct then 1 else 0)
  }

  function CountAccepted(rows: seq<Row>): nat {
    if rows == [] then 0 else CountAccepted(rows[..|rows| - 1]) + (if rows[|rows| - 1].accepted then 1 else 0)
  }

  function CountProposals(rows: seq<Row>): nat {
    if rows == [] then 0 else CountProposals(rows[..|rows| - 1]) + rows[|rows| - 1].proposals
  }

  function CountVerified(rows: seq<Row>): nat {
    if rows == [] then 0 else CountVerified(rows[..|rows| - 1]) + rows[|rows| - 1].verified
  }

  function Rate(hits: nat, total: nat): Option<real> {
    if total == 0 then None else Some(hits as real / total as real)
  }

  predicate AtLeast(v: Option<real>, bound: real) { v.Some? && v.value >= bound }

  function SamplingGroups(rows: seq<Row>, cohort: Cohort, candidate: Arm, incumbent: Arm): set<string> {
    var left, right := ByCase(rows, candidate, cohort), ByCase(rows, incumbent, cohort);
    set k | k in left && k in right :: left[k].group
  }

  const COMPARED: seq<(Arm, Arm)> :=
    [(Textual, Baseline), (Executable, Textual), (Executable, CheapTextual), (CheapTextual, Textual)]

  /** Total with setup, unknown for an arm with an unreconciled dispatch. */
  function Qualification(rows: seq<Row>, discovery: seq<Discovery>, affected: set<Arm>, arm: Arm,
                         m: Metric): Option<real> {
    if arm in affected then None else KnownSum([Setup(discovery, arm, m)] + Values(ArmRows(rows, arm), m))
  }

  function CellTotal(rows: seq<Row>, arm: Arm, cohort: Cohort, m: Metric): Option<real> {
    var cell := Cell(ArmRows(rows, arm), cohort);
    if cell == [] then None else KnownSum(Values(cell, m))
  }

  function Projected(rows: seq<Row>, discovery: seq<Discovery>, affected: set<Arm>, arm: Arm, m: Metric,
                     horizon: nat, shifted: real): Option<real> {
    var total := Qualification(rows, discovery, affected, arm, m);
    var supported, changed := CellTotal(rows, arm, Supported, m), CellTotal(rows, arm, Shifted, m);
    if supported == None || changed == None || total == None then None
    else
      var ns, nc := |Cell(ArmRows(rows, arm), Supported)|, |Cell(ArmRows(rows, arm), Shifted)|;
      Some(total.value
           + horizon as real
             * ((1.0 - shifted) * supported.value / ns as real + shifted * changed.value / nc as real))
  }

  /** A projection is known exactly when every cost behind it is: setup, each row of the arm, both cohorts present. */
  ghost predicate AllCostsKnown(rows: seq<Row>, discovery: seq<Discovery>, arm: Arm, m: Metric) {
    && (forall d | d in discovery && arm in d.arms :: OfDiscovery(d, m).Some?)
    && (forall r | r in rows && r.arm == arm :: OfRow(r, m).Some?)
    && (exists r | r in rows :: r.arm == arm && r.cohort == Supported)
    && (exists r | r in rows :: r.arm == arm && r.cohort == Shifted)
  }

  lemma {:induction false} ArmRowsMembers(rows: seq<Row>, arm: Arm)
    ensures forall r :: r in ArmRows(rows, arm) <==> r in rows && r.arm == arm
  {
    if rows != [] {
      ArmRowsMembers(rows[..|rows| - 1], arm);
      assert rows == rows[..|rows| - 1] + [rows[|rows| - 1]];
    }
  }

  lemma {:induction false} CellMembers(rows: seq<Row>, cohort: Cohort)
    ensures forall r :: r in Cell(rows, cohort) <==> r in rows && r.cohort == cohort
  {
    if rows != [] {
      CellMembers(rows[..|rows| - 1], cohort);
      assert rows == rows[..|rows| - 1] + [rows[|rows| - 1]];
    }
  }

  lemma {:induction false} ArmValuesMembers(discovery: seq<Discovery>, arm: Arm, m: Metric)
    ensures None in ArmValues(discovery, arm, m)
       <==> exists d | d in discovery :: arm in d.arms && OfDiscovery(d, m) == None
  {
    if discovery != [] {
      var before, last := discovery[..|discovery| - 1], discovery[|discovery| - 1];
      ArmValuesMembers(before, arm, m);
      assert discovery == before + [last];
      if exists d | d in discovery :: arm in d.arms && OfDiscovery(d, m) == None {
        var d :| d in discovery && arm in d.arms && OfDiscovery(d, m) == None;
        assert d in before || d == last;
      }
    }
  }

  lemma {:induction false} KnownSumKnown(values: seq<Option<real>>)
    ensures KnownSum(values).Some? <==> None !in values
  {
  }

  lemma {:induction false} ValuesKnown(rows: seq<Row>, m: Metric)
    ensures None !in Values(rows, m) <==> forall r | r in rows :: OfRow(r, m).Some?
  {
    if forall r | r in rows :: OfRow(r, m).Some? {
      forall i | 0 <= i < |rows| ensures Values(rows, m)[i] != None { assert rows[i] in rows; }
    } else {
      var r :| r in rows && OfRow(r, m) == None;
      var i :| 0 <= i < |rows| && rows[i] == r;
      assert Values(rows, m)[i] == None;
    }
  }

  lemma {:induction false} QualificationKnown(rows: seq<Row>, discovery: seq<Discovery>, affected: set<Arm>, arm: Arm,
                                              m: Metric)
    ensures Qualification(rows, discovery, affected, arm, m).Some? <==>
              && arm !in affected
              && (forall d | d in discovery && arm in d.arms :: OfDiscovery(d, m).Some?)
              && (forall r | r in rows && r.arm == arm :: OfRow(r, m).Some?)
  {
    var values := Values(ArmRows(rows, arm), m);
    KnownSumConcat([Setup(discovery, arm, m)], values);
    KnownSumOne(Setup(discovery, arm, m));
    KnownSumKnown(values);
    KnownSumKnown(ArmValues(discovery, arm, m));
    ArmValuesMembers(discovery, arm, m);
    ValuesKnown(ArmRows(rows, arm), m);
    ArmRowsMembers(rows, arm);
  }

  lemma {:induction false} CellTotalKnown(rows: seq<Row>, arm: Arm, cohort: Cohort, m: Metric)
    ensures CellTotal(rows, arm, cohort, m).Some? <==>
              && (exists r | r in rows :: r.arm == arm && r.cohort == cohort)
              && (forall r | r in rows && r.arm == arm && r.cohort == cohort :: OfRow(r, m).Some?)
  {
    var cell := Cell(ArmRows(rows, arm), cohort);
    ArmRowsMembers(rows, arm);
    CellMembers(ArmRows(rows, arm), cohort);
    KnownSumKnown(Values(cell, m));
    ValuesKnown(cell, m);
    if cell != [] {
      assert cell[0] in cell;
    }
  }

  lemma {:induction false} ProjectedKnown(rows: seq<Row>, discovery: seq<Discovery>, affected: set<Arm>, arm: Arm,
                                          m: Metric, horizon: nat, shifted: real)
    ensures Projected(rows, discovery, affected, arm, m, horizon, shifted).Some? <==>
              arm !in affected && AllCostsKnown(rows, discovery, arm, m)
  {
    QualificationKnown(rows, discovery, affected, arm, m);
    CellTotalKnown(rows, arm, Supported, m);
    CellTotalKnown(rows, arm, Shifted, m);
    hide Qualification, CellTotal;
  }

  // ----- the decision -----

  /** `low` gives the lower end of a bootstrap interval; there is one only from two sampling groups on. */
  datatype Evidence = Evidence(live: bool, split: Split, rows: seq<Row>, discovery: seq<Discovery>, expected: nat,
                               status: Status, unreconciled: seq<Entry>, low: (Cohort, Arm, Arm) -> real)

  function Affected(e: Evidence): set<Arm> {
    set u | u in e.unreconciled :: u.arm
  }

  predicate IsComplete(e: Evidence) {
    AllPairsComplete(e.status, e.unreconciled, |e.rows|, e.expected)
  }

  predicate Enough(e: Evidence, p: Protocol) {
    && (forall c | c in COHORTS :: |Cell(ArmRows(e.rows, Baseline), c)| >= p.minCases)
    && (forall c, q | c in COHORTS && q in COMPARED :: |SamplingGroups(e.rows, c, q.0, q.1)| >= p.minGroups)
  }

  function Interval(e: Evidence, c: Cohort, candidate: Arm, incumbent: Arm): Option<real> {
    if |SamplingGroups(e.rows, c, candidate, incumbent)| >= 2 then Some(e.low(c, candidate, incumbent)) else None
  }

  predicate Quality(e: Evidence, p: Protocol) {
    var skill := Cell(ArmRows(e.rows, Executable), Supported);
    && IsComplete(e) && Enough(e, p)
    && (forall c | c in COHORTS ::
          var cell := Cell(ArmRows(e.rows, Executable), c); AtLeast(Rate(CountCorrect(cell), |cell|), p.qualityFloor))
    && (forall c | c in COHORTS ::
          AtLeast(Interval(e, c, Executable, Textual), -p.acceptableRegression)
          && AtLeast(Interval(e, c, Executable, CheapTextual), -p.acceptableRegression))
    && AtLeast(Rate(CountAccepted(skill), |skill|), p.minCoverage)
    && Rate(CountVerified(skill), CountProposals(skill)) == Some(1.0)
  }

  function FinalCost(e: Evidence, p: Protocol, arm: Arm): Option<real> {
    Projected(e.rows, e.discovery, Affected(e), arm, TotalCost, p.horizon, p.frequency)
  }

  predicate MeasuredSkill(e: Evidence) {
    forall r | r in e.rows && r.arm == Executable && r.skillRan :: r.cpuSeconds.Some? && r.peakMemory.Some?
  }

  predicate EconomicsKnown(e: Evidence, p: Protocol) {
    MeasuredSkill(e) && forall arm | arm in ARMS :: FinalCost(e, p, arm).Some?
  }

  predicate Savings(e: Evidence, p: Protocol)
    requires EconomicsKnown(e, p)
  {
    assert Textual == ARMS[1] && Executable == ARMS[2] && CheapTextual == ARMS[3];
    && FinalCost(e, p, Executable).value <= (1.0 - p.minSavings) * FinalCost(e, p, Textual).value
    && FinalCost(e, p, Executable).value <= (1.0 - p.minSavings) * FinalCost(e, p, CheapTextual).value
  }

  function Decide(e: Evidence, p: Protocol): Decision {
    if !e.live then InfrastructureOnly
    else if e.split != Heldout then DevelopmentOnly
    else if !IsComplete(e) || !Enough(e, p) then InconclusiveIncomplete
    else if !Quality(e, p) then NoGoQuality
    else if !EconomicsKnown(e, p) then InconclusiveUnmeasured
    else if Savings(e, p) then ConditionalGo
    else NoGoEconomics
  }

  lemma {:induction false} AllArms(arm: Arm)
    ensures arm in ARMS
  {
    assert ARMS[0] == Baseline && ARMS[1] == Textual && ARMS[2] == Executable && ARMS[3] == CheapTextual;
    match arm
    case Baseline =>
    case Textual =>
    case Executable =>
    case CheapTextual =>
  }

  lemma {:induction false} BothCohorts(c: Cohort)
    ensures c in COHORTS
  {
    assert COHORTS[0] == Supported && COHORTS[1] == Shifted;
    match c
    case Supported =>
    case Shifted =>
  }

  lemma {:induction false} RateOne(hits: nat, total: nat)
    ensures Rate(hits, total) == Some(1.0) <==> hits == total > 0
  {
    if total > 0 {
      var h, n := hits as real, total as real;
      assert h.Floor == hits && n.Floor == total;
      assert n > 0.0 && (h / n) * n == h;
      assert h == n ==> h / n == 1.0;
    }
  }

  /** A go is earned on complete live held-out evidence: no dispatch is unreconciled, the sample is large enough in
      every cohort and comparison, the executable arm keeps the quality floor and does not regress against either
      textual arm, the skill covers enough and every proposal was verified, every cost of every arm is known, and
      the projected saving is large enough against both textual arms. */
  lemma {:induction false} GoIsEarned(e: Evidence, p: Protocol)
    requires Decide(e, p) == ConditionalGo
    ensures e.live && e.split == Heldout && e.status == Complete && e.unreconciled == [] && |e.rows| == 4 * e.expected
    ensures forall c: Cohort :: |Cell(ArmRows(e.rows, Baseline), c)| >= p.minCases
    ensures forall c: Cohort, q | q in COMPARED :: |SamplingGroups(e.rows, c, q.0, q.1)| >= p.minGroups
    ensures forall c: Cohort ::
              var cell := Cell(ArmRows(e.rows, Executable), c);
              |cell| > 0 && CountCorrect(cell) as real / |cell| as real >= p.qualityFloor
    ensures forall c: Cohort, q: Arm | q == Textual || q == CheapTextual ::
              |SamplingGroups(e.rows, c, Executable, q)| >= 2 && e.low(c, Executable, q) >= -p.acceptableRegression
    ensures var skill := Cell(ArmRows(e.rows, Executable), Supported);
            |skill| > 0 && CountAccepted(skill) as real / |skill| as real >= p.minCoverage
    ensures forall arm: Arm :: AllCostsKnown(e.rows, e.discovery, arm, TotalCost)
    ensures forall r | r in e.rows && r.arm == Executable && r.skillRan :: r.cpuSeconds.Some? && r.peakMemory.Some?
    ensures var skill := Cell(ArmRows(e.rows, Executable), Supported);
            CountVerified(skill) == CountProposals(skill) > 0
    ensures forall arm | arm == Textual || arm == CheapTextual ::
              && FinalCost(e, p, Executable).Some? && FinalCost(e, p, arm).Some?
              && FinalCost(e, p, Executable).value <= (1.0 - p.minSavings) * FinalCost(e, p, arm).value
  {
    hide Projected, Cell, ArmRows, CountCorrect, CountAccepted, CountVerified, CountProposals, SamplingGroups,
      AllCostsKnown;
    assert Enough(e, p) && Quality(e, p);
    forall c: Cohort ensures c in COHORTS { BothCohorts(c); }
    forall c: Cohort, q | q in COMPARED ensures |SamplingGroups(e.rows, c, q.0, q.1)| >= p.minGroups {
      assert c in COHORTS && q in COMPARED;
    }
    forall c: Cohort
      ensures |SamplingGroups(e.rows, c, Executable, Textual)| >= 2
                && e.low(c, Executable, Textual) >= -p.acceptableRegression
      ensures |SamplingGroups(e.rows, c, Executable, CheapTextual)| >= 2
      ensures e.low(c, Executable, CheapTextual) >= -p.acceptableRegression
    {
      assert c in COHORTS;
      assert AtLeast(Interval(e, c, Executable, Textual), -p.acceptableRegression);
      assert AtLeast(Interval(e, c, Executable, CheapTextual), -p.acceptableRegression);
    }
    forall arm: Arm ensures FinalCost(e, p, arm).Some? { AllArms(arm); }
    forall arm: Arm ensures AllCostsKnown(e.rows, e.discovery, arm, TotalCost) {
      ProjectedKnown(e.rows, e.discovery, Affected(e), arm, TotalCost, p.horizon, p.frequency);
      assert FinalCost(e, p, arm).Some?;
    }
    var skill := Cell(ArmRows(e.rows, Executable), Supported);
    RateOne(CountVerified(skill), CountProposals(skill));
  }

  /** Given quality, an unknown cost anywhere can only lead to "unmeasured", never to a go or an economic no-go. */
  lemma {:induction false} UnknownCostIsInconclusive(e: Evidence, p: Protocol)
    requires e.live && e.split == Heldout && Quality(e, p)
    ensures Decide(e, p) == InconclusiveUnmeasured <==>
              !MeasuredSkill(e) || exists arm: Arm :: !AllCostsKnown(e.rows, e.discovery, arm, TotalCost)
  {
    assert Affected(e) == {};
    forall arm: Arm ensures FinalCost(e, p, arm).Some? <==> AllCostsKnown(e.rows, e.discovery, arm, TotalCost) {
      ProjectedKnown(e.rows, e.discovery, Affected(e), arm, TotalCost, p.horizon, p.frequency);
    }
    forall arm: Arm ensures arm in ARMS { AllArms(arm); }
  }
}
