/** Lifecycle economics and the study's decision: unknown costs stay unknown. */
module StudyReport {
  import opened StudyTypes
  import opened Wrappers

  datatype Metric = Seconds | ModelCalls | Tokens | TotalCost

  datatype Discovery = Discovery(id: string, arms: seq<Arm>, seconds: Option<real>, calls: Option<nat>,
                                 tokens: Option<nat>, cost: Option<real>)

  function AsReal(v: Option<nat>): Option<real> {
    match v case None => None case Some(n) => Some(n as real)
  }

  function OfDiscovery(d: Discovery, m: Metric): Option<real> {
    match m
    case Seconds => d.seconds
    case ModelCalls => AsReal(d.calls)
    case Tokens => AsReal(d.tokens)
    case TotalCost => d.cost
  }

  function OfRow(r: Row, m: Metric): Option<real> {
    match m
    case Seconds => Some(r.seconds)
    case ModelCalls => Some(r.spend.calls as real)
    case Tokens => Some(r.spend.tokens as real)
    case TotalCost => r.totalCost
  }

  // ----- known_sum -----

  function KnownSum(values: seq<Option<real>>): Option<real> {
    if exists v | v in values :: v == None then None else Some(Sum(values))
  }

  function Sum(values: seq<Option<real>>): real {
    if values == [] then 0.0
    else Sum(values[..|values| - 1]) + (match values[|values| - 1] case None => 0.0 case Some(x) => x)
  }

  function Add(a: Option<real>, b: Option<real>): Option<real> {
    if a == None || b == None then None else Some(a.value + b.value)
  }

  lemma {:induction false} SumConcat(a: seq<Option<real>>, b: seq<Option<real>>)
    ensures Sum(a + b) == Sum(a) + Sum(b)
  {
    if b == [] {
      assert a + b == a;
    } else {
      assert (a + b)[..|a + b| - 1] == a + b[..|b| - 1];
      SumConcat(a, b[..|b| - 1]);
    }
  }

  /** Sums of parts add up, and one unknown part makes the whole unknown. */
  lemma {:induction false} KnownSumConcat(a: seq<Option<real>>, b: seq<Option<real>>)
    ensures KnownSum(a + b) == Add(KnownSum(a), KnownSum(b))
  {
    SumConcat(a, b);
    assert forall v :: v in a + b <==> v in a || v in b;
  }

  lemma {:induction false} KnownSumOne(v: Option<real>)
    ensures KnownSum([v]) == v
  {
    assert [v][..0] == [];
    assert v in [v];
    if v.Some? { assert Sum([v]) == Sum([]) + v.value; }
  }

  // ----- setup costs and post-freeze development -----

  function ArmValues(discovery: seq<Discovery>, arm: Arm, m: Metric): seq<Option<real>> {
    if discovery == [] then []
    else ArmValues(discovery[..|discovery| - 1], arm, m)
         + (if arm in discovery[|discovery| - 1].arms then [OfDiscovery(discovery[|discovery| - 1], m)] else [])
  }

  function Setup(discovery: seq<Discovery>, arm: Arm, m: Metric): Option<real> {
    KnownSum(ArmValues(discovery, arm, m))
  }

  function ArmRows(rows: seq<Row>, arm: Arm): seq<Row> {
    if rows == [] then []
    else ArmRows(rows[..|rows| - 1], arm) + (if rows[|rows| - 1].arm == arm then [rows[|rows| - 1]] else [])
  }

  function Values(rows: seq<Row>, m: Metric): (r: seq<Option<real>>)
    ensures |r| == |rows| && forall i | 0 <= i < |r| :: r[i] == OfRow(rows[i], m)
  {
    seq(|rows|, i requires 0 <= i < |rows| => OfRow(rows[i], m))
  }

  function SumCalls(rows: seq<Row>): nat {
    if rows == [] then 0 else SumCalls(rows[..|rows| - 1]) + rows[|rows| - 1].spend.calls
  }

  function SumTokens(rows: seq<Row>): nat {
    if rows == [] then 0 else SumTokens(rows[..|rows| - 1]) + rows[|rows| - 1].spend.tokens
  }

  function ArmName(arm: Arm): string {
    match arm
    case Baseline => "baseline"
    case Textual => "textual"
    case Executable => "executable"
    case CheapTextual => "cheap_textual"
  }

  function DevelopmentEntry(rows: seq<Row>, arm: Arm): Discovery {
    var own := ArmRows(rows, arm);
    Discovery("post-freeze-development-" + ArmName(arm), [arm], Some(Sum(Values(own, Seconds))), Some(SumCalls(own)),
              Some(SumTokens(own)), KnownSum(Values(own, TotalCost)))
  }

  function DevelopmentEntries(rows: seq<Row>): seq<Discovery> {
    [DevelopmentEntry(rows, Baseline), DevelopmentEntry(rows, Textual), DevelopmentEntry(rows, Executable),
     DevelopmentEntry(rows, CheapTextual)]
  }

  /** The ledger validator: unique ids, every arm accounted for, no arm listed twice in an entry. */
  predicate CompleteLedgerShape(discovery: seq<Discovery>) {
    && (forall i, j | 0 <= i < j < |discovery| :: discovery[i].id != discovery[j].id)
    && (forall arm | arm in ARMS :: exists d | d in discovery :: arm in d.arms)
    && (forall d | d in discovery :: forall i, j | 0 <= i < j < |d.arms| :: d.arms[i] != d.arms[j])
  }

  /** `development` is None when the directory does not exist, else its status and rows. */
  function WithDevelopmentCosts(discovery: seq<Discovery>,
                                development: Option<(Status, seq<Row>)>): Result<seq<Discovery>> {
    if development == None then Ok(discovery)
    else if development.value.0 != Complete then
      Err("incomplete development requires a new freeze with retained failed-attempt costs")
    else if !CompleteLedgerShape(discovery + DevelopmentEntries(development.value.1)) then
      Err("duplicate discovery ledger entry")
    else Ok(discovery + DevelopmentEntries(development.value.1))
  }

  lemma {:induction false} ArmValuesConcat(a: seq<Discovery>, b: seq<Discovery>, arm: Arm, m: Metric)
    ensures ArmValues(a + b, arm, m) == ArmValues(a, arm, m) + ArmValues(b, arm, m)
  {
    if b == [] {
      assert a + b == a;
    } else {
      assert (a + b)[..|a + b| - 1] == a + b[..|b| - 1];
      ArmValuesConcat(a, b[..|b| - 1], arm, m);
    }
  }

  lemma {:induction false} CountsAreSums(rows: seq<Row>)
    ensures KnownSum(Values(rows, ModelCalls)) == Some(SumCalls(rows) as real)
    ensures KnownSum(Values(rows, Tokens)) == Some(SumTokens(rows) as real)
    ensures KnownSum(Values(rows, Seconds)) == Some(Sum(Values(rows, Seconds)))
  {
    if rows != [] {
      var before := rows[..|rows| - 1];
      CountsAreSums(before);
      assert Values(rows, ModelCalls)[..|rows| - 1] == Values(before, ModelCalls);
      assert Values(rows, Tokens)[..|rows| - 1] == Values(before, Tokens);
    }
  }

  lemma {:induction false} OneMoreValue(s: seq<Discovery>, d: Discovery, arm: Arm, m: Metric)
    ensures ArmValues(s + [d], arm, m) == ArmValues(s, arm, m) + (if arm in d.arms then [OfDiscovery(d, m)] else [])
  {
    assert (s + [d])[..|s + [d]| - 1] == s;
  }

  lemma {:induction false} FourValues(a: Discovery, b: Discovery, c: Discovery, d: Discovery, arm: Arm, m: Metric)
    requires a.arms == [Baseline] && b.arms == [Textual] && c.arms == [Executable] && d.arms == [CheapTextual]
    ensures ArmValues([a, b, c, d], arm, m)
            == [OfDiscovery(match arm
                            case Baseline => a
                            case Textual => b
                            case Executable => c
                            case CheapTextual => d, m)]
  {
    var none: seq<Discovery> := [];
    assert ArmValues(none, arm, m) == [];
    hide *;
    var s1, s2, s3, s4 := none + [a], none + [a] + [b], none + [a] + [b] + [c], none + [a] + [b] + [c] + [d];
    OneMoreValue(none, a, arm, m);
    OneMoreValue(s1, b, arm, m);
    OneMoreValue(s2, c, arm, m);
    OneMoreValue(s3, d, arm, m);
    assert s4 == [a, b, c, d];
  }

  lemma {:induction false} OwnEntry(rows: seq<Row>, arm: Arm, m: Metric)
    ensures ArmValues(DevelopmentEntries(rows), arm, m) == [OfDiscovery(DevelopmentEntry(rows, arm), m)]
  {
    var e := DevelopmentEntries(rows);
    assert e[0].arms == [Baseline] && e[1].arms == [Textual] && e[2].arms == [Executable]
           && e[3].arms == [CheapTextual];
    assert DevelopmentEntry(rows, arm)
        == match arm
           case Baseline => e[0]
           case Textual => e[1]
           case Executable => e[2]
           case CheapTextual => e[3];
    assert e == [e[0], e[1], e[2], e[3]];
    hide *;
    FourValues(e[0], e[1], e[2], e[3], arm, m);
  }

  /** Development raises each arm's setup by exactly its own development rows, or makes it unknown. */
  lemma {:induction false} DevelopmentIsCharged(discovery: seq<Discovery>, rows: seq<Row>, arm: Arm, m: Metric)
    ensures Setup(discovery + DevelopmentEntries(rows), arm, m)
            == Add(Setup(discovery, arm, m), KnownSum(Values(ArmRows(rows, arm), m)))
  {
    var entry := DevelopmentEntry(rows, arm);
    ArmValuesConcat(discovery, DevelopmentEntries(rows), arm, m);
    OwnEntry(rows, arm, m);
    KnownSumConcat(ArmValues(discovery, arm, m), [OfDiscovery(entry, m)]);
    KnownSumOne(OfDiscovery(entry, m));
    CountsAreSums(ArmRows(rows, arm));
  }

  ghost predicate ReservedId(id: string) {
    exists arm: Arm :: id == "post-freeze-development-" + ArmName(arm)
  }

  lemma {:induction false} EntryIdsDiffer(rows: seq<Row>, i: nat, j: nat)
    requires i < j < 4
    ensures DevelopmentEntries(rows)[i].id != DevelopmentEntries(rows)[j].id
  {
    assert |ArmName(Baseline)| == 8 && |ArmName(Textual)| == 7 && |ArmName(Executable)| == 10
           && |ArmName(CheapTextual)| == 13;
  }

  lemma {:induction false} EntryIdsReserved(rows: seq<Row>, id: string)
    ensures ReservedId(id) <==> exists j | 0 <= j < 4 :: DevelopmentEntries(rows)[j].id == id
  {
    var e := DevelopmentEntries(rows);
    assert e[0].id == "post-freeze-development-" + ArmName(Baseline);
    assert e[1].id == "post-freeze-development-" + ArmName(Textual);
    assert e[2].id == "post-freeze-development-" + ArmName(Executable);
    assert e[3].id == "post-freeze-development-" + ArmName(CheapTextual);
    if ReservedId(id) {
      var arm: Arm :| id == "post-freeze-development-" + ArmName(arm);
      match arm {
        case Baseline => assert e[0].id == id;
        case Textual => assert e[1].id == id;
        case Executable => assert e[2].id == id;
        case CheapTextual => assert e[3].id == id;
      }
    }
  }

  /** A valid ledger admits the development entries exactly when it does not already use one of their ids. */
  lemma {:induction false} JointShape(discovery: seq<Discovery>, e: seq<Discovery>)
    requires CompleteLedgerShape(discovery)
    requires forall i, j | 0 <= i < j < |e| :: e[i].id != e[j].id
    requires forall d | d in e :: |d.arms| == 1
    ensures CompleteLedgerShape(discovery + e)
       <==> forall i, j | 0 <= i < |discovery| && 0 <= j < |e| :: discovery[i].id != e[j].id
  {
    var all := discovery + e;
    assert forall i | 0 <= i < |discovery| :: all[i] == discovery[i];
    assert forall j | 0 <= j < |e| :: all[|discovery| + j] == e[j];
    forall arm | arm in ARMS ensures exists d | d in all :: arm in d.arms {
      var d :| d in discovery && arm in d.arms;
      assert d in all;
    }
    if CompleteLedgerShape(all) {
      forall i, j | 0 <= i < |discovery| && 0 <= j < |e| ensures discovery[i].id != e[j].id {
        assert all[i].id != all[|discovery| + j].id;
      }
    }
  }

  lemma {:induction false} DevelopmentAdmitted(discovery: seq<Discovery>, rows: seq<Row>)
    requires CompleteLedgerShape(discovery)
    ensures WithDevelopmentCosts(discovery, Some((Complete, rows))).Ok?
       <==> forall d | d in discovery :: !ReservedId(d.id)
  {
    var e := DevelopmentEntries(rows);
    forall i, j | 0 <= i < j < 4 ensures e[i].id != e[j].id { EntryIdsDiffer(rows, i, j); }
    assert forall d | d in e :: |d.arms| == 1;
    JointShape(discovery, e);
    hide ReservedId, CompleteLedgerShape, DevelopmentEntries;
    forall i | 0 <= i < |discovery|
      ensures ReservedId(discovery[i].id) <==> exists j | 0 <= j < 4 :: e[j].id == discovery[i].id
    {
      EntryIdsReserved(rows, discovery[i].id);
    }
    assert (forall d | d in discovery :: !ReservedId(d.id))
      <==> (forall i | 0 <= i < |discovery| :: !ReservedId(discovery[i].id));
  }

  /** Held-out evaluation starts from the set-up with complete development added to every arm; anything less than
      complete development, or an entry already under a reserved id, stops it. */
  lemma {:induction false} HeldoutSetup(discovery: seq<Discovery>, development: Option<(Status, seq<Row>)>, arm: Arm,
                                        m: Metric)
    requires CompleteLedgerShape(discovery)
    ensures var r := WithDevelopmentCosts(discovery, development);
            && (r.Ok? <==> development.None? || (development.value.0 == Complete
                                                 && forall d | d in discovery :: !ReservedId(d.id)))
            && (r.Ok? ==> Setup(r.value, arm, m) == if development.None? then Setup(discovery, arm, m)
                          else Add(Setup(discovery, arm, m), KnownSum(Values(ArmRows(development.value.1, arm), m))))
  {
    if development.Some? {
      DevelopmentAdmitted(discovery, development.value.1);
      DevelopmentIsCharged(discovery, development.value.1, arm, m);
    }
    hide Setup, CompleteLedgerShape, DevelopmentEntries, ReservedId;
  }

  // ----- observed crossings -----

  /** Cumulative cost of one side after its first k paired episodes. */
  function Cumulative(setup: Option<real>, values: seq<Option<real>>, k: nat): Option<real>
    requires k <= |values|
  {
    KnownSum([setup] + values[..k])
  }

  predicate Crosses(left: Option<real>, right: Option<real>) {
    left.Some? && right.Some? && left.value < right.value
  }

  lemma {:induction false} CumulativeStep(setup: Option<real>, values: seq<Option<real>>, k: nat)
    requires k < |values|
    ensures Cumulative(setup, values, k + 1) == KnownSum([Cumulative(setup, values, k), values[k]])
    ensures Cumulative(setup, values, k) == None ==> Cumulative(setup, values, k + 1) == None
  {
    assert [setup] + values[..k + 1] == ([setup] + values[..k]) + [values[k]];
    KnownSumConcat([setup] + values[..k], [values[k]]);
    KnownSumOne(values[k]);
    KnownSumConcat([Cumulative(setup, values, k)], [values[k]]);
    KnownSumOne(Cumulative(setup, values, k));
    assert [Cumulative(setup, values, k)] + [values[k]] == [Cumulative(setup, values, k), values[k]];
  }

  /** `{r["case_id"]: r for r in rows if ...}`: a later row replaces an earlier one of its case. */
  function ByCase(rows: seq<Row>, arm: Arm, cohort: Cohort): map<string, Row> {
    if rows == [] then map[]
    else
      var r := rows[|rows| - 1];
      var m := ByCase(rows[..|rows| - 1], arm, cohort);
      if r.arm == arm && r.cohort == cohort then m[r.caseId := r] else m
  }

  /** The executable rows whose case the reference arm played in the supported cohort, in run order. */
  function Paired(rows: seq<Row>, right: map<string, Row>): (r: seq<Row>)
    ensures forall i | 0 <= i < |r| :: r[i].arm == Executable && r[i].caseId in right
  {
    if rows == [] then []
    else
      var last := rows[|rows| - 1];
      Paired(rows[..|rows| - 1], right) + (if last.arm == Executable && last.caseId in right then [last] else [])
  }

  function Opposite(paired: seq<Row>, right: map<string, Row>): (r: seq<Row>)
    requires forall i | 0 <= i < |paired| :: paired[i].caseId in right
    ensures |r| == |paired| && forall i | 0 <= i < |r| :: r[i] == right[paired[i].caseId]
  {
    seq(|paired|, i requires 0 <= i < |paired| => right[paired[i].caseId])
  }

  /** The executable arm is ahead of the reference after the first k paired cases, set-up included. */
  ghost predicate AheadAfter(rows: seq<Row>, discovery: seq<Discovery>, reference: Arm, m: Metric, k: nat) {
    var right := ByCase(rows, reference, Supported);
    var paired := Paired(rows, right);
    && k <= |paired|
    && Crosses(Cumulative(Setup(discovery, Executable, m), Values(paired, m), k),
               Cumulative(Setup(discovery, reference, m), Values(Opposite(paired, right), m), k))
  }

  /** The observed crossing against one reference arm: none when either arm has an unreconciled dispatch, otherwise the
      least number of paired cases after which both sums are known and the executable one is strictly smaller. */
  method ObservedCrossing(rows: seq<Row>, discovery: seq<Discovery>, affected: set<Arm>, reference: Arm, m: Metric)
    returns (first: Option<nat>)
    ensures first == None <==>
              Executable in affected || reference in affected
              || forall k: nat | 1 <= k :: !AheadAfter(rows, discovery, reference, m, k)
    ensures first.Some? ==>
              && 1 <= first.value && AheadAfter(rows, discovery, reference, m, first.value)
              && forall k: nat | 1 <= k < first.value :: !AheadAfter(rows, discovery, reference, m, k)
  {
    var right := ByCase(rows, reference, Supported);
    var paired := Paired(rows, right);
    if Executable in affected || reference in affected {
      return None;
    }
    ghost var ls, rs := Setup(discovery, Executable, m), Setup(discovery, reference, m);
    ghost var lv, rv := Values(paired, m), Values(Opposite(paired, right), m);
    first := FirstCrossing(Setup(discovery, Executable, m), Setup(discovery, reference, m),
                           Values(paired, m), Values(Opposite(paired, right), m));
    forall k: nat
      ensures AheadAfter(rows, discovery, reference, m, k)
         <==> k <= |lv| && Crosses(Cumulative(ls, lv, k), Cumulative(rs, rv, k))
    {
    }
    hide AheadAfter, Crosses, Cumulative;
  }

  /** The loop: the least prefix at which both sums are known and the left one is strictly cheaper. */
  method FirstCrossing(leftSetup: Option<real>, rightSetup: Option<real>, left: seq<Option<real>>,
                       right: seq<Option<real>>)
    returns (first: Option<nat>)
    requires |left| == |right|
    ensures first == None <==>
              forall k | 1 <= k <= |left| :: !Crosses(Cumulative(leftSetup, left, k), Cumulative(rightSetup, right, k))
    ensures first.Some? ==>
              && 1 <= first.value <= |left|
              && Crosses(Cumulative(leftSetup, left, first.value), Cumulative(rightSetup, right, first.value))
              && forall k | 1 <= k < first.value ::
                !Crosses(Cumulative(leftSetup, left, k), Cumulative(rightSetup, right, k))
  {
    var leftTotal, rightTotal := leftSetup, rightSetup;
    first := None;
    var i := 0;
    assert Cumulative(leftSetup, left, 0) == leftSetup by {
      assert [leftSetup] + left[..0] == [leftSetup];
      KnownSumOne(leftSetup);
    }
    assert Cumulative(rightSetup, right, 0) == rightSetup by {
      assert [rightSetup] + right[..0] == [rightSetup];
      KnownSumOne(rightSetup);
    }
    hide Cumulative, KnownSum;
    while i < |left|
      invariant 0 <= i <= |left|
      invariant leftTotal == Cumulative(leftSetup, left, i) && rightTotal == Cumulative(rightSetup, right, i)
      invariant first == None ==>
                  forall k | 1 <= k <= i :: !Crosses(Cumulative(leftSetup, left, k), Cumulative(rightSetup, right, k))
      invariant first.Some? ==>
                  && 1 <= first.value <= i
                  && Crosses(Cumulative(leftSetup, left, first.value), Cumulative(rightSetup, right, first.value))
                  && forall k | 1 <= k < first.value ::
                    !Crosses(Cumulative(leftSetup, left, k), Cumulative(rightSetup, right, k))
    {
      CumulativeStep(leftSetup, left, i);
      CumulativeStep(rightSetup, right, i);
      leftTotal := KnownSum([leftTotal, left[i]]);
      rightTotal := KnownSum([rightTotal, right[i]]);
      i := i + 1;
      if first == None && leftTotal.Some? && rightTotal.Some? && leftTotal.value < rightTotal.value {
        first := Some(i);
      }
    }
  }

  /** Once either running total is unknown, no later prefix can be a crossing. */
  lemma {:induction false} UnknownEndsCrossing(setup: Option<real>, values: seq<Option<real>>, k: nat, n: nat)
    requires k <= n <= |values| && Cumulative(setup, values, k) == None
    ensures Cumulative(setup, values, n) == None
    decreases n
  {
    if k < n {
      UnknownEndsCrossing(setup, values, k, n - 1);
      CumulativeStep(setup, values, n - 1);
    }
  }
}
