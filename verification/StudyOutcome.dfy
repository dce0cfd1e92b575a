/** Why a run ends as it does: trouble, a pair that the limits do not allow, or the end of the schedule. */
module StudyOutcome {
  import opened Schedule
  import opened StudyMachine
  import opened StudyQuestions
  import opened StudyTypes
  import opened Wrappers

  /** What the route returned belongs to the schedule, in its order, and stays within the reservations. */
  ghost predicate AsPlanned(study: Study, order: seq<Slot>, results: seq<Row>) {
    && Armed(order) && |results| <= 4 * |order|
    && forall i: nat | i < |results| :: AtPlace(study, order, results[i], i)
  }

  ghost predicate AtPlace(study: Study, order: seq<Slot>, row: Row, i: nat)
    requires Armed(order) && i < 4 * |order|
  {
    ValidRow(study, order[i / 4], order[i / 4].arms[i % 4], row)
  }

  lemma {:induction false} NextAsPlanned(study: Study, order: seq<Slot>, results: seq<Row>, slot: nat, arm: nat,
                                         row: Row)
    requires AsPlanned(study, order, results) && |results| == 4 * slot + arm && slot < |order| && arm < 4
    requires ValidRow(study, order[slot], order[slot].arms[arm], row)
    ensures AsPlanned(study, order, results + [row])
  {
    Position(slot, arm);
    hide ValidRow;
    var more := results + [row];
    assert AtPlace(study, order, row, |results|);
    hide AtPlace;
    forall i: nat | i < |more| ensures AtPlace(study, order, more[i], i) {
      if i < |results| { assert more[i] == results[i]; }
    }
  }

  /** The state in which the loops were left, and why; the rows are what the route returned. */
  ghost predicate Ended(study: Study, l: Local, asked: seq<Question>, trouble: Option<Question>, results: seq<Row>) {
    && l.proc.pc == Finishing && LocalOk(study, l)
    && l.proc.rows == results && AsPlanned(study, l.proc.order, results)
    && Explained(study, l.proc, asked, trouble) && PaidFor(study, results, l.proc.slot)
  }

  // ----- how much whole pairs can spend -----

  function Times(n: nat, s: Spend): Spend {
    if n == 0 then NOTHING else Plus(Times(n - 1, s), s)
  }

  lemma {:induction false} TimesGrows(m: nat, n: nat, s: Spend)
    requires m <= n && s.usd >= 0.0
    ensures Within(Times(m, s), Times(n, s))
  {
    if m < n { TimesGrows(m, n - 1, s); }
  }

  lemma {:induction false} SpentSnoc(rows: seq<Row>, n: nat)
    requires n < |rows|
    ensures Spent(rows[..n + 1]) == Plus(Spent(rows[..n]), rows[n].spend)
  {
    assert rows[..n + 1][..n] == rows[..n];
  }

  lemma {:induction false} RowWithin(study: Study, order: seq<Slot>, rows: seq<Row>, k: nat, j: nat)
    requires AsPlanned(study, order, rows) && 4 * k + j < |rows| && j < 4
    ensures Within(rows[4 * k + j].spend, Reservation(study, order[k].arms[j]))
  {
    Position(k, j);
    hide Within, Reservation;
    var i := 4 * k + j;
    assert AtPlace(study, order, rows[i], i);
  }

  /** A row never takes more than its reservation frees. */
  lemma {:induction false} RowForReserve(spent: Spend, row: Spend, reserved: Spend, rest: Spend, bound: Spend)
    requires Within(Plus(spent, Plus(reserved, rest)), bound) && Within(row, reserved)
    ensures Within(Plus(Plus(spent, row), rest), bound)
  {
  }

  lemma {:induction false} ArmsSpend(study: Study, rows: seq<Row>, n: nat, arms: seq<Arm>, j: nat)
    requires j <= |arms| && n + j <= |rows|
    requires forall i | 0 <= i < j :: Within(rows[n + i].spend, Reservation(study, arms[i]))
    ensures Within(Plus(Spent(rows[..n + j]), ReserveOf(study, arms[j..])),
                   Plus(Spent(rows[..n]), ReserveOf(study, arms)))
  {
    if j == 0 {
      assert arms[0..] == arms;
    } else {
      hide Within, Plus, Spent, ReserveOf, Reservation;
      var i := j - 1;
      ArmsSpend(study, rows, n, arms, i);
      SuffixReserve(study, arms, i);
      SpentSnoc(rows, n + i);
      assert n + i + 1 == n + j;
      RowForReserve(Spent(rows[..n + i]), rows[n + i].spend, Reservation(study, arms[i]), ReserveOf(study, arms[j..]),
                    Plus(Spent(rows[..n]), ReserveOf(study, arms)));
    }
  }

  ghost predicate FullArms(order: seq<Slot>) {
    forall i | 0 <= i < |order| :: multiset(order[i].arms) == multiset(ARMS)
  }

  lemma {:induction false} FullReserve(study: Study, order: seq<Slot>, k: nat)
    requires FullArms(order) && k < |order|
    ensures ReserveOf(study, order[k].arms) == ReserveOf(study, ARMS)
  {
    hide ReserveOf;
    ReserveOfPermutation(study, order[k].arms, ARMS);
  }

  lemma {:induction false} PairSpends(study: Study, order: seq<Slot>, rows: seq<Row>, k: nat, n: nat)
    requires AsPlanned(study, order, rows) && k < |order| && n == 4 * k && n + 4 <= |rows|
    requires FullArms(order)
    ensures Within(Spent(rows[..n + 4]), Plus(Spent(rows[..n]), ReserveOf(study, ARMS)))
  {
    hide AsPlanned, Within, Plus, Spent, ReserveOf, Reservation, ARMS, FullArms;
    RowsWithin(study, order, rows, k, n);
    PairOfArms(study, rows, n, order[k].arms);
    FullReserve(study, order, k);
  }

  lemma {:induction false} RowsWithin(study: Study, order: seq<Slot>, rows: seq<Row>, k: nat, n: nat)
    requires AsPlanned(study, order, rows) && k < |order| && n == 4 * k && n + 4 <= |rows|
    ensures |order[k].arms| == 4
    ensures forall i | 0 <= i < 4 :: Within(rows[n + i].spend, Reservation(study, order[k].arms[i]))
  {
    forall i | 0 <= i < 4 ensures Within(rows[n + i].spend, Reservation(study, order[k].arms[i])) {
      RowWithin(study, order, rows, k, i);
    }
  }

  lemma {:induction false} PairOfArms(study: Study, rows: seq<Row>, n: nat, arms: seq<Arm>)
    requires |arms| == 4 && n + 4 <= |rows|
    requires forall i | 0 <= i < 4 :: Within(rows[n + i].spend, Reservation(study, arms[i]))
    ensures Within(Spent(rows[..n + 4]), Plus(Spent(rows[..n]), ReserveOf(study, arms)))
  {
    hide Within, Spent, Reservation;
    assert arms[4..] == [] && ReserveOf(study, arms[4..]) == NOTHING;
    hide ReserveOf;
    ArmsSpend(study, rows, n, arms, 4);
    assert Plus(Spent(rows[..n + 4]), NOTHING) == Spent(rows[..n + 4]);
  }

  lemma {:induction false} FourReserved(study: Study, arms: seq<Arm>)
    requires |arms| == 4
    ensures ReserveOf(study, arms)
         == Plus(Reservation(study, arms[0]), Plus(Reservation(study, arms[1]),
                 Plus(Reservation(study, arms[2]), Plus(Reservation(study, arms[3]), NOTHING))))
  {
    assert arms[0..] == arms && arms[4..] == [] && ReserveOf(study, arms[4..]) == NOTHING;
    hide Reservation, ReserveOf, Plus;
    SuffixReserve(study, arms, 0);
    SuffixReserve(study, arms, 1);
    SuffixReserve(study, arms, 2);
    SuffixReserve(study, arms, 3);
  }

  /** A pair reserves three calls to the reference target and one, that of the cheap arm, to the cheaper one. */
  lemma {:induction false} PairReserve(study: Study)
    ensures forall arm: Arm :: Reservation(study, arm).calls == 1
                               && (arm == CheapTextual ==> Within(Reservation(study, arm), study.cheaper.(calls := 1)))
                               && (arm != CheapTextual
                                 ==> Within(Reservation(study, arm), study.reference.(calls := 1)))
    ensures ReserveOf(study, ARMS) == Spend(4, 3 * study.reference.tokens + study.cheaper.tokens,
                                            3.0 * study.reference.usd + study.cheaper.usd)
  {
    FourReserved(study, ARMS);
  }

  lemma {:induction false} WholePairsSpend(study: Study, order: seq<Slot>, rows: seq<Row>, k: nat, n: nat)
    requires AsPlanned(study, order, rows) && n == 4 * k && n <= |rows|
    requires FullArms(order)
    ensures Within(Spent(rows[..n]), Times(k, ReserveOf(study, ARMS)))
  {
    hide AsPlanned, ReserveOf, Spent, ARMS, Within, Plus, Times, FullArms;
    if k == 0 {
      NothingSpent(rows, ReserveOf(study, ARMS));
    } else {
      var m := n - 4;
      PairFits(study, order, rows, k);
      PairSpends(study, order, rows, k - 1, m);
      WholePairsSpend(study, order, rows, k - 1, m);
      OnePairMore(Spent(rows[..m]), Spent(rows[..n]), k - 1, ReserveOf(study, ARMS));
    }
  }

  lemma {:induction false} NothingSpent(rows: seq<Row>, pair: Spend)
    ensures Within(Spent(rows[..0]), Times(0, pair))
  {
  }

  lemma {:induction false} PairFits(study: Study, order: seq<Slot>, rows: seq<Row>, k: nat)
    requires AsPlanned(study, order, rows) && 4 * k <= |rows|
    ensures k <= |order|
  {
  }

  lemma {:induction false} OnePairMore(before: Spend, after: Spend, k: nat, pair: Spend)
    requires Within(before, Times(k, pair)) && Within(after, Plus(before, pair))
    ensures Within(after, Times(k + 1, pair))
  {
  }

  // ----- undisturbed runs -----

  lemma {:induction false} EndedOrder(study: Study, l: Local)
    requires LocalOk(study, l)
    ensures |l.proc.order| == |Cases(study, l.proc.split)|
    ensures FullArms(l.proc.order)
  {
    hide MemoryOk;
  }

  lemma {:induction false} CompleteIsSaved(study: Study, l: Local)
    requires LocalOk(study, l) && l.proc.pc == Finishing && l.proc.status == Complete
    ensures l.disk.episodes == l.proc.rows && |l.proc.rows| == 4 * |l.proc.order|
  {
    hide DiskOk;
  }

  /** Without trouble a run is complete, with four saved rows for every case, exactly when every pair could be paid
      for when its turn came; otherwise it stops at the first pair that the limits do not allow. */
  lemma {:induction false} UndisturbedIff(study: Study, l: Local, asked: seq<Question>, results: seq<Row>)
    requires Ended(study, l, asked, None, results)
    ensures l.proc.status == Complete || l.proc.status == BudgetExhausted
    ensures l.proc.status == Complete <==>
              forall k: nat | k < |l.proc.order| && 4 * k <= |results| :: Affordable(study, results[..4 * k])
    ensures l.proc.status == Complete ==> l.disk.episodes == results && |results| == 4 * |Cases(study, l.proc.split)|
  {
    EndedOrder(study, l);
    hide LocalOk, AsPlanned, Affordable, Course;
    if l.proc.status == Complete {
      CompleteIsSaved(study, l);
    } else {
      assert results[..4 * l.proc.slot] == results;
    }
  }

  /** A plan that fits the limits as a whole is never stopped for its budget. */
  lemma {:induction false} FundedRunCompletes(study: Study, l: Local, asked: seq<Question>, results: seq<Row>)
    requires WellFormed(study) && Ended(study, l, asked, None, results)
    requires Within(Times(|Cases(study, l.proc.split)|, ReserveOf(study, ARMS)), study.limits)
    ensures l.proc.status == Complete && l.disk.episodes == results
    ensures |results| == 4 * |Cases(study, l.proc.split)|
  {
    EndedOrder(study, l);
    UndisturbedIff(study, l, asked, results);
    var order := l.proc.order;
    hide LocalOk, AsPlanned, ReserveOf, WellFormed, ARMS, Times, Affordable, Explained, PaidFor, FullArms;
    forall k: nat | k < |order| && 4 * k <= |results| ensures Affordable(study, results[..4 * k]) {
      PairAffordable(study, order, results, k);
    }
  }

  lemma {:induction false} PairAffordable(study: Study, order: seq<Slot>, rows: seq<Row>, k: nat)
    requires WellFormed(study) && AsPlanned(study, order, rows) && 4 * k <= |rows| && k < |order|
    requires FullArms(order)
    requires Within(Times(|order|, ReserveOf(study, ARMS)), study.limits)
    ensures Affordable(study, rows[..4 * k])
  {
    hide AsPlanned, Spent, ReserveOf, WellFormed, ARMS, Times, Within, Plus, FullArms;
    ReserveNonNegative(study, ARMS);
    WholePairsSpend(study, order, rows, k, 4 * k);
    OnePairBeyond(Spent(rows[..4 * k]), k, |order|, ReserveOf(study, ARMS), study.limits);
  }

  lemma {:induction false} OnePairBeyond(spent: Spend, k: nat, n: nat, pair: Spend, limits: Spend)
    requires k < n && pair.usd >= 0.0 && Within(spent, Times(k, pair)) && Within(Times(n, pair), limits)
    ensures Within(Plus(spent, pair), limits)
  {
    TimesGrows(k + 1, n, pair);
  }

  /** What a run reports tells its trouble, and the trouble tells the report. */
  lemma {:induction false} StatusTells(study: Study, l: Local, asked: seq<Question>, trouble: Option<Question>,
                                       results: seq<Row>)
    requires Ended(study, l, asked, trouble, results)
    ensures l.proc.status == Cancelled <==> trouble == Some(CancelRequested)
    ensures l.proc.status == Unverified <==> trouble == Some(Distrusted)
    ensures l.proc.status == Interrupted <==>
              trouble in {Some(ArtifactsChanged), Some(WriteFails), Some(CallRaises), Some(ScoringRaises)}
    ensures l.proc.status == BudgetExhausted <==>
              trouble == Some(DeadlinePassed) || (trouble == None && l.proc.slot < |l.proc.order|)
    ensures l.proc.status == Complete <==> trouble == None && l.proc.slot == |l.proc.order|
  {
    hide LocalOk, AsPlanned, Affordable, Course, LeftAtPair, LeftAtArm, PaidFor;
  }
}
