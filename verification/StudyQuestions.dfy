/** What a run asks the world around it, in which order, and what each trouble leads to. */
module StudyQuestions {
  import opened StudyMachine
  import opened StudyTypes
  import opened Wrappers

  /** Questions whose answer the code cannot control; "yes" is trouble and ends the loops. */
  datatype Question =
    | ArtifactsChanged
    | CancelRequested
    | DeadlinePassed
    | WriteFails
    | CallRaises
    | ScoringRaises
    | Distrusted

  /** The status that a trouble leaves. */
  function Consequence(q: Question): Status {
    match q
    case CancelRequested => Cancelled
    case DeadlinePassed => BudgetExhausted
    case Distrusted => Unverified
    case _ => Interrupted
  }

  /** Before a pair the artifacts are verified again; the clock is read once the limits allow the pair. */
  const PAIR: seq<Question> := [ArtifactsChanged, CancelRequested, DeadlinePassed]

  /** For an arm: stop at once, write the reservation, stop before the call, call, score, write twice, trust. */
  const ARM: seq<Question> :=
    [CancelRequested, DeadlinePassed, WriteFails, CancelRequested, DeadlinePassed, CallRaises, ScoringRaises,
     WriteFails, WriteFails, Distrusted]

  function ArmsAsked(n: nat): seq<Question> {
    if n == 0 then [] else ArmsAsked(n - 1) + ARM
  }

  /** The questions of so many whole pairs. */
  function Course(pairs: nat): seq<Question> {
    if pairs == 0 then [] else Course(pairs - 1) + PAIR + ArmsAsked(4)
  }

  /** A stop between the reservation and the call is written to the ledger. */
  predicate BeforeCall(k: nat) { k == 3 || k == 4 }

  /** What is asked in an arm that is left at its k-th question. */
  function UntilLeft(k: nat): seq<Question>
    requires k < |ARM|
  {
    ARM[..k + 1] + if BeforeCall(k) then [WriteFails] else []
  }

  /** The trouble that left it: the question itself, or the write that a stop before the call needs. */
  predicate Leaves(q: Question, k: nat)
    requires k < |ARM|
  {
    q == ARM[k] || (BeforeCall(k) && q == WriteFails)
  }

  predicate Affordable(study: Study, rows: seq<Row>) {
    Within(Plus(Spent(rows), ReserveOf(study, ARMS)), study.limits)
  }

  /** Every pair that was finished could be paid for in full when it began. */
  ghost predicate PaidFor(study: Study, rows: seq<Row>, pairs: nat) {
    4 * pairs <= |rows| && forall k | 0 <= k < pairs :: Affordable(study, rows[..4 * k])
  }

  /** The loops were left for a reason: trouble at a question of the course, a pair that the limits do not allow,
      or the end of the schedule. */
  ghost predicate Explained(study: Study, p: Proc, asked: seq<Question>, trouble: Option<Question>) {
    match trouble
    case None =>
      || (p.slot == |p.order| && p.status == Complete && asked == Course(|p.order|))
      || (p.slot < |p.order| && p.status == BudgetExhausted && !Affordable(study, p.rows) && |p.rows| == 4 * p.slot
          && asked == Course(p.slot) + [ArtifactsChanged, CancelRequested])
    case Some(q) =>
      && p.slot < |p.order| && p.status == Consequence(q)
      && (LeftAtPair(p, asked, q) || LeftAtArm(p, asked, q))
  }

  ghost predicate LeftAtPair(p: Proc, asked: seq<Question>, q: Question) {
    LeftPair(Course(p.slot), asked, Some(q))
  }

  ghost predicate LeftAtArm(p: Proc, asked: seq<Question>, q: Question) {
    LeftArm(Course(p.slot) + PAIR + ArmsAsked(p.arm), asked, Some(q))
  }

  ghost predicate LeftPair(start: seq<Question>, asked: seq<Question>, trouble: Option<Question>) {
    exists k: nat :: k < |PAIR| && trouble == Some(PAIR[k]) && asked == start + PAIR[..k + 1]
  }

  ghost predicate LeftArm(start: seq<Question>, asked: seq<Question>, trouble: Option<Question>) {
    trouble.Some? && exists k: nat :: k < |ARM| && Leaves(trouble.value, k) && asked == start + UntilLeft(k)
  }

  lemma {:induction false} NextQuestion(start: seq<Question>, questions: seq<Question>, k: nat)
    requires k < |questions|
    ensures start + questions[..k] + [questions[k]] == start + questions[..k + 1]
  {
    assert questions[..k + 1] == questions[..k] + [questions[k]];
  }

  lemma {:induction false} ExplainedByPair(study: Study, p: Proc, asked: seq<Question>, trouble: Option<Question>)
    requires p.slot < |p.order| && trouble.Some? && p.status == Consequence(trouble.value)
    requires LeftPair(Course(p.slot), asked, trouble)
    ensures Explained(study, p, asked, trouble)
  {
    hide LeftPair, LeftArm, Course;
  }

  lemma {:induction false} ExplainedByArm(study: Study, p: Proc, asked: seq<Question>, trouble: Option<Question>)
    requires p.slot < |p.order| && trouble.Some? && p.status == Consequence(trouble.value)
    requires LeftArm(Course(p.slot) + PAIR + ArmsAsked(p.arm), asked, trouble)
    ensures Explained(study, p, asked, trouble)
  {
    hide LeftPair, LeftArm, Course, ArmsAsked, PAIR;
  }

  lemma {:induction false} PairIs()
    ensures |PAIR| == 3 && PAIR[0] == ArtifactsChanged && PAIR[1] == CancelRequested && PAIR[2] == DeadlinePassed
    ensures PAIR[..0] == [] && PAIR[..2] == [ArtifactsChanged, CancelRequested] && PAIR[..3] == PAIR
  {
  }

  lemma {:induction false} ArmIs()
    ensures |ARM| == 10 && ARM[0] == ARM[3] == CancelRequested && ARM[1] == ARM[4] == DeadlinePassed
    ensures ARM[2] == ARM[7] == ARM[8] == WriteFails
    ensures ARM[5] == CallRaises && ARM[6] == ScoringRaises && ARM[9] == Distrusted
    ensures ARM[..0] == [] && ARM[..10] == ARM
  {
  }

  lemma {:induction false} PairLeft(start: seq<Question>, k: nat)
    requires k < |PAIR|
    ensures LeftPair(start, start + PAIR[..k + 1], Some(PAIR[k]))
  {
  }

  lemma {:induction false} ArmLeft(start: seq<Question>, k: nat)
    requires k < |ARM| && !BeforeCall(k)
    ensures LeftArm(start, start + ARM[..k + 1], Some(ARM[k]))
  {
    assert UntilLeft(k) == ARM[..k + 1];
    assert Leaves(ARM[k], k);
  }

  lemma {:induction false} ArmDeclined(start: seq<Question>, k: nat, q: Question)
    requires k < |ARM| && BeforeCall(k) && Leaves(q, k)
    ensures LeftArm(start, start + ARM[..k + 1] + [WriteFails], Some(q))
  {
    assert start + ARM[..k + 1] + [WriteFails] == start + UntilLeft(k);
  }
}
