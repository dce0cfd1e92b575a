/** The evaluation episodes of the policy reuse benchmark and how they share the provider's ledger. */
module PolicyEpisodes {
  import opened PolicyProvider
  import opened Wrappers

  datatype Arm = Model | Policy | Hybrid

  datatype EpisodeRow = EpisodeRow(arm: Arm, seed: int, shifted: bool, score: real, errors: nat, illegal: nat,
                                   abstained: bool, invalidated: bool, calls: seq<nat>, tokens: real, seconds: real,
                                   success: bool)

  datatype Setup = Setup(episodeTimeout: real, maxAttempts: nat, qualityFloor: real)

  /** What the environment does to one attempt: the clock, the call, and the scenario's view of the answer. */
  datatype Verdict = Valid(score: real) | Invalid | Raises
  datatype Try = Try(elapsed: real, attempt: Attempt, verdict: Verdict)

  /** What the local executor reports, or that it raised. */
  datatype Local = Report(score: real, errors: nat, illegal: nat) | Failure

  /** The numbers from+1 to upto. */
  function Numbers(from: nat, upto: nat): (r: seq<nat>)
    requires from <= upto
    ensures |r| == upto - from && forall i | 0 <= i < |r| :: r[i] == from + 1 + i
  {
    seq(upto - from, i => from + 1 + i)
  }

  predicate AsksModel(arm: Arm, shifted: bool) { arm == Model || (arm == Hybrid && shifted) }

  /** Rows added between two ledgers carry the phase they were made in. */
  ghost predicate Added(before: seq<Row>, after: seq<Row>, phase: Phase) {
    before <= after && forall i | |before| <= i < |after| :: after[i].phase == phase
  }

  lemma {:induction false} CallAdds(start: seq<Row>, calls: seq<Row>, limits: Limits, phase: Phase, a: Attempt)
    requires Added(start, calls, phase)
    ensures Added(start, After(calls, limits, phase, a), phase)
    ensures |After(calls, limits, phase, a)| <= |calls| + 1
    ensures Returned(calls, limits, a).Some? ==>
              After(calls, limits, phase, a) == calls + [After(calls, limits, phase, a)[|calls|]]
              && After(calls, limits, phase, a)[|calls|].status == Completed
  {
    hide Outcome, Tokens;
  }

  /** How the attempts at an action ended. */
  datatype Tally = Tally(score: real, errors: nat, illegal: nat)

  /** What the remaining attempts come to, and the ledger they leave. */
  function Asked(calls: seq<Row>, limits: Limits, phase: Phase, setup: Setup, script: seq<Try>,
                 illegal: nat): (Tally, seq<Row>)
    decreases |script|
  {
    if script == [] || setup.episodeTimeout - script[0].elapsed <= 0.0 then (Tally(0.0, 1, illegal), calls)
    else
      var after := After(calls, limits, phase, script[0].attempt);
      if Returned(calls, limits, script[0].attempt).None? then (Tally(0.0, 1, illegal), after)
      else
        match script[0].verdict
        case Valid(score) => (Tally(score, 0, illegal), after)
        case Invalid => Asked(after, limits, phase, setup, script[1..], illegal + 1)
        case Raises => (Tally(0.0, 1, illegal), after)
  }

  /** The ledger after the first k attempts of a script. */
  function LedgerAfter(calls: seq<Row>, limits: Limits, phase: Phase, script: seq<Try>, k: nat): seq<Row>
    requires k <= |script|
  {
    if k == 0 then calls
    else After(LedgerAfter(calls, limits, phase, script, k - 1), limits, phase, script[k - 1].attempt)
  }

  /** An attempt that leads to the next one: there was time, the call returned, and the answer was not valid. */
  ghost predicate Retried(calls: seq<Row>, limits: Limits, phase: Phase, setup: Setup, script: seq<Try>, i: nat)
    requires i < |script|
  {
    && script[i].elapsed < setup.episodeTimeout && script[i].verdict == Invalid
    && Returned(LedgerAfter(calls, limits, phase, script, i), limits, script[i].attempt).Some?
  }

  lemma {:induction false} LedgerAfterFirst(calls: seq<Row>, limits: Limits, phase: Phase, script: seq<Try>, k: nat)
    requires 0 < k <= |script|
    ensures LedgerAfter(calls, limits, phase, script, k)
         == LedgerAfter(After(calls, limits, phase, script[0].attempt), limits, phase, script[1..], k - 1)
  {
    hide After;
    if k > 1 {
      LedgerAfterFirst(calls, limits, phase, script, k - 1);
      assert script[1..][k - 2] == script[k - 1];
    }
  }

  /** The attempts end at the first that is not retried. Each one before it counts as illegal; without time, without a
      reply or when the scenario raises there is one error, and so there is when the attempts run out; only a valid
      answer has a score. */
  lemma {:induction false} AskedMeans(calls: seq<Row>, limits: Limits, phase: Phase, setup: Setup, script: seq<Try>)
    returns (k: nat)
    ensures k <= |script| && forall i: nat | i < k :: Retried(calls, limits, phase, setup, script, i)
    ensures k < |script| ==> !Retried(calls, limits, phase, setup, script, k)
    ensures var (t, after) := Asked(calls, limits, phase, setup, script, 0);
            var before := LedgerAfter(calls, limits, phase, script, k);
            && t.illegal == k
            && (if k == |script| then t.errors == 1 && t.score == 0.0 && after == before
                else if script[k].elapsed >= setup.episodeTimeout then t.errors == 1 && t.score == 0.0
                  && after == before
                else
                  && after == After(before, limits, phase, script[k].attempt)
                  && (if Returned(before, limits, script[k].attempt).Some? && script[k].verdict.Valid? then
                        t.errors == 0 && t.score == script[k].verdict.score
                      else t.errors == 1 && t.score == 0.0))
  {
    k := AskedFrom(calls, limits, phase, setup, script, 0);
  }

  lemma {:induction false} AskedFrom(calls: seq<Row>, limits: Limits, phase: Phase, setup: Setup, script: seq<Try>,
                                     illegal: nat)
    returns (k: nat)
    ensures k <= |script| && forall i: nat | i < k :: Retried(calls, limits, phase, setup, script, i)
    ensures k < |script| ==> !Retried(calls, limits, phase, setup, script, k)
    ensures var (t, after) := Asked(calls, limits, phase, setup, script, illegal);
            var before := LedgerAfter(calls, limits, phase, script, k);
            && t.illegal == illegal + k
            && (if k == |script| then t.errors == 1 && t.score == 0.0 && after == before
                else if script[k].elapsed >= setup.episodeTimeout then t.errors == 1 && t.score == 0.0
                  && after == before
                else
                  && after == After(before, limits, phase, script[k].attempt)
                  && (if Returned(before, limits, script[k].attempt).Some? && script[k].verdict.Valid? then
                        t.errors == 0 && t.score == script[k].verdict.score
                      else t.errors == 1 && t.score == 0.0))
    decreases |script|
  {
    hide After, Returned;
    if script != [] && Retried(calls, limits, phase, setup, script, 0) {
      var next, rest := After(calls, limits, phase, script[0].attempt), script[1..];
      var n := AskedFrom(next, limits, phase, setup, rest, illegal + 1);
      k := n + 1;
      forall i: nat | 0 < i <= k && i < |script|
        ensures Retried(calls, limits, phase, setup, script, i) <==> Retried(next, limits, phase, setup, rest, i - 1)
      {
        LedgerAfterFirst(calls, limits, phase, script, i);
      }
      LedgerAfterFirst(calls, limits, phase, script, k);
      assert Asked(calls, limits, phase, setup, script, illegal)
             == Asked(next, limits, phase, setup, rest, illegal + 1);
      hide Asked, LedgerAfter, Retried;
      assert n < |rest| ==> rest[n] == script[k];
    } else {
      k := 0;
    }
  }

  /** One call under the episode's remaining time; the provider's own timeout is put back whatever happens. */
  method CallWithin(provider: Provider, remaining: real, a: Attempt) returns (r: Option<string>)
    modifies provider
    ensures provider.timeout == old(provider.timeout) && provider.phase == old(provider.phase)
    ensures provider.calls == After(old(provider.calls), provider.limits, old(provider.phase), a)
    ensures r == Returned(old(provider.calls), provider.limits, a)
    ensures provider.timeoutUsed == if old(provider.timeout) <= remaining then old(provider.timeout) else remaining
  {
    var previous := provider.timeout;
    provider.timeout := if previous <= remaining then previous else remaining;
    r := provider.Complete(a);
    provider.timeout := previous;
  }

  /** The attempts loop. */
  method AskModel(provider: Provider, setup: Setup, script: seq<Try>, ghost base: nat) returns (t: Tally)
    requires |script| == setup.maxAttempts && LedgerOk(base, provider.calls, provider.limits)
    modifies provider
    ensures provider.timeout == old(provider.timeout) && provider.phase == old(provider.phase)
    ensures Added(old(provider.calls), provider.calls, old(provider.phase))
    ensures LedgerOk(base, provider.calls, provider.limits)
    ensures (t, provider.calls) == Asked(old(provider.calls), provider.limits, provider.phase, setup, script, 0)
    ensures t.errors <= 1 && |provider.calls| <= |old(provider.calls)| + setup.maxAttempts
    ensures t.errors == 0 ==> |provider.calls| == |old(provider.calls)| + t.illegal + 1
    ensures t.errors == 0 ==> forall i | |old(provider.calls)| <= i < |provider.calls| ::
              provider.calls[i].status == Completed
  {
    hide LedgerOk, After, Returned;
    ghost var start := provider.calls;
    t := Tally(0.0, 0, 0);
    assert script[0..] == script;
    for k := 0 to |script|
      invariant t.score == 0.0
      invariant Asked(start, provider.limits, provider.phase, setup, script, 0)
                == Asked(provider.calls, provider.limits, provider.phase, setup, script[k..], k)
      invariant provider.timeout == old(provider.timeout) && provider.phase == old(provider.phase)
      invariant Added(start, provider.calls, provider.phase) && LedgerOk(base, provider.calls, provider.limits)
      invariant t.errors == 0 && t.illegal == k && |provider.calls| == |start| + k
      invariant forall i | |start| <= i < |provider.calls| :: provider.calls[i].status == Completed
    {
      assert script[k..][0] == script[k] && script[k..][1..] == script[k + 1..];
      var remaining := setup.episodeTimeout - script[k].elapsed;
      if remaining <= 0.0 {
        return t.(errors := 1);
      }
      CallKeepsLedger(base, provider.calls, provider.limits, provider.phase, script[k].attempt);
      CallAdds(start, provider.calls, provider.limits, provider.phase, script[k].attempt);
      var response := CallWithin(provider, remaining, script[k].attempt);
      if response.None? {
        return t.(errors := 1);
      }
      match script[k].verdict
      case Valid(score) =>
        return t.(score := score);
      case Invalid =>
        t := t.(illegal := t.illegal + 1);
      case Raises =>
        return t.(errors := 1);
    }
    t := t.(errors := 1);
  }

  /** `episode`. */
  method Episode(provider: Provider, arm: Arm, seed: int, shifted: bool, setup: Setup, script: seq<Try>, local: Local,
                 seconds: real, ghost base: nat)
    returns (row: EpisodeRow)
    requires |script| == setup.maxAttempts && LedgerOk(base, provider.calls, provider.limits)
    modifies provider
    ensures provider.timeout == old(provider.timeout) && provider.phase == old(provider.phase)
    ensures Added(old(provider.calls), provider.calls, old(provider.phase))
    ensures LedgerOk(base, provider.calls, provider.limits)
    ensures row.arm == arm && row.seed == seed && row.shifted == shifted && row.seconds == seconds
    ensures row.calls == Numbers(|old(provider.calls)|, |provider.calls|)
    ensures row.tokens == Tokens(provider.calls[|old(provider.calls)|..])
    ensures row.abstained == (arm == Hybrid && shifted) && row.invalidated == (arm == Policy && shifted)
    ensures !AsksModel(arm, shifted) ==> provider.calls == old(provider.calls)
    ensures |row.calls| <= setup.maxAttempts
    ensures row.success <==> row.score >= setup.qualityFloor && row.errors == 0 && row.illegal == 0
    ensures row.success && AsksModel(arm, shifted) ==>
              |row.calls| == 1 && provider.calls[|provider.calls| - 1].status == Completed
    ensures row.invalidated ==> row.score == 0.0 && row.errors == 0 && row.illegal == 0
    ensures AsksModel(arm, shifted) ==> (Tally(row.score, row.errors, row.illegal), provider.calls)
                                        == Asked(old(provider.calls), provider.limits, provider.phase, setup, script, 0)
    ensures !AsksModel(arm, shifted) && !row.invalidated ==>
              Tally(row.score, row.errors, row.illegal)
              == match local
                 case Report(score, errors, illegal) => Tally(score, errors, illegal)
                 case Failure => Tally(0.0, 1, 0)
  {
    hide LedgerOk, Tokens, Asked;
    var before := |provider.calls|;
    row := EpisodeRow(arm, seed, shifted, 0.0, 0, 0, false, false, [], 0.0, seconds, false);
    if arm == Policy && shifted {
      row := row.(invalidated := true);
    } else if arm == Model || (arm == Hybrid && shifted) {
      var t := AskModel(provider, setup, script, base);
      row := row.(abstained := arm == Hybrid, score := t.score, errors := t.errors, illegal := t.illegal);
    } else {
      match local
      case Report(score, errors, illegal) => row := row.(score := score, errors := errors, illegal := illegal);
      case Failure => row := row.(errors := 1);
    }
    row := row.(calls := Numbers(before, |provider.calls|), tokens := Tokens(provider.calls[before..]));
    row := row.(success := row.score >= setup.qualityFloor && row.errors == 0 && row.illegal == 0);
  }

  // ----- all episodes -----

  function RowTokens(rows: seq<EpisodeRow>): real {
    if rows == [] then 0.0 else RowTokens(rows[..|rows| - 1]) + rows[|rows| - 1].tokens
  }

  function RowCalls(rows: seq<EpisodeRow>): seq<nat> {
    if rows == [] then [] else RowCalls(rows[..|rows| - 1]) + rows[|rows| - 1].calls
  }

  /** The rows' call ranges, in order, are exactly the calls since `from`, and so are their tokens. */
  ghost predicate Partitioned(from: nat, calls: seq<Row>, rows: seq<EpisodeRow>) {
    && from <= |calls|
    && RowCalls(rows) == Numbers(from, |calls|)
    && RowTokens(rows) == Tokens(calls[from..])
    && forall i | from <= i < |calls| :: calls[i].phase == Evaluation
  }

  lemma {:induction false} TokensConcat(a: seq<Row>, b: seq<Row>)
    ensures Tokens(a + b) == Tokens(a) + Tokens(b)
  {
    if b == [] {
      assert a + b == a;
    } else {
      var n := |b| - 1;
      TokensConcat(a, b[..n]);
      assert (a + b)[..|a + b| - 1] == a + b[..n];
    }
  }

  lemma {:induction false} EpisodePartitions(from: nat, before: seq<Row>, after: seq<Row>, rows: seq<EpisodeRow>,
                                             row: EpisodeRow)
    requires Partitioned(from, before, rows) && Added(before, after, Evaluation)
    requires row.calls == Numbers(|before|, |after|) && row.tokens == Tokens(after[|before|..])
    ensures Partitioned(from, after, rows + [row])
  {
    hide Tokens;
    var all := rows + [row];
    assert all[..|all| - 1] == rows;
    assert Numbers(from, |after|) == Numbers(from, |before|) + Numbers(|before|, |after|);
    assert after[from..] == before[from..] + after[|before|..];
    TokensConcat(before[from..], after[|before|..]);
  }

  const ARMS := [Model, Policy, Hybrid]

  /** The arms of the seed at an index, rotated. */
  function ArmsAt(index: nat): (r: seq<Arm>)
    ensures |r| == 3 && multiset(r) == multiset{Model, Policy, Hybrid}
  {
    var k := index % 3;
    assert ARMS == ARMS[..k] + ARMS[k..];
    assert multiset(ARMS) == multiset{Model, Policy, Hybrid};
    ARMS[k..] + ARMS[..k]
  }

  /** The arms of seed after seed move up one place. */
  lemma {:induction false} ArmsRotate(index: nat, i: nat)
    requires i < 3
    ensures ArmsAt(index)[i] == [Model, Policy, Hybrid][(index + i) % 3]
  {
    var k := index % 3;
    assert (index + i) % 3 == (k + i) % 3;
    Rotated(k, i);
    assert ArmsAt(index) == ARMS[k..] + ARMS[..k];
  }

  lemma {:induction false} Rotated(k: nat, i: nat)
    requires k < 3 && i < 3
    ensures (ARMS[k..] + ARMS[..k])[i] == [Model, Policy, Hybrid][(k + i) % 3]
  {
  }

  function EpisodesOf(index: nat, seed: int, shifted: bool): seq<(Arm, int, bool)> {
    seq(3, i requires 0 <= i < 3 => (ArmsAt(index)[i], seed, shifted))
  }

  function SplitPlan(seeds: seq<int>, shifted: bool): seq<(Arm, int, bool)> {
    if seeds == [] then []
    else SplitPlan(seeds[..|seeds| - 1], shifted) + EpisodesOf(|seeds| - 1, seeds[|seeds| - 1], shifted)
  }

  /** The plan of a split: seed after seed in order, and the q-th arm of the i-th seed is the one i + q places on. */
  lemma {:induction false} PlanAt(seeds: seq<int>, shifted: bool, i: nat, q: nat)
    requires i < |seeds| && q < 3
    ensures |SplitPlan(seeds, shifted)| == 3 * |seeds|
    ensures SplitPlan(seeds, shifted)[3 * i + q] == ([Model, Policy, Hybrid][(i + q) % 3], seeds[i], shifted)
  {
    var n := |seeds| - 1;
    PlanLength(seeds, shifted);
    PlanLength(seeds[..n], shifted);
    if i < n {
      PlanAt(seeds[..n], shifted, i, q);
    } else {
      EpisodesAt(n, seeds[n], shifted, q);
    }
    hide EpisodesOf;
    var before, last := SplitPlan(seeds[..n], shifted), EpisodesOf(n, seeds[n], shifted);
    assert SplitPlan(seeds, shifted) == before + last;
    hide SplitPlan;
    assert (before + last)[3 * i + q] == if i < n then before[3 * i + q] else last[q];
  }

  lemma {:induction false} EpisodesAt(index: nat, seed: int, shifted: bool, q: nat)
    requires q < 3
    ensures |EpisodesOf(index, seed, shifted)| == 3
    ensures EpisodesOf(index, seed, shifted)[q] == ([Model, Policy, Hybrid][(index + q) % 3], seed, shifted)
  {
    ArmsRotate(index, q);
    hide ArmsAt;
  }

  lemma {:induction false} PlanLength(seeds: seq<int>, shifted: bool)
    ensures |SplitPlan(seeds, shifted)| == 3 * |seeds|
  {
    if seeds != [] { PlanLength(seeds[..|seeds| - 1], shifted); }
  }

  function Heads(rows: seq<EpisodeRow>): (r: seq<(Arm, int, bool)>)
    ensures |r| == |rows| && forall i | 0 <= i < |r| :: r[i] == (rows[i].arm, rows[i].seed, rows[i].shifted)
  {
    seq(|rows|, i requires 0 <= i < |rows| => (rows[i].arm, rows[i].seed, rows[i].shifted))
  }

  method Surroundings(n: nat) returns (script: seq<Try>, local: Local, seconds: real)
    ensures |script| == n
  {
    local := *;
    seconds := *;
    script := [];
    for k := 0 to n
      invariant |script| == k
    {
      var t: Try := *;
      script := script + [t];
    }
  }

  lemma {:induction false} AddedIsPrefix(start: seq<Row>, before: seq<Row>, after: seq<Row>, phase: Phase)
    requires start <= before && Added(before, after, phase)
    ensures start <= after
  {
  }

  lemma {:induction false} HeadsAppend(rows: seq<EpisodeRow>, row: EpisodeRow, first: seq<(Arm, int, bool)>,
                                       plan: seq<(Arm, int, bool)>, k: nat)
    requires k < |plan| && Heads(rows) == first + plan[..k] && plan[k] == (row.arm, row.seed, row.shifted)
    ensures Heads(rows + [row]) == first + plan[..k + 1]
  {
    assert Heads(rows + [row]) == Heads(rows) + [plan[k]];
    assert plan[..k + 1] == plan[..k] + [plan[k]];
  }

  /** The arms of one seed. */
  method EvaluateSeed(provider: Provider, index: nat, seed: int, shifted: bool, setup: Setup, rows: seq<EpisodeRow>,
                      ghost base: nat, ghost from: nat)
    returns (all: seq<EpisodeRow>)
    requires LedgerOk(base, provider.calls, provider.limits) && provider.phase == Evaluation
             && Partitioned(from, provider.calls, rows)
    modifies provider
    ensures LedgerOk(base, provider.calls, provider.limits) && provider.phase == Evaluation
              && Partitioned(from, provider.calls, all)
    ensures provider.timeout == old(provider.timeout) && old(provider.calls) <= provider.calls
    ensures Heads(all) == Heads(rows) + EpisodesOf(index, seed, shifted)
  {
    hide LedgerOk, Partitioned, Added, Tokens, Numbers, AsksModel, ArmsAt;
    all := rows;
    var arms := ArmsAt(index);
    ghost var plan := EpisodesOf(index, seed, shifted);
    for k := 0 to 3
      invariant LedgerOk(base, provider.calls, provider.limits) && provider.phase == Evaluation
                && Partitioned(from, provider.calls, all)
      invariant provider.timeout == old(provider.timeout) && old(provider.calls) <= provider.calls
      invariant Heads(all) == Heads(rows) + plan[..k]
    {
      ghost var before := provider.calls;
      ghost var done := all;
      var script, local, seconds := Surroundings(setup.maxAttempts);
      var row := Episode(provider, arms[k], seed, shifted, setup, script, local, seconds, base);
      all := all + [row];
      EpisodePartitions(from, before, provider.calls, done, row);
      AddedIsPrefix(old(provider.calls), before, provider.calls, Evaluation);
      HeadsAppend(done, row, Heads(rows), plan, k);
    }
    assert plan[..3] == plan;
  }

  method EvaluateSplit(provider: Provider, seeds: seq<int>, shifted: bool, setup: Setup, rows: seq<EpisodeRow>,
                       ghost base: nat, ghost from: nat)
    returns (all: seq<EpisodeRow>)
    requires LedgerOk(base, provider.calls, provider.limits) && provider.phase == Evaluation
             && Partitioned(from, provider.calls, rows)
    modifies provider
    ensures LedgerOk(base, provider.calls, provider.limits) && provider.phase == Evaluation
              && Partitioned(from, provider.calls, all)
    ensures provider.timeout == old(provider.timeout) && old(provider.calls) <= provider.calls
    ensures Heads(all) == Heads(rows) + SplitPlan(seeds, shifted)
  {
    hide LedgerOk, Partitioned, EpisodesOf;
    all := rows;
    for index := 0 to |seeds|
      invariant LedgerOk(base, provider.calls, provider.limits) && provider.phase == Evaluation
                && Partitioned(from, provider.calls, all)
      invariant provider.timeout == old(provider.timeout) && old(provider.calls) <= provider.calls
      invariant Heads(all) == Heads(rows) + SplitPlan(seeds[..index], shifted)
    {
      all := EvaluateSeed(provider, index, seeds[index], shifted, setup, all, base, from);
      assert seeds[..index + 1][..index] == seeds[..index];
    }
    assert seeds[..|seeds|] == seeds;
  }

  /** The evaluation part of `main`: both splits, after synthesis left its calls in the ledger. */
  method Evaluate(provider: Provider, heldout: seq<int>, shifted: seq<int>, setup: Setup, ghost base: nat)
    returns (rows: seq<EpisodeRow>)
    requires LedgerOk(base, provider.calls, provider.limits)
    modifies provider
    ensures LedgerOk(base, provider.calls, provider.limits) && old(provider.calls) <= provider.calls
    ensures provider.timeout == old(provider.timeout)
    ensures Partitioned(|old(provider.calls)|, provider.calls, rows)
    ensures Heads(rows) == SplitPlan(heldout, false) + SplitPlan(shifted, true)
  {
    provider.phase := Evaluation;
    rows := [];
    ghost var from := |provider.calls|;
    assert Partitioned(from, provider.calls, rows);
    hide LedgerOk, Partitioned;
    rows := EvaluateSplit(provider, heldout, false, setup, rows, base, from);
    rows := EvaluateSplit(provider, shifted, true, setup, rows, base, from);
  }

  // ----- conservation -----

  function PhaseTokens(calls: seq<Row>, phase: Phase): real {
    if calls == [] then 0.0
    else
      var last := calls[|calls| - 1];
      PhaseTokens(calls[..|calls| - 1], phase) + (if last.phase == phase then last.totalTokens else 0.0)
  }

  lemma {:induction false} PhasesSplit(calls: seq<Row>)
    ensures Tokens(calls) == PhaseTokens(calls, Synthesis) + PhaseTokens(calls, Evaluation)
  {
    if calls != [] { PhasesSplit(calls[..|calls| - 1]); }
  }

  lemma {:induction false} EvaluationTail(calls: seq<Row>, from: nat)
    requires from <= |calls| && forall i | from <= i < |calls| :: calls[i].phase == Evaluation
    ensures PhaseTokens(calls, Synthesis) == PhaseTokens(calls[..from], Synthesis)
  {
    if from < |calls| {
      var n := |calls| - 1;
      EvaluationTail(calls[..n], from);
      assert calls[..n][..from] == calls[..from];
    } else {
      assert calls[..from] == calls;
    }
  }

  /** Set-up tokens and the episodes' tokens together are the whole ledger, apart from evaluation rows that a
      prior attempt left behind. */
  lemma {:induction false} TokensConserved(from: nat, calls: seq<Row>, rows: seq<EpisodeRow>)
    requires Partitioned(from, calls, rows)
    ensures Tokens(calls) == PhaseTokens(calls, Synthesis) + RowTokens(rows) + PhaseTokens(calls[..from], Evaluation)
    ensures Tokens(calls) == PhaseTokens(calls, Synthesis) + RowTokens(rows)
       <==> PhaseTokens(calls[..from], Evaluation) == 0.0
  {
    PhasesSplit(calls[..from]);
    EvaluationTail(calls, from);
    TokensConcat(calls[..from], calls[from..]);
    assert calls[..from] + calls[from..] == calls;
  }

  lemma {:induction false} AllSynthesis(calls: seq<Row>)
    requires forall i | 0 <= i < |calls| :: calls[i].phase == Synthesis
    ensures PhaseTokens(calls, Evaluation) == 0.0
  {
    if calls != [] { AllSynthesis(calls[..|calls| - 1]); }
  }

  lemma {:induction false} SynthesisAdds(calls: seq<Row>, limits: Limits, inputs: seq<(Phase, Attempt)>)
    requires forall i | 0 <= i < |calls| :: calls[i].phase == Synthesis
    requires forall i | 0 <= i < |inputs| :: inputs[i].0 == Synthesis
    ensures forall i | 0 <= i < |AfterAll(calls, limits, inputs)| ::
              AfterAll(calls, limits, inputs)[i].phase == Synthesis
    decreases |inputs|
  {
    hide Outcome, Tokens;
    if inputs != [] {
      SynthesisAdds(After(calls, limits, inputs[0].0, inputs[0].1), limits, inputs[1..]);
    }
  }

  /** With no prior attempt, or one that stopped in synthesis, the episodes' tokens are the ledger's evaluation tokens,
      and with the set-up they are all of it. */
  lemma {:induction false} OrdinaryRunConserves(prior: seq<Row>, limits: Limits, inputs: seq<(Phase, Attempt)>,
                                                calls: seq<Row>, rows: seq<EpisodeRow>)
    requires forall i | 0 <= i < |prior| :: prior[i].phase == Synthesis
    requires forall i | 0 <= i < |inputs| :: inputs[i].0 == Synthesis
    requires AfterAll(prior, limits, inputs) <= calls && Partitioned(|AfterAll(prior, limits, inputs)|, calls, rows)
    ensures RowTokens(rows) == PhaseTokens(calls, Evaluation)
    ensures Tokens(calls) == PhaseTokens(calls, Synthesis) + RowTokens(rows)
  {
    var synthesis := AfterAll(prior, limits, inputs);
    SynthesisAdds(prior, limits, inputs);
    assert calls[..|synthesis|] == synthesis;
    hide AfterAll, PhaseTokens, Tokens, RowTokens, Partitioned;
    AllSynthesis(synthesis);
    TokensConserved(|synthesis|, calls, rows);
    PhasesSplit(calls);
  }

  /** A prior attempt that died in its first evaluation call, without one synthesis call, may be carried over; its
      tokens are then in the ledger but neither in the set-up nor in any episode. */
  lemma {:induction false} PriorEvaluationIsLost()
    ensures var prior := [PolicyProvider.Row(1, Evaluation, Failed, 7.0, true)];
            && MayCarry(prior, false) && Partitioned(1, prior, [])
            && Tokens(prior) == 7.0 && PhaseTokens(prior, Synthesis) == 0.0 && RowTokens([]) == 0.0
  {
    var prior := [PolicyProvider.Row(1, Evaluation, Failed, 7.0, true)];
    assert prior[..0] == [] && prior[1..] == [] && Numbers(1, 1) == [];
    assert Tokens(prior) == Tokens(prior[..0]) + 7.0;
    assert PhaseTokens(prior, Synthesis) == PhaseTokens(prior[..0], Synthesis);
    assert Tokens(prior[1..]) == 0.0 && RowTokens([]) == 0.0 && RowCalls([]) == [];
  }

  // ----- every arm plays every seed -----

  /** The seeds an arm plays in a split, in order. */
  function SeedsOf(plan: seq<(Arm, int, bool)>, arm: Arm, shifted: bool): seq<int> {
    if plan == [] then []
    else
      var last := plan[|plan| - 1];
      SeedsOf(plan[..|plan| - 1], arm, shifted) + (if last.0 == arm && last.2 == shifted then [last.1] else [])
  }

  lemma {:induction false} SeedsConcat(a: seq<(Arm, int, bool)>, b: seq<(Arm, int, bool)>, arm: Arm, shifted: bool)
    ensures SeedsOf(a + b, arm, shifted) == SeedsOf(a, arm, shifted) + SeedsOf(b, arm, shifted)
  {
    if b == [] {
      assert a + b == a;
    } else {
      SeedsConcat(a, b[..|b| - 1], arm, shifted);
      assert (a + b)[..|a + b| - 1] == a + b[..|b| - 1];
    }
  }

  lemma {:induction false} OneOfThree(p: seq<(Arm, int, bool)>, seed: int, s: bool, arm: Arm, shifted: bool)
    requires |p| == 3 && multiset{p[0].0, p[1].0, p[2].0} == multiset{Model, Policy, Hybrid}
    requires forall i | 0 <= i < 3 :: p[i].1 == seed && p[i].2 == s
    ensures SeedsOf(p, arm, shifted) == if s == shifted then [seed] else []
  {
    assert p[..2][..1] == p[..1] && p[..1][..0] == [];
    assert SeedsOf(p[..1], arm, shifted) == if p[0].0 == arm && s == shifted then [seed] else [];
    var second := if p[1].0 == arm && s == shifted then [seed] else [];
    assert SeedsOf(p[..2], arm, shifted) == SeedsOf(p[..1], arm, shifted) + second;
    var m := multiset{p[0].0, p[1].0, p[2].0};
    assert m[arm] == 1;
  }

  lemma {:induction false} SeedOnce(index: nat, seed: int, s: bool, arm: Arm, shifted: bool)
    ensures SeedsOf(EpisodesOf(index, seed, s), arm, shifted) == if s == shifted then [seed] else []
  {
    var arms := ArmsAt(index);
    var p := EpisodesOf(index, seed, s);
    assert arms == [arms[0], arms[1], arms[2]];
    hide ArmsAt, SeedsOf;
    assert p[0].0 == arms[0] && p[1].0 == arms[1] && p[2].0 == arms[2];
    OneOfThree(p, seed, s, arm, shifted);
  }

  lemma {:induction false} SplitSeeds(seeds: seq<int>, s: bool, arm: Arm, shifted: bool)
    ensures SeedsOf(SplitPlan(seeds, s), arm, shifted) == if s == shifted then seeds else []
  {
    assert SeedsOf([], arm, shifted) == [];
    if seeds != [] {
      var n := |seeds| - 1;
      var plan := SplitPlan(seeds[..n], s);
      assert SplitPlan(seeds, s) == plan + EpisodesOf(n, seeds[n], s);
      assert seeds == seeds[..n] + [seeds[n]];
      hide *;
      SplitSeeds(seeds[..n], s, arm, shifted);
      SeedOnce(n, seeds[n], s, arm, shifted);
      SeedsConcat(plan, EpisodesOf(n, seeds[n], s), arm, shifted);
    }
  }

  /** Each arm plays each split's seeds once, in order. */
  lemma {:induction false} ArmsPlayEverySeed(heldout: seq<int>, shifted: seq<int>, arm: Arm)
    ensures SeedsOf(SplitPlan(heldout, false) + SplitPlan(shifted, true), arm, false) == heldout
    ensures SeedsOf(SplitPlan(heldout, false) + SplitPlan(shifted, true), arm, true) == shifted
  {
    SplitSeeds(heldout, false, arm, false);
    SplitSeeds(shifted, true, arm, false);
    SplitSeeds(heldout, false, arm, true);
    SplitSeeds(shifted, true, arm, true);
    SeedsConcat(SplitPlan(heldout, false), SplitPlan(shifted, true), arm, false);
    SeedsConcat(SplitPlan(heldout, false), SplitPlan(shifted, true), arm, true);
  }

  /** `[r for r in rows if ...]`. */
  function Group(rows: seq<EpisodeRow>, arm: Arm, shifted: bool): seq<EpisodeRow> {
    if rows == [] then []
    else
      var last := rows[|rows| - 1];
      Group(rows[..|rows| - 1], arm, shifted) + (if last.arm == arm && last.shifted == shifted then [last] else [])
  }

  lemma {:induction false} GroupSeeds(rows: seq<EpisodeRow>, arm: Arm, shifted: bool)
    ensures |Group(rows, arm, shifted)| == |SeedsOf(Heads(rows), arm, shifted)|
    ensures forall i | 0 <= i < |Group(rows, arm, shifted)| ::
              Group(rows, arm, shifted)[i].seed == SeedsOf(Heads(rows), arm, shifted)[i]
  {
    if rows != [] {
      GroupSeeds(rows[..|rows| - 1], arm, shifted);
      assert Heads(rows)[..|rows| - 1] == Heads(rows[..|rows| - 1]);
    }
  }
}
