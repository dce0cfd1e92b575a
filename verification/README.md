# Proved behaviour of autocontext's experiment and release tooling

This project models the parts of the autocontext repository whose correctness is an argument rather than a
test: the frozen reuse study that must never call a model twice, the generator that turns a JSON Schema into
Zod, the test sharder, the policy-reuse benchmark, the rewriting of README files at a release, and a few small
algorithms (greedy cap sets, canonical JSON, heading slugs, corpus isolation). Every statement below is checked by
Dafny 4.11 for all inputs, all runs or all reachable states: `dafny verify dfyconfig.toml`.

Code that updates things in place is written as classes and methods with loops, each proved against a
specification function or predicate; what the repository promises is then proved about that specification.
Lemmas carry `{:induction false}` so that every inductive step is the one written down.

## What is modelled

**The frozen reuse study** (`StudyTypes`, `Schedule`, `StudyMachine`, `StudySafety`, `StudyHistory`, `StudyQuestions`,
`StudyOutcome`, `StudyRun`, `StudyReport`, `StudyDecision`, `StudyEconomics`, `StudyVerdict`). The on-disk files of a split and the memory of a process are
separate. A state machine has one step for each effect of `run`: reserve in memory, write the ledger, dispatch, score,
account, write the ledger, write the episodes, stop, fail. A history interleaves any number of processes, each of which may
crash between any two steps and be started again. `StudyRun.Runner` is `run` itself, as loops over fields, and
`RunIsHistory` shows that whatever it has done at any moment is a history of the machine, so every safety
result applies to it. The serving route may raise or return any scored row whose accounted tokens and cost stay
within the reservation; cancellation, clocks, failing writes and identity checks may go either way at any point. The
runner records every such question and its answer, so that `StudyOutcome` can say what an undisturbed run does. The
report's amounts and its verdict are stated in `StudyEconomics` as counts and totals over the rows.

**The protocol generator** (`JsonSchema`, `ZodCompiler`, `ZodCorrectness`, `ZodExactness`, `ProtocolSchemas`,
`ZodMarkers`, `TopoOrder`, `TopoTheorems`, `Emission`, `EmissionContents`). JSON Schema has the meaning that sections 6, 8 and 10 of the draft 2020-12
specifications give the keywords used; Zod types are trees with an acceptance relation. Because strings are
measured in UTF-16 units and integers end at 2^53 - 1 in JavaScript, a schema has two readings, which agree on
portable values.

**The test sharder** (`Sharding`, `ShardingOrder`, `ShardPlugin`): list scheduling in decreasing order of weight, with
Graham's bound.

**The policy-reuse benchmark** (`Redaction`, `PolicyProvider`, `PolicyAccounting`, `PolicyEpisodes`, `BreakEven`): the call ledger under
two budgets, the episodes that share it, and the break-even arithmetic over the reals.

**The release surfaces** (`ReleaseBlock`, `VersionNumbers`, `VersionRules`, `VersionRewrites`, `MarkedRewriting`,
`ReleaseSurfaces`, `ReleaseManifests`, `ReleaseContents`): versions after fixed prefixes, then the marked news block, planned, written
and checked. The questions are what a write leaves in the files and when a second write changes nothing.

**Kernels**: `CapSet`, `CanonicalText` with `CanonicalJson`, `CanonicalForm`, `TraceNormalizer` and `TraceContents`, `MarkdownAnchors`, `Corpus`.
`Ordering`, `Numerals`, `Collections` and `Wrappers` are shared definitions.

## Where the code does less than one might expect

Each of these is proved with its exact condition.

- An absent optional property is refused when `.optional()` occurs somewhere inside its type but not around it
  (`ProtocolSchemas.AbsentOptionalTakenIff`, with lists in `NestedMarkerRefusesAbsence` and dicts in
  `ZodMarkers.OptionalDictRefusesAbsence`; which schemas put the marker there is `ZodMarkers.MentionsIff`).
- A string within `maxLength` can be refused because `.max` counts UTF-16 units (`TextsPreservedIff`), an integer
  beyond 2^53 - 1 is refused (`IntegerTakenIff`, `LargeIntegerRefused`), and a constant array or object is never
  taken (`ConstTakenIff`); the type for the constant [1] takes the number 1 instead (`ArrayConstantTakesItsItems`).
- The topological sort depends on the order of its input exactly when at least two names are left in knots
  (`TopoTheorems.InputOrderForgottenIff`, with two names in a knot in `KnotKeepsInputOrder`), and a knot among the
  shared models makes the emitted file use a `const` before its declaration (`Emission.EmittedBeforeUseIff`, with a
  model that refers to itself in `SelfReferenceOutOfOrder`).
- A string with a high surrogate right before a low one does not survive printing and reading; it collides
  with the character the pair encodes (`CanonicalJson.RoundTripIff`, `LoneSurrogatesCollide`). Nothing a reader
  returns is such a string.
- A line of model output that is not JSON is saved in the trace as it came, scratchpad or not
  (`PolicyProvider.TraceCleanIff`, with an event that was cut off in `CutOffScratchpadIsSaved`).
- A prior attempt that made no synthesis call and died in its first evaluation call may be carried over; its tokens
  are then in the ledger but in neither the set-up nor the episodes (`PolicyEpisodes.TokensConserved`, with the ledger
  in `PriorEvaluationIsLost`). Without such rows nothing is lost (`OrdinaryRunConserves`).
- Writing the release surfaces and checking them right after does not always agree. A version that continues after
  three dotted numbers, as in 0.20.0-rc.1, is only partly replaced, so its tail is written again by every write
  (`VersionRules.NumberedSettlesIff`, with the install command in `ReleaseManifests.PrereleaseGrows`), and a news
  block with the end marker in its middle grows too (`ReleaseBlock.SettlesIff`, with an item that quotes the marker in
  `QuotedMarkerGrows`). Otherwise a write does settle (`ReleaseManifests.ManifestSettlesIff`).

## Model

| member | source | states |
|---|---|---|
| `StudyHistory.AtMostOnce` | autocontext/benchmarks/skill_reuse/study.py:202-204 | In every history of processes, crashes and restarts no (case, arm) of a split is dispatched twice. |
| `StudyHistory.CallsAreNeverForgotten` | autocontext/benchmarks/skill_reuse/study.py:242-272 | The record of calls only grows, so at-most-once speaks of every call ever made. |
| `StudyHistory.AbandonedSplitIsFrozen` | autocontext/benchmarks/skill_reuse/study.py:202-204 | Once a split directory has lost its process, nothing in it ever changes again. |
| `StudyHistory.WriteAhead` | autocontext/benchmarks/skill_reuse/study.py:242-272 | A dispatched call already stands on disk as reserved or completed; saved episodes match the completed entries in order and lag by at most one. |
| `StudyHistory.BudgetSafety` | autocontext/benchmarks/skill_reuse/study.py:216-246 | Accounted entries plus outstanding reservations stay within calls, tokens and cost at every reachable state, crashes included. |
| `StudyHistory.CompletionIsHonest` | autocontext/benchmarks/skill_reuse/study.py:278-296 | A "complete" summary means that every (case, arm) of the split has exactly one row and nothing is unreconciled; the complete-pairs flag is set for that status only. |
| `StudyHistory.ActKeeps` | autocontext/benchmarks/skill_reuse/study.py:195-296 | Every action of any process, and every crash, keeps the invariant of the whole system. |
| `StudyHistory.HistoryOk` | autocontext/benchmarks/skill_reuse/study.py:195-296 | Every reachable world satisfies the invariant: ledger written ahead, matching rows, budgets, at most one process on a split. |
| `StudySafety.StepKeeps` | autocontext/benchmarks/skill_reuse/study.py:220-279 | Each single effect of the loops keeps the invariant relating memory and disk. |
| `StudySafety.SaveReservationKeeps` | autocontext/benchmarks/skill_reuse/study.py:242-246 | Writing the reservation keeps the accounted total within the limits, because the pair was funded as a whole. |
| `StudySafety.FundedReservation` | autocontext/benchmarks/skill_reuse/study.py:227-246 | A reservation funded together with the rest of its pair fits the limits on its own. |
| `StudySafety.FundedRow` | autocontext/benchmarks/skill_reuse/study.py:254-270 | What the route accounts for never eats into the reservations still to come in the pair. |
| `StudySafety.CompletedFits` | autocontext/benchmarks/skill_reuse/study.py:268-271 | Once the entry is completed the ledger still follows the schedule, matches the rows and fits the limits. |
| `StudyMachine.ReserveOfPermutation` | autocontext/benchmarks/skill_reuse/study.py:217-229 | Any permutation of the arms reserves the same total, which is why one check covers the pair. |
| `StudyRun.RunIsHistory` | autocontext/benchmarks/skill_reuse/study.py:195-296 | Whatever `Run` has done when it is cut off is a history of the machine. |
| `StudyRun.CompleteRunCoversThePlan` | autocontext/benchmarks/skill_reuse/study.py:278-296 | A report of "complete" comes with exactly one saved row for every case and arm of the split, and the recorded calls are those rows in order. |
| `StudyOutcome.UndisturbedIff` | autocontext/benchmarks/skill_reuse/study.py:221-232 | Without trouble a run ends "complete", with four saved rows for every case, if and only if the spend so far plus the four reservations was within the limits when each pair came up; otherwise it ends for its budget. |
| `StudyOutcome.FundedRunCompletes` | autocontext/benchmarks/skill_reuse/study.py:221-232 | An undisturbed run whose limits hold the reservations of all pairs completes. |
| `StudyOutcome.StatusTells` | autocontext/benchmarks/skill_reuse/study.py:221-282 | Which status stands for which trouble, both ways: cancelled, unverified, interrupted, out of budget, complete. |
| `StudyOutcome.PairReserve` | autocontext/benchmarks/skill_reuse/study.py:216-219 | A pair reserves four calls: the cheap arm its target's tokens and cost, the other three the reference target's. |
| `StudyOutcome.WholePairsSpend` | autocontext/benchmarks/skill_reuse/study.py:216-232 | k whole pairs never spend more than k times the reservation of a pair. |
| `StudyHistory.UnreconciledIff` | autocontext/benchmarks/skill_reuse/study.py:294 | The report lists exactly the open reservations of the ledger, each as often as it stands there. |
| `StudyHistory.EveryCallIsReported` | autocontext/benchmarks/skill_reuse/study.py:283-296 | When a run ends, whatever ended it, every call ever made on the split has a row in the report or is listed as unreconciled. |
| `StudyRun.Runner.Run` | autocontext/benchmarks/skill_reuse/study.py:195-296 | Refuses an existing directory or unfinished development without touching the disk; otherwise its trace is a behaviour of the machine, the questions asked and the trouble met explain why the loops ended, and the summary is the one earned. Undisturbed and with limits that hold all pairs it reports "complete" with four saved rows per case. |
| `StudyRun.Runner.RunPairs` | autocontext/benchmarks/skill_reuse/study.py:221-279 | The outer loop ends with every effect recorded as a machine step, for a reason: trouble at a known question, a pair that the limits do not allow, or the end of the schedule. |
| `StudyRun.Runner.RunPair` | autocontext/benchmarks/skill_reuse/study.py:222-279 | One case: a pair is begun only if it fits the limits and then asks exactly the questions of a pair and its arms; the loop is left only for trouble or because the limits do not allow the pair. |
| `StudyRun.Runner.MayBegin` | autocontext/benchmarks/skill_reuse/study.py:223-232 | A pair is begun if and only if no artifact changed, nobody cancelled, it fits the limits and the deadline has not passed, asked in that order. |
| `StudyRun.Runner.RunArm` | autocontext/benchmarks/skill_reuse/study.py:234-277 | One arm: reserve, write, dispatch, account, or stop. |
| `StudyRun.Runner.ReserveArm` | autocontext/benchmarks/skill_reuse/study.py:242-246 | Appends the reservation and writes the ledger; if the write fails the disk is unchanged. |
| `StudyRun.Runner.DeclineArm` | autocontext/benchmarks/skill_reuse/study.py:247-252 | A cancelled reservation becomes a not-dispatched entry, on disk unless that write fails, and no call is made. |
| `StudyRun.Runner.DispatchArm` | autocontext/benchmarks/skill_reuse/study.py:253-272 | Makes exactly one call for this key; on success the row is in the episodes and the entry completed on disk. |
| `StudyRun.Runner.CommitLedger` | autocontext/benchmarks/skill_reuse/study.py:268-271 | Completes the last entry with what was accounted and writes it. |
| `StudyRun.Runner.Conclude` | autocontext/benchmarks/skill_reuse/study.py:283-296 | The finally block writes the report of the final state under the status that the late checks leave, the pointer before the identity, or loses it; it raises exactly when the loops were interrupted. |
| `Schedule.MakeSchedule` | autocontext/benchmarks/skill_reuse/study.py:142-155 | The loop with its two counters computes the specified plan from the shuffled cases and arms. |
| `Schedule.PlanCases` | autocontext/benchmarks/skill_reuse/study.py:151-154 | The schedule keeps every case exactly once, in the shuffled order. |
| `Schedule.PlanArms` | autocontext/benchmarks/skill_reuse/study.py:152-153 | Every arm list is a rotation of the one shuffled list, so a permutation of the arms. |
| `Schedule.ArmAt` | autocontext/benchmarks/skill_reuse/study.py:151-154 | The q-th arm of a case is the one n + q places on in the shuffled order, n being the earlier cases of its cohort. |
| `Schedule.LatinBalance` | autocontext/benchmarks/skill_reuse/study.py:142-155 | In a cohort of n cases every arm holds every position between floor(n/4) and ceil(n/4) times, for every shuffle. |
| `StudyReport.KnownSumConcat` | autocontext/benchmarks/skill_reuse/reporting.py:42-43 | Sums of parts add up, and one unknown part makes the whole unknown. |
| `StudyReport.DevelopmentIsCharged` | autocontext/benchmarks/skill_reuse/study.py:173-192 | Development raises each arm's set-up by exactly the sum of its own rows, or makes it unknown. |
| `StudyReport.DevelopmentAdmitted` | autocontext/benchmarks/skill_reuse/study.py:173-192 | Complete development evidence is admitted exactly when no ledger entry already uses one of the four reserved ids. |
| `StudyReport.HeldoutSetup` | autocontext/benchmarks/skill_reuse/study.py:173-192 | Held-out evaluation starts only without development evidence or with complete evidence and free ids, and every arm's set-up is then the frozen one plus its own development rows. |
| `StudyReport.JointShape` | autocontext/benchmarks/skill_reuse/contracts.py:164-172 | A valid discovery ledger extended by single-arm entries stays valid exactly when no id repeats. |
| `StudyReport.ObservedCrossing` | autocontext/benchmarks/skill_reuse/reporting.py:130-147 | Against one reference arm: none for arms with unreconciled dispatches; otherwise the least number of cases, paired by id with the supported rows of the reference, after which both totals with set-up are known and the executable one is strictly smaller, or none. |
| `StudyReport.FirstCrossing` | autocontext/benchmarks/skill_reuse/reporting.py:140-146 | The loop over paired values returns the least crossing prefix, or none. |
| `StudyReport.UnknownEndsCrossing` | autocontext/benchmarks/skill_reuse/reporting.py:140-147 | Once a running total is unknown no later prefix can cross. |
| `StudyDecision.ProjectedKnown` | autocontext/benchmarks/skill_reuse/reporting.py:115-129 | A projection is known exactly when the set-up, every row of the arm and both cohorts are. |
| `StudyEconomics.ProjectedAmount` | autocontext/benchmarks/skill_reuse/reporting.py:115-129 | The projection is what was paid for the arm, set-up and every row, plus the horizon times the mean cost of supported cases weighted by 1 - f and of shifted cases weighted by f. |
| `StudyEconomics.ProjectedWeights` | autocontext/benchmarks/skill_reuse/reporting.py:115-129 | At f = 0 only the supported mean counts, at f = 1 only the shifted one, and in between the projection is linear in f. |
| `StudyEconomics.GroupsMean` | autocontext/benchmarks/skill_reuse/reporting.py:82-90 | The sampling groups of a comparison are the groups of the candidate's last rows of cases that the incumbent played too. |
| `StudyEconomics.DecisionTable` | autocontext/benchmarks/skill_reuse/reporting.py:163-209 | Each of the seven decisions if and only if its condition holds, in counts and totals over the rows: a go exactly when evidence, quality and costs are there and the executable amount is at most 1 - s of both textual amounts, an economic no-go exactly when only the last fails. |
| `StudyDecision.GoIsEarned` | autocontext/benchmarks/skill_reuse/reporting.py:163-209 | A conditional go implies live held-out evidence, status complete, nothing unreconciled, four rows per case, enough cases and groups, the quality floor in both cohorts, no regression in all four intervals, coverage with every proposal verified, all costs known, and the required savings against both textual arms. |
| `StudyVerdict.GoMeansEveryPairOnce` | autocontext/benchmarks/skill_reuse/reporting.py:163-209 | In every history, a conditional go on the saved held-out summary and episodes means that each held-out case and arm has exactly one row, the complete-pairs flag is set and nothing is unreconciled. |
| `StudyVerdict.GoOfARun` | autocontext/benchmarks/skill_reuse/study.py:278-296 | The process that ends a run with a go has computed it from rows that are the saved ones, once for every held-out case and arm. |
| `StudyDecision.UnknownCostIsInconclusive` | autocontext/benchmarks/skill_reuse/reporting.py:192-209 | Given quality, one unknown cost leads to "unmeasured", never to a go or an economic no-go. |
| `Corpus.IsolatedSplits` | autocontext/benchmarks/skill_reuse/contracts.py:48-70 | The incremental loops accept a corpus exactly when it is isolated, and a rejection names a fault it has. |
| `Corpus.AddCases` | autocontext/benchmarks/skill_reuse/contracts.py:60-64 | The inner loop accepts exactly when no id or input repeats anywhere so far, and keeps the two sets. |
| `Corpus.GroupsArePure` | autocontext/benchmarks/skill_reuse/contracts.py:65-69 | The last loop accepts exactly when every group has one cohort over all splits. |
| `Corpus.IsolatedIff` | autocontext/benchmarks/skill_reuse/contracts.py:48-70 | The pairwise statement of isolation is what the accumulated sets decide. |
| `JsonSchema.LastSegment` | scripts/generate_protocol.py:53-55 | The reference name is the part of the `$ref` after its last slash. |
| `ZodCorrectness.NothingRefused` | scripts/generate_protocol.py:34-126 | Every value the schema accepts, read as JavaScript does, is taken by the generated type, for supported schemas. |
| `ZodCorrectness.FieldsNotRefused` | scripts/generate_protocol.py:129-152 | Every object a definition accepts has all its fields taken, present or absent, and no key refused as unknown. |
| `ZodCorrectness.AnyOfTakes` | scripts/generate_protocol.py:75-89 | A compiled `anyOf` takes what one of its non-null alternatives takes, and null when it has a null entry. |
| `ZodCorrectness.CompiledDefs` | scripts/generate_protocol.py:155-176 | Generating messages with a forced `type` is generating the definitions with `type` required. |
| `ZodCorrectness.ForcedMeansPresent` | scripts/generate_protocol.py:164-169 | An instance of a forced message is an instance that has its `type` key. |
| `ZodExactness.UndefinedPositions` | scripts/generate_protocol.py:75-89 | A generated type takes `undefined` exactly under a nullable `anyOf` or where the schema says nothing about the type. |
| `ZodExactness.ExactlyTaken` | scripts/generate_protocol.py:34-126 | On schemas rendered without loss the generated type takes exactly what the schema accepts once properties that tolerate absence are not required, at every depth. |
| `ZodExactness.DefExact` | scripts/generate_protocol.py:155-176 | A generated model takes exactly what its relaxed definition accepts. |
| `ProtocolSchemas.ValidInstancesAreTaken` | scripts/generate_protocol.py:155-176 | No valid portable instance of any definition is refused by the generated model. |
| `ProtocolSchemas.GeneratedModelsAreExact` | scripts/generate_protocol.py:155-176 | The generated model takes a value if and only if the relaxed definition accepts it. |
| `ProtocolSchemas.AbsentOptionalTakenIff` | scripts/generate_protocol.py:146-151 | An absent optional property is taken if and only if the marker test did not fire on something nested. |
| `ProtocolSchemas.NestedMarkerRefusesAbsence` | scripts/generate_protocol.py:146-151 | A concrete schema whose valid empty object the generated type refuses. |
| `ZodMarkers.MentionsIff` | scripts/generate_protocol.py:146-151 | Type by type: the generated text holds `.optional()` exactly when the schema puts it there: a property that is optional or so named, a nullable `anyOf`, a part with it, or a name or constant that spells it. |
| `ZodMarkers.HasMarkerIff` | scripts/generate_protocol.py:146-151 | A text holds the marker exactly when it reads `.optional()` somewhere. |
| `ZodMarkers.JsonMentionsIff` | scripts/generate_protocol.py:57-61 | A constant holds the marker exactly when one of its strings or keys does, at any depth. |
| `ZodMarkers.OptionalDictRefusesAbsence` | scripts/generate_protocol.py:146-151 | An optional dict of nullable strings gets no marker of its own and refuses to be absent. |
| `ProtocolSchemas.TextsPreservedIff` | scripts/generate_protocol.py:36-41 | All accepted strings are taken if and only if the schema sets no maximum, or one that leaves no room for characters of two units. |
| `ProtocolSchemas.IntegerTakenIff` | scripts/generate_protocol.py:90-91 | An accepted integer is taken if and only if JavaScript represents it exactly. |
| `ProtocolSchemas.LargeIntegerRefused` | scripts/generate_protocol.py:90-91 | 2^53 is an integer to the schema and refused by the type. |
| `ProtocolSchemas.ConstTakenIff` | scripts/generate_protocol.py:57-61 | Every constant is taken except arrays and objects, which never are. |
| `ProtocolSchemas.ArrayConstantTakesItsItems` | scripts/generate_protocol.py:57-61 | For the constant [1] the schema accepts only [1] and the type takes only 1. |
| `TopoOrder.TopoSort` | scripts/generate_protocol.py:198-249 | The loop with degrees, reversed edges and a queue sorted before each pop computes: again and again the least name whose dependencies are placed, then the rest in input order. |
| `TopoOrder.Release` | scripts/generate_protocol.py:240-243 | Releasing dependents keeps the degree counts and the queue exact. |
| `TopoOrder.PlaceLeast` | scripts/generate_protocol.py:235-243 | One round places the least ready name and keeps the loop's invariant. |
| `TopoTheorems.SortPermutes` | scripts/generate_protocol.py:245-249 | The result is always a permutation of the input, cyclic or not. |
| `TopoTheorems.SortedFirstIffAcyclic` | scripts/generate_protocol.py:198-249 | Dependencies come first in the result exactly when the graph has no knot, that is, exactly when any order has that property. |
| `TopoTheorems.SortIsLeast` | scripts/generate_protocol.py:235-239 | Of all dependency-first arrangements the result is lexicographically least. |
| `TopoTheorems.PlacedComeFirst` | scripts/generate_protocol.py:235-249 | Also with knots: the names that can be placed come first, in the least of their dependency-first arrangements. |
| `TopoTheorems.KnotsComeLast` | scripts/generate_protocol.py:245-249 | The names of the largest knot come last, in their input order. |
| `TopoTheorems.InputOrderForgottenIff` | scripts/generate_protocol.py:228-249 | Every input order gives the same result exactly when at most one name cannot be placed; without a knot none is. |
| `TopoTheorems.KnotKeepsInputOrder` | scripts/generate_protocol.py:245-249 | Two models that refer to each other come out in the order they went in. |
| `TopoTheorems.UnplacedIsLargestKnot` | scripts/generate_protocol.py:245-249 | The names left over are the largest set in which each depends on another of the set. |
| `Emission.GenerateDeclarations` | scripts/generate_protocol.py:252-309 | The three loops emit the declarations whose contents and order the following rows state. |
| `EmissionContents.UnionsList` | scripts/generate_protocol.py:188-196 | The declaration named ServerMessage lists exactly the last segments of the server variants' references, ClientMessage exactly those of the client variants. |
| `EmissionContents.MembersInOrder` | scripts/generate_protocol.py:188-196 | The members of a union stand in the order of its variants. |
| `EmissionContents.DeclarationsAre` | scripts/generate_protocol.py:270-309 | A declaration is emitted exactly when it is the model of a definition, compiled as a message if a union lists it, or one of the two unions. |
| `EmissionContents.EmittedModels` | scripts/generate_protocol.py:270-309 | The emitted models are those that the rows about generated models speak of. |
| `EmissionContents.EmittedInOrder` | scripts/generate_protocol.py:270-309 | The file in order: sorted shared models, the server's messages and their union, the client's messages and theirs. |
| `EmissionContents.RefsAre` | scripts/generate_protocol.py:206-219 | A reference is collected exactly when it is the schema's own or one of a part of it. |
| `Emission.UsesAreRefs` | scripts/generate_protocol.py:206-219 | A generated type mentions no schema the collected references do not include. |
| `Emission.EverythingDeclared` | scripts/generate_protocol.py:270-309 | Every definition and both unions are declared. |
| `Emission.EmittedBeforeUse` | scripts/generate_protocol.py:270-309 | With closed references and no knot among shared models every schema is declared before it is used. |
| `Emission.EmittedBeforeUseIff` | scripts/generate_protocol.py:270-309 | When types mention all their references, that holds exactly when the shared models have no knot. |
| `Emission.SelfReferenceOutOfOrder` | scripts/generate_protocol.py:270-309 | A shared model with a property of its own type is used before it is declared. |
| `Sharding.PartitionModules` | autocontext/scripts/pytest_shard.py:18-34 | The greedy loop over the sorted modules computes the partition that the following rows describe, and a shard count below one is an error. |
| `Sharding.LeastLoaded` | autocontext/scripts/pytest_shard.py:31 | Returns the first index of the smallest load. |
| `ShardingOrder.PlacedInOrder` | autocontext/scripts/pytest_shard.py:30 | Modules are placed in descending weight and, among equal weights, in ascending order of their names. |
| `Ordering.StrLeIff` | autocontext/scripts/pytest_shard.py:30 | Names are ordered as Python orders strings: by the first code point that differs, a prefix first. |
| `ShardingOrder.WeightIs` | autocontext/scripts/pytest_shard.py:28-29 | A module weighs its number of tests, an isolated one as much as the whole suite. |
| `ShardingOrder.FirstLeastLoaded` | autocontext/scripts/pytest_shard.py:30-33 | On the returned shards: every module lies on the first of the shards that hold the least weight of the modules placed before it. |
| `Sharding.PartitionCovers` | autocontext/scripts/pytest_shard.py:18-34 | Every module lands on exactly one shard. |
| `Sharding.GrahamBound` | autocontext/scripts/pytest_shard.py:28-34 | If some assignment keeps every load within opt, the greedy shards stay within (4/3 - 1/(3m)) opt. |
| `Sharding.LeastIsBelowAverage` | autocontext/scripts/pytest_shard.py:31-33 | The least loaded shard holds at most the average. |
| `Sharding.LateModuleIsLight` | autocontext/scripts/pytest_shard.py:30-33 | A module that does not fit beside the least load within opt weighs at most opt/3. |
| `Sharding.PartitionForgetsInsertionOrder` | autocontext/scripts/pytest_shard.py:30 | Two dicts with the same entries are sharded alike. |
| `Sharding.IsolatedModuleIsAlone` | autocontext/scripts/pytest_shard.py:25-33 | With fewer isolated modules than shards and positive sizes each isolated module is alone on its shard. |
| `ShardPlugin.Plugin.CollectionModifyItems` | autocontext/scripts/pytest_shard.py:43-52 | Keeps this shard's items in order in place and reports the others in order as deselected. |
| `ShardPlugin.CountModules` | autocontext/scripts/pytest_shard.py:44-46 | Counts the items of each module, keys in order of first appearance. |
| `ShardPlugin.ModuleIs` | autocontext/scripts/pytest_shard.py:46 | The module of a test is what stands before the first two colons of its node id. |
| `ShardPlugin.SplitInOrder` | autocontext/scripts/pytest_shard.py:48-52 | Kept and deselected items keep the collection's order, and each goes by its module. |
| `ShardPlugin.ShardsAreExactCover` | autocontext/scripts/pytest_shard.py:37-52 | Over the `count` independent processes every item is kept exactly once and modules stay together. |
| `ShardPlugin.CalibrationRunsAlone` | autocontext/scripts/pytest_shard.py:15-33 | With at least two shards the calibration module shares its shard with nothing. |
| `Redaction.RedactsIff` | autocontext/benchmarks/policy_reuse/run.py:128-136 | Redaction raises exactly when a `type` outside a scratchpad is not a string. |
| `Redaction.RedactedHasNoThinking` | autocontext/benchmarks/policy_reuse/run.py:128-136 | No scratchpad key survives at any depth, and scratchpad blocks are reduced to their type. |
| `Redaction.UnchangedIff` | autocontext/benchmarks/policy_reuse/run.py:128-136 | A value is left as it is exactly when it is readable and free of scratchpads. |
| `Redaction.RedactIdempotent` | autocontext/benchmarks/policy_reuse/run.py:128-136 | Redacting twice is redacting once. |
| `Redaction.RedactedIs` | autocontext/benchmarks/policy_reuse/run.py:128-136 | A scratchpad block becomes its type and a note; any other dict loses its two scratchpad keys and nothing else; lists keep their length. |
| `PolicyProvider.Provider.Complete` | autocontext/benchmarks/policy_reuse/run.py:103-178 | A refused call leaves no row; any other adds exactly one closed row with its accounted tokens and keeps its trace; the ledger is saved unless that last write fails, and a reply is returned only when it is saved. |
| `PolicyProvider.Run` | autocontext/benchmarks/policy_reuse/run.py:122-173 | The ending and the saved trace are those whose guarantees the following rows state. |
| `PolicyProvider.RedactLines` | autocontext/benchmarks/policy_reuse/run.py:137-142 | The loop saves one line for each line of output, or raises at the first that cannot be redacted. |
| `PolicyProvider.CollectMessages` | autocontext/benchmarks/policy_reuse/run.py:145-152 | The loop collects the assistant messages, or raises. |
| `PolicyProvider.TraceHidesThinking` | autocontext/benchmarks/policy_reuse/run.py:127-143 | Every line of output that is JSON is saved redacted, with no scratchpad at any depth, and every other line as it came. |
| `PolicyProvider.TraceCleanIff` | autocontext/benchmarks/policy_reuse/run.py:137-143 | The saved trace is free of scratchpads whatever the model wrote exactly when every line was JSON. |
| `PolicyProvider.CutOffScratchpadIsSaved` | autocontext/benchmarks/policy_reuse/run.py:141-142 | A scratchpad event cut off in its line is saved verbatim. |
| `PolicyProvider.MessagesAreAssistants` | autocontext/benchmarks/policy_reuse/run.py:145-152 | The messages collected are exactly those that an event ends as the assistant's. |
| `PolicyProvider.MessagesInOrder` | autocontext/benchmarks/policy_reuse/run.py:145-152 | What is printed later is read later, and one unreadable message makes all unreadable. |
| `PolicyProvider.ReplyIsEarned` | autocontext/benchmarks/policy_reuse/run.py:160-173 | A text is returned exactly when the process exited with 0, the trace was saved, and the last assistant message stopped without error and holds that text, not blank. |
| `PolicyProvider.FailingCallsCount` | autocontext/benchmarks/policy_reuse/run.py:153-159 | The tokens counted do not depend on the exit code, and usage is known exactly when some assistant message carries it. |
| `PolicyProvider.Provider.Carry` | autocontext/benchmarks/policy_reuse/run.py:359-362 | A prior ledger is taken over only without completed calls or saved episodes. |
| `PolicyProvider.CallKeepsLedger` | autocontext/benchmarks/policy_reuse/run.py:103-178 | A call, however it ends, keeps the budgets, the numbering and "no row stays started", and only appends. |
| `PolicyProvider.EveryRunKeepsLedger` | autocontext/benchmarks/policy_reuse/run.py:103-178 | After any sequence of calls the ledger is within the call budget, each call started below the token threshold, and no row is left open. |
| `PolicyProvider.OvershootIsOneCall` | autocontext/benchmarks/policy_reuse/run.py:106-107 | Observed tokens pass the threshold by at most the last call. |
| `PolicyProvider.SpentStaysSpent` | autocontext/benchmarks/policy_reuse/run.py:104-107 | Once a budget is spent no later call changes the ledger. |
| `PolicyAccounting.TokensAre` | autocontext/benchmarks/policy_reuse/run.py:153-159 | Tokens count exactly when all usage is numeric: the reported totals, or if they come to zero the sum of input, output and both cache fields. |
| `PolicyAccounting.RowCounts` | autocontext/benchmarks/policy_reuse/run.py:104-178 | A call within both budgets adds one row with the next number, the phase, the status of its reply and the tokens its messages report. |
| `PolicyAccounting.EarlyFailureCountsNothing` | autocontext/benchmarks/policy_reuse/run.py:122-178 | A call that fails before its output is read adds a failed row without tokens. |
| `PolicyAccounting.TextsAre` | autocontext/benchmarks/policy_reuse/run.py:165 | The reply's texts are the text blocks of the message, in order, and any other shape raises. |
| `PolicyAccounting.BlankIff` | autocontext/benchmarks/policy_reuse/run.py:166 | An answer counts as empty exactly when it holds nothing but the characters that Python strips. |
| `PolicyAccounting.ModelsSortableIff` | autocontext/benchmarks/policy_reuse/run.py:159 | The served models can be sorted exactly when they are all strings, all numbers or all null, a missing one being a string. |
| `PolicyEpisodes.CallWithin` | autocontext/benchmarks/policy_reuse/run.py:214-219 | The call runs under the smaller of the provider's timeout and the time left, and the provider's timeout is put back however the call ends. |
| `PolicyEpisodes.AskModel` | autocontext/benchmarks/policy_reuse/run.py:206-230 | The attempts loop computes the specified tally and ledger; without an error the episode made one more call than it had invalid answers, all completed, within the attempt limit. |
| `PolicyEpisodes.AskedMeans` | autocontext/benchmarks/policy_reuse/run.py:206-230 | The attempts end at the first that is not retried: each one before counts as illegal, no time, no reply or an exception as an error, and only a valid answer scores. |
| `PolicyEpisodes.Episode` | autocontext/benchmarks/policy_reuse/run.py:194-246 | The row carries the outcome of its arm: invalidation, the attempts' tally, or the local report; it lists exactly the calls made during the episode and their tokens; a successful model episode made one completed call; the timeout is restored. |
| `PolicyEpisodes.Evaluate` | autocontext/benchmarks/policy_reuse/run.py:387-396 | The rows' call ranges, in order, partition the evaluation calls and their tokens, budgets kept, in the planned order of arms. |
| `PolicyEpisodes.TokensConserved` | autocontext/benchmarks/policy_reuse/run.py:249-252 | Set-up tokens plus episode tokens are the ledger's total exactly when a prior attempt left no evaluation tokens. |
| `PolicyEpisodes.OrdinaryRunConserves` | autocontext/benchmarks/policy_reuse/run.py:354-396 | With no prior attempt, or one that holds synthesis rows only, the episodes' tokens are the ledger's evaluation tokens and with the set-up all of it. |
| `PolicyEpisodes.PriorEvaluationIsLost` | autocontext/benchmarks/policy_reuse/run.py:359-362 | A ledger that may be carried over and whose seven tokens are in neither. |
| `PolicyEpisodes.ArmsPlayEverySeed` | autocontext/benchmarks/policy_reuse/run.py:389-394 | Each arm plays the seeds of each split once, in order, under the rotation. |
| `PolicyEpisodes.PlanAt` | autocontext/benchmarks/policy_reuse/run.py:389-394 | Seed after seed in order, the q-th arm of the i-th seed being the one i + q places on. |
| `BreakEven.BreakEvenIsExact` | autocontext/benchmarks/policy_reuse/run.py:287-292 | For every horizon: cheaper with set-up if and only if a break-even is reported and the horizon has reached it. |
| `BreakEven.NoneIffNeverCheaper` | autocontext/benchmarks/policy_reuse/run.py:287-292 | None is reported exactly when no horizon is ever cheaper. |
| `BreakEven.GateMeansCheaperAtHundred` | autocontext/benchmarks/policy_reuse/run.py:318-319 | The gate "break-even within 100" holds exactly when the arm is cheaper at a hundred episodes. |
| `BreakEven.ObservedCrossing` | autocontext/benchmarks/policy_reuse/run.py:293-305 | Returns the least number of seeds, in seed order, after which the arm with its set-up is cheaper, or none. |
| `BreakEven.ResourceTotals` | autocontext/benchmarks/policy_reuse/run.py:287-305 | The totals compared are the seconds, the number of model calls and the tokens of the rows. |
| `BreakEven.SortedKeepsTies` | autocontext/benchmarks/policy_reuse/run.py:295 | Rows with one seed keep the order they came in. |
| `BreakEven.SortedAscending` | autocontext/benchmarks/policy_reuse/run.py:295 | The rows are walked in ascending seed order. |
| `BreakEven.ProjectionMatchesObservation` | autocontext/benchmarks/policy_reuse/run.py:287-305 | The projected break-even is within the episodes played exactly when the arm is ahead after the last of them. |
| `BreakEven.EvaluatedGroupsMatch` | autocontext/benchmarks/policy_reuse/run.py:387-396 | The rows the evaluation produces give every arm the same held-out seeds, so the two results apply to them. |
| `CapSet.TriedInPriorityOrder` | examples/workspace_benchmark.py:30 | Vectors are tried by descending priority, equal priorities in pool order. |
| `CapSet.BuildCap` | examples/workspace_benchmark.py:28-33 | The loop computes the greedy choice. |
| `CapSet.IsFit` | examples/workspace_benchmark.py:31 | The two nested loops decide whether the vector completes a line with two earlier choices. |
| `CapSet.CapIsMaximal` | examples/workspace_benchmark.py:28-33 | The result is a cap drawn from the pool, and every vector left out completes a line with two chosen ones. |
| `CapSet.CapInAnyOrder` | examples/workspace_benchmark.py:25-26 | No three chosen vectors form a line, in any order. |
| `CapSet.LineHasOneCompletion` | examples/workspace_benchmark.py:25-26 | Over {0,1,2}^d two vectors have exactly one completing vector. |
| `CapSet.CapSizeBound` | examples/workspace_benchmark.py:28-33 | For a duplicate-free pool of n vectors a cap of size k satisfies n <= k(k+1)/2. |
| `CanonicalText.ReadsBack` | autocontext/scripts/drive_parity_fixture.py:203-207 | Reading a written string gives it back with adjacent surrogates joined. |
| `CanonicalText.StringRoundTripIff` | autocontext/scripts/drive_parity_fixture.py:203-207 | A string survives exactly when no high surrogate stands right before a low one. |
| `CanonicalText.EscapedIsAscii` | autocontext/scripts/drive_parity_fixture.py:203-207 | A written string is printable ASCII. |
| `CanonicalJson.ReadsValue` | autocontext/scripts/drive_parity_fixture.py:197-207 | An RFC 8259 reader (sections 2 to 7) applied to a printed value followed by anything a value may be followed by returns the value and the rest. |
| `CanonicalJson.RoundTripIff` | autocontext/scripts/drive_parity_fixture.py:197-207 | The whole text reads back as the value exactly when none of its strings has adjacent surrogates. |
| `CanonicalJson.ReadValuesRoundTrip` | autocontext/scripts/drive_parity_fixture.py:197-207 | Everything a reader returns is such a value, so loaded values always survive. |
| `CanonicalJson.PrintedSameIff` | autocontext/scripts/drive_parity_fixture.py:197-207 | Such values print the same exactly when they are equal up to key order at every depth. |
| `CanonicalJson.StringsPrintSameIff` | autocontext/scripts/drive_parity_fixture.py:203-207 | Any two strings print the same exactly when they are equal after joining surrogates. |
| `CanonicalJson.LoneSurrogatesCollide` | autocontext/scripts/drive_parity_fixture.py:203-207 | A concrete pair of different strings that print the same. |
| `CanonicalJson.KeysAreSorted` | autocontext/scripts/drive_parity_fixture.py:201 | Keys come out once each, in ascending code-point order. |
| `CanonicalJson.KeyOrderForgotten` | autocontext/scripts/drive_parity_fixture.py:201 | Any sorted listing of a dict's keys is that order. |
| `CanonicalJson.PrintIsAscii` | autocontext/scripts/drive_parity_fixture.py:197-207 | The output is printable ASCII whatever the strings hold. |
| `CanonicalForm.ListForm` | autocontext/scripts/drive_parity_fixture.py:197-207 | A list is printed as its items between brackets with bare commas. |
| `CanonicalForm.DictForm` | autocontext/scripts/drive_parity_fixture.py:197-207 | A dict is printed as its entries between braces, keys ascending, with bare colons and commas. |
| `CanonicalForm.EscapesAre` | autocontext/scripts/drive_parity_fixture.py:203-207 | Printable ASCII stands for itself but for quotation mark and backslash, five control characters have short escapes, everything else is written as four hexadecimal digits or a surrogate pair. |
| `CanonicalForm.Hex4Is` | autocontext/scripts/drive_parity_fixture.py:203-207 | The four digits are lower-case hexadecimal, most significant first. |
| `CanonicalForm.ScalarForms` | autocontext/scripts/drive_parity_fixture.py:205-207 | null, true, false, decimal integers and quoted strings. |
| `TraceNormalizer.NormalizeTrace` | autocontext/scripts/drive_parity_fixture.py:163-194 | The copy overwritten field by field is the trace with every field fixed on its own; a message that is not a dict raises. |
| `TraceNormalizer.StampMessages` | autocontext/scripts/drive_parity_fixture.py:178-182 | The message loop stamps every message or raises. |
| `TraceContents.FixedFields` | autocontext/scripts/drive_parity_fixture.py:163-177 | Trace id and timing are fixed and added if missing; no other field comes or goes, and only source, messages and outcome may change. |
| `TraceContents.FixedSource` | autocontext/scripts/drive_parity_fixture.py:174-176 | Of the source only the name and the version of the SDK are fixed. |
| `TraceContents.FixedMessages` | autocontext/scripts/drive_parity_fixture.py:178-182 | Every message keeps all but its timestamp, which is added when missing. |
| `TraceContents.FixedOutcome` | autocontext/scripts/drive_parity_fixture.py:183-194 | Of an outcome only the stack, the message and the type of its error are masked, where present. |
| `TraceContents.RaisesIff` | autocontext/scripts/drive_parity_fixture.py:178-182 | Normalizing raises exactly when the list of messages holds something that is not a dict. |
| `TraceNormalizer.NormalizeIdempotent` | autocontext/scripts/drive_parity_fixture.py:163-194 | Normalizing twice is normalizing once and does not raise. |
| `TraceNormalizer.NormalizedSameIff` | autocontext/scripts/drive_parity_fixture.py:163-194 | Two traces normalize alike exactly when they differ only in the fields that vary from run to run. |
| `TraceNormalizer.ParityIff` | autocontext/scripts/drive_parity_fixture.py:157-207 | Two loaded traces print the same canonical text exactly when they show the same behaviour. |
| `MarkdownAnchors.FreshSlug` | scripts/check_markdown_links.py:213-218 | The loop ends by the pigeonhole principle with the base and the least unused suffix. |
| `MarkdownAnchors.TakenIsBounded` | scripts/check_markdown_links.py:216-218 | Not all of the first n + 1 candidates can be among n used slugs. |
| `MarkdownAnchors.HeadingSlug` | scripts/check_markdown_links.py:204-221 | Each heading gets the least suffix no earlier slug took, the bare base exactly when it is free, and skips at most as many suffixes as there are earlier headings. |
| `MarkdownAnchors.SlugsAreDistinct` | scripts/check_markdown_links.py:204-221 | n headings have n different slugs. |
| `MarkdownAnchors.SuffixedTextCollides` | scripts/check_markdown_links.py:213-218 | Headings b, b and b-1 get b, b-1 and b-1-1. |
| `MarkdownAnchors.DocumentAnchors` | scripts/check_markdown_links.py:204-221 | The loop computes the explicit anchors and the slugs of all headings. |
| `MarkdownAnchors.HtmlAnchorsAre` | scripts/check_markdown_links.py:224-235 | The explicit anchors are those of the HTML blocks and of the inline HTML. |
| `MarkdownAnchors.BasesAre` | scripts/check_markdown_links.py:207-213 | The headings are the inline texts right behind an opening heading, in order. |
| `MarkdownAnchors.PrefixIsIgnored` | scripts/check_markdown_links.py:191 | A fragment with the prefix under which the site publishes anchors means the anchor without it. |
| `MarkdownAnchors.Checker.ValidateLink` | scripts/check_markdown_links.py:159-194 | The cache always equals recomputing the anchors from the file, and the answer is the one given without a cache. |
| `MarkdownAnchors.Checker.CheckAll` | scripts/check_markdown_links.py:109-119 | Over any sequence of links the failures are those found without a cache, and the count is of the links whose raw target is local. |
| `ReleaseBlock.FirstBlockIsLeftmost` | scripts/sync_release_surfaces.py:66-70 | The replaced block is the pattern's leftmost match with the nearest end; none is found exactly when it matches nowhere. |
| `ReleaseBlock.ReplaceIdempotent` | scripts/sync_release_surfaces.py:66-70 | For a replacement that is one block: text outside the first block is kept and a second replacement changes nothing. |
| `ReleaseBlock.SettlesIff` | scripts/sync_release_surfaces.py:66-70 | A replacement delimited by the markers settles on every text exactly when its first end marker is its last. |
| `ReleaseBlock.RenderedBlockSettlesIff` | scripts/sync_release_surfaces.py:51-53 | The rendered block is delimited, so it settles under exactly that condition. |
| `ReleaseBlock.QuotedMarkerGrows` | scripts/sync_release_surfaces.py:51-53 | A news item that quotes the end marker keeps the block from ever settling. |
| `VersionRules.SubstituteKeeps` | scripts/sync_release_surfaces.py:83-88 | A settled rule leaves each of its matches up to date, and a rule apart from another keeps that one's matches up to date. |
| `VersionRules.SettlesIffSettled` | scripts/sync_release_surfaces.py:83-88 | A prefix rule settles on every text exactly when its version is three dotted numbers, or none can be completed from it, and no prefix starts anew inside what it writes. |
| `VersionRules.NumberedSettlesIff` | scripts/sync_release_surfaces.py:83-88 | A version that starts with three dotted numbers settles on every text exactly when it is no more than that. |
| `VersionRules.LastVersionWins` | scripts/sync_release_surfaces.py:83-88 | Whatever ordinary versions were written before, the text is the one the last version alone gives: nothing but versions changes. |
| `VersionRewrites.RewriteAll` | scripts/sync_release_surfaces.py:108-117 | The loop over the prefixes computes the rules one after the other. |
| `VersionRewrites.RewriteConcat` | scripts/sync_release_surfaces.py:108-117 | Earlier rules are applied first. |
| `VersionRewrites.RewriteIsStable` | scripts/sync_release_surfaces.py:108-117 | Settled rules that leave each other alone bring a text up to date for all of them at once. |
| `VersionRewrites.RewriteSettlesIff` | scripts/sync_release_surfaces.py:73-80 | Rules that leave each other alone settle together on every text exactly when each is settled. |
| `MarkedRewriting.RewriteAround` | scripts/sync_release_surfaces.py:108-124 | The text before, between and behind the markers is rewritten on its own, and the first markers stay the first. |
| `MarkedRewriting.RenewalSettlesIff` | scripts/sync_release_surfaces.py:108-124 | Rewriting versions and then replacing the block settles on every text exactly when every rule is settled and the replacement is one block. |
| `ReleaseSurfaces.Sync` | scripts/sync_release_surfaces.py:108-134 | A surface's new text is its versions rewritten and then its block replaced, or its fixed content. |
| `ReleaseSurfaces.Plan` | scripts/sync_release_surfaces.py:196-220 | All texts are worked out first, and one that cannot be stops everything. |
| `ReleaseSurfaces.Write` | scripts/sync_release_surfaces.py:285-288 | If the texts cannot all be planned nothing is written; otherwise each surface holds its planned text and no other file changes. |
| `ReleaseSurfaces.Check` | scripts/sync_release_surfaces.py:277-282 | Reports exactly the surfaces that are not what they should be. |
| `ReleaseSurfaces.SurfaceSettlesIff` | scripts/sync_release_surfaces.py:108-134 | A second write changes no text of a surface exactly when its rules are settled and its block is one block. |
| `ReleaseSurfaces.WrittenIsInStepIff` | scripts/sync_release_surfaces.py:277-288 | On every disk what a write leaves behind a check finds in step, exactly when every surface is of that kind. |
| `ReleaseManifests.ManifestSettlesIff` | scripts/sync_release_surfaces.py:196-220 | For the surfaces of a manifest whose versions start with three dotted numbers: exactly when the versions are no more than that and the news is one block. |
| `ReleaseManifests.ReleaseSettlesIff` | scripts/sync_release_surfaces.py:196-220 | With the versions of ordinary releases: exactly when the news is one block. |
| `ReleaseManifests.PrereleaseGrows` | scripts/sync_release_surfaces.py:108-117 | The install command of 0.20.0-rc.1 is right after the first write and reads 0.20.0-rc.1-rc.1 after the second. |
| `ReleaseContents.LengthIff` | scripts/sync_release_surfaces.py:83-88 | The length that a version takes in a text is exactly that of three dotted numbers, the last as long as it can be. |
| `ReleaseContents.WrittenVersions` | scripts/sync_release_surfaces.py:108-155 | After a write of ordinary versions every version behind `autocontext==`, `autoctx@` and `pi-autocontext@` in the package READMEs is the one of the package named there. |
| `ReleaseContents.WrittenNews` | scripts/sync_release_surfaces.py:43-53 | After a write the root README is a text, the start marker, the news version and every item in order, the end marker, and a text; both texts show the right version behind each of the four install commands; the asset holds every item. |

## Left out

- The serving route, model providers, Docker, Git, HTTP and subprocess calls: foreign code; they appear as arbitrary results, failures and exceptions.
- Frozen fingerprints, digests and the active pointer: identity checks that may fail at any point.
- Bootstrap and Wilson intervals, quantiles and means: the interval's lower end is an arbitrary known or unknown number in the decision.
- Floating-point rounding: costs, seconds and bounds are reals; clocks are arbitrary.
- Random shuffles: any permutation of the cases and of the arms.
- `synthesize` and its ledger: outside the evaluation protocol.
- A missing success rate or interval in the report makes a comparison raise in the code and fail in the model.
- An interrupt inside a provider call leaves a row "started", and `finally` saves it; only ordinary exceptions are modelled there.
- A replacement text containing a backslash is a template in `re.sub`; the model reports it as such without expanding it.
- ReleaseSurfaces.Sync: package notes are left alone, so the root and the Pi README are modelled for texts and news without one; the note patterns (lines 91-102 and 146-153) let a gap run over anything up to the next backtick, markers included.
- ReleaseManifests.ManifestSettlesIff: the heading that `sync_banner_py` rewrites is not among the surfaces; versions that do not start with three dotted numbers or hold a backslash, and a Pi version with `=` or `@`, are covered one rule at a time by `VersionRules.SettlesIffSettled`.
- `\d` is an ASCII digit; the comparisons of package metadata with the manifest: equality tests.
- JSON numbers with fractions or exponents: canonical printing and reading cover integers; other numbers print as Python writes floats.
- `bounded_design`: a conjunction of range checks.
- Inline text, lower-casing, Unicode categories, HTML parsing and path resolution of links: a heading token carries its slug base, a link its resolved target.
- Zod itself: version 4 of the library (ts/package.json:263) is taken to accept safe integers only and to measure strings in UTF-16 units; a generated literal is taken to denote the constant it prints, so quotes and backslashes inside constants are not modelled.
- `patternProperties`, `default`, `title` and other keywords the generator ignores; definitions with a `$ref` or `anyOf` at their top.
- Constants and enumerations that contain a key named `$ref`, and a property of that name (on which the reference collector raises).
- Field names that are not JavaScript identifiers: the generated text is not modelled, only the types it denotes.
- CLI wiring, rendering of reports and tables, training and measurement scripts: no deep property.
