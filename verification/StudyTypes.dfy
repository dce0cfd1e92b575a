/** Values shared by the frozen reuse study: cases, arms, spend, rows and ledger entries. */
module StudyTypes {
  import opened Wrappers

  datatype Cohort = Supported | Shifted
  datatype Arm = Baseline | Textual | Executable | CheapTextual
  datatype Split = Development | Heldout

  const ARMS: seq<Arm> := [Baseline, Textual, Executable, CheapTextual]

  /** A case; `input` stands for the digest of its parsed input. */
  datatype Case = Case(id: string, group: string, cohort: Cohort, input: string)

  datatype Key = Key(caseId: string, arm: Arm)

  /** Model calls, tokens and declared model cost, counted together. */
  datatype Spend = Spend(calls: nat, tokens: nat, usd: real)

  const NOTHING := Spend(0, 0, 0.0)

  function Plus(a: Spend, b: Spend): Spend {
    Spend(a.calls + b.calls, a.tokens + b.tokens, a.usd + b.usd)
  }

  predicate Within(a: Spend, b: Spend) {
    a.calls <= b.calls && a.tokens <= b.tokens && a.usd <= b.usd
  }

  /** One scored episode, with the fields the report reads. */
  datatype Row = Row(caseId: string, group: string, cohort: Cohort, arm: Arm, correct: bool, spend: Spend,
                     seconds: real, cpuSeconds: Option<real>, peakMemory: Option<nat>, totalCost: Option<real>,
                     proposals: nat, verified: nat, accepted: bool, skillRan: bool)

  datatype EntryState = Reserved | NotDispatched | Completed(actual: Spend)

  datatype Entry = Entry(caseId: string, cohort: Cohort, arm: Arm, reserved: Spend, state: EntryState)

  datatype Status = Complete | Cancelled | BudgetExhausted | Unverified | Interrupted | IdentityChanged | PointerChanged

  /** The report's `complete`: nothing open, and a row for every arm of every expected case. */
  predicate AllPairsComplete(status: Status, unreconciled: seq<Entry>, rows: nat, expected: nat) {
    status == Complete && unreconciled == [] && rows == expected * |ARMS|
  }

  function EntryKey(e: Entry): Key { Key(e.caseId, e.arm) }

  function RowKey(r: Row): Key { Key(r.caseId, r.arm) }
}
