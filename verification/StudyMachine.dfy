/** The frozen study as a state machine: one process per split runs the paired trials,
    the disk holds what survives a crash, and `dispatched` records every call made to the serving route. */
module StudyMachine {
  import opened Ordering
  import opened Schedule
  import opened StudyTypes
  import opened Wrappers

  /** Frozen inputs: `reference` and `cheaper` are the full reservations of the two model targets. */
  datatype Study = Study(development: seq<Case>, heldout: seq<Case>, reference: Spend, cheaper: Spend, limits: Spend)

  function Cases(study: Study, split: Split): seq<Case> {
    match split case Development => study.development case Heldout => study.heldout
  }

  /** Case ids are unique within a split and no price is negative. */
  ghost predicate WellFormed(study: Study) {
    && study.reference.usd >= 0.0 && study.cheaper.usd >= 0.0 && study.limits.usd >= 0.0
    && (forall split: Split, i: nat, j: nat | i < j < |Cases(study, split)| ::
          Cases(study, split)[i].id != Cases(study, split)[j].id)
  }

  /** What one dispatch may use: a single call to the arm's target. */
  function Reservation(study: Study, arm: Arm): Spend {
    if arm == CheapTextual then study.cheaper.(calls := 1) else study.reference.(calls := 1)
  }

  function ReserveOf(study: Study, arms: seq<Arm>): Spend {
    if arms == [] then NOTHING else Plus(Reservation(study, arms[0]), ReserveOf(study, arms[1..]))
  }

  function Spent(rows: seq<Row>): Spend {
    if rows == [] then NOTHING else Plus(Spent(rows[..|rows| - 1]), rows[|rows| - 1].spend)
  }

  /** A ledger entry counts what was accounted, or its whole reservation while that is outstanding. */
  function Charge(e: Entry): Spend {
    match e.state
    case Reserved => e.reserved
    case NotDispatched => NOTHING
    case Completed(actual) => actual
  }

  function Charged(ledger: seq<Entry>): Spend {
    if ledger == [] then NOTHING else Plus(Charged(ledger[..|ledger| - 1]), Charge(ledger[|ledger| - 1]))
  }

  datatype Summary = Summary(status: Status, completePairs: bool, unreconciled: seq<Entry>)

  /** One split's directory. `plan` and `dispatched` are history: the order drawn and the calls made. */
  datatype Disk = Disk(made: bool, plan: seq<Slot>, ledger: seq<Entry>, episodes: seq<Row>,
                       summary: Option<Summary>, dispatched: seq<Key>)

  const EMPTY := Disk(false, [], [], [], None, [])

  datatype Pc = PairTop | ArmTop | Appended | Saved | Declined | InFlight | Scored | Returned
              | LedgerSaved | EpisodesSaved | Finishing

  /** The variables of one `run`, lost on a crash. */
  datatype Proc = Proc(split: Split, order: seq<Slot>, slot: nat, arm: nat, ledger: seq<Entry>, rows: seq<Row>,
                       status: Status, pc: Pc)

  datatype Local = Local(disk: Disk, proc: Proc)

  function Unreconciled(ledger: seq<Entry>): seq<Entry> {
    if ledger == [] then []
    else Unreconciled(ledger[..|ledger| - 1])
         + (if ledger[|ledger| - 1].state == Reserved then [ledger[|ledger| - 1]] else [])
  }

  /** The part of the report that says whether the evidence is complete. */
  function Report(p: Proc, status: Status): Summary {
    var open := Unreconciled(p.ledger);
    Summary(status, AllPairsComplete(status, open, |p.rows|, |p.order|), open)
  }

  // ----- steps of one run -----

  ghost predicate CurrentArm(p: Proc) {
    p.slot < |p.order| && p.arm < |p.order[p.slot].arms|
  }

  function NewEntry(study: Study, slot: Slot, arm: Arm): Entry {
    Entry(slot.case_.id, slot.case_.cohort, arm, Reservation(study, arm), Reserved)
  }

  function SetLast(ledger: seq<Entry>, state: EntryState): seq<Entry>
    requires ledger != []
  {
    ledger[|ledger| - 1 := ledger[|ledger| - 1].(state := state)]
  }

  predicate IsStop(status: Status) { status == Cancelled || status == BudgetExhausted }

  ghost predicate BeginPair(study: Study, a: Local, b: Local) {
    && a.proc.pc == PairTop && a.proc.slot < |a.proc.order|
    && Within(Plus(Spent(a.proc.rows), ReserveOf(study, ARMS)), study.limits)
    && b == a.(proc := a.proc.(pc := ArmTop, arm := 0))
  }

  ghost predicate Stop(a: Local, b: Local) {
    && ((a.proc.pc == PairTop && a.proc.slot < |a.proc.order|) || (a.proc.pc == ArmTop && CurrentArm(a.proc)))
    && IsStop(b.proc.status)
    && b == a.(proc := a.proc.(status := b.proc.status, pc := Finishing))
  }

  ghost predicate EndOfOrder(a: Local, b: Local) {
    && a.proc.pc == PairTop && a.proc.slot == |a.proc.order|
    && b == a.(proc := a.proc.(pc := Finishing))
  }

  ghost predicate EndOfPair(a: Local, b: Local) {
    && a.proc.pc == ArmTop && a.proc.slot < |a.proc.order| && a.proc.arm == |a.proc.order[a.proc.slot].arms|
    && b == a.(proc := a.proc.(pc := PairTop, slot := a.proc.slot + 1, arm := 0))
  }

  ghost predicate Reserve(study: Study, a: Local, b: Local) {
    && a.proc.pc == ArmTop && CurrentArm(a.proc)
    && b == a.(proc := a.proc.(pc := Appended, ledger := a.proc.ledger
                 + [NewEntry(study, a.proc.order[a.proc.slot], a.proc.order[a.proc.slot].arms[a.proc.arm])]))
  }

  ghost predicate SaveReservation(a: Local, b: Local) {
    a.proc.pc == Appended && b == Local(a.disk.(ledger := a.proc.ledger), a.proc.(pc := Saved))
  }

  ghost predicate Decline(a: Local, b: Local) {
    && a.proc.pc == Saved && a.proc.ledger != [] && IsStop(b.proc.status)
    && b == a.(proc := a.proc.(pc := Declined, status := b.proc.status,
                               ledger := SetLast(a.proc.ledger, NotDispatched)))
  }

  ghost predicate SaveDecline(a: Local, b: Local) {
    a.proc.pc == Declined && b == Local(a.disk.(ledger := a.proc.ledger), a.proc.(pc := Finishing))
  }

  ghost predicate Dispatch(a: Local, b: Local) {
    && a.proc.pc == Saved && CurrentArm(a.proc)
    && b == Local(a.disk.(dispatched := a.disk.dispatched
                    + [Key(a.proc.order[a.proc.slot].case_.id, a.proc.order[a.proc.slot].arms[a.proc.arm])]),
                  a.proc.(pc := InFlight))
  }

  /** The route's contract: it accounts for no more than was reserved. */
  ghost predicate ValidRow(study: Study, slot: Slot, arm: Arm, row: Row) {
    && row.caseId == slot.case_.id && row.group == slot.case_.group && row.cohort == slot.case_.cohort && row.arm == arm
    && Within(row.spend, Reservation(study, arm))
  }

  ghost predicate Score(study: Study, a: Local, b: Local) {
    && a.proc.pc == InFlight && CurrentArm(a.proc) && b.proc.rows != []
    && ValidRow(study, a.proc.order[a.proc.slot], a.proc.order[a.proc.slot].arms[a.proc.arm],
                b.proc.rows[|b.proc.rows| - 1])
    && b == a.(proc := a.proc.(pc := Scored, rows := a.proc.rows + [b.proc.rows[|b.proc.rows| - 1]]))
  }

  ghost predicate Account(a: Local, b: Local) {
    && a.proc.pc == Scored && a.proc.ledger != [] && a.proc.rows != []
    && b == a.(proc := a.proc.(pc := Returned,
                 ledger := SetLast(a.proc.ledger, Completed(a.proc.rows[|a.proc.rows| - 1].spend))))
  }

  ghost predicate SaveLedger(a: Local, b: Local) {
    a.proc.pc == Returned && b == Local(a.disk.(ledger := a.proc.ledger), a.proc.(pc := LedgerSaved))
  }

  ghost predicate SaveEpisodes(a: Local, b: Local) {
    a.proc.pc == LedgerSaved && b == Local(a.disk.(episodes := a.proc.rows), a.proc.(pc := EpisodesSaved))
  }

  ghost predicate Advance(a: Local, b: Local) {
    a.proc.pc == EpisodesSaved && b == a.(proc := a.proc.(pc := ArmTop, arm := a.proc.arm + 1))
  }

  ghost predicate Distrust(a: Local, b: Local) {
    a.proc.pc == EpisodesSaved && b == a.(proc := a.proc.(pc := Finishing, status := Unverified))
  }

  /** An exception anywhere in the loops. */
  ghost predicate Raise(a: Local, b: Local) {
    a.proc.pc != Finishing && b == a.(proc := a.proc.(pc := Finishing, status := Interrupted))
  }

  ghost predicate Step(study: Study, a: Local, b: Local) {
    || BeginPair(study, a, b) || Stop(a, b) || EndOfOrder(a, b) || EndOfPair(a, b) || Reserve(study, a, b)
    || SaveReservation(a, b) || Decline(a, b) || SaveDecline(a, b) || Dispatch(a, b) || Score(study, a, b)
    || Account(a, b) || SaveLedger(a, b) || SaveEpisodes(a, b) || Advance(a, b) || Distrust(a, b) || Raise(a, b)
  }

  /** The finally block: late identity checks may replace the status; the summary is the last write. */
  ghost predicate Finish(a: Local, after: Disk) {
    && a.proc.pc == Finishing
    && exists status :: (status == a.proc.status || status == IdentityChanged || status == PointerChanged)
                        && after == a.disk.(summary := Some(Report(a.proc, status)))
  }

  // ----- what every reachable state satisfies -----

  function CasesOf(order: seq<Slot>): (r: seq<Case>)
    ensures |r| == |order| && forall i | 0 <= i < |r| :: r[i] == order[i].case_
  {
    seq(|order|, i requires 0 <= i < |order| => order[i].case_)
  }

  ghost predicate OrderOk(study: Study, split: Split, order: seq<Slot>) {
    && |order| == |Cases(study, split)|
    && multiset(CasesOf(order)) == multiset(Cases(study, split))
    && (forall i | 0 <= i < |order| :: |order[i].arms| == 4 && multiset(order[i].arms) == multiset(ARMS))
    && (forall i, j | 0 <= i < j < |order| :: order[i].case_.id != order[j].case_.id)
  }

  ghost predicate Armed(order: seq<Slot>) {
    forall i | 0 <= i < |order| :: |order[i].arms| == 4
  }

  /** The n-th (case, arm) of the schedule. */
  function KeyAt(order: seq<Slot>, n: nat): Key
    requires n < 4 * |order| && Armed(order)
  {
    Key(order[n / 4].case_.id, order[n / 4].arms[n % 4])
  }

  ghost predicate Planned(study: Study, order: seq<Slot>, ledger: seq<Entry>) {
    && Armed(order) && |ledger| <= 4 * |order|
    && forall i | 0 <= i < |ledger| ::
         EntryKey(ledger[i]) == KeyAt(order, i) && ledger[i].reserved == Reservation(study, ledger[i].arm)
         && ledger[i].cohort == order[i / 4].case_.cohort
  }

  ghost predicate Matching(ledger: seq<Entry>, rows: seq<Row>) {
    && |rows| <= |ledger|
    && forall i | 0 <= i < |rows| ::
         ledger[i].state == Completed(rows[i].spend) && EntryKey(ledger[i]) == RowKey(rows[i])
  }

  /** The calls made are the ledger's entries, except perhaps its last one. */
  ghost predicate WrittenAhead(ledger: seq<Entry>, dispatched: seq<Key>) {
    && |dispatched| <= |ledger| <= |dispatched| + 1
    && (forall i | 0 <= i < |dispatched| :: dispatched[i] == EntryKey(ledger[i]) && ledger[i].state != NotDispatched)
    && (forall i | |dispatched| <= i < |ledger| :: !ledger[i].state.Completed?)
  }

  ghost predicate Honest(d: Disk, s: Summary) {
    && (s.completePairs <==> s.status == Complete)
    && (s.status == Complete ==> s.unreconciled == [] && |d.ledger| == |d.episodes| == 4 * |d.plan|)
  }

  ghost predicate DiskOk(study: Study, split: Split, d: Disk) {
    && (!d.made ==> d == EMPTY)
    && (d.made ==>
          && OrderOk(study, split, d.plan) && Planned(study, d.plan, d.ledger)
          && Matching(d.ledger, d.episodes) && |d.ledger| <= |d.episodes| + 1
          && WrittenAhead(d.ledger, d.dispatched)
          && Within(Charged(d.ledger), study.limits)
          && (d.summary.Some? ==> Honest(d, d.summary.value)))
  }

  /** Rows and the reservations still to come in this pair fit the limits. */
  ghost predicate Funded(study: Study, p: Proc, from: nat) {
    && p.slot < |p.order| && from <= |p.order[p.slot].arms|
    && Within(Plus(Spent(p.rows), ReserveOf(study, p.order[p.slot].arms[from..])), study.limits)
  }

  ghost predicate Synced(l: Local, n: nat) {
    && l.proc.ledger == l.disk.ledger && l.proc.rows == l.disk.episodes
    && |l.proc.ledger| == |l.proc.rows| == |l.disk.dispatched| == n
  }

  /** A reservation stands at position n, on disk and in memory. */
  ghost predicate Standing(l: Local, n: nat) {
    && l.proc.ledger == l.disk.ledger && |l.proc.ledger| == n + 1 && l.proc.ledger[n].state == Reserved
    && |l.disk.episodes| == n
  }

  ghost predicate NewRow(study: Study, l: Local, n: nat) {
    && CurrentArm(l.proc) && |l.disk.episodes| == n && |l.proc.rows| == n + 1 && l.proc.rows[..n] == l.disk.episodes
    && ValidRow(study, l.proc.order[l.proc.slot], l.proc.order[l.proc.slot].arms[l.proc.arm], l.proc.rows[n])
    && Within(Plus(Spent(l.proc.rows), ReserveOf(study, l.proc.order[l.proc.slot].arms[l.proc.arm + 1..])),
              study.limits)
  }

  /** Every call made has a row in memory or an entry that is still open. */
  ghost predicate Accounted(l: Local) {
    && |l.disk.dispatched| <= |l.proc.ledger|
    && forall i | 0 <= i < |l.disk.dispatched| ::
         && EntryKey(l.proc.ledger[i]) == l.disk.dispatched[i]
         && (l.proc.ledger[i].state == Reserved
             || (i < |l.proc.rows| && RowKey(l.proc.rows[i]) == l.disk.dispatched[i]))
  }

  ghost predicate MemoryOk(study: Study, l: Local) {
    var p, d := l.proc, l.disk;
    var n := 4 * p.slot + p.arm;
    match p.pc
    case PairTop => p.status == Complete && p.slot <= |p.order| && p.arm == 0 && Synced(l, n)
    case ArmTop => p.status == Complete && Funded(study, p, p.arm) && Synced(l, n)
    case Appended =>
      && p.status == Complete && CurrentArm(p) && Funded(study, p, p.arm)
      && |p.ledger| == n + 1 && p.ledger[..n] == d.ledger && p.rows == d.episodes && |p.rows| == |d.dispatched| == n
      && p.ledger[n] == NewEntry(study, p.order[p.slot], p.order[p.slot].arms[p.arm])
    case Saved =>
      && p.status == Complete && CurrentArm(p) && Funded(study, p, p.arm) && Standing(l, n)
      && p.rows == d.episodes && |d.dispatched| == n
    case Declined =>
      && IsStop(p.status) && |d.ledger| == n + 1 && d.ledger[n].state == Reserved
      && p.ledger == SetLast(d.ledger, NotDispatched) && p.rows == d.episodes && |d.dispatched| == |d.episodes| == n
    case InFlight =>
      && p.status == Complete && CurrentArm(p) && Funded(study, p, p.arm) && Standing(l, n)
      && p.rows == d.episodes && |d.dispatched| == n + 1
    case Scored => p.status == Complete && NewRow(study, l, n) && Standing(l, n) && |d.dispatched| == n + 1
    case Returned =>
      && p.status == Complete && NewRow(study, l, n) && |d.ledger| == n + 1 && d.ledger[n].state == Reserved
      && p.ledger == SetLast(d.ledger, Completed(p.rows[n].spend)) && |d.dispatched| == n + 1
    case LedgerSaved =>
      && p.status == Complete && NewRow(study, l, n) && p.ledger == d.ledger && |d.ledger| == n + 1
      && d.ledger[n].state == Completed(p.rows[n].spend) && |d.dispatched| == n + 1
    case EpisodesSaved =>
      && p.status == Complete && CurrentArm(p) && Funded(study, p, p.arm + 1) && Synced(l, n + 1)
    case Finishing => (p.status == Complete ==> p.slot == |p.order| && Synced(l, 4 * |p.order|)) && Accounted(l)
  }

  ghost predicate LocalOk(study: Study, l: Local) {
    && DiskOk(study, l.proc.split, l.disk) && l.disk.made && l.disk.summary == None && l.proc.order == l.disk.plan
    && MemoryOk(study, l)
  }

  // ----- sums -----

  lemma {:induction false} ChargedIsSpent(ledger: seq<Entry>, rows: seq<Row>)
    requires Matching(ledger, rows) && |ledger| == |rows|
    ensures Charged(ledger) == Spent(rows)
  {
    if ledger != [] { ChargedIsSpent(ledger[..|ledger| - 1], rows[..|rows| - 1]); }
  }

  lemma {:induction false} ReserveNonNegative(study: Study, arms: seq<Arm>)
    requires WellFormed(study)
    ensures ReserveOf(study, arms).usd >= 0.0
  {
    if arms != [] { ReserveNonNegative(study, arms[1..]); }
  }

  lemma {:induction false} ReserveOfRemoved(study: Study, arms: seq<Arm>, i: nat)
    requires i < |arms|
    ensures ReserveOf(study, arms) == Plus(Reservation(study, arms[i]), ReserveOf(study, arms[..i] + arms[i + 1..]))
  {
    if i == 0 {
      assert arms[..0] + arms[1..] == arms[1..];
    } else {
      var rest := arms[..i] + arms[i + 1..];
      assert rest[0] == arms[0] && rest[1..] == arms[1..][..i - 1] + arms[1..][i..];
      ReserveOfRemoved(study, arms[1..], i - 1);
    }
  }

  /** Any permutation of the arms reserves the same total: this is why one check covers the pair. */
  lemma {:induction false} ReserveOfPermutation(study: Study, a: seq<Arm>, b: seq<Arm>)
    requires multiset(a) == multiset(b)
    ensures ReserveOf(study, a) == ReserveOf(study, b)
    decreases |a|
  {
    SameElements(a, b);
    hide ReserveOf, Plus, Reservation;
    if a == [] {
      assert b == [];
    } else {
      assert a[0] in a && a[0] in b;
      var i :| 0 <= i < |b| && b[i] == a[0];
      RemovedMultiset(a, 0);
      RemovedMultiset(b, i);
      ReserveOfRemoved(study, a, 0);
      ReserveOfRemoved(study, b, i);
      ReserveOfPermutation(study, a[..0] + a[1..], b[..i] + b[i + 1..]);
    }
  }

  lemma {:induction false} SuffixReserve(study: Study, arms: seq<Arm>, k: nat)
    requires k < |arms|
    ensures ReserveOf(study, arms[k..]) == Plus(Reservation(study, arms[k]), ReserveOf(study, arms[k + 1..]))
  {
    assert arms[k..][1..] == arms[k + 1..];
  }

  lemma {:induction false} Position(slot: nat, arm: nat)
    requires arm < 4
    ensures (4 * slot + arm) / 4 == slot && (4 * slot + arm) % 4 == arm
  {
  }
}
