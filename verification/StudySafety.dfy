/** Safety of the frozen study over every history of runs, crashes included. */
module StudySafety {
  import opened Schedule
  import opened StudyMachine
  import opened StudyTypes
  import opened Wrappers

  // ----- every step keeps the invariant -----

  lemma {:induction false} BeginPairKeeps(study: Study, a: Local, b: Local)
    requires WellFormed(study) && LocalOk(study, a) && BeginPair(study, a, b)
    ensures LocalOk(study, b)
  {
    var arms := a.proc.order[a.proc.slot].arms;
    ReserveOfPermutation(study, arms, ARMS);
    assert arms[0..] == arms;
  }

  lemma {:induction false} StopKeeps(study: Study, a: Local, b: Local)
    requires LocalOk(study, a) && (Stop(a, b) || EndOfOrder(a, b) || EndOfPair(a, b) || Raise(a, b) || Distrust(a, b))
    ensures LocalOk(study, b)
  {
    if EndOfPair(a, b) {
      PairKeeps(study, a, b);
    } else if EndOfOrder(a, b) {
      OrderKeeps(study, a, b);
    } else {
      hide DiskOk, Accounted, MemoryOk;
      if a.proc.pc == Finishing { FinishingIsAccounted(study, a); } else { CallsAccounted(study, a); }
      AccountedStays(a, b);
      AbandonedMemory(study, b);
    }
  }

  lemma {:induction false} FinishingIsAccounted(study: Study, l: Local)
    requires MemoryOk(study, l) && l.proc.pc == Finishing
    ensures Accounted(l)
  {
    hide Accounted;
  }

  lemma {:induction false} AbandonedMemory(study: Study, l: Local)
    requires l.proc.pc == Finishing && l.proc.status != Complete && Accounted(l)
    ensures MemoryOk(study, l)
  {
    hide Accounted;
  }

  lemma {:induction false} OrderKeeps(study: Study, a: Local, b: Local)
    requires LocalOk(study, a) && EndOfOrder(a, b)
    ensures LocalOk(study, b)
  {
    hide DiskOk, Accounted;
    CallsAccounted(study, a);
    AccountedStays(a, b);
  }

  lemma {:induction false} PairKeeps(study: Study, a: Local, b: Local)
    requires LocalOk(study, a) && EndOfPair(a, b)
    ensures LocalOk(study, b)
  {
  }

  lemma {:induction false} AccountedStays(a: Local, b: Local)
    requires Accounted(a) && b.disk.dispatched == a.disk.dispatched
    requires b.proc.ledger == a.proc.ledger && b.proc.rows == a.proc.rows
    ensures Accounted(b)
  {
  }

  /** Memory follows the disk entry by entry, except for the call under way. */
  ghost predicate Follows(l: Local, n: nat) {
    && |l.disk.episodes| == n <= |l.proc.rows| && l.proc.rows[..n] == l.disk.episodes
    && n <= |l.disk.ledger| && n <= |l.proc.ledger| && l.proc.ledger[..n] == l.disk.ledger[..n]
  }

  lemma {:induction false} MemoryFollows(study: Study, l: Local)
    requires LocalOk(study, l) && l.proc.pc != Finishing
    ensures var n := |l.disk.episodes|;
            && Follows(l, n) && n <= |l.disk.dispatched| <= n + 1
            && (|l.disk.dispatched| == n + 1 ==>
                  && n == 4 * l.proc.slot + l.proc.arm && |l.proc.ledger| == |l.disk.ledger| == n + 1
                  && EntryKey(l.proc.ledger[n]) == EntryKey(l.disk.ledger[n])
                  && (l.proc.ledger[n].state == Reserved || NewRow(study, l, n)))
  {
    hide DiskOk, ValidRow, Within, Spent, ReserveOf;
    var p, d := l.proc, l.disk;
    var n := if p.pc == EpisodesSaved then 4 * p.slot + p.arm + 1 else 4 * p.slot + p.arm;
    assert |p.rows| == n ==> p.rows[..n] == p.rows;
    assert |p.ledger| == n ==> p.ledger[..n] == p.ledger;
    assert |d.ledger| == n ==> d.ledger[..n] == d.ledger;
    assert p.pc == Declined || p.pc == Returned ==> p.ledger[..n] == d.ledger[..n];
  }

  lemma {:induction false} CallsAccounted(study: Study, l: Local)
    requires LocalOk(study, l) && l.proc.pc != Finishing
    ensures Accounted(l)
  {
    var p, d := l.proc, l.disk;
    var n := |d.episodes|;
    hide LocalOk, Planned, Matching, WrittenAhead, NewRow, Follows;
    DiskFacts(study, l);
    MemoryFollows(study, l);
    FollowsLengths(l, n);
    forall i | 0 <= i < |d.dispatched|
      ensures EntryKey(p.ledger[i]) == d.dispatched[i]
      ensures p.ledger[i].state == Reserved || (i < |p.rows| && RowKey(p.rows[i]) == d.dispatched[i])
    {
      if i < n { EarlierAccounted(l, n, i); } else { LastAccounted(study, l, n); }
    }
  }

  lemma {:induction false} FollowsLengths(l: Local, n: nat)
    requires Follows(l, n)
    ensures n <= |l.proc.rows| && n <= |l.proc.ledger| && n <= |l.disk.ledger|
  {
  }

  lemma {:induction false} LastAccounted(study: Study, l: Local, n: nat)
    requires n == 4 * l.proc.slot + l.proc.arm && l.proc.order == l.disk.plan
    requires Planned(study, l.disk.plan, l.disk.ledger) && WrittenAhead(l.disk.ledger, l.disk.dispatched)
    requires |l.proc.ledger| == |l.disk.ledger| == |l.disk.dispatched| == n + 1
    requires EntryKey(l.proc.ledger[n]) == EntryKey(l.disk.ledger[n])
    requires l.proc.ledger[n].state == Reserved || NewRow(study, l, n)
    ensures EntryKey(l.proc.ledger[n]) == l.disk.dispatched[n]
    ensures l.proc.ledger[n].state == Reserved
            || (n < |l.proc.rows| && RowKey(l.proc.rows[n]) == l.disk.dispatched[n])
  {
    hide Planned, NewRow;
    if l.proc.ledger[n].state != Reserved { NewRowKey(study, l, n); }
  }

  lemma {:induction false} EarlierAccounted(l: Local, n: nat, i: nat)
    requires Follows(l, n) && i < n && i < |l.disk.dispatched|
    requires WrittenAhead(l.disk.ledger, l.disk.dispatched) && Matching(l.disk.ledger, l.disk.episodes)
    ensures EntryKey(l.proc.ledger[i]) == l.disk.dispatched[i] && RowKey(l.proc.rows[i]) == l.disk.dispatched[i]
  {
    assert l.proc.ledger[i] == l.proc.ledger[..n][i] == l.disk.ledger[i];
    assert l.proc.rows[i] == l.proc.rows[..n][i] == l.disk.episodes[i];
  }

  lemma {:induction false} DiskFacts(study: Study, l: Local)
    requires LocalOk(study, l)
    ensures WrittenAhead(l.disk.ledger, l.disk.dispatched) && Matching(l.disk.ledger, l.disk.episodes)
    ensures Planned(study, l.disk.plan, l.disk.ledger) && l.proc.order == l.disk.plan
  {
    hide MemoryOk, OrderOk, Planned, Matching, WrittenAhead, Within;
  }

  lemma {:induction false} NewRowKey(study: Study, l: Local, n: nat)
    requires NewRow(study, l, n) && n == 4 * l.proc.slot + l.proc.arm && l.proc.order == l.disk.plan
    requires Planned(study, l.disk.plan, l.disk.ledger) && n < |l.disk.ledger|
    ensures |l.proc.rows| == n + 1 && RowKey(l.proc.rows[n]) == EntryKey(l.disk.ledger[n])
  {
    Position(l.proc.slot, l.proc.arm);
    assert EntryKey(l.disk.ledger[n]) == KeyAt(l.disk.plan, n);
  }

  lemma {:induction false} ReserveKeeps(study: Study, a: Local, b: Local)
    requires LocalOk(study, a) && Reserve(study, a, b)
    ensures LocalOk(study, b)
  {
    hide DiskOk;
    var n := 4 * a.proc.slot + a.proc.arm;
    assert b.proc.ledger[..n] == a.proc.ledger;
  }

  lemma {:induction false} ChargedSnoc(ledger: seq<Entry>, n: nat)
    requires |ledger| == n + 1
    ensures Charged(ledger) == Plus(Charged(ledger[..n]), Charge(ledger[n]))
  {
  }

  lemma {:induction false} AppendPlanned(study: Study, order: seq<Slot>, ledger: seq<Entry>, e: Entry)
    requires Planned(study, order, ledger) && |ledger| < 4 * |order|
    requires EntryKey(e) == KeyAt(order, |ledger|) && e.reserved == Reservation(study, e.arm)
    requires e.cohort == order[|ledger| / 4].case_.cohort
    ensures Planned(study, order, ledger + [e])
  {
  }

  lemma {:induction false} AppendReserved(ledger: seq<Entry>, rows: seq<Row>, dispatched: seq<Key>, e: Entry)
    requires Matching(ledger, rows) && WrittenAhead(ledger, dispatched)
    requires |dispatched| == |ledger| && e.state == Reserved
    ensures Matching(ledger + [e], rows) && WrittenAhead(ledger + [e], dispatched)
    ensures Charged(ledger + [e]) == Plus(Charged(ledger), e.reserved)
  {
    assert (ledger + [e])[..|ledger|] == ledger;
  }

  /** A reservation that was funded with the rest of its pair fits the limits on its own. */
  lemma {:induction false} FundedReservation(study: Study, spent: Spend, arms: seq<Arm>, k: nat)
    requires WellFormed(study) && k < |arms|
    requires Within(Plus(spent, ReserveOf(study, arms[k..])), study.limits)
    ensures Within(Plus(spent, Reservation(study, arms[k])), study.limits)
  {
    SuffixReserve(study, arms, k);
    ReserveNonNegative(study, arms[k + 1..]);
  }

  /** What the route accounts for never eats into the reservations still to come. */
  lemma {:induction false} FundedRow(study: Study, spent: Spend, actual: Spend, arms: seq<Arm>, k: nat)
    requires k < |arms| && Within(actual, Reservation(study, arms[k]))
    requires Within(Plus(spent, ReserveOf(study, arms[k..])), study.limits)
    ensures Within(Plus(Plus(spent, actual), ReserveOf(study, arms[k + 1..])), study.limits)
  {
    SuffixReserve(study, arms, k);
  }

  lemma {:induction false} SaveReservationKeeps(study: Study, a: Local, b: Local)
    requires WellFormed(study) && LocalOk(study, a) && SaveReservation(a, b)
    ensures LocalOk(study, b)
  {
    hide DiskOk, MemoryOk;
    SaveReservationDisk(study, a, b);
    SaveReservationMemory(study, a, b);
  }

  lemma {:induction false} SaveReservationMemory(study: Study, a: Local, b: Local)
    requires LocalOk(study, a) && SaveReservation(a, b)
    ensures MemoryOk(study, b)
  {
    hide Within, Spent, ReserveOf, DiskOk;
  }

  /** The reservation just appended in memory, before it is on disk. */
  ghost predicate ReservationAppended(study: Study, l: Local) {
    var p, d := l.proc, l.disk;
    var n := 4 * p.slot + p.arm;
    && CurrentArm(p) && Funded(study, p, p.arm) && p.rows == d.episodes
    && |d.ledger| == |d.episodes| == |d.dispatched| == n && |p.ledger| == n + 1 && p.ledger == d.ledger + [p.ledger[n]]
    && p.ledger[n] == NewEntry(study, p.order[p.slot], p.order[p.slot].arms[p.arm])
    && d.made && d.summary == None && p.order == d.plan && DiskOk(study, p.split, d)
  }

  lemma {:induction false} AppendedFacts(study: Study, a: Local)
    requires LocalOk(study, a) && a.proc.pc == Appended
    ensures ReservationAppended(study, a)
  {
    hide DiskOk, Within, Spent, ReserveOf;
    var n := 4 * a.proc.slot + a.proc.arm;
    assert a.proc.ledger == a.proc.ledger[..n] + [a.proc.ledger[n]];
  }

  lemma {:induction false} SaveReservationDisk(study: Study, a: Local, b: Local)
    requires WellFormed(study) && LocalOk(study, a) && SaveReservation(a, b)
    ensures DiskOk(study, b.proc.split, b.disk)
  {
    AppendedFacts(study, a);
    var p, d := a.proc, a.disk;
    var n := 4 * p.slot + p.arm;
    Position(p.slot, p.arm);
    hide LocalOk, WellFormed, Honest, OrderOk;
    AppendPlanned(study, d.plan, d.ledger, p.ledger[n]);
    hide Planned;
    AppendReserved(d.ledger, d.episodes, d.dispatched, p.ledger[n]);
    ChargedIsSpent(d.ledger, d.episodes);
    hide Matching, WrittenAhead;
    FundedReservation(study, Spent(p.rows), p.order[p.slot].arms, p.arm);
    hide Within;
  }

  lemma {:induction false} DeclineKeeps(study: Study, a: Local, b: Local)
    requires LocalOk(study, a) && Decline(a, b)
    ensures LocalOk(study, b)
  {
    hide DiskOk;
  }

  /** Changing only the state of the last entry keeps the plan. */
  lemma {:induction false} SetLastPlanned(study: Study, order: seq<Slot>, ledger: seq<Entry>, state: EntryState)
    requires ledger != [] && Planned(study, order, ledger)
    ensures Planned(study, order, SetLast(ledger, state))
    ensures SetLast(ledger, state)[..|ledger| - 1] == ledger[..|ledger| - 1]
  {
  }

  lemma {:induction false} DeclineLast(study: Study, order: seq<Slot>, ledger: seq<Entry>, rows: seq<Row>,
                                       dispatched: seq<Key>)
    requires WellFormed(study)
    requires Planned(study, order, ledger) && Matching(ledger, rows) && WrittenAhead(ledger, dispatched)
    requires |ledger| == |dispatched| + 1 == |rows| + 1 && ledger[|rows|].state == Reserved
    requires Within(Charged(ledger), study.limits)
    ensures var after := SetLast(ledger, NotDispatched);
            && Planned(study, order, after) && Matching(after, rows) && WrittenAhead(after, dispatched)
            && Within(Charged(after), study.limits)
  {
    SetLastPlanned(study, order, ledger, NotDispatched);
    DeclineCharge(study, order, ledger);
    hide Planned, Charged, Within;
  }

  lemma {:induction false} DeclineCharge(study: Study, order: seq<Slot>, ledger: seq<Entry>)
    requires WellFormed(study) && Planned(study, order, ledger) && ledger != []
             && ledger[|ledger| - 1].state == Reserved
    requires Within(Charged(ledger), study.limits)
    ensures Within(Charged(SetLast(ledger, NotDispatched)), study.limits)
  {
    var n := |ledger| - 1;
    ChargedSnoc(ledger, n);
    ChargedSnoc(SetLast(ledger, NotDispatched), n);
    assert ledger[n].reserved == Reservation(study, ledger[n].arm);
    hide Planned, Charged;
  }

  lemma {:induction false} SaveDeclineKeeps(study: Study, a: Local, b: Local)
    requires WellFormed(study) && LocalOk(study, a) && SaveDecline(a, b)
    ensures LocalOk(study, b)
  {
    hide OrderOk, Planned, Matching, Charged, Within, Honest, WellFormed, ValidRow, ReserveOf, Spent;
    var d := a.disk;
    assert |d.ledger| == |d.dispatched| + 1 == |d.episodes| + 1;
    DeclineLast(study, d.plan, d.ledger, d.episodes, d.dispatched);
    hide WrittenAhead;
    ReplaceLedger(study, a.proc.split, d, a.proc.ledger);
    CallsAccounted(study, a);
    AccountedStays(a, b);
  }

  lemma {:induction false} AppendDispatched(ledger: seq<Entry>, dispatched: seq<Key>, key: Key)
    requires WrittenAhead(ledger, dispatched) && |ledger| == |dispatched| + 1
    requires ledger[|dispatched|].state == Reserved && key == EntryKey(ledger[|dispatched|])
    ensures WrittenAhead(ledger, dispatched + [key])
  {
  }

  lemma {:induction false} ReplaceDispatched(study: Study, split: Split, d: Disk, dispatched: seq<Key>)
    requires DiskOk(study, split, d) && d.made && WrittenAhead(d.ledger, dispatched)
    ensures DiskOk(study, split, d.(dispatched := dispatched))
  {
  }

  lemma {:induction false} StandingKey(study: Study, l: Local)
    requires LocalOk(study, l) && l.proc.pc == Saved
    ensures CurrentArm(l.proc) && |l.disk.ledger| == |l.disk.dispatched| + 1
    ensures WrittenAhead(l.disk.ledger, l.disk.dispatched)
    ensures var e := l.disk.ledger[|l.disk.dispatched|];
            e.state == Reserved
            && EntryKey(e) == Key(l.proc.order[l.proc.slot].case_.id, l.proc.order[l.proc.slot].arms[l.proc.arm])
  {
    var n := 4 * l.proc.slot + l.proc.arm;
    Position(l.proc.slot, l.proc.arm);
    assert EntryKey(l.disk.ledger[n]) == KeyAt(l.disk.plan, n);
  }

  lemma {:induction false} DispatchMemory(study: Study, a: Local, b: Local)
    requires MemoryOk(study, a) && Dispatch(a, b)
    ensures MemoryOk(study, b)
  {
  }

  lemma {:induction false} DispatchKeeps(study: Study, a: Local, b: Local)
    requires LocalOk(study, a) && Dispatch(a, b)
    ensures LocalOk(study, b)
  {
    hide DiskOk, MemoryOk, WrittenAhead;
    StandingKey(study, a);
    var key := EntryKey(a.disk.ledger[|a.disk.dispatched|]);
    AppendDispatched(a.disk.ledger, a.disk.dispatched, key);
    ReplaceDispatched(study, a.proc.split, a.disk, a.disk.dispatched + [key]);
    DispatchMemory(study, a, b);
  }

  lemma {:induction false} ScoreKeeps(study: Study, a: Local, b: Local)
    requires LocalOk(study, a) && Score(study, a, b)
    ensures LocalOk(study, b)
  {
    hide DiskOk;
    var n := 4 * a.proc.slot + a.proc.arm;
    var row := b.proc.rows[n];
    assert b.proc.rows[..n] == a.proc.rows;
    assert Spent(b.proc.rows) == Plus(Spent(a.proc.rows), row.spend);
    FundedRow(study, Spent(a.proc.rows), row.spend, a.proc.order[a.proc.slot].arms, a.proc.arm);
    assert NewRow(study, b, n);
  }

  lemma {:induction false} AccountKeeps(study: Study, a: Local, b: Local)
    requires LocalOk(study, a) && Account(a, b)
    ensures LocalOk(study, b)
  {
    hide DiskOk;
  }

  lemma {:induction false} CompleteLast(study: Study, order: seq<Slot>, ledger: seq<Entry>, rows: seq<Row>,
                                        dispatched: seq<Key>, actual: Spend)
    requires Planned(study, order, ledger) && Matching(ledger, rows) && WrittenAhead(ledger, dispatched)
    requires |ledger| == |dispatched| == |rows| + 1
    ensures var after := SetLast(ledger, Completed(actual));
            && Planned(study, order, after) && Matching(after, rows) && WrittenAhead(after, dispatched)
            && Charged(after) == Plus(Spent(rows), actual)
  {
    var n := |rows|;
    var after := SetLast(ledger, Completed(actual));
    SetLastPlanned(study, order, ledger, Completed(actual));
    ChargedSnoc(after, n);
    assert Matching(after[..n], rows);
    ChargedIsSpent(after[..n], rows);
  }

  lemma {:induction false} RowsFit(study: Study, episodes: seq<Row>, rows: seq<Row>, arms: seq<Arm>)
    requires WellFormed(study) && rows != [] && rows[..|rows| - 1] == episodes
    requires Within(Plus(Spent(rows), ReserveOf(study, arms)), study.limits)
    ensures Within(Plus(Spent(episodes), rows[|rows| - 1].spend), study.limits)
  {
    ReserveNonNegative(study, arms);
  }

  lemma {:induction false} ReturnedFacts(study: Study, l: Local)
    requires LocalOk(study, l) && l.proc.pc == Returned
    ensures var p, d := l.proc, l.disk;
            && CurrentArm(p) && p.rows != [] && p.rows[..|p.rows| - 1] == d.episodes
            && |d.ledger| == |d.dispatched| == |d.episodes| + 1
            && p.ledger == SetLast(d.ledger, Completed(p.rows[|p.rows| - 1].spend))
            && Planned(study, d.plan, d.ledger) && Matching(d.ledger, d.episodes)
              && WrittenAhead(d.ledger, d.dispatched)
            && Within(Plus(Spent(p.rows), ReserveOf(study, p.order[p.slot].arms[p.arm + 1..])), study.limits)
  {
    hide OrderOk, Planned, Matching, WrittenAhead;
  }

  /** Once completed on disk, the ledger is charged what was accounted. */
  lemma {:induction false} CompletedFits(study: Study, l: Local)
    requires WellFormed(study) && LocalOk(study, l) && l.proc.pc == Returned
    ensures Within(Charged(l.proc.ledger), study.limits)
    ensures Planned(study, l.disk.plan, l.proc.ledger) && Matching(l.proc.ledger, l.disk.episodes)
    ensures WrittenAhead(l.proc.ledger, l.disk.dispatched) && |l.proc.ledger| <= |l.disk.episodes| + 1
  {
    hide LocalOk, Planned, Matching, WrittenAhead, WellFormed;
    var p, d := l.proc, l.disk;
    ReturnedFacts(study, l);
    RowsFit(study, d.episodes, p.rows, p.order[p.slot].arms[p.arm + 1..]);
    CompleteLast(study, d.plan, d.ledger, d.episodes, d.dispatched, p.rows[|p.rows| - 1].spend);
  }

  lemma {:induction false} ReplaceLedger(study: Study, split: Split, d: Disk, ledger: seq<Entry>)
    requires DiskOk(study, split, d) && d.made && d.summary == None
    requires Planned(study, d.plan, ledger) && Matching(ledger, d.episodes) && |ledger| <= |d.episodes| + 1
    requires WrittenAhead(ledger, d.dispatched) && Within(Charged(ledger), study.limits)
    ensures DiskOk(study, split, d.(ledger := ledger))
  {
  }

  lemma {:induction false} SaveLedgerDisk(study: Study, a: Local, b: Local)
    requires WellFormed(study) && LocalOk(study, a) && SaveLedger(a, b)
    ensures DiskOk(study, b.proc.split, b.disk)
  {
    hide DiskOk, MemoryOk, Planned, Matching, WrittenAhead, Within, Charged, WellFormed;
    CompletedFits(study, a);
    ReplaceLedger(study, a.proc.split, a.disk, a.proc.ledger);
  }

  lemma {:induction false} SaveLedgerMemory(study: Study, a: Local, b: Local)
    requires a.proc.pc == Returned && a.disk.ledger != [] && MemoryOk(study, a) && SaveLedger(a, b)
    ensures MemoryOk(study, b)
  {
    var n := 4 * a.proc.slot + a.proc.arm;
    assert NewRow(study, b, n);
  }

  lemma {:induction false} ReturnedEntry(study: Study, l: Local)
    requires LocalOk(study, l) && l.proc.pc == Returned
    ensures l.disk.ledger != []
  {
    hide DiskOk;
  }

  lemma {:induction false} SaveLedgerKeeps(study: Study, a: Local, b: Local)
    requires WellFormed(study) && LocalOk(study, a) && SaveLedger(a, b)
    ensures LocalOk(study, b)
  {
    hide DiskOk, MemoryOk;
    assert a.disk.ledger != [] by { ReturnedEntry(study, a); }
    SaveLedgerDisk(study, a, b);
    SaveLedgerMemory(study, a, b);
  }

  lemma {:induction false} AppendMatching(ledger: seq<Entry>, rows: seq<Row>, row: Row)
    requires Matching(ledger, rows) && |ledger| == |rows| + 1
    requires ledger[|rows|].state == Completed(row.spend) && EntryKey(ledger[|rows|]) == RowKey(row)
    ensures Matching(ledger, rows + [row])
  {
  }

  lemma {:induction false} ReplaceEpisodes(study: Study, split: Split, d: Disk, rows: seq<Row>)
    requires DiskOk(study, split, d) && d.made && d.summary == None
    requires Matching(d.ledger, rows) && |d.ledger| == |rows|
    ensures DiskOk(study, split, d.(episodes := rows))
  {
  }

  /** Disk and memory agree on the call just completed. */
  ghost predicate LedgerCommitted(study: Study, l: Local) {
    var p, d := l.proc, l.disk;
    var n := 4 * p.slot + p.arm;
    && NewRow(study, l, n) && |d.ledger| == n + 1 && Matching(d.ledger, d.episodes)
    && d.ledger[n].state == Completed(p.rows[n].spend)
    && EntryKey(d.ledger[n]) == Key(p.order[p.slot].case_.id, p.order[p.slot].arms[p.arm])
  }

  lemma {:induction false} SavedFacts(study: Study, l: Local)
    requires LocalOk(study, l) && l.proc.pc == LedgerSaved
    ensures LedgerCommitted(study, l)
  {
    hide Within, Charged, ValidRow, Spent, WrittenAhead, Honest;
    var n := 4 * l.proc.slot + l.proc.arm;
    Position(l.proc.slot, l.proc.arm);
    assert EntryKey(l.disk.ledger[n]) == KeyAt(l.disk.plan, n);
  }

  lemma {:induction false} SavedRow(study: Study, l: Local)
    requires LocalOk(study, l) && l.proc.pc == LedgerSaved
    ensures Matching(l.disk.ledger, l.proc.rows) && |l.disk.ledger| == |l.proc.rows|
  {
    hide LocalOk, Matching;
    SavedFacts(study, l);
    var n := 4 * l.proc.slot + l.proc.arm;
    assert l.proc.rows == l.disk.episodes + [l.proc.rows[n]];
    AppendMatching(l.disk.ledger, l.disk.episodes, l.proc.rows[n]);
  }

  lemma {:induction false} SaveEpisodesMemory(study: Study, a: Local, b: Local)
    requires a.proc.pc == LedgerSaved && MemoryOk(study, a) && SaveEpisodes(a, b)
    ensures MemoryOk(study, b)
  {
  }

  lemma {:induction false} SaveEpisodesKeeps(study: Study, a: Local, b: Local)
    requires LocalOk(study, a) && SaveEpisodes(a, b)
    ensures LocalOk(study, b)
  {
    hide DiskOk, MemoryOk;
    SavedRow(study, a);
    ReplaceEpisodes(study, a.proc.split, a.disk, a.proc.rows);
    SaveEpisodesMemory(study, a, b);
  }

  lemma {:induction false} AdvanceKeeps(study: Study, a: Local, b: Local)
    requires LocalOk(study, a) && Advance(a, b)
    ensures LocalOk(study, b)
  {
    hide DiskOk, MemoryOk;
    AdvanceMemory(study, a, b);
  }

  lemma {:induction false} AdvanceMemory(study: Study, a: Local, b: Local)
    requires a.proc.pc == EpisodesSaved && MemoryOk(study, a) && Advance(a, b)
    ensures MemoryOk(study, b)
  {
    hide Within, Spent, ReserveOf;
    assert 4 * b.proc.slot + b.proc.arm == 4 * a.proc.slot + a.proc.arm + 1;
    assert Funded(study, b.proc, b.proc.arm);
  }

  lemma {:induction false} StepKeeps(study: Study, a: Local, b: Local)
    requires WellFormed(study) && LocalOk(study, a) && Step(study, a, b)
    ensures LocalOk(study, b)
    ensures b.proc.split == a.proc.split
  {
    if
    case BeginPair(study, a, b) => BeginPairKeeps(study, a, b);
    case Stop(a, b) || EndOfOrder(a, b) || EndOfPair(a, b) || Raise(a, b) || Distrust(a, b) => StopKeeps(study, a, b);
    case Reserve(study, a, b) => ReserveKeeps(study, a, b);
    case SaveReservation(a, b) => SaveReservationKeeps(study, a, b);
    case Decline(a, b) => DeclineKeeps(study, a, b);
    case SaveDecline(a, b) => SaveDeclineKeeps(study, a, b);
    case Dispatch(a, b) => DispatchKeeps(study, a, b);
    case Score(study, a, b) => ScoreKeeps(study, a, b);
    case Account(a, b) => AccountKeeps(study, a, b);
    case SaveLedger(a, b) => SaveLedgerKeeps(study, a, b);
    case SaveEpisodes(a, b) => SaveEpisodesKeeps(study, a, b);
    case Advance(a, b) => AdvanceKeeps(study, a, b);
  }
}
