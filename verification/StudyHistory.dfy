/** Histories of the frozen study: any number of processes, interleaved, each of which may crash at any step. */
module StudyHistory {
  import opened Ordering
  import opened Schedule
  import opened StudyMachine
  import opened StudySafety
  import opened StudyTypes
  import opened Wrappers

  datatype World = World(sites: map<Split, Disk>, procs: map<nat, Proc>)

  datatype Action =
    | Start(pid: nat, split: Split, ordered: seq<Case>, arms: seq<Arm>)
    | Do(pid: nat, after: Local)
    | End(pid: nat, disk: Disk)
    | Crash(pid: nat)

  const FRESH := World(map[Development := EMPTY, Heldout := EMPTY], map[])

  ghost predicate TypeOk(w: World) {
    && (forall split: Split :: split in w.sites)
  }

  /** `mkdir` refuses an existing directory; the held-out split also refuses incomplete development evidence. */
  ghost predicate MayStart(study: Study, w: World, split: Split, ordered: seq<Case>, arms: seq<Arm>)
    requires TypeOk(w)
  {
    && !w.sites[split].made
    && (split == Heldout && w.sites[Development].made ==>
          w.sites[Development].summary.Some? && w.sites[Development].summary.value.status == Complete)
    && multiset(ordered) == multiset(Cases(study, split)) && multiset(arms) == multiset(ARMS) && |arms| == 4
  }

  function Begun(plan: seq<Slot>): Disk {
    EMPTY.(made := true, plan := plan)
  }

  function Fresh(split: Split, plan: seq<Slot>): Proc {
    Proc(split, plan, 0, 0, [], [], Complete, PairTop)
  }

  ghost predicate Act(study: Study, w: World, action: Action, w': World)
    requires TypeOk(w)
  {
    match action
    case Start(pid, split, ordered, arms) =>
      && pid !in w.procs && MayStart(study, w, split, ordered, arms)
      && w' == World(w.sites[split := Begun(Plan(ordered, arms))], w.procs[pid := Fresh(split, Plan(ordered, arms))])
    case Do(pid, after) =>
      && pid in w.procs && Step(study, Local(w.sites[w.procs[pid].split], w.procs[pid]), after)
      && w' == World(w.sites[w.procs[pid].split := after.disk], w.procs[pid := after.proc])
    case End(pid, disk) =>
      && pid in w.procs && Finish(Local(w.sites[w.procs[pid].split], w.procs[pid]), disk)
      && w' == World(w.sites[w.procs[pid].split := disk], w.procs - {pid})
    case Crash(pid) =>
      pid in w.procs && w' == w.(procs := w.procs - {pid})
  }

  ghost predicate History(study: Study, ws: seq<World>, actions: seq<Action>) {
    && |ws| == |actions| + 1 && ws[0] == FRESH
    && (forall i | 0 <= i < |ws| :: TypeOk(ws[i]))
    && (forall i | 0 <= i < |actions| :: Act(study, ws[i], actions[i], ws[i + 1]))
  }

  // ----- the invariant of the whole system -----

  ghost predicate WorldOk(study: Study, w: World) {
    TypeOk(w) && SitesOk(study, w) && ProcsOk(study, w) && Exclusive(w)
  }

  ghost predicate SitesOk(study: Study, w: World)
    requires TypeOk(w)
  {
    forall split: Split :: DiskOk(study, split, w.sites[split])
  }

  ghost predicate ProcOk(study: Study, w: World, pid: nat)
    requires TypeOk(w) && pid in w.procs
  {
    LocalOk(study, Local(w.sites[w.procs[pid].split], w.procs[pid]))
  }

  ghost predicate ProcsOk(study: Study, w: World)
    requires TypeOk(w)
  {
    forall pid | pid in w.procs :: ProcOk(study, w, pid)
  }

  /** At most one process works on a split. */
  ghost predicate Exclusive(w: World) {
    forall p, q | p in w.procs && q in w.procs && p != q :: w.procs[p].split != w.procs[q].split
  }

  lemma {:induction false} PlanOk(study: Study, split: Split, ordered: seq<Case>, arms: seq<Arm>)
    requires WellFormed(study)
    requires multiset(ordered) == multiset(Cases(study, split)) && multiset(arms) == multiset(ARMS) && |arms| == 4
    ensures OrderOk(study, split, Plan(ordered, arms))
  {
    hide Plan;
    var order := Plan(ordered, arms);
    PlanCases(ordered, arms);
    PlanArms(ordered, arms);
    assert CasesOf(order) == ordered;
    SameElements(ordered, Cases(study, split));
    forall i | 0 <= i < |order| ensures |order[i].arms| == 4 { FourArms(order[i].arms); }
    forall i, j | 0 <= i < j < |order| ensures ordered[i].id != ordered[j].id {
      IdsStayDistinct(Cases(study, split), ordered, i, j);
    }
  }

  lemma {:induction false} DistinctIds(cases: seq<Case>)
    requires forall i, j | 0 <= i < j < |cases| :: cases[i].id != cases[j].id
    ensures forall c, d | c in cases && d in cases && c.id == d.id :: c == d
    ensures Distinct(cases)
  {
  }

  lemma {:induction false} IdsStayDistinct(cases: seq<Case>, ordered: seq<Case>, i: nat, j: nat)
    requires multiset(ordered) == multiset(cases) && i < j < |ordered|
    requires forall k, l | 0 <= k < l < |cases| :: cases[k].id != cases[l].id
    ensures ordered[i].id != ordered[j].id
  {
    DistinctIds(cases);
    DistinctMultiset(cases);
    SameElements(ordered, cases);
    MultisetDistinct(ordered);
    assert ordered[i] in cases && ordered[j] in cases;
  }

  lemma {:induction false} BegunOk(study: Study, split: Split, plan: seq<Slot>)
    requires WellFormed(study) && OrderOk(study, split, plan)
    ensures LocalOk(study, Local(Begun(plan), Fresh(split, plan)))
  {
  }

  lemma {:induction false} StartKeeps(study: Study, split: Split, ordered: seq<Case>, arms: seq<Arm>)
    requires WellFormed(study)
    requires multiset(ordered) == multiset(Cases(study, split)) && multiset(arms) == multiset(ARMS) && |arms| == 4
    ensures LocalOk(study, Local(Begun(Plan(ordered, arms)), Fresh(split, Plan(ordered, arms))))
  {
    hide OrderOk, LocalOk, Plan;
    PlanOk(study, split, ordered, arms);
    BegunOk(study, split, Plan(ordered, arms));
  }

  lemma {:induction false} NothingUnreconciled(ledger: seq<Entry>, rows: seq<Row>)
    requires Matching(ledger, rows) && |ledger| == |rows|
    ensures Unreconciled(ledger) == []
  {
    if ledger != [] { NothingUnreconciled(ledger[..|ledger| - 1], rows[..|rows| - 1]); }
  }

  lemma {:induction false} FinishKeeps(study: Study, a: Local, after: Disk)
    requires LocalOk(study, a) && Finish(a, after)
    ensures DiskOk(study, a.proc.split, after)
  {
    if a.proc.status == Complete { NothingUnreconciled(a.proc.ledger, a.proc.rows); }
  }

  lemma {:induction false} LocalDisk(study: Study, l: Local)
    requires LocalOk(study, l)
    ensures DiskOk(study, l.proc.split, l.disk)
  {
    hide DiskOk, MemoryOk;
  }

  lemma {:induction false} DoKeeps(study: Study, w: World, pid: nat, after: Local)
    requires WorldOk(study, w) && pid in w.procs
    requires LocalOk(study, after) && after.proc.split == w.procs[pid].split
    ensures WorldOk(study, World(w.sites[after.proc.split := after.disk], w.procs[pid := after.proc]))
  {
    hide DiskOk, LocalOk;
    var w' := World(w.sites[after.proc.split := after.disk], w.procs[pid := after.proc]);
    assert DiskOk(study, after.proc.split, after.disk) by { LocalDisk(study, after); }
    assert Exclusive(w');
    assert SitesOk(study, w');
    forall q | q in w'.procs ensures ProcOk(study, w', q) {
      assert q != pid ==> ProcOk(study, w, q) && w.procs[q].split != after.proc.split;
    }
  }

  lemma {:induction false} EndKeeps(study: Study, w: World, pid: nat, disk: Disk)
    requires WorldOk(study, w) && pid in w.procs && DiskOk(study, w.procs[pid].split, disk)
    ensures WorldOk(study, World(w.sites[w.procs[pid].split := disk], w.procs - {pid}))
  {
    hide DiskOk, LocalOk;
    var split := w.procs[pid].split;
    var w' := World(w.sites[split := disk], w.procs - {pid});
    assert Exclusive(w');
    assert SitesOk(study, w');
    forall q | q in w'.procs ensures ProcOk(study, w', q) {
      assert ProcOk(study, w, q) && w.procs[q].split != split;
    }
  }

  lemma {:induction false} BeginKeeps(study: Study, w: World, pid: nat, first: Local)
    requires WorldOk(study, w) && pid !in w.procs && !w.sites[first.proc.split].made && LocalOk(study, first)
    ensures WorldOk(study, World(w.sites[first.proc.split := first.disk], w.procs[pid := first.proc]))
  {
    var w' := World(w.sites[first.proc.split := first.disk], w.procs[pid := first.proc]);
    hide DiskOk, MemoryOk;
    // A live process owns a made directory, so none of them is on this split.
    forall q | q in w.procs ensures w.procs[q].split != first.proc.split {
      assert ProcOk(study, w, q);
    }
    assert SitesOk(study, w');
    forall q | q in w'.procs ensures ProcOk(study, w', q) {
      assert q != pid ==> ProcOk(study, w, q);
    }
  }

  lemma {:induction false} ActKeeps(study: Study, w: World, action: Action, w': World)
    requires WellFormed(study) && WorldOk(study, w) && Act(study, w, action, w')
    ensures WorldOk(study, w')
  {
    match action
    case Start(pid, split, ordered, arms) =>
      StartKeeps(study, split, ordered, arms);
      BeginKeeps(study, w, pid, Local(Begun(Plan(ordered, arms)), Fresh(split, Plan(ordered, arms))));
    case Do(pid, after) =>
      StepKeeps(study, Local(w.sites[w.procs[pid].split], w.procs[pid]), after);
      DoKeeps(study, w, pid, after);
    case End(pid, disk) =>
      FinishKeeps(study, Local(w.sites[w.procs[pid].split], w.procs[pid]), disk);
      EndKeeps(study, w, pid, disk);
    case Crash(pid) =>
  }

  lemma {:induction false} HistoryOk(study: Study, ws: seq<World>, actions: seq<Action>, n: nat)
    requires WellFormed(study) && History(study, ws, actions) && n < |ws|
    ensures WorldOk(study, ws[n])
  {
    if n > 0 {
      assert TypeOk(ws[n - 1]) && Act(study, ws[n - 1], actions[n - 1], ws[n - 1 + 1]);
      hide Act, WorldOk, WellFormed, History;
      HistoryOk(study, ws, actions, n - 1);
      ActKeeps(study, ws[n - 1], actions[n - 1], ws[n]);
    }
  }

  // ----- main results -----

  lemma {:induction false} KeysDiffer(order: seq<Slot>, i: nat, j: nat)
    requires i < j < 4 * |order| && Armed(order)
    requires forall k | 0 <= k < |order| :: multiset(order[k].arms) == multiset(ARMS)
    requires forall k, l | 0 <= k < l < |order| :: order[k].case_.id != order[l].case_.id
    ensures KeyAt(order, i) != KeyAt(order, j)
  {
    if i / 4 == j / 4 {
      FourArms(order[i / 4].arms);
      assert i % 4 < j % 4;
    }
  }

  /** At-most-once: in every history no (case, arm) of a split is dispatched twice. */
  lemma {:induction false} AtMostOnce(study: Study, ws: seq<World>, actions: seq<Action>, n: nat, split: Split)
    requires WellFormed(study) && History(study, ws, actions) && n < |ws|
    ensures Distinct(ws[n].sites[split].dispatched)
  {
    HistoryOk(study, ws, actions, n);
    var d := ws[n].sites[split];
    if d.made {
      forall i, j | 0 <= i < j < |d.dispatched| ensures d.dispatched[i] != d.dispatched[j] {
        KeysDiffer(d.plan, i, j);
        assert d.dispatched[i] == EntryKey(d.ledger[i]) && d.dispatched[j] == EntryKey(d.ledger[j]);
      }
    }
  }

  lemma {:induction false} StepExtendsLog(study: Study, a: Local, b: Local)
    requires Step(study, a, b)
    ensures a.disk.dispatched <= b.disk.dispatched
  {
  }

  lemma {:induction false} ActExtendsLog(study: Study, w: World, action: Action, w': World, split: Split)
    requires WorldOk(study, w) && Act(study, w, action, w') && TypeOk(w')
    ensures w.sites[split].dispatched <= w'.sites[split].dispatched
  {
    hide Step, MemoryOk, OrderOk, Planned, Matching, WrittenAhead, Honest;
    if action.Do? {
      StepExtendsLog(study, Local(w.sites[w.procs[action.pid].split], w.procs[action.pid]), action.after);
    } else if action.Start? {
      assert DiskOk(study, action.split, w.sites[action.split]);
    }
  }

  lemma {:induction false} ActAt(study: Study, ws: seq<World>, actions: seq<Action>, i: nat)
    requires History(study, ws, actions) && i < |actions|
    ensures TypeOk(ws[i]) && TypeOk(ws[i + 1]) && Act(study, ws[i], actions[i], ws[i + 1])
  {
    hide Act;
  }

  lemma {:induction false} HistoryExtendsLog(study: Study, ws: seq<World>, actions: seq<Action>, m: nat, split: Split)
    requires WellFormed(study) && History(study, ws, actions) && 0 < m < |ws|
    ensures ws[m - 1].sites[split].dispatched <= ws[m].sites[split].dispatched
  {
    assert |ws| == |actions| + 1;
    hide *;
    ActAt(study, ws, actions, m - 1);
    HistoryOk(study, ws, actions, m - 1);
    ActExtendsLog(study, ws[m - 1], actions[m - 1], ws[m], split);
  }

  /** The record of calls is never rewritten, so at-most-once speaks of every call ever made. */
  lemma {:induction false} CallsAreNeverForgotten(study: Study, ws: seq<World>, actions: seq<Action>, n: nat, m: nat,
                                                  split: Split)
    requires WellFormed(study) && History(study, ws, actions) && n <= m < |ws|
    ensures ws[n].sites[split].dispatched <= ws[m].sites[split].dispatched
    decreases m
  {
    hide Act, WellFormed;
    if n < m {
      CallsAreNeverForgotten(study, ws, actions, n, m - 1, split);
      HistoryExtendsLog(study, ws, actions, m, split);
      PrefixTransitive(ws[n].sites[split].dispatched, ws[m - 1].sites[split].dispatched, ws[m].sites[split].dispatched);
    }
  }

  /** Write-ahead: a call is made only when its reservation is already on disk, and it stays there
      as reserved or completed. The saved episodes follow the completed entries, at most one behind. */
  lemma {:induction false} WriteAhead(study: Study, ws: seq<World>, actions: seq<Action>, n: nat, split: Split)
    requires WellFormed(study) && History(study, ws, actions) && n < |ws|
    ensures var d := ws[n].sites[split];
            && (forall i | 0 <= i < |d.dispatched| ::
                  i < |d.ledger| && EntryKey(d.ledger[i]) == d.dispatched[i] && d.ledger[i].state != NotDispatched)
            && (forall i | 0 <= i < |d.ledger| && d.ledger[i].state.Completed? :: i < |d.dispatched|)
            && (forall i | 0 <= i < |d.episodes| ::
                  i < |d.ledger| && d.ledger[i].state == Completed(d.episodes[i].spend)
                  && EntryKey(d.ledger[i]) == RowKey(d.episodes[i]))
            && |d.episodes| <= |d.ledger| <= |d.episodes| + 1
  {
    HistoryOk(study, ws, actions, n);
    assert DiskOk(study, split, ws[n].sites[split]);
  }

  /** Budget safety: what the on-disk ledger accounts for, with every outstanding reservation at its full
      size, stays within the evaluation limits, also after a crash. */
  lemma {:induction false} BudgetSafety(study: Study, ws: seq<World>, actions: seq<Action>, n: nat, split: Split)
    requires WellFormed(study) && History(study, ws, actions) && n < |ws|
    ensures Within(Charged(ws[n].sites[split].ledger), study.limits)
  {
    HistoryOk(study, ws, actions, n);
    assert DiskOk(study, split, ws[n].sites[split]);
  }

  /** How often a key occurs among the saved episodes. */
  function Occurrences(rows: seq<Row>, key: Key): nat {
    if rows == [] then 0
    else Occurrences(rows[..|rows| - 1], key) + (if RowKey(rows[|rows| - 1]) == key then 1 else 0)
  }

  lemma {:induction false} OccursOnce(rows: seq<Row>, key: Key)
    requires forall i, j | 0 <= i < j < |rows| :: RowKey(rows[i]) != RowKey(rows[j])
    ensures Occurrences(rows, key) == if exists i | 0 <= i < |rows| :: RowKey(rows[i]) == key then 1 else 0
  {
    if rows != [] {
      var last := |rows| - 1;
      OccursOnce(rows[..last], key);
      if exists i | 0 <= i < last :: RowKey(rows[..last][i]) == key {
        var i :| 0 <= i < last && RowKey(rows[..last][i]) == key;
        assert RowKey(rows[i]) == key;
      } else {
        assert forall i | 0 <= i < last :: rows[i] == rows[..last][i];
      }
    }
  }

  lemma {:induction false} PlannedSlot(study: Study, split: Split, plan: seq<Slot>, c: Case) returns (slot: nat)
    requires OrderOk(study, split, plan) && c in Cases(study, split)
    ensures slot < |plan| && plan[slot].case_ == c
  {
    SameElements(CasesOf(plan), Cases(study, split));
    assert c in CasesOf(plan);
    slot :| 0 <= slot < |plan| && CasesOf(plan)[slot] == c;
  }

  lemma {:induction false} PlannedSomewhere(study: Study, split: Split, plan: seq<Slot>, c: Case, arm: Arm)
    returns (n: nat)
    requires OrderOk(study, split, plan) && c in Cases(study, split)
    ensures n < 4 * |plan| && Armed(plan) && KeyAt(plan, n) == Key(c.id, arm)
  {
    var slot := PlannedSlot(study, split, plan, c);
    FourArms(plan[slot].arms);
    var k :| 0 <= k < 4 && plan[slot].arms[k] == arm;
    n := 4 * slot + k;
    Position(slot, k);
  }

  lemma {:induction false} CompleteDisk(study: Study, split: Split, d: Disk, c: Case, arm: Arm)
    requires DiskOk(study, split, d) && d.summary.Some? && d.summary.value.status == Complete
             && c in Cases(study, split)
    ensures Occurrences(d.episodes, Key(c.id, arm)) == 1
  {
    hide Within, Charged, WrittenAhead;
    var k := PlannedSomewhere(study, split, d.plan, c, arm);
    assert RowKey(d.episodes[k]) == EntryKey(d.ledger[k]) == KeyAt(d.plan, k);
    forall i, j | 0 <= i < j < |d.episodes| ensures RowKey(d.episodes[i]) != RowKey(d.episodes[j]) {
      KeysDiffer(d.plan, i, j);
      assert RowKey(d.episodes[i]) == EntryKey(d.ledger[i]) == KeyAt(d.plan, i);
      assert RowKey(d.episodes[j]) == EntryKey(d.ledger[j]) == KeyAt(d.plan, j);
    }
    OccursOnce(d.episodes, Key(c.id, arm));
  }

  /** Completion is honest: a "complete" summary means every (case, arm) of the split has exactly one row,
      nothing is unreconciled, and the report's complete-pairs flag is set for exactly that status. */
  lemma {:induction false} CompletionIsHonest(study: Study, ws: seq<World>, actions: seq<Action>, n: nat, split: Split,
                                              c: Case, arm: Arm)
    requires WellFormed(study) && History(study, ws, actions) && n < |ws|
    requires ws[n].sites[split].summary.Some?
    ensures var d := ws[n].sites[split];
            && (d.summary.value.completePairs <==> d.summary.value.status == Complete)
            && (d.summary.value.status == Complete ==>
                  d.summary.value.unreconciled == [] && |d.episodes| == 4 * |Cases(study, split)|)
            && (d.summary.value.status == Complete && c in Cases(study, split) ==>
                  Occurrences(d.episodes, Key(c.id, arm)) == 1)
  {
    HistoryOk(study, ws, actions, n);
    var d := ws[n].sites[split];
    assert DiskOk(study, split, d);
    hide WorldOk, History, Within, Charged, WrittenAhead, WellFormed;
    if d.summary.value.status == Complete && c in Cases(study, split) {
      CompleteDisk(study, split, d, c, arm);
    }
  }

  ghost predicate Abandoned(w: World, split: Split)
    requires TypeOk(w)
  {
    w.sites[split].made && forall pid | pid in w.procs :: w.procs[pid].split != split
  }

  lemma {:induction false} AbandonedStays(study: Study, w: World, action: Action, w': World, split: Split)
    requires TypeOk(w) && TypeOk(w') && Act(study, w, action, w') && Abandoned(w, split)
    requires action.Do? ==> action.pid in w.procs && action.after.proc.split == w.procs[action.pid].split
    ensures Abandoned(w', split) && w'.sites[split] == w.sites[split]
  {
    hide Step, Finish, Plan, DiskOk;
  }

  lemma {:induction false} DoKeepsSplit(study: Study, w: World, action: Action, w': World)
    requires TypeOk(w) && Act(study, w, action, w')
    ensures action.Do? ==> action.pid in w.procs && action.after.proc.split == w.procs[action.pid].split
  {
  }

  /** No rerun: once a split's directory has lost its process, nothing in it ever changes again. */
  lemma {:induction false} AbandonedSplitIsFrozen(study: Study, ws: seq<World>, actions: seq<Action>, n: nat, m: nat,
                                                  split: Split)
    requires WellFormed(study) && History(study, ws, actions) && n <= m < |ws|
    requires Abandoned(ws[n], split)
    ensures Abandoned(ws[m], split) && ws[m].sites[split] == ws[n].sites[split]
    decreases m
  {
    hide Act, Abandoned;
    if n < m {
      AbandonedSplitIsFrozen(study, ws, actions, n, m - 1, split);
      DoKeepsSplit(study, ws[m - 1], actions[m - 1], ws[m]);
      AbandonedStays(study, ws[m - 1], actions[m - 1], ws[m], split);
    }
  }

  // ----- what a report lists as open -----

  /** The unreconciled entries are the open ones of the ledger, each as often as it stands there. */
  lemma {:induction false} UnreconciledIff(ledger: seq<Entry>, e: Entry)
    ensures multiset(Unreconciled(ledger))[e] == if e.state == Reserved then multiset(ledger)[e] else 0
  {
    if ledger != [] {
      var n := |ledger| - 1;
      UnreconciledIff(ledger[..n], e);
      assert ledger == ledger[..n] + [ledger[n]];
    }
  }

  lemma {:induction false} UnreconciledConcat(a: seq<Entry>, b: seq<Entry>)
    ensures Unreconciled(a + b) == Unreconciled(a) + Unreconciled(b)
  {
    if b == [] {
      assert a + b == a;
    } else {
      assert (a + b)[..|a + b| - 1] == a + b[..|b| - 1];
      UnreconciledConcat(a, b[..|b| - 1]);
    }
  }

  lemma {:induction false} OpenIsListed(ledger: seq<Entry>, i: nat)
    requires i < |ledger| && ledger[i].state == Reserved
    ensures ledger[i] in Unreconciled(ledger)
  {
    UnreconciledIff(ledger, ledger[i]);
    assert ledger[i] in multiset(ledger);
    assert ledger[i] in multiset(Unreconciled(ledger));
  }

  /** No call is silent: when a run ends, whatever ended it, every call ever made on its split either has a row in
      the report or is listed by it as unreconciled. */
  lemma {:induction false} EveryCallIsReported(study: Study, ws: seq<World>, actions: seq<Action>, n: nat, key: Key)
    requires WellFormed(study) && History(study, ws, actions) && n < |actions| && actions[n].End?
    requires actions[n].pid in ws[n].procs && actions[n].disk.summary.Some?
    requires key in actions[n].disk.dispatched
    ensures || (exists r :: r in ws[n].procs[actions[n].pid].rows && RowKey(r) == key)
            || (exists e | e in actions[n].disk.summary.value.unreconciled :: EntryKey(e) == key && e.state == Reserved)
  {
    ActAt(study, ws, actions, n);
    HistoryOk(study, ws, actions, n);
    assert ProcOk(study, ws[n], actions[n].pid);
    var l := Local(ws[n].sites[ws[n].procs[actions[n].pid].split], ws[n].procs[actions[n].pid]);
    EndIsAccounted(study, l, actions[n].disk);
    var i :| 0 <= i < |l.disk.dispatched| && l.disk.dispatched[i] == key;
    hide Act, History, WorldOk, LocalOk, Finish;
    if l.proc.ledger[i].state == Reserved { OpenIsListed(l.proc.ledger, i); }
  }

  lemma {:induction false} EndIsAccounted(study: Study, l: Local, after: Disk)
    requires LocalOk(study, l) && Finish(l, after)
    ensures Accounted(l) && after.dispatched == l.disk.dispatched && after.summary.Some?
    ensures after.summary.value.unreconciled == Unreconciled(l.proc.ledger)
  {
    hide DiskOk, Accounted;
  }
}
