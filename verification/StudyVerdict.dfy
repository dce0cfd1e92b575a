/** The verdict of a run: what a go says about the calls that were made. */
module StudyVerdict {
  import opened StudyDecision
  import opened StudyHistory
  import opened StudyMachine
  import opened StudyTypes
  import opened Wrappers

  /** The evidence is what this summary reports over these rows. */
  ghost predicate Reports(study: Study, e: Evidence, summary: Summary, rows: seq<Row>) {
    && e.rows == rows && e.expected == |Cases(study, e.split)|
    && e.status == summary.status && e.unreconciled == summary.unreconciled
  }

  lemma {:induction false} GoIsComplete(e: Evidence, p: Protocol)
    requires Decide(e, p) == ConditionalGo
    ensures e.split == Heldout && e.status == Complete && e.unreconciled == []
  {
    GoIsEarned(e, p);
  }

  /** A go on a split's saved summary and episodes means that every held-out case and arm has exactly one row, that
      nothing is unreconciled and that the complete-pairs flag is set, in every history. `GoIsEarned` adds the rest. */
  lemma {:induction false} GoMeansEveryPairOnce(study: Study, ws: seq<World>, actions: seq<Action>, n: nat,
                                                e: Evidence, p: Protocol, c: Case, arm: Arm)
    requires WellFormed(study) && History(study, ws, actions) && n < |ws|
    requires ws[n].sites[e.split].summary.Some?
    requires Reports(study, e, ws[n].sites[e.split].summary.value, ws[n].sites[e.split].episodes)
    requires Decide(e, p) == ConditionalGo
    ensures e.split == Heldout && ws[n].sites[Heldout].summary.value.completePairs
    ensures ws[n].sites[Heldout].summary.value.unreconciled == []
    ensures |e.rows| == 4 * |study.heldout|
    ensures c in study.heldout ==> Occurrences(ws[n].sites[Heldout].episodes, Key(c.id, arm)) == 1
  {
    hide Decide, History, WellFormed;
    GoIsComplete(e, p);
    CompletionIsHonest(study, ws, actions, n, Heldout, c, arm);
  }

  lemma {:induction false} CompleteIsSynced(study: Study, l: Local, after: Disk)
    requires LocalOk(study, l) && Finish(l, after) && after.summary.value.status == Complete
    ensures l.proc.rows == after.episodes
  {
    hide DiskOk, Within, Charged;
  }

  /** The report is computed from the rows in memory. When a run ends with a go, those rows are the saved ones, so the
      go of the process that computed it says the same of the disk it leaves. */
  lemma {:induction false} GoOfARun(study: Study, ws: seq<World>, actions: seq<Action>, n: nat, e: Evidence,
                                    p: Protocol, c: Case, arm: Arm)
    requires WellFormed(study) && History(study, ws, actions) && n < |actions| && actions[n].End?
    requires actions[n].pid in ws[n].procs && e.split == ws[n].procs[actions[n].pid].split
    requires actions[n].disk.summary.Some?
    requires Reports(study, e, actions[n].disk.summary.value, ws[n].procs[actions[n].pid].rows)
    requires Decide(e, p) == ConditionalGo
    ensures ws[n + 1].sites[Heldout].episodes == e.rows
    ensures c in study.heldout ==> Occurrences(e.rows, Key(c.id, arm)) == 1
  {
    var w, pid, after := ws[n], actions[n].pid, actions[n].disk;
    HistoryOk(study, ws, actions, n);
    ActAt(study, ws, actions, n);
    GoIsComplete(e, p);
    var l := Local(w.sites[e.split], w.procs[pid]);
    assert ProcOk(study, w, pid);
    CompleteIsSynced(study, l, after);
    hide Decide, History, WellFormed, WorldOk, LocalOk;
    GoMeansEveryPairOnce(study, ws, actions, n + 1, e, p, c, arm);
  }
}
