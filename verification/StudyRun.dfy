/** `run` itself: the loops over the schedule, written against the state machine they implement. */
module StudyRun {
  import opened Schedule
  import opened StudyHistory
  import opened StudyMachine
  import opened StudyOutcome
  import opened StudyQuestions
  import opened StudySafety
  import opened StudyTypes
  import opened Wrappers

  datatype Outcome = Refused | Reported(summary: Summary) | Raised(summary: Summary) | Lost

  /** Anything the code cannot control: cancellation, the clock, a failing write or identity check. */
  method Environment() returns (happens: bool) {
    happens := *;
  }

  /** A sequence of states, each one step of the machine after the one before. */
  ghost predicate Behaviour(study: Study, trace: seq<Local>) {
    forall i | 0 <= i < |trace| - 1 :: Step(study, trace[i], trace[i + 1])
  }

  /** What the finally block meets: a changed artifact, a moved pointer, a summary that cannot be written. */
  datatype Closing = Closing(changed: bool, moved: bool, lost: bool)

  class Runner {
    const study: Study
    const split: Split
    var disk: Disk
    var order: seq<Slot>
    var ledger: seq<Entry>
    var rows: seq<Row>
    var status: Status
    ghost var slot: nat
    ghost var arm: nat
    ghost var pc: Pc
    ghost var trace: seq<Local>
    ghost var asked: seq<Question>
    ghost var trouble: Option<Question>
    ghost var results: seq<Row>
    ghost var closing: Closing

    constructor (study: Study, split: Split, disk: Disk)
      ensures this.study == study && this.split == split && this.disk == disk
    {
      this.study, this.split, this.disk := study, split, disk;
      order, ledger, rows, status := [], [], [], Complete;
      slot, arm, pc, trace := 0, 0, Finishing, [];
      asked, trouble, results, closing := [], None, [], Closing(false, false, false);
    }

    ghost function Now(): Local
      reads this
    {
      Local(disk, Proc(split, order, slot, arm, ledger, rows, status, pc))
    }

    ghost predicate Valid()
      reads this
    {
      && WellFormed(study) && trace != [] && Behaviour(study, trace)
      && trace[|trace| - 1] == Now() && LocalOk(study, Now())
    }

    lemma ValidNow()
      requires Valid()
      ensures LocalOk(study, Now()) && WellFormed(study)
      ensures trace != [] && Behaviour(study, trace) && trace[|trace| - 1] == Now()
      ensures Now() == Local(disk, Proc(split, order, slot, arm, ledger, rows, status, pc))
    {
    }

    /** Nothing has gone wrong so far. */
    ghost predicate Calm()
      reads this
    {
      trouble == None && rows == results && AsPlanned(study, order, results)
    }

    /** The question and its answer are remembered. */
    method Ask(q: Question) returns (yes: bool)
      requires Valid()
      modifies `asked, `trouble
      ensures Valid() && asked == old(asked) + [q]
      ensures trouble == if yes then Some(q) else old(trouble)
    {
      hide LocalOk, WellFormed, Behaviour;
      yes := Environment();
      asked := asked + [q];
      trouble := if yes then Some(q) else trouble;
    }

    /** Every effect of the run is one step of the machine. */
    ghost method Record()
      requires WellFormed(study) && trace != [] && Behaviour(study, trace)
      requires LocalOk(study, trace[|trace| - 1]) && Step(study, trace[|trace| - 1], Now())
      modifies `trace
      ensures Valid() && trace == old(trace) + [Now()]
    {
      hide LocalOk, Step;
      StepKeeps(study, trace[|trace| - 1], Now());
      trace := trace + [Now()];
    }

    method Fail()
      requires Valid() && pc != Finishing
      modifies `status, `pc, `trace
      ensures Valid() && pc == Finishing && status == Interrupted && old(trace) <= trace
    {
      hide LocalOk, WellFormed, Behaviour;
      status, pc := Interrupted, Finishing;
      assert Step(study, trace[|trace| - 1], Now()) by { assert Raise(trace[|trace| - 1], Now()); }
      Record();
    }

    method StopWith(reason: Status)
      requires Valid() && IsStop(reason)
      requires slot < |order| && (pc == PairTop || (pc == ArmTop && arm < |order[slot].arms|))
      modifies `status, `pc, `trace
      ensures Valid() && pc == Finishing && status == reason && old(trace) <= trace
    {
      hide LocalOk, WellFormed, Behaviour;
      status, pc := reason, Finishing;
      assert Step(study, trace[|trace| - 1], Now()) by { assert Stop(trace[|trace| - 1], Now()); }
      Record();
    }

    /** Lines 242-246: append the reservation, then write the ledger. */
    method ReserveArm(s: Slot, a: Arm) returns (saved: bool)
      requires Valid() && pc == ArmTop && slot < |order| && s == order[slot] && arm < |s.arms| && a == s.arms[arm]
      requires trouble == None
      modifies `disk, `ledger, `status, `pc, `trace, `asked, `trouble
      ensures Valid() && old(trace) <= trace && asked == old(asked) + [WriteFails]
      ensures if saved then trouble == None else trouble == Some(WriteFails) && status == Interrupted
      ensures saved ==>
                pc == Saved && ledger == old(ledger) + [NewEntry(study, s, a)] && disk == old(disk).(ledger := ledger)
      ensures !saved ==> pc == Finishing && disk == old(disk)
    {
      hide Valid, Now, LocalOk, WellFormed, Behaviour;
      AppendEntry(s, a);
      var writeFails := Ask(WriteFails);
      if writeFails {
        Fail();
        return false;
      }
      WriteReservation();
      saved := true;
    }

    method AppendEntry(s: Slot, a: Arm)
      requires Valid() && pc == ArmTop && slot < |order| && s == order[slot] && arm < |s.arms| && a == s.arms[arm]
      modifies `ledger, `pc, `trace
      ensures Valid() && old(trace) <= trace && pc == Appended
      ensures ledger == old(ledger) + [NewEntry(study, s, a)]
    {
      hide LocalOk, WellFormed, Behaviour;
      ledger, pc := ledger + [NewEntry(study, s, a)], Appended;
      assert Step(study, trace[|trace| - 1], Now()) by { assert Reserve(study, trace[|trace| - 1], Now()); }
      Record();
    }

    method WriteReservation()
      requires Valid() && pc == Appended
      modifies `disk, `pc, `trace
      ensures Valid() && old(trace) <= trace && pc == Saved && disk == old(disk).(ledger := ledger)
    {
      hide LocalOk, WellFormed, Behaviour;
      disk, pc := disk.(ledger := ledger), Saved;
      assert Step(study, trace[|trace| - 1], Now()) by { assert SaveReservation(trace[|trace| - 1], Now()); }
      Record();
    }

    /** Lines 247-252: cancelled or late after the reservation was written. */
    method DeclineArm(reason: Status)
      requires Valid() && pc == Saved && IsStop(reason) && ledger != []
      requires trouble.Some? && reason == Consequence(trouble.value)
      modifies `disk, `ledger, `status, `pc, `trace, `asked, `trouble
      ensures Valid() && pc == Finishing && old(trace) <= trace && asked == old(asked) + [WriteFails]
      ensures trouble == old(trouble) || trouble == Some(WriteFails)
      ensures trouble.Some? && status == Consequence(trouble.value)
      ensures disk.dispatched == old(disk.dispatched)
      ensures ledger == SetLast(old(ledger), NotDispatched)
      ensures if status == Interrupted then disk == old(disk)
              else status == reason && disk == old(disk).(ledger := ledger)
    {
      hide Valid, Now, LocalOk, WellFormed, Behaviour;
      MarkDeclined(reason);
      var writeFails := Ask(WriteFails);
      if writeFails {
        Fail();
        return;
      }
      WriteDecline();
    }

    method MarkDeclined(reason: Status)
      requires Valid() && pc == Saved && IsStop(reason) && ledger != []
      modifies `ledger, `status, `pc, `trace
      ensures Valid() && old(trace) <= trace && pc == Declined && status == reason
      ensures ledger == SetLast(old(ledger), NotDispatched)
    {
      hide LocalOk, WellFormed, Behaviour;
      status, pc, ledger := reason, Declined, SetLast(ledger, NotDispatched);
      assert Step(study, trace[|trace| - 1], Now()) by { assert Decline(trace[|trace| - 1], Now()); }
      Record();
    }

    method WriteDecline()
      requires Valid() && pc == Declined
      modifies `disk, `pc, `trace
      ensures Valid() && pc == Finishing && old(trace) <= trace
      ensures disk == old(disk).(ledger := ledger)
    {
      hide LocalOk, WellFormed, Behaviour;
      disk, pc := disk.(ledger := ledger), Finishing;
      assert Step(study, trace[|trace| - 1], Now()) by { assert SaveDecline(trace[|trace| - 1], Now()); }
      Record();
    }

    /** The call itself leaves this process; whatever comes back, it has been made. */
    method MarkDispatched(key: Key)
      requires Valid() && pc == Saved && slot < |order| && arm < |order[slot].arms|
      requires key == Key(order[slot].case_.id, order[slot].arms[arm])
      modifies `disk, `pc, `trace
      ensures Valid() && old(trace) <= trace && pc == InFlight
      ensures disk == old(disk).(dispatched := old(disk.dispatched) + [key])
    {
      hide LocalOk, WellFormed, Behaviour;
      disk, pc := disk.(dispatched := disk.dispatched + [key]), InFlight;
      assert Step(study, trace[|trace| - 1], Now()) by { assert Dispatch(trace[|trace| - 1], Now()); }
      Record();
    }

    /** Lines 257-267: score the result. */
    method AppendRow(row: Row)
      requires Valid() && pc == InFlight && slot < |order| && arm < |order[slot].arms|
      requires ValidRow(study, order[slot], order[slot].arms[arm], row)
      modifies `rows, `pc, `trace
      ensures Valid() && old(trace) <= trace && pc == Scored && rows == old(rows) + [row]
    {
      hide LocalOk, WellFormed, Behaviour;
      rows, pc := rows + [row], Scored;
      assert Step(study, trace[|trace| - 1], Now()) by { assert Score(study, trace[|trace| - 1], Now()); }
      Record();
    }

    /** Lines 268-271: account for the call, then write the ledger. */
    method CommitLedger(actual: Spend) returns (done: bool)
      requires Valid() && pc == Scored && ledger != [] && rows != [] && rows[|rows| - 1].spend == actual
      requires trouble == None
      modifies `disk, `ledger, `status, `pc, `trace, `asked, `trouble
      ensures Valid() && old(trace) <= trace && disk == old(disk).(ledger := disk.ledger)
      ensures asked == old(asked) + [WriteFails]
      ensures if done then trouble == None else trouble == Some(WriteFails) && status == Interrupted
      ensures done ==> pc == LedgerSaved && ledger == disk.ledger == SetLast(old(ledger), Completed(actual))
      ensures !done ==> pc == Finishing
    {
      hide Valid, Now, LocalOk, WellFormed, Behaviour;
      CompleteEntry(actual);
      var writeFails := Ask(WriteFails);
      if writeFails {
        Fail();
        return false;
      }
      WriteLedger();
      done := true;
    }

    method CompleteEntry(actual: Spend)
      requires Valid() && pc == Scored && ledger != [] && rows != [] && rows[|rows| - 1].spend == actual
      modifies `ledger, `pc, `trace
      ensures Valid() && old(trace) <= trace && pc == Returned
      ensures ledger == SetLast(old(ledger), Completed(actual))
    {
      hide LocalOk, WellFormed, Behaviour;
      ledger, pc := SetLast(ledger, Completed(actual)), Returned;
      assert Step(study, trace[|trace| - 1], Now()) by { assert Account(trace[|trace| - 1], Now()); }
      Record();
    }

    method WriteLedger()
      requires Valid() && pc == Returned
      modifies `disk, `pc, `trace
      ensures Valid() && pc == LedgerSaved && old(trace) <= trace
      ensures disk == old(disk).(ledger := ledger)
    {
      hide LocalOk, WellFormed, Behaviour;
      disk, pc := disk.(ledger := ledger), LedgerSaved;
      assert Step(study, trace[|trace| - 1], Now()) by { assert SaveLedger(trace[|trace| - 1], Now()); }
      Record();
    }

    /** Line 272. */
    method CommitEpisodes() returns (done: bool)
      requires Valid() && pc == LedgerSaved && trouble == None
      modifies `disk, `status, `pc, `trace, `asked, `trouble
      ensures Valid() && old(trace) <= trace && asked == old(asked) + [WriteFails]
      ensures if done then trouble == None else trouble == Some(WriteFails) && status == Interrupted
      ensures done ==> pc == EpisodesSaved && disk == old(disk).(episodes := rows)
      ensures !done ==> pc == Finishing && disk == old(disk)
    {
      hide Valid, Now, LocalOk, WellFormed, Behaviour;
      var writeFails := Ask(WriteFails);
      if writeFails {
        Fail();
        return false;
      }
      WriteEpisodes();
      done := true;
    }

    method WriteEpisodes()
      requires Valid() && pc == LedgerSaved
      modifies `disk, `pc, `trace
      ensures Valid() && old(trace) <= trace && pc == EpisodesSaved && disk == old(disk).(episodes := rows)
    {
      hide LocalOk, WellFormed, Behaviour;
      disk, pc := disk.(episodes := rows), EpisodesSaved;
      assert Step(study, trace[|trace| - 1], Now()) by { assert SaveEpisodes(trace[|trace| - 1], Now()); }
      Record();
    }

    /** Lines 254-272: the one call, and what follows it. */
    method DispatchArm(s: Slot, a: Arm, ghost start: seq<Question>) returns (done: bool)
      requires Valid() && pc == Saved && ledger != []
      requires slot < |order| && s == order[slot] && arm < |s.arms| && a == s.arms[arm]
      requires Calm() && asked == start + ARM[..5]
      modifies `disk, `ledger, `rows, `status, `pc, `trace, `asked, `trouble, `results
      ensures Valid() && old(trace) <= trace
      ensures rows == results && old(results) <= results && AsPlanned(study, order, results)
      ensures done ==> trouble == None && |rows| == |old(rows)| + 1 && asked == start + ARM[..9]
      ensures !done ==> trouble.Some? && LeftArm(start, asked, trouble) && status == Consequence(trouble.value)
      ensures disk.dispatched == old(disk.dispatched) + [Key(s.case_.id, a)]
      ensures done ==> pc == EpisodesSaved && disk.episodes == rows && disk.ledger == ledger
      ensures !done ==> pc == Finishing
    {
      hide Valid, Now, LocalOk, Behaviour, ValidRow, WellFormed, LeftArm, ARM;
      ArmIs();
      MarkDispatched(Key(s.case_.id, a));
      var raises := Ask(CallRaises);
      NextQuestion(start, ARM, 5);
      if raises {
        ArmLeft(start, 5);
        Fail();
        return false;
      }
      InFlightCount();
      var row := Route(s, a);
      done := KeepRow(row, start);
    }

    lemma InFlightCount()
      requires Valid() && pc == InFlight
      ensures Armed(order) && |rows| == 4 * slot + arm
    {
      hide Behaviour;
    }

    /** The serving route, when it does not raise: an arbitrary scored result within the reservation. */
    method Route(s: Slot, a: Arm) returns (r: Row)
      requires Valid() && slot < |order| && s == order[slot] && arm < 4 == |s.arms| && a == s.arms[arm]
      requires AsPlanned(study, order, results) && |results| == 4 * slot + arm
      modifies `results
      ensures Valid() && ValidRow(study, s, a, r) && results == old(results) + [r] && AsPlanned(study, order, results)
    {
      hide LocalOk, Behaviour, AsPlanned;
      assert Within(NOTHING, Reservation(study, a));
      var spend :| Within(spend, Reservation(study, a));
      var correct: bool, accepted: bool, ran: bool := *, *, *;
      var seconds: real, cpu: Option<real>, memory: Option<nat>, cost: Option<real> := *, *, *, *;
      var proposals: nat, verified: nat := *, *;
      r := Row(s.case_.id, s.case_.group, s.case_.cohort, a, correct, spend, seconds, cpu, memory, cost,
               proposals, verified, accepted, ran);
      NextAsPlanned(study, order, results, slot, arm, r);
      results := results + [r];
    }

    /** Lines 258-272: the row, then the ledger, then the episodes. */
    method KeepRow(row: Row, ghost start: seq<Question>) returns (done: bool)
      requires Valid() && pc == InFlight && ledger != [] && slot < |order| && arm < |order[slot].arms|
      requires ValidRow(study, order[slot], order[slot].arms[arm], row) && trouble == None
      requires asked == start + ARM[..6]
      modifies `disk, `ledger, `rows, `status, `pc, `trace, `asked, `trouble
      ensures Valid() && old(trace) <= trace && disk.dispatched == old(disk.dispatched)
      ensures rows == old(rows) + [row]
      ensures done ==> trouble == None && asked == start + ARM[..9]
      ensures !done ==> trouble.Some? && LeftArm(start, asked, trouble) && status == Consequence(trouble.value)
      ensures done ==> pc == EpisodesSaved && disk.episodes == rows && disk.ledger == ledger
      ensures !done ==> pc == Finishing
    {
      hide Valid, Now, LocalOk, Behaviour, ValidRow, WellFormed, LeftArm, ARM;
      ArmIs();
      AppendRow(row);
      var interrupted := Ask(ScoringRaises);
      NextQuestion(start, ARM, 6);
      if interrupted {
        ArmLeft(start, 6);
        Fail();
        return false;
      }
      done := CommitLedger(rows[|rows| - 1].spend);
      NextQuestion(start, ARM, 7);
      if !done {
        ArmLeft(start, 7);
        return;
      }
      done := CommitEpisodes();
      NextQuestion(start, ARM, 8);
      if !done {
        ArmLeft(start, 8);
      }
    }

    method StopUnverified()
      requires Valid() && pc == EpisodesSaved
      modifies `status, `pc, `trace
      ensures Valid() && old(trace) <= trace && pc == Finishing && status == Unverified
    {
      hide LocalOk, WellFormed, Behaviour;
      status, pc := Unverified, Finishing;
      assert Step(study, trace[|trace| - 1], Now()) by { assert Distrust(trace[|trace| - 1], Now()); }
      Record();
    }

    method NextArm()
      requires Valid() && pc == EpisodesSaved
      modifies `pc, `arm, `trace
      ensures Valid() && old(trace) <= trace && pc == ArmTop && arm == old(arm) + 1
    {
      hide LocalOk, WellFormed, Behaviour;
      pc, arm := ArmTop, arm + 1;
      assert Step(study, trace[|trace| - 1], Now()) by { assert Advance(trace[|trace| - 1], Now()); }
      Record();
    }

    method FirstArm()
      requires Valid() && pc == PairTop && slot < |order| && Affordable(study, rows)
      modifies `pc, `arm, `trace
      ensures Valid() && old(trace) <= trace && pc == ArmTop && arm == 0
    {
      hide LocalOk, WellFormed, Behaviour;
      pc, arm := ArmTop, 0;
      assert Step(study, trace[|trace| - 1], Now()) by { assert BeginPair(study, trace[|trace| - 1], Now()); }
      Record();
    }

    method NextPair()
      requires Valid() && pc == ArmTop && slot < |order| && arm == |order[slot].arms|
      modifies `pc, `slot, `arm, `trace
      ensures Valid() && old(trace) <= trace && pc == PairTop && slot == old(slot) + 1
    {
      hide LocalOk, WellFormed, Behaviour;
      pc, slot, arm := PairTop, slot + 1, 0;
      assert Step(study, trace[|trace| - 1], Now()) by { assert EndOfPair(trace[|trace| - 1], Now()); }
      Record();
    }

    /** Reserves the output directory and writes the frozen inputs. */
    method Begin(ordered: seq<Case>, arms: seq<Arm>)
      requires WellFormed(study) && DiskOk(study, split, disk) && !disk.made
      requires multiset(ordered) == multiset(Cases(study, split)) && multiset(arms) == multiset(ARMS)
      modifies this
      ensures |arms| == 4 && Valid() && pc == PairTop && slot == 0 && order == Plan(ordered, arms)
      ensures Calm() && asked == [] && rows == []
      ensures trace == [Local(Begun(Plan(ordered, arms)), Fresh(split, Plan(ordered, arms)))]
    {
      hide LocalOk, Behaviour, DiskOk, WellFormed, Plan, ARMS;
      FreshOk(study, split, ordered, arms);
      order := MakeSchedule(ordered, arms);
      disk := EMPTY.(made := true, plan := order);
      ledger, rows, status := [], [], Complete;
      slot, arm, pc := 0, 0, PairTop;
      asked, trouble, results := [], None, [];
      assert Now() == Local(Begun(order), Fresh(split, order));
      trace := [Now()];
      SingleState(study, Now());
      FourAtTop(study, Now());
    }

    /** Lines 235-237. */
    method MayReserve(ghost start: seq<Question>) returns (ok: bool)
      requires Valid() && pc == ArmTop && slot < |order| && arm < |order[slot].arms|
      requires trouble == None && asked == start
      modifies `status, `pc, `trace, `asked, `trouble
      ensures Valid() && old(trace) <= trace
      ensures ok ==> pc == ArmTop && trouble == None && asked == start + ARM[..2]
      ensures !ok ==> pc == Finishing && trouble.Some? && status == Consequence(trouble.value)
      ensures !ok ==> LeftArm(start, asked, trouble)
    {
      hide Valid, Now, LocalOk, WellFormed, Behaviour, LeftArm, ARM;
      ArmIs();
      assert start + [] == start;
      var cancelled := Ask(CancelRequested);
      NextQuestion(start, ARM, 0);
      if cancelled {
        ArmLeft(start, 0);
        StopWith(Cancelled);
        return false;
      }
      var late := Ask(DeadlinePassed);
      NextQuestion(start, ARM, 1);
      if late {
        ArmLeft(start, 1);
        StopWith(BudgetExhausted);
        return false;
      }
      ok := true;
    }

    /** Lines 247-252. */
    method MayCall(ghost start: seq<Question>) returns (ok: bool)
      requires Valid() && pc == Saved && ledger != []
      requires trouble == None && asked == start + ARM[..3]
      modifies `disk, `ledger, `status, `pc, `trace, `asked, `trouble
      ensures Valid() && old(trace) <= trace && disk.dispatched == old(disk.dispatched)
      ensures ok ==> pc == Saved && trouble == None && asked == start + ARM[..5] && ledger == old(ledger)
      ensures !ok ==> pc == Finishing && trouble.Some? && status == Consequence(trouble.value)
      ensures !ok ==> LeftArm(start, asked, trouble)
      ensures !ok ==> ledger == SetLast(old(ledger), NotDispatched)
    {
      hide Valid, Now, LocalOk, WellFormed, Behaviour, LeftArm, ARM;
      ArmIs();
      var cancelled := Ask(CancelRequested);
      NextQuestion(start, ARM, 3);
      if cancelled {
        DeclineArm(Cancelled);
        ArmDeclined(start, 3, trouble.value);
        return false;
      }
      var late := Ask(DeadlinePassed);
      NextQuestion(start, ARM, 4);
      if late {
        DeclineArm(BudgetExhausted);
        ArmDeclined(start, 4, trouble.value);
        return false;
      }
      ok := true;
    }

    /** One round of the inner loop; false means the loop was left. */
    method RunArm(s: Slot, a: Arm) returns (more: bool)
      requires Valid() && pc == ArmTop && slot < |order| && s == order[slot] && arm < |s.arms| && a == s.arms[arm]
      requires Calm()
      modifies `disk, `ledger, `rows, `status, `pc, `arm, `trace, `asked, `trouble, `results
      ensures Valid() && old(trace) <= trace
      ensures rows == results && old(results) <= results && AsPlanned(study, order, results)
      ensures more ==> pc == ArmTop && arm == old(arm) + 1
      ensures more ==> trouble == None && |rows| == |old(rows)| + 1 && asked == old(asked) + ARM
      ensures !more ==> pc == Finishing && arm == old(arm)
      ensures !more ==> trouble.Some? && LeftArm(old(asked), asked, trouble) && status == Consequence(trouble.value)
    {
      hide Valid, Now, LocalOk, WellFormed, Behaviour, NewEntry, LeftArm, ARM, AsPlanned;
      ArmIs();
      ghost var start := asked;
      more := MayReserve(start);
      if !more {
        return;
      }
      more := ReserveArm(s, a);
      NextQuestion(start, ARM, 2);
      if !more {
        ArmLeft(start, 2);
        return;
      }
      more := MayCall(start);
      if !more {
        return;
      }
      more := DispatchArm(s, a, start);
      if !more {
        return;
      }
      more := MayTrust(start);
    }

    /** Lines 273-277. */
    method MayTrust(ghost start: seq<Question>) returns (ok: bool)
      requires Valid() && pc == EpisodesSaved && trouble == None && asked == start + ARM[..9]
      modifies `status, `pc, `arm, `trace, `asked, `trouble
      ensures Valid() && old(trace) <= trace
      ensures ok ==> pc == ArmTop && arm == old(arm) + 1 && trouble == None && asked == start + ARM
      ensures !ok ==> pc == Finishing && arm == old(arm)
      ensures !ok ==> trouble.Some? && LeftArm(start, asked, trouble) && status == Consequence(trouble.value)
    {
      hide Valid, Now, LocalOk, WellFormed, Behaviour, LeftArm, ARM;
      ArmIs();
      var distrusted := Ask(Distrusted);
      NextQuestion(start, ARM, 9);
      if distrusted {
        ArmLeft(start, 9);
        StopUnverified();
        return false;
      }
      NextArm();
      ok := true;
    }

    /** One round of the outer loop; false means the loop was left. */
    method RunPair(s: Slot) returns (more: bool)
      requires Valid() && pc == PairTop && slot < |order| && s == order[slot]
      requires Calm() && asked == Course(slot) && |rows| == 4 * slot
      modifies `disk, `ledger, `rows, `status, `pc, `slot, `arm, `trace, `asked, `trouble, `results
      ensures Valid() && old(trace) <= trace
      ensures rows == results && old(results) <= results && AsPlanned(study, order, results)
      ensures more ==> pc == PairTop && slot == old(slot) + 1 && Calm() && Affordable(study, old(rows))
                       && asked == Course(slot) && |rows| == 4 * slot
      ensures !more ==> pc == Finishing && slot == old(slot) && Explained(study, Now().proc, asked, trouble)
    {
      hide Valid, Now, LocalOk, WellFormed, Behaviour, LeftPair, LeftArm, Affordable, PAIR, ARM, AsPlanned;
      more := MayBegin();
      if !more {
        ValidNow();
        if trouble.Some? { ExplainedByPair(study, Now().proc, asked, trouble); }
        return;
      }
      more := PlayArms(s);
      if more {
        NextPair();
      }
    }

    /** The arms of a pair that has been begun. */
    method PlayArms(s: Slot) returns (more: bool)
      requires Valid() && pc == PairTop && slot < |order| && s == order[slot]
      requires Calm() && asked == Course(slot) + PAIR && Affordable(study, rows)
      modifies `disk, `ledger, `rows, `status, `pc, `arm, `trace, `asked, `trouble, `results
      ensures Valid() && old(trace) <= trace
      ensures rows == results && old(results) <= results && AsPlanned(study, order, results)
      ensures more ==> pc == ArmTop && arm == 4 == |s.arms| && trouble == None && |rows| == |old(rows)| + 4
      ensures more ==> asked == Course(slot) + PAIR + ArmsAsked(4)
      ensures !more ==> pc == Finishing && Explained(study, Now().proc, asked, trouble)
    {
      hide Valid, Now, LocalOk, WellFormed, Behaviour, LeftArm, Affordable, PAIR, ARM, AsPlanned, Course, ArmsAsked;
      FirstArm();
      ValidNow();
      FourAtTop(study, Now());
      more := RunArms(s);
      if !more {
        ValidNow();
        ExplainedByArm(study, Now().proc, asked, trouble);
      }
    }

    /** The same round, with what it means for the pairs before it. */
    method PayForPair(s: Slot) returns (more: bool)
      requires Valid() && pc == PairTop && slot < |order| && s == order[slot]
      requires Calm() && asked == Course(slot) && |rows| == 4 * slot && PaidFor(study, rows, slot)
      modifies `disk, `ledger, `rows, `status, `pc, `slot, `arm, `trace, `asked, `trouble, `results
      ensures Valid() && old(trace) <= trace
      ensures rows == results && AsPlanned(study, order, results) && PaidFor(study, rows, slot)
      ensures more ==> pc == PairTop && slot == old(slot) + 1 && Calm() && asked == Course(slot) && |rows| == 4 * slot
      ensures !more ==> pc == Finishing && Explained(study, Now().proc, asked, trouble)
    {
      hide Valid, Now, LocalOk, WellFormed, Behaviour, Affordable, Explained, PaidFor, Course, AsPlanned;
      more := RunPair(s);
      PaidForMore(study, old(rows), rows, old(slot), slot);
    }

    /** The inner loop. */
    method RunArms(s: Slot) returns (more: bool)
      requires Valid() && pc == ArmTop && slot < |order| && s == order[slot] && arm == 0 && |s.arms| == 4
      requires Calm()
      modifies `disk, `ledger, `rows, `status, `pc, `arm, `trace, `asked, `trouble, `results
      ensures Valid() && old(trace) <= trace
      ensures rows == results && old(results) <= results && AsPlanned(study, order, results)
      ensures more ==> pc == ArmTop && arm == 4 && trouble == None && |rows| == |old(rows)| + 4
      ensures more ==> asked == old(asked) + ArmsAsked(4)
      ensures !more ==> pc == Finishing && trouble.Some? && status == Consequence(trouble.value)
      ensures !more ==> LeftArm(old(asked) + ArmsAsked(arm), asked, trouble)
    {
      hide Valid, Now, LocalOk, WellFormed, Behaviour, LeftArm, ARM, AsPlanned;
      assert asked == old(asked) + ArmsAsked(0);
      var k := 0;
      while k < |s.arms|
        invariant 0 <= k <= |s.arms|
        invariant Valid() && old(trace) <= trace && pc == ArmTop && arm == k
        invariant Calm() && old(results) <= results && |rows| == |old(rows)| + k
        invariant asked == old(asked) + ArmsAsked(k)
      {
        more := RunArm(s, s.arms[k]);
        if !more {
          return;
        }
        k := k + 1;
      }
      more := true;
    }

    /** Lines 223-232: the pair is begun only if nothing has changed and all of it can be paid for. */
    method MayBegin() returns (ok: bool)
      requires Valid() && pc == PairTop && slot < |order| && trouble == None
      modifies `status, `pc, `trace, `asked, `trouble
      ensures Valid() && old(trace) <= trace
      ensures ok ==> pc == PairTop && trouble == None && Affordable(study, rows) && asked == old(asked) + PAIR
      ensures !ok && trouble == None ==>
                pc == Finishing && status == BudgetExhausted && !Affordable(study, rows)
                && asked == old(asked) + [ArtifactsChanged, CancelRequested]
      ensures !ok && trouble.Some? ==>
                pc == Finishing && LeftPair(old(asked), asked, trouble) && status == Consequence(trouble.value)
    {
      hide Valid, Now, LocalOk, WellFormed, Behaviour, LeftPair, PAIR;
      PairIs();
      ghost var start := asked;
      assert start + [] == start;
      var changed := Ask(ArtifactsChanged);
      NextQuestion(start, PAIR, 0);
      if changed {
        PairLeft(start, 0);
        Fail();
        return false;
      }
      var cancelled := Ask(CancelRequested);
      NextQuestion(start, PAIR, 1);
      if cancelled {
        PairLeft(start, 1);
        StopWith(Cancelled);
        return false;
      }
      if !Within(Plus(Spent(rows), ReserveOf(study, ARMS)), study.limits) {
        StopWith(BudgetExhausted);
        return false;
      }
      var late := Ask(DeadlinePassed);
      NextQuestion(start, PAIR, 2);
      if late {
        PairLeft(start, 2);
        StopWith(BudgetExhausted);
        return false;
      }
      ok := true;
    }

    /** The outer loop. */
    method RunPairs()
      requires Valid() && pc == PairTop && slot == 0 && Calm() && asked == [] && rows == []
      modifies `disk, `ledger, `rows, `status, `pc, `slot, `arm, `trace, `asked, `trouble, `results
      ensures Valid() && old(trace) <= trace && pc == Finishing
      ensures rows == results && AsPlanned(study, order, results)
      ensures Explained(study, Now().proc, asked, trouble) && PaidFor(study, rows, slot)
    {
      hide Valid, Now, LocalOk, WellFormed, Behaviour, Affordable, Explained, PaidFor, Course, AsPlanned;
      NothingPaid(study);
      var more := true;
      var k := 0;
      while k < |order| && more
        invariant Valid() && old(trace) <= trace && 0 <= k <= |order|
        invariant rows == results && AsPlanned(study, order, results) && PaidFor(study, rows, slot)
        invariant more ==> pc == PairTop && slot == k && Calm() && asked == Course(k) && |rows| == 4 * k
        invariant !more ==> pc == Finishing && Explained(study, Now().proc, asked, trouble)
        decreases |order| - k
      {
        more := PayForPair(order[k]);
        k := k + 1;
      }
      if more {
        EndPairs();
      }
    }

    method EndPairs()
      requires Valid() && pc == PairTop && slot == |order| && Calm() && asked == Course(slot)
      modifies `pc, `trace
      ensures Valid() && old(trace) <= trace && pc == Finishing && Explained(study, Now().proc, asked, trouble)
    {
      hide LocalOk, WellFormed, Behaviour;
      PairTopIsCalm(study, Now());
      pc := Finishing;
      assert Step(study, trace[|trace| - 1], Now()) by { assert EndOfOrder(trace[|trace| - 1], Now()); }
      Record();
    }

    /** The finally block; `Lost` when even it could not write its summary. */
    method Conclude() returns (outcome: Outcome)
      requires Valid() && pc == Finishing
      modifies `disk, `status, `closing
      ensures outcome == Lost <==> closing.lost
      ensures outcome == Lost ==> disk == old(disk)
      ensures outcome != Lost ==>
                && !outcome.Refused? && disk == old(disk).(summary := Some(outcome.summary))
                && Finish(old(Now()), disk)
                && outcome.summary.status == (if closing.moved then PointerChanged
                                              else if closing.changed then IdentityChanged else old(status))
                && (outcome.Raised? <==> old(status) == Interrupted)
      ensures DiskOk(study, split, disk)
    {
      hide Behaviour, DiskOk, MemoryOk;
      var failed := status == Interrupted;
      var changed := Environment();
      var moved := Environment();
      var writeFails := Environment();
      closing := Closing(changed, moved, writeFails);
      if writeFails {
        return Lost;
      }
      ghost var before := Now();
      if changed {
        status := IdentityChanged;
      }
      if moved {
        status := PointerChanged;
      }
      var open := Unreconciled(ledger);
      var report := Summary(status, AllPairsComplete(status, open, |rows|, |order|), open);
      disk := disk.(summary := Some(report));
      assert report == Report(before.proc, status);
      FinishKeeps(study, before, disk);
      outcome := if failed then Raised(report) else Reported(report);
    }

    /** `ordered` and `arms` are what the seeded shuffles made of the cases and the arms;
        `developed` says that development evidence is absent or complete. */
    method Run(ordered: seq<Case>, arms: seq<Arm>, developed: bool) returns (outcome: Outcome)
      requires WellFormed(study) && DiskOk(study, split, disk)
      requires multiset(ordered) == multiset(Cases(study, split)) && multiset(arms) == multiset(ARMS)
      modifies this
      ensures DiskOk(study, split, disk)
      ensures outcome == Refused <==> old(disk.made) || (split == Heldout && !developed)
      ensures outcome == Refused ==> disk == old(disk)
      ensures outcome != Refused ==>
                && |arms| == 4 && trace != [] && Behaviour(study, trace)
                && trace[0] == Local(Begun(Plan(ordered, arms)), Fresh(split, Plan(ordered, arms)))
                && Ended(study, trace[|trace| - 1], asked, trouble, results)
                && (outcome == Lost <==> closing.lost)
                && (if outcome == Lost then disk == trace[|trace| - 1].disk
                    else
                      && disk == trace[|trace| - 1].disk.(summary := Some(outcome.summary))
                      && Finish(trace[|trace| - 1], disk)
                      && outcome.summary.status == (if closing.moved then PointerChanged
                                                    else if closing.changed then IdentityChanged
                                                    else trace[|trace| - 1].proc.status)
                      && (outcome.Raised? <==> trace[|trace| - 1].proc.status == Interrupted))
      ensures outcome != Refused && trouble == None && closing == Closing(false, false, false)
              && Within(Times(|Cases(study, split)|, ReserveOf(study, ARMS)), study.limits) ==>
                outcome.Reported? && outcome.summary.status == Complete
                && disk.episodes == results && |results| == 4 * |Cases(study, split)|
    {
      hide LocalOk, Behaviour, DiskOk, WellFormed, Plan, Valid, Now, Explained, PaidFor, AsPlanned, Finish;
      hide Cases, ARMS, Begun, Fresh;
      if (split == Heldout && !developed) || disk.made {
        return Refused;
      }
      Begin(ordered, arms);
      RunPairs();
      ValidNow();
      assert Ended(study, Now(), asked, trouble, results);
      if trouble == None && Within(Times(|Cases(study, split)|, ReserveOf(study, ARMS)), study.limits) {
        FundedRunCompletes(study, Now(), asked, results);
      }
      outcome := Conclude();
    }
  }

  lemma {:induction false} FourAtTop(study: Study, l: Local)
    requires LocalOk(study, l)
    ensures Armed(l.proc.order)
  {
    hide MemoryOk;
  }

  lemma {:induction false} PairTopIsCalm(study: Study, l: Local)
    requires LocalOk(study, l) && l.proc.pc == PairTop
    ensures l.proc.status == Complete
  {
    hide DiskOk;
  }

  lemma {:induction false} NothingPaid(study: Study)
    ensures Course(0) == [] && PaidFor(study, [], 0)
  {
  }

  lemma {:induction false} PaidForMore(study: Study, before: seq<Row>, rows: seq<Row>, pairs: nat, now: nat)
    requires PaidFor(study, before, pairs) && before <= rows
    requires now == pairs || (now == pairs + 1 && Affordable(study, before) && |before| == 4 * pairs
             && 4 * now <= |rows|)
    ensures PaidFor(study, rows, now)
  {
    forall k | 0 <= k < now ensures Affordable(study, rows[..4 * k]) {
      assert rows[..4 * k] == before[..4 * k];
      assert before[..|before|] == before;
    }
  }

  lemma {:induction false} FreshOk(study: Study, split: Split, ordered: seq<Case>, arms: seq<Arm>)
    requires WellFormed(study)
    requires multiset(ordered) == multiset(Cases(study, split)) && multiset(arms) == multiset(ARMS)
    ensures |arms| == 4 && LocalOk(study, Local(Begun(Plan(ordered, arms)), Fresh(split, Plan(ordered, arms))))
  {
    hide LocalOk, Plan, WellFormed;
    assert |arms| == |multiset(arms)| == |ARMS|;
    StartKeeps(study, split, ordered, arms);
  }

  lemma {:induction false} SingleState(study: Study, l: Local)
    ensures Behaviour(study, [l])
  {
  }

  /** A report of "complete" comes with one call and one saved row for each arm of every case. */
  lemma {:induction false} CompleteRunCoversThePlan(study: Study, split: Split, disk: Disk, c: Case, arm: Arm)
    requires DiskOk(study, split, disk) && disk.summary.Some? && disk.summary.value.status == Complete
    ensures disk.summary.value.completePairs && |disk.episodes| == 4 * |Cases(study, split)|
    ensures disk.dispatched == KeysOf(disk.episodes)
    ensures c in Cases(study, split) ==> Occurrences(disk.episodes, Key(c.id, arm)) == 1
  {
    if c in Cases(study, split) { CompleteDisk(study, split, disk, c, arm); }
    forall i | 0 <= i < |disk.episodes| ensures disk.dispatched[i] == RowKey(disk.episodes[i]) {
      assert disk.dispatched[i] == EntryKey(disk.ledger[i]) == RowKey(disk.episodes[i]);
    }
    assert disk.made ==> |disk.dispatched| == |disk.episodes|;
    assert disk.dispatched == KeysOf(disk.episodes);
  }

  function KeysOf(rows: seq<Row>): (r: seq<Key>)
    ensures |r| == |rows| && forall i | 0 <= i < |r| :: r[i] == RowKey(rows[i])
  {
    seq(|rows|, i requires 0 <= i < |rows| => RowKey(rows[i]))
  }

  // ----- a run, cut off anywhere, is a history of the machine -----

  function WorldOf(split: Split, l: Local): World {
    World(FRESH.sites[split := l.disk], map[0 := l.proc])
  }

  function WorldsOf(split: Split, trace: seq<Local>): (ws: seq<World>)
    ensures |ws| == |trace| + 1 && ws[0] == FRESH
    ensures forall i | 0 <= i < |trace| :: ws[i + 1] == WorldOf(split, trace[i])
  {
    [FRESH] + seq(|trace|, i requires 0 <= i < |trace| => WorldOf(split, trace[i]))
  }

  function ActionsOf(split: Split, ordered: seq<Case>, arms: seq<Arm>, trace: seq<Local>): (actions: seq<Action>)
    requires trace != []
    ensures |actions| == |trace| && actions[0] == Start(0, split, ordered, arms)
    ensures forall i | 0 < i < |trace| :: actions[i] == Do(0, trace[i])
  {
    [Start(0, split, ordered, arms)] + seq(|trace| - 1, i requires 0 <= i < |trace| - 1 => Do(0, trace[i + 1]))
  }

  lemma {:induction false} SplitIsFixed(study: Study, trace: seq<Local>, k: nat)
    requires Behaviour(study, trace) && k < |trace|
    ensures trace[k].proc.split == trace[0].proc.split
  {
    if k > 0 {
      SplitIsFixed(study, trace, k - 1);
      assert Step(study, trace[k - 1], trace[k]);
    }
  }

  lemma {:induction false} BothSplits(w: World)
    requires Development in w.sites && Heldout in w.sites
    ensures TypeOk(w)
  {
    forall split: Split ensures split in w.sites {
      match split {
        case Development =>
        case Heldout =>
      }
    }
  }

  lemma {:induction false} StepIsAct(study: Study, split: Split, a: Local, b: Local)
    requires Step(study, a, b) && a.proc.split == b.proc.split == split
    ensures TypeOk(WorldOf(split, a)) && Act(study, WorldOf(split, a), Do(0, b), WorldOf(split, b))
  {
    hide Step;
    var w := WorldOf(split, a);
    BothSplits(w);
    assert Local(w.sites[split], w.procs[0]) == a;
    assert w.sites[split := b.disk] == FRESH.sites[split := b.disk];
  }

  lemma {:induction false} StartIsAct(study: Study, split: Split, ordered: seq<Case>, arms: seq<Arm>, l: Local)
    requires |arms| == 4 && l == Local(Begun(Plan(ordered, arms)), Fresh(split, Plan(ordered, arms)))
    requires multiset(ordered) == multiset(Cases(study, split)) && multiset(arms) == multiset(ARMS)
    ensures TypeOk(FRESH) && Act(study, FRESH, Start(0, split, ordered, arms), WorldOf(split, l))
  {
    BothSplits(FRESH);
    assert FRESH.procs == map[];
  }

  lemma {:induction false} StepAt(study: Study, trace: seq<Local>, i: nat)
    requires Behaviour(study, trace) && 0 < i < |trace|
    ensures Step(study, trace[i - 1], trace[i])
  {
    assert Step(study, trace[i - 1], trace[i - 1 + 1]);
  }

  /** Whatever `Run` has done when it is killed, the machine can do: every safety result above applies to it. */
  lemma {:induction false} RunIsHistory(study: Study, split: Split, ordered: seq<Case>, arms: seq<Arm>,
                                        trace: seq<Local>)
    requires |arms| == 4 && trace != [] && Behaviour(study, trace)
    requires multiset(ordered) == multiset(Cases(study, split)) && multiset(arms) == multiset(ARMS)
    requires trace[0] == Local(Begun(Plan(ordered, arms)), Fresh(split, Plan(ordered, arms)))
    ensures History(study, WorldsOf(split, trace), ActionsOf(split, ordered, arms, trace))
    ensures forall k | 0 <= k < |trace| :: WorldsOf(split, trace)[k + 1].sites[split] == trace[k].disk
  {
    hide Step, Act, Plan, Behaviour;
    var ws, actions := WorldsOf(split, trace), ActionsOf(split, ordered, arms, trace);
    StartIsAct(study, split, ordered, arms, trace[0]);
    forall i | 0 <= i < |ws| ensures TypeOk(ws[i]) { BothSplits(ws[i]); }
    forall i | 0 <= i < |actions| ensures Act(study, ws[i], actions[i], ws[i + 1]) {
      if i > 0 {
        SplitIsFixed(study, trace, i - 1);
        SplitIsFixed(study, trace, i);
        StepAt(study, trace, i);
        StepIsAct(study, split, trace[i - 1], trace[i]);
      }
    }
  }
}
