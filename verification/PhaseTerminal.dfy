/** What becomes of the stored phase once the epic is closed and marked done, with all
    other writers still running (cmd/mindspec/repair.go). */
module PhaseTerminal {
  import opened Common
  import opened PhaseCache
  import opened PhaseProtocol

  /** The lifecycle order knows the stored phase. */
  predicate Comparable(f: Field) {
    f in {Known(Spec), Known(Plan), Known(Implement), Known(Review), Known(Done)}
  }

  /** The epic is finished, and a repair that pid has decided on writes done, or writes
      nothing over a phase it could not compare. */
  ghost predicate RepairsToDone(s: State, pid: Pid) {
    && LockInv(s) && s.done
    && (InSection(s, pid) && s.tasks[pid].todo[0].Repair? && s.tasks[pid].stage.Decided? ==>
          s.tasks[pid].stage.decision.write ==
            if s.tasks[pid].todo[0].force || Comparable(s.field) then Some(Done) else None)
  }

  lemma StaysDone(s: State, e: Event, s': State)
    requires Next(s, e) == Some(s') && s.done
    ensures s'.done
  {
    hide Derive, Decide, SetStatus, LostByFailure, LostByStopping, AfterFailure;
    if OutsideLock(e) { hide OutsideMove; }
  }

  lemma RepairsStay(s: State, e: Event, s': State, pid: Pid)
    requires RepairsToDone(s, pid) && Next(s, e) == Some(s')
    ensures RepairsToDone(s', pid)
  {
    LockInvKept(s, s', e);
    StaysDone(s, e, s');
    if InSection(s', pid) && s'.tasks[pid].todo[0].Repair? && s'.tasks[pid].stage.Decided? {
      if e == DecideInLock(pid) {
        DecidesDone(s, pid, s');
      } else {
        DecidedBefore(s, e, s', pid);
      }
    }
  }

  lemma DecidesDone(s: State, pid: Pid, s': State)
    requires LockInv(s) && s.done && Next(s, DecideInLock(pid)) == Some(s') && s.tasks[pid].todo[0].Repair?
    ensures s'.field == s.field && pid in s'.tasks && s'.tasks[pid].Sections? && s'.tasks[pid].todo == s.tasks[pid].todo
    ensures s'.tasks[pid].stage.Decided? && s'.tasks[pid].stage.decision.write ==
      if s.tasks[pid].todo[0].force || Comparable(s.field) then Some(Done) else None
  {
    assert TaskOk(s, pid, s.tasks[pid]);
    RepairOfFinished(s.tasks[pid].todo[0].force, s.field, s.marker, s.children);
    hide Derive, LockInv;
  }

  /** A decision that is not made by this step was there before it, and its process still
      holds the lock, so nobody has stored anything. */
  lemma DecidedBefore(s: State, e: Event, s': State, pid: Pid)
    requires LockInv(s) && Next(s, e) == Some(s') && e != DecideInLock(pid)
    requires InSection(s', pid) && s'.tasks[pid].stage.Decided?
    ensures InSection(s, pid) && s.tasks[pid] == s'.tasks[pid] && s'.field == s.field
  {
    hide Derive, Decide, SetStatus, LostByFailure, LostByStopping;
    if OutsideLock(e) {
      MoveIsOutside(s, e);
      hide OutsideMove;
    }
  }

  lemma {:induction false} RepairsRun(s: State, run: seq<Event>, s': State, pid: Pid)
    requires RepairsToDone(s, pid) && Exec(s, run) == Some(s')
    ensures RepairsToDone(s', pid)
    decreases |run|
  {
    if run != [] {
      var s1 := Next(s, run[0]).value;
      RepairsStay(s, run[0], s1, pid);
      RepairsRun(s1, run[1..], s', pid);
    }
  }

  /** From the moment the epic is finished, in every interleaving: a repair that had not
      decided yet stores done and nothing else, forced or not; it stores nothing exactly
      when it is unforced over a phase that is missing, invalid or idle. In particular a
      stored done stays. */
  lemma RepairKeepsDone(s0: State, before: seq<Event>, s: State, run: seq<Event>, s1: State, pid: Pid, s': State)
    requires Start(s0) && Exec(s0, before) == Some(s) && s.done
    requires pid in s.tasks && s.tasks[pid].Sections? ==> !s.tasks[pid].stage.Decided?
    requires Exec(s, run) == Some(s1) && Next(s1, Commit(pid)) == Some(s')
    requires pid in s1.tasks && s1.tasks[pid].Sections? && s1.tasks[pid].todo != [] && s1.tasks[pid].todo[0].Repair?
    ensures s'.field ==
      if s1.tasks[pid].todo[0].force
         || s1.field in {Known(Spec), Known(Plan), Known(Implement), Known(Review), Known(Done)}
      then Known(Done) else s1.field
    ensures s1.field == Known(Done) ==> s'.field == Known(Done)
  {
    RunLock(s0, before, s);
    RepairsRun(s, run, s1, pid);
    CommitEnds(s1, pid, s');
    hide Next, LockInv, Derive;
  }

  lemma {:induction false} RunLock(s: State, run: seq<Event>, s': State)
    requires LockInv(s) && Exec(s, run) == Some(s')
    ensures LockInv(s')
    decreases |run|
  {
    if run != [] {
      LockInvKept(s, Next(s, run[0]).value, run[0]);
      RunLock(Next(s, run[0]).value, run[1..], s');
    }
  }
}
