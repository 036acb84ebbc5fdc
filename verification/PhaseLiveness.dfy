/** No deadlock: after any run of the locked writers, every verb under way can finish
    (internal/phase/phaselock.go). */
module PhaseLiveness {
  import opened Common
  import opened PhaseCache
  import opened PhaseProtocol

  ghost predicate BeadsExist(s: State) {
    forall p | p in s.tasks && s.tasks[p].Releasing? :: s.tasks[p].bead < |s.children|
  }

  function Work(t: Task): nat {
    match t
    case Releasing(_, _) => 10
    case Completing => 6
    case Sections(todo, stage) =>
      3 * |todo| + 2 + match stage case Outside => 0 case Holding(_, _) => -1 case Decided(_) => -2
  }

  predicate NoFailure(run: seq<Event>) {
    forall i | 0 <= i < |run| :: !run[i].SectionFails? && !run[i].Crash?
  }

  /** A task took a step towards its end, and the lock is its own or free. */
  predicate Advanced(s: State, s': State, pid: Pid)
    requires pid in s.tasks
  {
    && (s'.lock == None || s'.lock == Some(pid))
    && (if pid in s'.tasks
        then s'.tasks == s.tasks[pid := s'.tasks[pid]] && Work(s'.tasks[pid]) < Work(s.tasks[pid])
        else s'.tasks == s.tasks - {pid} && s'.lock == None)
  }

  lemma UnlockedTaskAdvances(s: State, pid: Pid, e: Event)
    requires pid in s.tasks && !s.tasks[pid].Sections? && s.lock == None
    requires e == if s.tasks[pid].Releasing? then ReleaseOpen(pid) else CompleteDerive(pid)
    requires BeadsExist(s)
    ensures Next(s, e).Some? && Advanced(s, Next(s, e).value, pid)
    ensures |Next(s, e).value.children| == |s.children|
  {
  }

  lemma SectionTaskAdvances(s: State, pid: Pid, e: Event)
    requires pid in s.tasks && s.tasks[pid].Sections? && s.tasks[pid].todo != []
    requires s.lock == if s.tasks[pid].stage.Outside? then None else Some(pid)
    requires e == (match s.tasks[pid].stage
                   case Outside => Acquire(pid)
                   case Holding(_, _) => DecideInLock(pid)
                   case Decided(_) => Commit(pid))
    ensures Next(s, e).Some? && Advanced(s, Next(s, e).value, pid)
    ensures |Next(s, e).value.children| == |s.children|
  {
  }

  /** The next step of a task that holds the lock or finds it free. */
  lemma TaskAdvances(s: State, pid: Pid) returns (e: Event, s': State)
    requires LockInv(s) && BeadsExist(s) && pid in s.tasks && (s.lock == None || s.lock == Some(pid))
    ensures Next(s, e) == Some(s') && !e.SectionFails? && !e.Crash?
    ensures LockInv(s') && |s'.children| == |s.children| && Advanced(s, s', pid)
    ensures pid in s'.tasks ==> !s'.tasks[pid].Releasing?
  {
    var t := s.tasks[pid];
    if t.Sections? {
      e := match t.stage
           case Outside => Acquire(pid)
           case Holding(_, _) => DecideInLock(pid)
           case Decided(_) => Commit(pid);
      SectionTaskAdvances(s, pid, e);
    } else {
      e := if t.Releasing? then ReleaseOpen(pid) else CompleteDerive(pid);
      UnlockedTaskAdvances(s, pid, e);
    }
    s' := Next(s, e).value;
    LockInvKept(s, s', e);
  }

  lemma {:induction false} TaskFinishes(s: State, pid: Pid) returns (run: seq<Event>, s': State)
    requires LockInv(s) && BeadsExist(s) && pid in s.tasks && (s.lock == None || s.lock == Some(pid))
    ensures Exec(s, run) == Some(s') && NoFailure(run)
    ensures LockInv(s') && BeadsExist(s') && s'.lock == None && s'.tasks == s.tasks - {pid}
    decreases Work(s.tasks[pid])
  {
    var e, s1 := TaskAdvances(s, pid);
    if pid in s1.tasks {
      run, s' := TaskFinishes(s1, pid);
      run := [e] + run;
    } else {
      run, s' := [e], s1;
      assert [e][1..] == [];
    }
  }

  lemma {:induction false} ExecConcat(s: State, r1: seq<Event>, s1: State, r2: seq<Event>)
    requires Exec(s, r1) == Some(s1)
    ensures Exec(s, r1 + r2) == Exec(s1, r2)
    decreases |r1|
  {
    if r1 == [] {
      assert r1 + r2 == r2;
    } else {
      assert (r1 + r2)[1..] == r1[1..] + r2;
      ExecConcat(Next(s, r1[0]).value, r1[1..], s1, r2);
    }
  }

  lemma {:induction false} QuiescingRun(s: State) returns (run: seq<Event>, s': State)
    requires LockInv(s) && BeadsExist(s)
    ensures Exec(s, run) == Some(s') && NoFailure(run) && Quiescent(s')
    decreases |s.tasks|
  {
    if s.tasks == map[] {
      run, s' := [], s;
    } else {
      var pid :| pid in s.tasks && (s.lock == None || s.lock == Some(pid));
      var r1, s1 := TaskFinishes(s, pid);
      FewerTasks(s.tasks, pid);
      var r2, s2 := QuiescingRun(s1);
      ExecConcat(s, r1, s1, r2);
      run, s' := r1 + r2, s2;
    }
  }

  lemma BeadsStayThere(s: State, e: Event, s': State)
    requires BeadsExist(s) && Next(s, e) == Some(s')
    ensures BeadsExist(s')
  {
    hide Derive, Decide;
    ChildrenStayThere(s, e, s');
    if OutsideLock(e) {
      MovedBead(s, e);
      hide OutsideMove;
    } else {
      NoNewReleases(s, e, s');
      hide Next;
    }
  }

  lemma MovedBead(s: State, e: Event)
    requires OutsideLock(e) && OutsideMove(s, e).Some?
    ensures var task := OutsideMove(s, e).value.task;
      task.Some? && task.value.Releasing? ==> task.value.bead < |s.children|
  {
    hide Derive, SetStatus;
  }

  lemma NoNewReleases(s: State, e: Event, s': State)
    requires !OutsideLock(e) && Next(s, e) == Some(s')
    ensures forall p | p in s'.tasks && s'.tasks[p].Releasing? :: p in s.tasks && s'.tasks[p] == s.tasks[p]
  {
    hide Derive, Decide, SetStatus, LostByFailure, LostByStopping, AfterFailure, OutsideMove;
  }

  lemma ChildrenStayThere(s: State, e: Event, s': State)
    requires Next(s, e) == Some(s')
    ensures |s'.children| >= |s.children|
  {
    hide Derive, Decide, LostByFailure, LostByStopping, AfterFailure;
    if OutsideLock(e) {
      MoveKeepsCount(s, e);
      hide OutsideMove;
    }
  }

  lemma MoveKeepsCount(s: State, e: Event)
    requires OutsideLock(e) && OutsideMove(s, e).Some?
    ensures |OutsideMove(s, e).value.children| == |s.children|
  {
    hide Derive;
  }

  lemma {:induction false} RunKeepsLock(s: State, run: seq<Event>, s': State)
    requires LockInv(s) && BeadsExist(s) && Exec(s, run) == Some(s')
    ensures LockInv(s') && BeadsExist(s')
    decreases |run|
  {
    if run != [] {
      var s1 := Next(s, run[0]).value;
      LockInvKept(s, s1, run[0]);
      BeadsStayThere(s, run[0], s1);
      RunKeepsLock(s1, run[1..], s');
    }
  }

  /** No verb can block the others for good: after any run, some further run without a
      failure brings all verbs under way to their end. */
  lemma CanQuiesce(s: State, run: seq<Event>, s1: State)
    requires Start(s) && Exec(s, run) == Some(s1)
    ensures exists more :: NoFailure(more) && Exec(s1, more).Some? && Quiescent(Exec(s1, more).value)
  {
    RunKeepsLock(s, run, s1);
    var more, s' := QuiescingRun(s1);
  }

  lemma FewerTasks(m: map<Pid, Task>, pid: Pid)
    requires pid in m
    ensures |m - {pid}| < |m|
  {
  }
}
