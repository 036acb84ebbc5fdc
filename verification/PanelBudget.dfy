/** What one launch invocation can do at most, whatever other slots and invocations do in
    between (cmd/mindspec/panel_launch.go). */
module PanelBudget {
  import opened Common
  import opened PanelLedger
  import opened PanelProtocol

  /** The steps of one process: process starts, retries, and switches to the substitute. */
  datatype Tally = Tally(starts: nat, retries: nat, switches: nat)

  function Add(t: Tally, e: Event, pid: Pid): Tally {
    if e == Register(pid) then t.(starts := t.starts + 1)
    else if e == Retry(pid) then t.(retries := t.retries + 1)
    else if e.Substitute? && e.pid == pid then t.(switches := t.switches + 1)
    else t
  }

  function TallyOf(run: seq<Event>, pid: Pid): Tally {
    if run == [] then Tally(0, 0, 0) else Add(TallyOf(run[1..], pid), run[0], pid)
  }

  /** One start is due until a process runs, and one again after a retry or a switch. */
  function StartsDue(pc: LaunchPc): nat {
    if pc.LRunning? || pc.LJudged? then 0 else 1
  }

  function RetriesLeft(pc: LaunchPc): nat {
    match pc
    case LReady(retried) => if retried then 0 else 1
    case LPrepared(_, retried) => if retried then 0 else 1
    case LRunning(_, retried) => if retried then 0 else 1
    case LJudged(_, retried) => if retried then 0 else 1
    case _ => 1
  }

  function SwitchesLeft(l: Ledger, key: SlotKey): nat { if Substituted(l, key) then 0 else 1 }

  /** What the process can still do in s. */
  function Budget(s: State, pid: Pid, key: SlotKey): Tally {
    if pid !in s.procs || !s.procs[pid].Launcher? then Tally(0, 0, 0)
    else
      var pc := s.procs[pid].lpc;
      Tally(StartsDue(pc), RetriesLeft(pc), SwitchesLeft(s.ledger, key))
  }

  /** A step uses up what it does; a start becomes due again only for a retry or a switch. */
  predicate Covers(b: Tally, e: Event, b': Tally, pid: Pid) {
    var t := Add(Tally(0, 0, 0), e, pid);
    && t.retries + b'.retries <= b.retries && t.switches + b'.switches <= b.switches
    && t.starts + b'.starts <= b.starts + t.retries + t.switches
  }

  ghost predicate Launches(s: State, pid: Pid, key: SlotKey) {
    pid in s.procs ==> s.procs[pid].Launcher? && s.procs[pid].key == key
  }

  lemma SwitchesOnlyShrink(s: State, s': State, e: Event, key: SlotKey)
    requires Next(s, e) == Some(s')
    ensures SwitchesLeft(s'.ledger, key) <= SwitchesLeft(s.ledger, key)
  {
    StepExtendsLedger(s, s', e);
    hide Next;
    if Substituted(s.ledger, key) {
      var i :| 0 <= i < |s.ledger| && s.ledger[i].Substitution? && s.ledger[i].key == key;
      assert s'.ledger[i] == s.ledger[i];
    }
  }

  /** Steps of others leave a process where it is. */
  lemma OthersLeaveProc(s: State, s': State, e: Event, pid: Pid)
    requires Next(s, e) == Some(s') && !(HasPid(e) && e.pid == pid)
    ensures pid in s'.procs <==> pid in s.procs
    ensures pid in s.procs ==> s'.procs[pid] == s.procs[pid]
  {
    hide IsNextAttempt, Substituted, OpenStartedSet, AppendLocked, LatestStart, HasEnd, HasStatus;
    if HasPid(e) && e.pid in s.procs && !e.Begin? && !e.Stop? && !e.Acquire? {
      match s.procs[e.pid]
      case Launcher(key, pc) => LauncherLeavesOthers(s, s', e, key, pc, pid);
      case Dispatcher(key, pc) => DispatcherLeavesOthers(s, s', e, key, pc, pid);
      case Cleaner(affected, pc) => CleanerLeavesOthers(s, s', e, affected, pc, pid);
    } else {
      hide StepLauncher, StepDispatcher, StepCleaner;
    }
  }

  lemma LauncherLeavesOthers(s: State, s': State, e: Event, key: SlotKey, pc: LaunchPc, pid: Pid)
    requires HasPid(e) && e.pid != pid && StepLauncher(s, e.pid, key, pc, e) == Some(s')
    ensures pid in s'.procs <==> pid in s.procs
    ensures pid in s.procs ==> s'.procs[pid] == s.procs[pid]
  {
    hide IsNextAttempt, Substituted, OpenStartedSet, AppendLocked;
  }

  lemma DispatcherLeavesOthers(s: State, s': State, e: Event, key: SlotKey, pc: DispatchPc, pid: Pid)
    requires HasPid(e) && e.pid != pid && StepDispatcher(s, e.pid, key, pc, e) == Some(s')
    ensures pid in s'.procs <==> pid in s.procs
    ensures pid in s.procs ==> s'.procs[pid] == s.procs[pid]
  {
    hide IsNextAttempt, AppendLocked;
  }

  lemma CleanerLeavesOthers(s: State, s': State, e: Event, affected: seq<SlotKey>, pc: CleanPc, pid: Pid)
    requires HasPid(e) && e.pid != pid && StepCleaner(s, e.pid, affected, pc, e) == Some(s')
    ensures pid in s'.procs <==> pid in s.procs
    ensures pid in s.procs ==> s'.procs[pid] == s.procs[pid]
  {
    hide OpenStartedSet, AppendLocked;
  }

  lemma OwnStepCovered(s: State, s': State, e: Event, pid: Pid, key: SlotKey)
    requires Next(s, e) == Some(s') && HasPid(e) && e.pid == pid && !e.Begin? && Launches(s, pid, key)
    ensures Launches(s', pid, key) && Covers(Budget(s, pid, key), e, Budget(s', pid, key), pid)
  {
    hide StepLauncher, SwitchesLeft, Substituted;
    SwitchesOnlyShrink(s, s', e, key);
    if e.Substitute? { SwitchUsesUp(s, s', e, key); }
    if !e.Stop? && !e.Acquire? { OwnLauncherStep(s, s', e, key, s.procs[pid].lpc); }
  }

  lemma OwnLauncherStep(s: State, s': State, e: Event, key: SlotKey, pc: LaunchPc)
    requires HasPid(e) && StepLauncher(s, e.pid, key, pc, e) == Some(s')
    ensures e.pid in s'.procs && s'.procs[e.pid].Launcher? && s'.procs[e.pid].key == key
    ensures var pc' := s'.procs[e.pid].lpc;
      var t := Add(Tally(0, 0, 0), e, e.pid);
      && t.retries + RetriesLeft(pc') <= RetriesLeft(pc)
      && t.starts + StartsDue(pc') <= StartsDue(pc) + t.retries + t.switches
  {
    hide IsNextAttempt, Substituted, OpenStartedSet, AppendLocked;
  }

  lemma OthersStepCovered(s: State, s': State, e: Event, pid: Pid, key: SlotKey)
    requires Next(s, e) == Some(s') && !(HasPid(e) && e.pid == pid) && Launches(s, pid, key)
    ensures Launches(s', pid, key) && Covers(Budget(s, pid, key), e, Budget(s', pid, key), pid)
  {
    hide Next, Substituted;
    OthersLeaveProc(s, s', e, pid);
    SwitchesOnlyShrink(s, s', e, key);
  }

  lemma SwitchUsesUp(s: State, s': State, e: Event, key: SlotKey)
    requires Next(s, e) == Some(s') && e.Substitute? && Launches(s, e.pid, key)
    ensures SwitchesLeft(s.ledger, key) == 1 && SwitchesLeft(s'.ledger, key) == 0
  {
    var r := Substitution(key, e.toFamily);
    assert r !in s.ledger;
    AppendOne(s.ledger, r);
    assert s'.ledger[|s.ledger|] == r;
  }

  lemma {:induction false} BudgetIsKept(s: State, run: seq<Event>, pid: Pid, key: SlotKey)
    requires Exec(s, run).Some? && Launches(s, pid, key) && forall e | e in run && e.Begin? :: e.pid != pid
    ensures var t, b := TallyOf(run, pid), Budget(s, pid, key);
      && t.retries <= b.retries && t.switches <= b.switches && t.starts <= b.starts + t.retries + t.switches
    decreases |run|
  {
    if run != [] {
      var e, s' := run[0], Next(s, run[0]).value;
      if HasPid(e) && e.pid == pid {
        OwnStepCovered(s, s', e, pid, key);
      } else {
        OthersStepCovered(s, s', e, pid, key);
      }
      hide Next, Budget, Launches;
      assert forall e' | e' in run[1..] :: e' in run;
      BudgetIsKept(s', run[1..], pid, key);
    }
  }

  /** One invocation, from its beginning to any later moment, with steps of all other
      processes in between: at most one retry, at most one switch to the substitute
      family, and at most one process start more than both together. */
  lemma InvocationIsBounded(s: State, run: seq<Event>, pid: Pid, key: SlotKey)
    requires Exec(s, [Begin(pid, Launcher(key, LWant))] + run).Some?
    requires forall e | e in run && e.Begin? :: e.pid != pid
    ensures var t := TallyOf(run, pid);
      t.retries <= 1 && t.switches <= 1 && t.starts <= 1 + t.retries + t.switches <= 3
  {
    var begin := Begin(pid, Launcher(key, LWant));
    assert ([begin] + run)[1..] == run;
    BudgetIsKept(Next(s, begin).value, run, pid, key);
  }
}
