/** The slot protocol of one panel as a state machine: launches, dispatches and
    cleanups interleave, each may stop anywhere, and only the ledger, the slot
    directories and the locks of living processes survive
    (cmd/mindspec/panel_launch.go, cmd/mindspec/panel_checkout.go). */
module PanelProtocol {
  import opened Common
  import opened PanelLedger

  type Pid = nat

  datatype LaunchPc =
    | LWant
    | LLocked
    | LClosing(orphans: set<nat>)
    | LReady(retried: bool)
    | LPrepared(attempt: nat, retriedYet: bool)
    | LRunning(current: nat, retriedBefore: bool)
    | LJudged(outcome: Status, alreadyRetried: bool)

  datatype DispatchPc =
    | DWant
    | DLocked
    | DRead(before: Ledger)
    | DPlanned(snapshot: Ledger, attempt: nat, batch: seq<Record>)
    | DFinished

  datatype CleanPc =
    | CAcquiring(next: nat, held: set<SlotKey>, failed: bool)
    | CChecking(index: nat, orphans: Option<set<nat>>, orphanFailed: bool)
    | CRemoving(removed: nat)

  /** A running verb. Whatever it remembers is lost when it stops. */
  datatype Proc =
    | Launcher(key: SlotKey, lpc: LaunchPc)
    | Dispatcher(slot: SlotKey, dpc: DispatchPc)
    | Cleaner(affected: seq<SlotKey>, cpc: CleanPc)

  datatype State = State(
    ledger: Ledger,
    round: nat,
    owner: map<SlotKey, Pid>,           // kernel-held slot locks
    dirs: map<SlotKey, set<nat>>,       // slot directories and the attempt numbers reserved in them
    procs: map<Pid, Proc>)

  /** The slot locks a process has taken. */
  function HeldBy(p: Proc): set<SlotKey> {
    match p
    case Launcher(key, lpc) => if lpc.LWant? then {} else {key}
    case Dispatcher(key, dpc) => if dpc.DWant? then {} else {key}
    case Cleaner(affected, CAcquiring(_, held, _)) => held
    case Cleaner(affected, _) => set k | k in affected
  }

  predicate Starting(p: Proc) {
    match p
    case Launcher(_, lpc) => lpc == LWant
    case Dispatcher(_, dpc) => dpc == DWant
    case Cleaner(affected, cpc) =>
      cpc == CAcquiring(0, {}, false) && forall i, j | 0 <= i < j < |affected| :: affected[i] != affected[j]
  }

  // ----- Decisions read off the ledger -----

  function OpenStartedSet(l: Ledger, key: SlotKey): set<nat> {
    set a | 0 <= a < LedgerNext(l, key) && OpenStarted(l, key, a)
  }

  /** panel.NextAttemptNumber: one more than the highest number in the ledger or the slot directory. */
  predicate IsNextAttempt(l: Ledger, reserved: set<nat>, key: SlotKey, k: nat) {
    LedgerNext(l, key) <= k
    && (forall d | d in reserved :: d < k)
    && (k == LedgerNext(l, key) || (k > 0 && k - 1 in reserved))
  }

  predicate Substituted(l: Ledger, key: SlotKey) {
    exists i | 0 <= i < |l| :: l[i].Substitution? && l[i].key == key
  }

  /** The opening record with the highest attempt number, the later one on a tie. */
  function LatestStart(l: Ledger, key: SlotKey): (r: Option<Record>)
    ensures r.Some? ==> r.value in l && r.value.Launch? && r.value.key == key && r.value.status.Opens()
  {
    if l == [] then None
    else
      var best := LatestStart(l[..|l| - 1], key);
      var r := l[|l| - 1];
      if r.Launch? && r.key == key && r.status.Opens() && (best == None || r.attempt >= best.value.attempt)
      then Some(r) else best
  }

  /** No process attempt of the slot has a higher number. */
  predicate LastStarted(l: Ledger, key: SlotKey, k: nat) {
    forall i | 0 <= i < |l| && l[i].Launch? && l[i].key == key && l[i].status.Started? :: l[i].attempt <= k
  }

  function Reserved(s: State, key: SlotKey): set<nat> {
    if key in s.dirs then s.dirs[key] else {}
  }

  // ----- Steps -----

  datatype Event =
    | Begin(pid: Pid, proc: Proc)
    | Acquire(pid: Pid)
    | Stop(pid: Pid)                                 // return, error or crash
    // launch
    | ReadOrphans(pid: Pid)
    | CloseOrphan(pid: Pid, k: nat)
    | OrphansClosed(pid: Pid)
    | Prepare(pid: Pid, k: nat)
    | Register(pid: Pid)
    | RecordOutcome(pid: Pid, status: Status)
    | Retry(pid: Pid)
    | Substitute(pid: Pid, toFamily: string)
    // dispatch
    | ReadLedger(pid: Pid)
    | Plan(pid: Pid, k: nat)
    | Commit(pid: Pid)
    | ReserveThenStop(pid: Pid)
    // cleanup
    | TryLock(pid: Pid, faulty: bool)  // faulty: an error other than a held lock
    | AllLocked(pid: Pid)
    | CheckNext(pid: Pid, stopFailed: bool)
    | AllChecked(pid: Pid)
    | RemoveNext(pid: Pid)
    // verbs that take no slot lock, or take and release it in one step
    | AppendNonLaunch(record: Record)
    | SettleDispatched(slot: SlotKey)
    | RecoverOutcome(slot: SlotKey, k: nat)
    | NewRound

  predicate HasPid(e: Event) {
    !e.AppendNonLaunch? && !e.SettleDispatched? && !e.RecoverOutcome? && !e.NewRound?
  }

  function Drop(s: State, pid: Pid): State {
    s.(procs := s.procs - {pid}, owner := map k | k in s.owner && s.owner[k] != pid :: s.owner[k])
  }

  function SetProc(s: State, pid: Pid, p: Proc): State {
    s.(procs := s.procs[pid := p])
  }

  /** Appends one record and moves on, or is refused as a conflict. */
  function AppendThen(s: State, r: Record, pid: Pid, p: Proc): Option<State> {
    match AppendLocked(s.ledger, [r])
    case None => None
    case Some(l) => Some(SetProc(s, pid, p).(ledger := l))
  }

  function StepLauncher(s: State, pid: Pid, key: SlotKey, pc: LaunchPc, e: Event): Option<State> {
    match (e, pc)
    case (ReadOrphans(_), LLocked) =>
      if s.round == key.round then Some(SetProc(s, pid, Launcher(key, LClosing(OpenStartedSet(s.ledger, key)))))
      else None
    case (CloseOrphan(_, k), LClosing(todo)) =>
      if k in todo && forall m | m in todo :: k <= m
      then AppendThen(s, Launch(key, k, LaunchFailed), pid, Launcher(key, LClosing(todo - {k})))
      else None
    case (OrphansClosed(_), LClosing(todo)) =>
      if todo == {} then Some(SetProc(s, pid, Launcher(key, LReady(false)))) else None
    case (Prepare(_, k), LReady(retried)) =>
      if IsNextAttempt(s.ledger, Reserved(s, key), key, k)
      then Some(SetProc(s, pid, Launcher(key, LPrepared(k, retried))).(dirs := s.dirs[key := Reserved(s, key) + {k}]))
      else None
    case (Register(_), LPrepared(k, retried)) =>
      if s.round == key.round
      then AppendThen(s, Launch(key, k, Started), pid, Launcher(key, LRunning(k, retried))) else None
    case (RecordOutcome(_, st), LRunning(k, retried)) =>
      if !st.Opens() then AppendThen(s, Launch(key, k, st), pid, Launcher(key, LJudged(st, retried))) else None
    case (Retry(_), LJudged(st, retried)) =>
      if st == Malformed && !retried then Some(SetProc(s, pid, Launcher(key, LReady(true)))) else None
    case (Substitute(_, to), LJudged(st, retried)) =>
      if st == QuotaWall && !Substituted(s.ledger, key)
      then AppendThen(s, Substitution(key, to), pid, Launcher(key, LReady(retried))) else None
    case _ => None
  }

  function StepDispatcher(s: State, pid: Pid, key: SlotKey, pc: DispatchPc, e: Event): Option<State> {
    match (e, pc)
    case (ReadLedger(_), DLocked) =>
      if s.round == key.round then Some(SetProc(s, pid, Dispatcher(key, DRead(s.ledger)))) else None
    case (Plan(_, k), DRead(before)) =>
      if IsNextAttempt(s.ledger, Reserved(s, key), key, k)
      then Some(SetProc(s, pid, Dispatcher(key, DPlanned(before, k, DispatchBatch(s.ledger, key, k))))) else None
    case (Commit(_), DPlanned(before, k, batch)) =>
      // The comparison, the exclusive mkdir and the append share one ledger-lock hold.
      if s.round == key.round && s.ledger == before && k !in Reserved(s, key) then
        match AppendLocked(s.ledger, batch)
        case None => None
        case Some(l) =>
          Some(SetProc(s, pid, Dispatcher(key, DFinished)).(ledger := l, dirs := s.dirs[key := Reserved(s, key) + {k}]))
      else None
    case (ReserveThenStop(_), DPlanned(before, k, _)) =>
      if s.round == key.round && s.ledger == before && k !in Reserved(s, key)
      then Some(Drop(s.(dirs := s.dirs[key := Reserved(s, key) + {k}]), pid)) else None
    case _ => None
  }

  function StepCleaner(s: State, pid: Pid, affected: seq<SlotKey>, pc: CleanPc, e: Event): Option<State> {
    match (e, pc)
    case (TryLock(_, faulty), CAcquiring(i, held, failed)) =>
      if i >= |affected| then None
      else if faulty || affected[i] in s.owner then
        Some(SetProc(s, pid, Cleaner(affected, CAcquiring(i + 1, held, true))))
      else
        Some(SetProc(s, pid, Cleaner(affected, CAcquiring(i + 1, held + {affected[i]}, failed)))
             .(owner := s.owner[affected[i] := pid]))
    case (AllLocked(_), CAcquiring(i, held, failed)) =>
      if i == |affected| && !failed then Some(SetProc(s, pid, Cleaner(affected, CChecking(0, None, false)))) else None
    case (ReadOrphans(_), CChecking(i, None, failed)) =>
      if i < |affected|
      then Some(SetProc(s, pid, Cleaner(affected, CChecking(i, Some(OpenStartedSet(s.ledger, affected[i])), failed))))
      else None
    case (CloseOrphan(_, k), CChecking(i, Some(todo), failed)) =>
      if i < |affected| && k in todo && forall m | m in todo :: k <= m
      then AppendThen(s, Launch(affected[i], k, LaunchFailed), pid,
                      Cleaner(affected, CChecking(i, Some(todo - {k}), failed)))
      else None
    case (CheckNext(_, stopFailed), CChecking(i, Some(todo), failed)) =>
      if i < |affected| && (stopFailed || todo == {})
      then Some(SetProc(s, pid, Cleaner(affected, CChecking(i + 1, None, failed || stopFailed)))) else None
    case (AllChecked(_), CChecking(i, None, failed)) =>
      if i == |affected| && !failed then Some(SetProc(s, pid, Cleaner(affected, CRemoving(0)))) else None
    case (RemoveNext(_), CRemoving(i)) =>
      if i < |affected|
      then Some(SetProc(s, pid, Cleaner(affected, CRemoving(i + 1))).(dirs := s.dirs - {affected[i]}))
      else None
    case _ => None
  }

  /** One step; None when it is not possible in s. */
  function Next(s: State, e: Event): Option<State> {
    match e
    case Begin(pid, p) => if pid !in s.procs && Starting(p) then Some(SetProc(s, pid, p)) else None
    case Stop(pid) => if pid in s.procs then Some(Drop(s, pid)) else None
    case Acquire(pid) =>
      if pid !in s.procs then None
      else (match s.procs[pid]
            case Launcher(key, LWant) =>
              if key in s.owner then None
              else Some(SetProc(s, pid, Launcher(key, LLocked)).(owner := s.owner[key := pid]))
            case Dispatcher(key, DWant) =>
              if key in s.owner then None
              else Some(SetProc(s, pid, Dispatcher(key, DLocked)).(owner := s.owner[key := pid]))
            case _ => None)
    case AppendNonLaunch(r) =>
      if r.Launch? || r.Substitution? then None
      else (match AppendLocked(s.ledger, [r]) case None => None case Some(l) => Some(s.(ledger := l)))
    case SettleDispatched(key) =>
      (match LatestStart(s.ledger, key)
       case Some(r) =>
         if r.status.Dispatched? && !HasEnd(s.ledger, key, r.attempt)
         then Some(s.(ledger := s.ledger + [Launch(key, r.attempt, Submitted)])) else None
       case None => None)
    case RecoverOutcome(key, k) =>
      if key !in s.owner && HasStatus(s.ledger, key, k, Started) && HasEnd(s.ledger, key, k)
         && LastStarted(s.ledger, key, k)
      then (match AppendLocked(s.ledger, [Launch(key, k, Submitted)])
            case None => None
            case Some(l) => Some(s.(ledger := l)))
      else None
    case NewRound => Some(s.(round := s.round + 1))
    case _ =>
      if e.pid !in s.procs then None
      else match s.procs[e.pid]
        case Launcher(key, pc) => StepLauncher(s, e.pid, key, pc, e)
        case Dispatcher(key, pc) => StepDispatcher(s, e.pid, key, pc, e)
        case Cleaner(affected, pc) => StepCleaner(s, e.pid, affected, pc, e)
  }

  function Exec(s: State, run: seq<Event>): Option<State>
    decreases |run|
  {
    if run == [] then Some(s)
    else match Next(s, run[0]) case None => None case Some(s') => Exec(s', run[1..])
  }

  ghost predicate Reachable(s: State) {
    exists round, run :: Exec(State([], round, map[], map[], map[]), run) == Some(s)
  }

  // ----- The invariant -----

  ghost predicate LauncherOk(l: Ledger, key: SlotKey, pc: LaunchPc) {
    match pc
    case LWant => true
    case LLocked => true
    case LClosing(todo) => forall a: nat :: OpenStarted(l, key, a) <==> a in todo
    case LReady(_) => NoOpenStarted(l, key)
    case LPrepared(k, _) => NoOpenStarted(l, key) && LedgerNext(l, key) <= k
    case LRunning(k, _) => forall a: nat :: OpenStarted(l, key, a) <==> a == k
    case LJudged(_, _) => NoOpenStarted(l, key)
  }

  ghost predicate DispatcherOk(l: Ledger, key: SlotKey, pc: DispatchPc) {
    match pc
    case DRead(before) => before <= l
    case DPlanned(before, k, batch) =>
      before <= l && (l == before ==> LedgerNext(l, key) <= k && batch == DispatchBatch(l, key, k))
    case _ => true
  }

  ghost predicate CleanerOk(l: Ledger, affected: seq<SlotKey>, pc: CleanPc) {
    match pc
    case CAcquiring(i, held, failed) =>
      i <= |affected| && (forall k | k in held :: k in affected[..i])
      && (!failed ==> forall k | k in affected[..i] :: k in held)
    case CChecking(i, Some(todo), _) =>
      i < |affected| && forall a: nat :: OpenStarted(l, affected[i], a) <==> a in todo
    case _ => true
  }

  ghost predicate ProcOk(l: Ledger, p: Proc) {
    match p
    case Launcher(key, pc) => LauncherOk(l, key, pc)
    case Dispatcher(key, pc) => DispatcherOk(l, key, pc)
    case Cleaner(affected, pc) => CleanerOk(l, affected, pc)
  }

  ghost predicate LocksOk(s: State) {
    (forall pid, key | pid in s.procs && key in HeldBy(s.procs[pid]) :: key in s.owner && s.owner[key] == pid)
    && (forall key | key in s.owner :: s.owner[key] in s.procs && key in HeldBy(s.procs[s.owner[key]]))
  }

  ghost predicate Inv(s: State) {
    LedgerInv(s.ledger) && LocksOk(s) && forall pid | pid in s.procs :: ProcOk(s.ledger, s.procs[pid])
  }

  // ----- Frames -----

  /** Nothing a holder of key relies on has changed. */
  ghost predicate SameFor(l: Ledger, l': Ledger, key: SlotKey) {
    (forall a: nat :: OpenStarted(l', key, a) <==> OpenStarted(l, key, a))
    && LedgerNext(l', key) <= LedgerNext(l, key)
  }

  lemma ProcKept(l: Ledger, l': Ledger, p: Proc)
    requires l <= l' && ProcOk(l, p)
    requires forall key | key in HeldBy(p) :: SameFor(l, l', key)
    ensures ProcOk(l', p)
  {
    match p
    case Launcher(key, pc) => if !pc.LWant? { assert key in HeldBy(p); }
    case Dispatcher(key, pc) => if pc.DPlanned? && l' == pc.snapshot { assert l == l'; }
    case Cleaner(affected, pc) =>
      if pc.CChecking? && pc.index < |affected| { assert affected[pc.index] in HeldBy(p); }
  }

  /** A launch record leaves every other slot as it was. */
  lemma OtherSlots(l: Ledger, r: Record, key: SlotKey)
    requires r.Launch? ==> r.key != key
    ensures SameFor(l, l + [r], key)
  {
  }

  lemma OtherSlotsBatch(l: Ledger, key: SlotKey, k: nat, key': SlotKey)
    requires LedgerInv(l) && LedgerNext(l, key) <= k && key' != key
    ensures SameFor(l, l + DispatchBatch(l, key, k), key')
  {
    DispatchBatchKeeps(l, key, k);
    var open := DispatchedBelow(l, key, LedgerNext(l, key));
    var m := l + Closings(key, open);
    ClosingsFrame(l, key, open);
    AppendFrame(m, Launch(key, k, Dispatched));
    assert l + DispatchBatch(l, key, k) == m + [Launch(key, k, Dispatched)];
    LedgerNextPositive(l, key');
    LedgerNextLeast(l + DispatchBatch(l, key, k), key', LedgerNext(l, key'));
  }

  lemma OpenSetExact(l: Ledger, key: SlotKey)
    ensures forall a: nat :: OpenStarted(l, key, a) <==> a in OpenStartedSet(l, key)
  {
  }

  lemma HolderIsAlone(s: State, pid: Pid, key: SlotKey)
    requires LocksOk(s) && pid in s.procs && key in HeldBy(s.procs[pid])
    ensures forall p | p in s.procs && p != pid :: key !in HeldBy(s.procs[p])
  {
    forall p | p in s.procs && key in HeldBy(s.procs[p]) ensures p == pid {
      assert s.owner[key] == p && s.owner[key] == pid;
    }
  }

  /** A record with a key not seen before is appended as it is. */
  lemma AppendFresh(l: Ledger, r: Record)
    requires r.Launch? && r !in l
    ensures AppendLocked(l, [r]) == Some(l + [r])
  {
  }

  /** The effect of a step by pid on the ledger, the locks and itself, put together. */
  lemma StepKeeps(s: State, s': State, pid: Pid)
    requires Inv(s) && pid in s.procs && pid in s'.procs
    requires s.ledger <= s'.ledger && LedgerInv(s'.ledger)
    requires s'.procs == s.procs[pid := s'.procs[pid]]
    requires HeldBy(s'.procs[pid]) >= HeldBy(s.procs[pid])
    requires s'.owner == (map k | k in s.owner.Keys + HeldBy(s'.procs[pid]) ::
                            if k in HeldBy(s'.procs[pid]) then pid else s.owner[k])
    requires forall k | k in HeldBy(s'.procs[pid]) && k in s.owner :: s.owner[k] == pid
    requires ProcOk(s'.ledger, s'.procs[pid])
    requires forall p, k | p in s.procs && p != pid && k in HeldBy(s.procs[p]) :: SameFor(s.ledger, s'.ledger, k)
    ensures Inv(s')
  {
    forall p | p in s'.procs ensures ProcOk(s'.ledger, s'.procs[p]) {
      if p != pid { ProcKept(s.ledger, s'.ledger, s.procs[p]); }
    }
  }

  lemma SameForRefl(l: Ledger)
    ensures forall key :: SameFor(l, l, key)
  {
  }

  // ----- Each step keeps the invariant -----

  lemma OwnerSame(s: State, s': State, pid: Pid)
    requires LocksOk(s) && pid in s.procs && pid in s'.procs && s'.owner == s.owner
    requires HeldBy(s'.procs[pid]) == HeldBy(s.procs[pid])
    ensures s'.owner == (map k | k in s.owner.Keys + HeldBy(s'.procs[pid]) ::
                            if k in HeldBy(s'.procs[pid]) then pid else s.owner[k])
  {
  }

  lemma LaunchRecordKeeps(s: State, s': State, pid: Pid, r: Record, key: SlotKey)
    requires Inv(s) && pid in s.procs && pid in s'.procs && key in HeldBy(s.procs[pid])
    requires r.Launch? ==> r.key == key
    requires s'.ledger == s.ledger + [r] && LedgerInv(s'.ledger)
    requires s'.procs == s.procs[pid := s'.procs[pid]] && s'.owner == s.owner
    requires HeldBy(s'.procs[pid]) == HeldBy(s.procs[pid]) && ProcOk(s'.ledger, s'.procs[pid])
    ensures Inv(s')
  {
    HolderIsAlone(s, pid, key);
    forall p, k | p in s.procs && p != pid && k in HeldBy(s.procs[p]) ensures SameFor(s.ledger, s'.ledger, k) {
      OtherSlots(s.ledger, r, k);
    }
    OwnerSame(s, s', pid);
    StepKeeps(s, s', pid);
  }

  lemma SilentKeeps(s: State, s': State, pid: Pid)
    requires Inv(s) && pid in s.procs && pid in s'.procs
    requires s'.ledger == s.ledger && s'.procs == s.procs[pid := s'.procs[pid]] && s'.owner == s.owner
    requires HeldBy(s'.procs[pid]) == HeldBy(s.procs[pid]) && ProcOk(s'.ledger, s'.procs[pid])
    ensures Inv(s')
  {
  }

  lemma CloseKeeps(l: Ledger, key: SlotKey, k: nat, todo: set<nat>)
    requires LedgerInv(l) && k in todo && forall a: nat :: OpenStarted(l, key, a) <==> a in todo
    ensures AppendLocked(l, [Launch(key, k, LaunchFailed)]) == Some(l + [Launch(key, k, LaunchFailed)])
    ensures LedgerInv(l + [Launch(key, k, LaunchFailed)])
    ensures forall a: nat :: OpenStarted(l + [Launch(key, k, LaunchFailed)], key, a) <==> a in todo - {k}
  {
    var r := Launch(key, k, LaunchFailed);
    assert OpenStarted(l, key, k);
    assert !HasStatus(l, key, k, LaunchFailed);
    AppendFresh(l, r);
    AppendEnd(l, key, k, LaunchFailed);
    AppendFrame(l, r);
    forall a: nat ensures OpenStarted(l + [r], key, a) <==> a in todo - {k} {
      assert OpenStarted(l, key, a) <==> a in todo;
    }
  }

  lemma LauncherKeeps(s: State, s': State, e: Event, key: SlotKey, pc: LaunchPc)
    requires Inv(s) && HasPid(e) && e.pid in s.procs && s.procs[e.pid] == Launcher(key, pc)
    requires StepLauncher(s, e.pid, key, pc, e) == Some(s')
    ensures Inv(s')
  {
    hide LedgerInv, LocksOk;
    var l := s.ledger;
    assert ProcOk(l, s.procs[e.pid]) && key in HeldBy(s.procs[e.pid]);
    match (e, pc)
    case (ReadOrphans(_), LLocked) =>
      OpenSetExact(l, key);
      SilentKeeps(s, s', e.pid);
    case (CloseOrphan(_, k), LClosing(todo)) =>
      CloseKeeps(l, key, k, todo);
      LaunchRecordKeeps(s, s', e.pid, Launch(key, k, LaunchFailed), key);
    case (OrphansClosed(_), LClosing(todo)) => SilentKeeps(s, s', e.pid);
    case (Prepare(_, k), LReady(retried)) => SilentKeeps(s, s', e.pid);
    case (Register(_), LPrepared(k, retried)) => RegisterKeeps(s, s', e.pid, key, k, retried);
    case (RecordOutcome(_, st), LRunning(k, retried)) => OutcomeKeeps(s, s', e.pid, key, k, retried, st);
    case (Retry(_), LJudged(st, retried)) => SilentKeeps(s, s', e.pid);
    case (Substitute(_, to), LJudged(st, retried)) =>
      AppendSubstitution(l, key, to);
      LaunchRecordKeeps(s, s', e.pid, Substitution(key, to), key);
  }

  lemma RegisterKeeps(s: State, s': State, pid: Pid, key: SlotKey, k: nat, retried: bool)
    requires Inv(s) && pid in s.procs && s.procs[pid] == Launcher(key, LPrepared(k, retried))
    requires StepLauncher(s, pid, key, LPrepared(k, retried), Register(pid)) == Some(s')
    ensures Inv(s')
  {
    hide LedgerInv, LocksOk;
    var l := s.ledger;
    assert ProcOk(l, s.procs[pid]) && key in HeldBy(s.procs[pid]);
    FreshNumber(l, key, k);
    assert !HasStatus(l, key, k, Started);
    AppendFresh(l, Launch(key, k, Started));
    AppendStarted(l, key, k);
    LaunchRecordKeeps(s, s', pid, Launch(key, k, Started), key);
  }

  lemma OutcomeKeeps(s: State, s': State, pid: Pid, key: SlotKey, k: nat, retried: bool, st: Status)
    requires Inv(s) && pid in s.procs && s.procs[pid] == Launcher(key, LRunning(k, retried))
    requires StepLauncher(s, pid, key, LRunning(k, retried), RecordOutcome(pid, st)) == Some(s')
    ensures Inv(s')
  {
    hide LedgerInv, LocksOk;
    var l := s.ledger;
    assert ProcOk(l, s.procs[pid]) && key in HeldBy(s.procs[pid]);
    assert OpenStarted(l, key, k) && !HasStatus(l, key, k, st);
    AppendFresh(l, Launch(key, k, st));
    AppendEnd(l, key, k, st);
    AppendFrame(l, Launch(key, k, st));
    forall a: nat ensures !OpenStarted(s'.ledger, key, a) { assert OpenStarted(l, key, a) <==> a == k; }
    LaunchRecordKeeps(s, s', pid, Launch(key, k, st), key);
  }

  lemma AppendSubstitution(l: Ledger, key: SlotKey, to: string)
    requires LedgerInv(l) && !Substituted(l, key)
    ensures AppendLocked(l, [Substitution(key, to)]) == Some(l + [Substitution(key, to)])
    ensures LedgerInv(l + [Substitution(key, to)]) && SameFor(l, l + [Substitution(key, to)], key)
  {
    var r := Substitution(key, to);
    AppendOne(l, r);
    assert !Conflicts(l, r) && r !in l;
    AppendNeutral(l, r);
    OtherSlots(l, r, key);
  }

  lemma DispatcherKeeps(s: State, s': State, e: Event, key: SlotKey, pc: DispatchPc)
    requires Inv(s) && HasPid(e) && e.pid in s.procs && s.procs[e.pid] == Dispatcher(key, pc)
    requires StepDispatcher(s, e.pid, key, pc, e) == Some(s')
    ensures Inv(s')
  {
    hide LedgerInv;
    var l := s.ledger;
    assert ProcOk(l, s.procs[e.pid]) && key in HeldBy(s.procs[e.pid]);
    match (e, pc)
    case (ReadLedger(_), DLocked) => SilentKeeps(s, s', e.pid);
    case (Plan(_, k), DRead(before)) => SilentKeeps(s, s', e.pid);
    case (Commit(_), DPlanned(before, k, batch)) => DispatchKeeps(s, s', e.pid, key, before, k, batch);
    case (ReserveThenStop(_), DPlanned(before, k, batch)) =>
      DropKeeps(s.(dirs := s.dirs[key := Reserved(s, key) + {k}]), e.pid);
  }

  lemma DispatchKeeps(s: State, s': State, pid: Pid, key: SlotKey, before: Ledger, k: nat, batch: seq<Record>)
    requires Inv(s) && pid in s.procs && s.procs[pid] == Dispatcher(key, DPlanned(before, k, batch))
    requires StepDispatcher(s, pid, key, DPlanned(before, k, batch), Commit(pid)) == Some(s')
    ensures Inv(s')
  {
    hide LedgerInv;
    var l := s.ledger;
    assert ProcOk(l, s.procs[pid]) && key in HeldBy(s.procs[pid]);
    DispatchBatchFresh(l, key, k);
    DispatchBatchKeeps(l, key, k);
    HolderIsAlone(s, pid, key);
    forall p, k' | p in s.procs && p != pid && k' in HeldBy(s.procs[p]) ensures SameFor(l, s'.ledger, k') {
      OtherSlotsBatch(l, key, k, k');
    }
    OwnerSame(s, s', pid);
    StepKeeps(s, s', pid);
  }

  lemma DropKeeps(s: State, pid: Pid)
    requires Inv(s)
    ensures Inv(Drop(s, pid))
  {
  }

  lemma CleanerKeeps(s: State, s': State, e: Event, affected: seq<SlotKey>, pc: CleanPc)
    requires Inv(s) && HasPid(e) && e.pid in s.procs && s.procs[e.pid] == Cleaner(affected, pc)
    requires StepCleaner(s, e.pid, affected, pc, e) == Some(s')
    ensures Inv(s')
  {
    var l := s.ledger;
    assert ProcOk(l, s.procs[e.pid]);
    match (e, pc)
    case (TryLock(_, faulty), CAcquiring(i, held, failed)) =>
      TryLockKeeps(s, s', e.pid, faulty, affected, i, held, failed);
    case (AllLocked(_), CAcquiring(i, held, failed)) =>
      assert affected[..i] == affected;
      assert held == set k | k in affected;
      SilentKeeps(s, s', e.pid);
    case (ReadOrphans(_), CChecking(i, None, failed)) =>
      OpenSetExact(l, affected[i]);
      SilentKeeps(s, s', e.pid);
    case (CloseOrphan(_, k), CChecking(i, Some(todo), failed)) =>
      CloseKeeps(l, affected[i], k, todo);
      LaunchRecordKeeps(s, s', e.pid, Launch(affected[i], k, LaunchFailed), affected[i]);
    case (CheckNext(_, _), CChecking(i, Some(todo), failed)) => SilentKeeps(s, s', e.pid);
    case (AllChecked(_), CChecking(i, None, failed)) => SilentKeeps(s, s', e.pid);
    case (RemoveNext(_), CRemoving(i)) => SilentKeeps(s, s', e.pid);
  }

  lemma TryLockKeeps(s: State, s': State, pid: Pid, faulty: bool, affected: seq<SlotKey>, i: nat, held: set<SlotKey>,
                     failed: bool)
    requires Inv(s) && pid in s.procs && s.procs[pid] == Cleaner(affected, CAcquiring(i, held, failed))
    requires StepCleaner(s, pid, affected, CAcquiring(i, held, failed), TryLock(pid, faulty)) == Some(s')
    ensures Inv(s')
  {
    assert CleanerOk(s.ledger, affected, CAcquiring(i, held, failed)) by { assert ProcOk(s.ledger, s.procs[pid]); }
    assert affected[..i + 1] == affected[..i] + [affected[i]];
    SameForRefl(s.ledger);
    if faulty || affected[i] in s.owner {
      OwnerSame(s, s', pid);
    }
    StepKeeps(s, s', pid);
  }

  lemma AcquireKeeps(s: State, s': State, pid: Pid)
    requires Inv(s) && Next(s, Acquire(pid)) == Some(s')
    ensures Inv(s')
  {
    SameForRefl(s.ledger);
    StepKeeps(s, s', pid);
  }

  lemma BeginKeeps(s: State, s': State, pid: Pid, p: Proc)
    requires Inv(s) && Next(s, Begin(pid, p)) == Some(s')
    ensures Inv(s')
  {
    assert HeldBy(p) == {} && ProcOk(s.ledger, p);
  }

  /** Steps that only append to the ledger, without a slot lock. */
  lemma LedgerOnlyKeeps(s: State, s': State)
    requires Inv(s) && s' == s.(ledger := s'.ledger)
    requires s.ledger <= s'.ledger && LedgerInv(s'.ledger)
    requires forall key :: SameFor(s.ledger, s'.ledger, key)
    ensures Inv(s')
  {
    forall p | p in s'.procs ensures ProcOk(s'.ledger, s'.procs[p]) {
      ProcKept(s.ledger, s'.ledger, s.procs[p]);
    }
  }

  lemma UnlockedAppendKeeps(s: State, s': State, e: Event)
    requires Inv(s) && Next(s, e) == Some(s')
    requires e.AppendNonLaunch? || e.SettleDispatched? || e.RecoverOutcome?
    ensures Inv(s')
  {
    var l := s.ledger;
    match e
    case AppendNonLaunch(r) =>
      AppendOne(l, r);
      if s'.ledger != l {
        AppendNeutral(l, r);
        forall key ensures SameFor(l, l + [r], key) { OtherSlots(l, r, key); }
        LedgerOnlyKeeps(s, s');
      }
    case SettleDispatched(key) =>
      var r := LatestStart(l, key).value;
      assert HasStatus(l, key, r.attempt, Dispatched);
      NotBothStarts(l, key, r.attempt);
      SettleKeeps(s, s', key, r.attempt);
    case RecoverOutcome(key, k) =>
      AppendOne(l, Launch(key, k, Submitted));
      if s'.ledger != l { SettleKeeps(s, s', key, k); }
  }

  /** An outcome for an attempt that is not an open process attempt. */
  lemma SettleKeeps(s: State, s': State, key: SlotKey, k: nat)
    requires Inv(s) && HasStart(s.ledger, key, k) && !OpenStarted(s.ledger, key, k)
    requires s' == s.(ledger := s.ledger + [Launch(key, k, Submitted)])
    ensures Inv(s')
  {
    var l, r := s.ledger, Launch(key, k, Submitted);
    AppendEnd(l, key, k, Submitted);
    AppendFrame(l, r);
    forall key' ensures SameFor(l, l + [r], key') {
      forall a: nat ensures OpenStarted(l + [r], key', a) <==> OpenStarted(l, key', a) { }
      LedgerNextPositive(l, key');
      forall a: nat, st | HasStatus(l + [r], key', a, st) ensures a < LedgerNext(l, key') {
        if key' == key && a == k { assert HasStart(l, key, k); }
      }
      LedgerNextLeast(l + [r], key', LedgerNext(l, key'));
    }
    LedgerOnlyKeeps(s, s');
  }

  lemma NewRoundKeeps(s: State)
    requires Inv(s)
    ensures Inv(s.(round := s.round + 1))
  {
  }

  lemma StepKeepsInv(s: State, s': State, e: Event)
    requires Inv(s) && Next(s, e) == Some(s')
    ensures Inv(s')
  {
    hide Inv, StepLauncher, StepDispatcher, StepCleaner, AppendLocked, LatestStart, HasEnd, HasStatus, Drop;
    match e
    case Begin(pid, p) => BeginKeeps(s, s', pid, p);
    case Stop(pid) => DropKeeps(s, pid);
    case Acquire(pid) => AcquireKeeps(s, s', pid);
    case AppendNonLaunch(_) => UnlockedAppendKeeps(s, s', e);
    case SettleDispatched(_) => UnlockedAppendKeeps(s, s', e);
    case RecoverOutcome(_, _) => UnlockedAppendKeeps(s, s', e);
    case NewRound => NewRoundKeeps(s);
    case _ =>
      match s.procs[e.pid]
      case Launcher(key, pc) => LauncherKeeps(s, s', e, key, pc);
      case Dispatcher(key, pc) => DispatcherKeeps(s, s', e, key, pc);
      case Cleaner(affected, pc) => CleanerKeeps(s, s', e, affected, pc);
  }

  lemma {:induction false} RunKeepsInv(s: State, run: seq<Event>)
    requires Inv(s) && Exec(s, run).Some?
    ensures Inv(Exec(s, run).value)
    decreases |run|
  {
    if run != [] {
      var s' := Next(s, run[0]).value;
      StepKeepsInv(s, s', run[0]);
      RunKeepsInv(s', run[1..]);
    }
  }

  lemma ReachableInv(s: State)
    requires Reachable(s)
    ensures Inv(s)
  {
    var round, run :| Exec(State([], round, map[], map[], map[]), run) == Some(s);
    RunKeepsInv(State([], round, map[], map[], map[]), run);
  }

  // ----- What holds in every reachable state -----

  /** At most one attempt of a slot and round has last status dispatched. */
  lemma AtMostOneDispatched(s: State, key: SlotKey, a: nat, b: nat)
    requires Reachable(s)
    requires LastStatus(s.ledger, key, a) == Some(Dispatched) && LastStatus(s.ledger, key, b) == Some(Dispatched)
    ensures a == b
  {
    ReachableInv(s);
    LastDispatched(s.ledger, key, a);
    LastDispatched(s.ledger, key, b);
  }

  /** Between two process starts of a slot and round, the first one gets its outcome. */
  lemma ProcessAttemptsAreSerial(s: State, i: nat, j: nat)
    requires Reachable(s) && i < j < |s.ledger|
    requires s.ledger[i].Launch? && s.ledger[j].Launch? && s.ledger[i].key == s.ledger[j].key
    requires s.ledger[i].status.Started? && s.ledger[j].status.Started?
    ensures s.ledger[i].attempt != s.ledger[j].attempt
    ensures exists m :: i < m < j && EndsAttempt(s.ledger[m], s.ledger[i].key, s.ledger[i].attempt)
  {
    ReachableInv(s);
    EndIsBetween(s.ledger, i, j);
  }

  /** A slot and round is switched to its substitute family at most once. */
  lemma AtMostOneSubstitution(s: State, i: nat, j: nat)
    requires Reachable(s) && i < |s.ledger| && j < |s.ledger|
    requires s.ledger[i].Substitution? && s.ledger[j].Substitution? && s.ledger[i].key == s.ledger[j].key
    ensures i == j
  {
    ReachableInv(s);
  }

  lemma SlotVerbsExtendLedger(s: State, s': State, pid: Pid, e: Event)
    requires pid in s.procs
    requires match s.procs[pid]
             case Launcher(key, pc) => StepLauncher(s, pid, key, pc, e) == Some(s')
             case Dispatcher(key, pc) => StepDispatcher(s, pid, key, pc, e) == Some(s')
             case Cleaner(affected, pc) => StepCleaner(s, pid, affected, pc, e) == Some(s')
    ensures s.ledger <= s'.ledger
  {
    hide AppendLocked, IsNextAttempt, Substituted, OpenStartedSet;
    forall batch ensures AppendLocked(s.ledger, batch).Some? ==> s.ledger <= AppendLocked(s.ledger, batch).value {
      AppendGrows(s.ledger, batch);
    }
  }

  /** No step shortens or rewrites the ledger. */
  lemma StepExtendsLedger(s: State, s': State, e: Event)
    requires Next(s, e) == Some(s')
    ensures s.ledger <= s'.ledger
  {
    hide AppendLocked, StepLauncher, StepDispatcher, StepCleaner, LatestStart, HasEnd, HasStatus;
    if HasPid(e) && !e.Begin? && !e.Stop? && !e.Acquire? {
      SlotVerbsExtendLedger(s, s', e.pid, e);
    } else {
      forall r ensures AppendLocked(s.ledger, [r]).Some? ==> s.ledger <= AppendLocked(s.ledger, [r]).value {
        AppendGrows(s.ledger, [r]);
      }
    }
  }

  lemma {:induction false} AppendGrows(l: Ledger, batch: seq<Record>)
    ensures AppendLocked(l, batch).Some? ==> l <= AppendLocked(l, batch).value
    decreases |batch|
  {
    if batch != [] {
      AppendGrows(l, batch[1..]);
      AppendGrows(l + [batch[0]], batch[1..]);
    }
  }

  ghost predicate KeepsDirs(s: State, s': State) {
    forall key | key in s.dirs :: key in s'.dirs && s.dirs[key] <= s'.dirs[key]
  }

  lemma SlotVerbsKeepDirs(s: State, s': State, pid: Pid, e: Event)
    requires pid in s.procs
    requires match s.procs[pid]
             case Launcher(key, pc) => StepLauncher(s, pid, key, pc, e) == Some(s')
             case Dispatcher(key, pc) => StepDispatcher(s, pid, key, pc, e) == Some(s')
             case Cleaner(affected, pc) => StepCleaner(s, pid, affected, pc, e) == Some(s') && !pc.CRemoving?
    ensures KeepsDirs(s, s')
  {
    hide IsNextAttempt, Substituted, OpenStartedSet, AppendLocked;
  }

  lemma RemovesNext(s: State, s': State, pid: Pid, e: Event)
    requires pid in s.procs && s.procs[pid].Cleaner? && s.procs[pid].cpc.CRemoving?
    requires StepCleaner(s, pid, s.procs[pid].affected, s.procs[pid].cpc, e) == Some(s')
    ensures e.RemoveNext?
  {
  }

  lemma OnlyRemovalShrinks(s: State, s': State, e: Event)
    requires Next(s, e) == Some(s')
    ensures KeepsDirs(s, s')
         || (e.RemoveNext? && e.pid in s.procs && s.procs[e.pid].Cleaner? && s.procs[e.pid].cpc.CRemoving?)
  {
    hide StepLauncher, StepDispatcher, StepCleaner, AppendLocked, LatestStart, HasEnd, HasStatus;
    if HasPid(e) && !e.Begin? && !e.Stop? && !e.Acquire? {
      if s.procs[e.pid].Cleaner? && s.procs[e.pid].cpc.CRemoving? {
        RemovesNext(s, s', e.pid, e);
      } else {
        SlotVerbsKeepDirs(s, s', e.pid, e);
      }
    }
  }

  /** A slot directory loses an attempt only to a cleanup that holds the lock of
      every slot it affects, while nobody else is inside that slot. */
  lemma RemovalIsExclusive(s: State, s': State, e: Event, key: SlotKey)
    requires Reachable(s) && Next(s, e) == Some(s')
    requires key in s.dirs && !(key in s'.dirs && s.dirs[key] <= s'.dirs[key])
    ensures e.RemoveNext? && e.pid in s.procs && s.procs[e.pid].Cleaner?
    ensures key in s.procs[e.pid].affected
    ensures forall k | k in s.procs[e.pid].affected :: k in s.owner && s.owner[k] == e.pid
    ensures forall p | p in s.procs && p != e.pid :: key !in HeldBy(s.procs[p])
  {
    ReachableInv(s);
    OnlyRemovalShrinks(s, s', e);
    var p := s.procs[e.pid];
    var i := p.cpc.removed;
    assert s' == SetProc(s, e.pid, Cleaner(p.affected, CRemoving(i + 1))).(dirs := s.dirs - {p.affected[i]});
    assert key == p.affected[i] && key in HeldBy(p);
    forall k | k in p.affected ensures k in s.owner && s.owner[k] == e.pid { assert k in HeldBy(p); }
    HolderIsAlone(s, e.pid, key);
  }

  /** A cleanup that missed one lock removes nothing: it goes on trying, or stops
      and gives back every lock. */
  lemma FailedCleanupReleases(s: State, s': State, e: Event)
    requires Next(s, e) == Some(s') && HasPid(e) && e.pid in s.procs
    requires s.procs[e.pid].Cleaner? && s.procs[e.pid].cpc.CAcquiring? && s.procs[e.pid].cpc.failed
    ensures s'.dirs == s.dirs && s'.ledger == s.ledger
    ensures if e.pid in s'.procs
            then s'.procs[e.pid].Cleaner? && s'.procs[e.pid].cpc.CAcquiring? && s'.procs[e.pid].cpc.failed
            else forall k | k in s'.owner :: s'.owner[k] != e.pid
  {
  }

  /** Of two dispatches planned on one ledger, the second to commit is refused. */
  lemma SecondDispatchRefused(s: State, s': State, p: Pid, q: Pid)
    requires Reachable(s) && p != q && p in s.procs && q in s.procs
    requires s.procs[p].Dispatcher? && s.procs[p].dpc.DPlanned?
    requires s.procs[q].Dispatcher? && s.procs[q].dpc.DPlanned?
    requires s.procs[p].dpc.snapshot == s.procs[q].dpc.snapshot
    requires Next(s, Commit(p)) == Some(s')
    ensures Next(s', Commit(q)) == None
  {
    ReachableInv(s);
    var key, k := s.procs[p].slot, s.procs[p].dpc.attempt;
    assert ProcOk(s.ledger, s.procs[p]);
    DispatchBatchFresh(s.ledger, key, k);
    assert |s'.ledger| > |s.ledger|;
  }

  /** The bookkeeping of a launch is never refused as a conflict: the lowest open orphan
      can be closed, a prepared attempt registered, a running one given any outcome. */
  lemma BookkeepingNeverRefused(s: State, pid: Pid, key: SlotKey, pc: LaunchPc, k: nat, st: Status)
    requires Reachable(s) && pid in s.procs && s.procs[pid] == Launcher(key, pc) && !st.Opens()
    ensures pc.LRunning? && pc.current == k ==> Appends(s, RecordOutcome(pid, st), Launch(key, k, st))
    ensures pc.LPrepared? && pc.attempt == k && s.round == key.round ==>
      Appends(s, Register(pid), Launch(key, k, Started))
    ensures pc.LClosing? && k in pc.orphans && (forall m | m in pc.orphans :: k <= m) ==>
      Appends(s, CloseOrphan(pid, k), Launch(key, k, LaunchFailed))
  {
    ReachableInv(s);
    assert ProcOk(s.ledger, s.procs[pid]);
    hide Inv, ProcOk, LedgerInv;
    match pc
    case LRunning(k', _) =>
      assert OpenStarted(s.ledger, key, k') && !HasStatus(s.ledger, key, k', st);
      AppendFresh(s.ledger, Launch(key, k', st));
    case LPrepared(k', _) =>
      FreshNumber(s.ledger, key, k');
      assert !HasStatus(s.ledger, key, k', Started);
      AppendFresh(s.ledger, Launch(key, k', Started));
    case LClosing(todo) => if k in todo { CloseKeeps(s.ledger, key, k, todo); }
    case _ =>
  }

  /** The step is possible and appends r. */
  predicate Appends(s: State, e: Event, r: Record) {
    Next(s, e).Some? && Next(s, e).value.ledger == s.ledger + [r]
  }
}
