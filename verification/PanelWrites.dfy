/** Who may write what into the ledger of a panel, and when a step of the protocol is
    possible, stated over the ledger, the locks and the round alone
    (cmd/mindspec/panel_launch.go, cmd/mindspec/panel_checkout.go). */
module PanelWrites {
  import opened Common
  import opened PanelLedger
  import opened PanelProtocol

  // ----- The next attempt number -----

  /** Above every number the slot has used, and directly above one of them if there is any. */
  ghost predicate JustAbove(l: Ledger, used: set<nat>, key: SlotKey, k: nat) {
    && k >= 1 && (forall i | 0 <= i < |l| && l[i].Launch? && l[i].key == key :: l[i].attempt < k)
    && (forall d | d in used :: d < k)
    && (k == 1 || k - 1 in used || exists i :: 0 <= i < |l| && l[i].Launch? && l[i].key == key && l[i].attempt == k - 1)
  }

  lemma {:induction false} LedgerNextIsUsed(l: Ledger, key: SlotKey)
    ensures LedgerNext(l, key) == 1
         || exists i :: 0 <= i < |l| && l[i].Launch? && l[i].key == key && l[i].attempt == LedgerNext(l, key) - 1
  {
    if l != [] {
      var m := l[..|l| - 1];
      LedgerNextIsUsed(m, key);
      if LedgerNext(l, key) == LedgerNext(m, key) && LedgerNext(m, key) != 1 {
        var i :| 0 <= i < |m| && m[i].Launch? && m[i].key == key && m[i].attempt == LedgerNext(m, key) - 1;
        assert l[i] == m[i];
      }
    }
  }

  lemma NextAttemptExactly(l: Ledger, used: set<nat>, key: SlotKey, k: nat)
    ensures IsNextAttempt(l, used, key, k) <==> JustAbove(l, used, key, k)
  {
    var n := LedgerNext(l, key);
    LedgerNextPositive(l, key);
    LedgerNextIsUsed(l, key);
    forall i | 0 <= i < |l| && l[i].Launch? && l[i].key == key ensures l[i].attempt < n {
      assert HasStatus(l, key, l[i].attempt, l[i].status);
    }
    if JustAbove(l, used, key, k) {
      forall a: nat, st | HasStatus(l, key, a, st) ensures a < k { }
      LedgerNextLeast(l, key, k);
    }
  }

  // ----- When a step is possible -----

  predicate Ended(l: Ledger, key: SlotKey, a: nat) {
    exists i :: 0 <= i < |l| && l[i].Launch? && l[i].key == key && l[i].attempt == a
             && l[i].status in {Submitted, QuotaWall, LaunchFailed, Malformed}
  }

  lemma EndedExactly(l: Ledger, key: SlotKey, a: nat)
    ensures HasEnd(l, key, a) <==> Ended(l, key, a)
  {
    forall st | HasStatus(l, key, a, st) ensures exists i :: 0 <= i < |l| && l[i] == Launch(key, a, st) {
    }
    if Ended(l, key, a) {
      var i :| 0 <= i < |l| && l[i].Launch? && l[i].key == key && l[i].attempt == a && !l[i].status.Opens();
      assert HasStatus(l, key, a, l[i].status);
    }
  }

  /** No process attempt of the slot is without an outcome. */
  ghost predicate NothingRuns(l: Ledger, key: SlotKey) {
    forall a: nat | Launch(key, a, Started) in l :: Ended(l, key, a)
  }

  lemma NothingRunsExactly(l: Ledger, key: SlotKey, todo: set<nat>)
    requires forall a: nat :: OpenStarted(l, key, a) <==> a in todo
    ensures todo == {} <==> NothingRuns(l, key)
  {
    forall a: nat ensures a in todo <==> Launch(key, a, Started) in l && !Ended(l, key, a) {
      EndedExactly(l, key, a);
      assert OpenStarted(l, key, a) <==> a in todo;
    }
  }

  lemma KnownOf(s: State, pid: Pid)
    requires Reachable(s) && pid in s.procs
    ensures LedgerInv(s.ledger) && ProcOk(s.ledger, s.procs[pid])
  {
    ReachableInv(s);
  }

  predicate Switched(l: Ledger, key: SlotKey) { exists i :: 0 <= i < |l| && l[i].Substitution? && l[i].key == key }

  /** A launch goes on after its lock and registers its process only in the current round; it
      retries once after a malformed verdict and switches once after a quota wall. */
  lemma LaunchGuards(s: State, pid: Pid, key: SlotKey, pc: LaunchPc, k: nat, to: string)
    requires Reachable(s) && pid in s.procs && s.procs[pid] == Launcher(key, pc)
    ensures pc == LWant ==> (Next(s, Acquire(pid)).Some? <==> key !in s.owner)
    ensures pc == LLocked ==> (Next(s, ReadOrphans(pid)).Some? <==> s.round == key.round)
    ensures pc.LClosing? ==> (Next(s, OrphansClosed(pid)).Some? <==> NothingRuns(s.ledger, key))
    ensures pc.LReady? ==>
      (Next(s, Prepare(pid, k)).Some? <==> JustAbove(s.ledger, if key in s.dirs then s.dirs[key] else {}, key, k))
    ensures pc.LPrepared? ==> (Next(s, Register(pid)).Some? <==> s.round == key.round)
    ensures pc.LJudged? ==> (Next(s, Retry(pid)).Some? <==> pc.outcome == Malformed && !pc.alreadyRetried)
    ensures pc.LJudged? ==>
      (Next(s, Substitute(pid, to)).Some? <==> pc.outcome == QuotaWall && !Switched(s.ledger, key))
  {
    hide Reachable, LedgerInv, IsNextAttempt, JustAbove, OpenStartedSet, NothingRuns;
    hide StepDispatcher, StepCleaner, LatestStart, HasEnd, HasStatus, AppendLocked;
    KnownOf(s, pid);
    NextAttemptExactly(s.ledger, Reserved(s, key), key, k);
    match pc
    case LClosing(todo) => NothingRunsExactly(s.ledger, key, todo);
    case LPrepared(k', _) =>
      BookkeepingNeverRefused(s, pid, key, pc, k', Submitted);
    case LJudged(_, _) =>
      var r := Substitution(key, to);
      AppendOne(s.ledger, r);
      if !Switched(s.ledger, key) { assert !Conflicts(s.ledger, r) && r !in s.ledger; }
    case _ =>
  }

  /** A dispatch reads the ledger in the current round, and commits only while the round and the
      ledger are the ones it planned on and its attempt number is not reserved. */
  lemma DispatchGuards(s: State, pid: Pid, key: SlotKey, pc: DispatchPc, k: nat)
    requires Reachable(s) && pid in s.procs && s.procs[pid] == Dispatcher(key, pc)
    ensures pc == DWant ==> (Next(s, Acquire(pid)).Some? <==> key !in s.owner)
    ensures pc == DLocked ==> (Next(s, ReadLedger(pid)).Some? <==> s.round == key.round)
    ensures pc.DRead? ==>
      (Next(s, Plan(pid, k)).Some? <==> JustAbove(s.ledger, if key in s.dirs then s.dirs[key] else {}, key, k))
    ensures pc.DPlanned? ==>
      (Next(s, Commit(pid)).Some? <==>
       (s.round == key.round && s.ledger == pc.snapshot && (key in s.dirs ==> pc.attempt !in s.dirs[key])))
  {
    hide Reachable, LedgerInv, IsNextAttempt, JustAbove, DispatchBatch;
    hide StepLauncher, StepCleaner, LatestStart, HasEnd, HasStatus, AppendLocked;
    KnownOf(s, pid);
    NextAttemptExactly(s.ledger, Reserved(s, key), key, k);
    if pc.DPlanned? && s.ledger == pc.snapshot { DispatchBatchFresh(s.ledger, key, pc.attempt); }
  }

  /** A cleanup takes a slot only when it is free, goes on to the orphans only with every slot,
      leaves a slot only when nothing runs in it, and removes only when no slot failed. */
  lemma CleanGuards(s: State, pid: Pid, affected: seq<SlotKey>, pc: CleanPc, faulty: bool)
    requires Reachable(s) && pid in s.procs && s.procs[pid] == Cleaner(affected, pc)
    ensures pc.CAcquiring? ==>
      (Next(s, AllLocked(pid)).Some? <==> pc.next == |affected| && !pc.failed)
    ensures pc.CAcquiring? && pc.next < |affected| ==>
      var free, s' := !faulty && affected[pc.next] !in s.owner, Next(s, TryLock(pid, faulty));
      && s'.Some? && s'.value.owner == (if free then s.owner[affected[pc.next] := pid] else s.owner)
      && s'.value.procs[pid].cpc.failed == (pc.failed || !free)
    ensures pc.CChecking? && pc.orphans.Some? ==> pc.index < |affected|
    ensures pc.CChecking? && pc.orphans.Some? ==>
      (Next(s, CheckNext(pid, false)).Some? <==> NothingRuns(s.ledger, affected[pc.index]))
    ensures pc.CChecking? && pc.orphans.Some? ==>
      Next(s, CheckNext(pid, true)).Some? && Next(s, CheckNext(pid, true)).value.procs[pid].cpc.orphanFailed
    ensures pc.CChecking? && pc.orphans == None ==>
      (Next(s, AllChecked(pid)).Some? <==> pc.index == |affected| && !pc.orphanFailed)
    ensures Next(s, RemoveNext(pid)).Some? ==> pc.CRemoving?
  {
    hide Reachable, LedgerInv, OpenStartedSet, NothingRuns;
    hide StepLauncher, StepDispatcher, LatestStart, HasEnd, HasStatus, AppendLocked;
    KnownOf(s, pid);
    if pc.CChecking? && pc.orphans.Some? { NothingRunsExactly(s.ledger, affected[pc.index], pc.orphans.value); }
  }

  /** Settling is for the latest opened attempt, when it was dispatched and has no outcome. */
  lemma SettleGuard(s: State, key: SlotKey, k: nat)
    requires Reachable(s)
    ensures Next(s, SettleDispatched(key)) == Some(s.(ledger := s.ledger + [Launch(key, k, Submitted)])) <==>
      && Launch(key, k, Dispatched) in s.ledger && !Ended(s.ledger, key, k)
      && forall r | r in s.ledger && r.Launch? && r.key == key && r.status in {Started, Dispatched} :: r.attempt <= k
  {
    hide Reachable, AppendLocked, StepLauncher, StepDispatcher, StepCleaner;
    KnownOfAll(s);
    LatestStartExactly(s.ledger, key);
    EndedExactly(s.ledger, key, k);
    NotBothStarts(s.ledger, key, k);
    var latest := LatestStart(s.ledger, key);
    if latest.Some? {
      var a := latest.value.attempt;
      assert (s.ledger + [Launch(key, a, Submitted)])[|s.ledger|] == Launch(key, a, Submitted);
      assert HasStatus(s.ledger, key, a, latest.value.status);
    }
  }

  /** Recovering is for the latest process attempt, when it has an outcome, in a slot nobody holds. */
  lemma RecoverGuard(s: State, key: SlotKey, k: nat)
    requires Reachable(s)
    ensures Next(s, RecoverOutcome(key, k)).Some? <==>
      && key !in s.owner && Launch(key, k, Started) in s.ledger && Ended(s.ledger, key, k)
      && forall a: nat | Launch(key, a, Started) in s.ledger :: a <= k
    ensures Next(s, RecoverOutcome(key, k)).Some? ==>
      Next(s, RecoverOutcome(key, k)).value.ledger ==
        s.ledger + if Launch(key, k, Submitted) in s.ledger then [] else [Launch(key, k, Submitted)]
  {
    hide Reachable, AppendLocked, StepLauncher, StepDispatcher, StepCleaner, LatestStart;
    EndedExactly(s.ledger, key, k);
    AppendOne(s.ledger, Launch(key, k, Submitted));
  }

  lemma KnownOfAll(s: State)
    requires Reachable(s)
    ensures LedgerInv(s.ledger)
  {
    ReachableInv(s);
  }

  lemma {:induction false} LatestStartExactly(l: Ledger, key: SlotKey)
    ensures forall r | r in l && r.Launch? && r.key == key && r.status in {Started, Dispatched} ::
      LatestStart(l, key).Some? && r.attempt <= LatestStart(l, key).value.attempt
  {
    if l != [] {
      LatestStartExactly(l[..|l| - 1], key);
      assert l == l[..|l| - 1] + [l[|l| - 1]];
    }
  }

  /** A verb can stop anywhere; what is left of it is what it wrote, and its locks are free again. */
  lemma StopReleases(s: State, pid: Pid)
    requires Reachable(s)
    ensures Next(s, Stop(pid)).Some? <==> pid in s.procs
    ensures pid in s.procs ==>
      var s' := Next(s, Stop(pid)).value;
      && s'.ledger == s.ledger && s'.dirs == s.dirs && s'.round == s.round && s'.procs == s.procs - {pid}
      && (forall key :: key in s'.owner <==> key in s.owner && key !in HeldBy(s.procs[pid]))
      && (forall key | key in s'.owner :: s'.owner[key] == s.owner[key])
  {
    ReachableInv(s);
    forall key | key in s.owner ensures s.owner[key] == pid <==> pid in s.procs && key in HeldBy(s.procs[pid]) {
    }
  }

  // ----- Who writes a launch record -----

  /** The step belongs to a process that holds the slot. */
  predicate Holds(s: State, e: Event, key: SlotKey) {
    HasPid(e) && e.pid in s.procs && key in s.owner && s.owner[key] == e.pid
  }

  /** Why a step may add the record r to the ledger of s. */
  ghost predicate Justified(s: State, e: Event, r: Record) {
    var l := s.ledger;
    match r
    case Launch(key, k, Started) =>
      // The holder of the slot, in the current round, with a new number and nothing running.
      && e.Register? && Holds(s, e, key) && s.procs[e.pid].Launcher? && s.round == key.round
      && (forall i | 0 <= i < |l| && l[i].Launch? && l[i].key == key :: l[i].attempt < k)
      && NothingRuns(l, key)
    case Launch(key, k, Dispatched) =>
      && e.Commit? && Holds(s, e, key) && s.procs[e.pid].Dispatcher? && s.round == key.round
      && (forall i | 0 <= i < |l| && l[i].Launch? && l[i].key == key :: l[i].attempt < k)
      && (key in s.dirs ==> k !in s.dirs[key])
    case Launch(key, k, st) =>
      || (e.RecordOutcome? && Holds(s, e, key) && Launch(key, k, Started) in l && !Ended(l, key, k))
      || (e.CloseOrphan? && st == LaunchFailed && Holds(s, e, key)
          && Launch(key, k, Started) in l && !Ended(l, key, k))
      || (e.Commit? && st == LaunchFailed && Holds(s, e, key)
          && Launch(key, k, Dispatched) in l && !Ended(l, key, k))
      || (e.SettleDispatched? && st == Submitted && Launch(key, k, Dispatched) in l && !Ended(l, key, k))
      || (e.RecoverOutcome? && st == Submitted && key !in s.owner
          && Launch(key, k, Started) in l && Ended(l, key, k))
    case Substitution(key, _) =>
      && e.Substitute? && Holds(s, e, key) && s.procs[e.pid].Launcher? && !Switched(l, key)
      && s.procs[e.pid].lpc.LJudged? && s.procs[e.pid].lpc.outcome == QuotaWall
    case _ => e == AppendNonLaunch(r)
  }

  lemma LauncherWrites(s: State, s': State, e: Event, key: SlotKey, pc: LaunchPc, r: Record)
    requires Inv(s) && HasPid(e) && e.pid in s.procs && s.procs[e.pid] == Launcher(key, pc)
    requires StepLauncher(s, e.pid, key, pc, e) == Some(s') && r in s'.ledger && r !in s.ledger
    ensures Justified(s, e, r)
  {
    var l := s.ledger;
    assert ProcOk(l, s.procs[e.pid]) && (pc != LWant ==> key in HeldBy(s.procs[e.pid]));
    hide LedgerInv, IsNextAttempt, OpenStartedSet, AppendLocked, Conflicts;
    match (e, pc)
    case (CloseOrphan(_, k), LClosing(todo)) =>
      AppendOne(l, Launch(key, k, LaunchFailed));
      assert OpenStarted(l, key, k);
      EndedExactly(l, key, k);
    case (Register(_), LPrepared(k, _)) =>
      AppendOne(l, Launch(key, k, Started));
      StartWrites(l, key, k);
    case (RecordOutcome(_, st), LRunning(k, _)) =>
      AppendOne(l, Launch(key, k, st));
      assert OpenStarted(l, key, k);
      EndedExactly(l, key, k);
    case (Substitute(_, to), LJudged(_, _)) => AppendOne(l, Substitution(key, to));
    case _ =>
  }

  lemma StartWrites(l: Ledger, key: SlotKey, k: nat)
    requires NoOpenStarted(l, key) && LedgerNext(l, key) <= k
    ensures forall i | 0 <= i < |l| && l[i].Launch? && l[i].key == key :: l[i].attempt < k
    ensures NothingRuns(l, key)
  {
    forall i | 0 <= i < |l| && l[i].Launch? && l[i].key == key ensures l[i].attempt < k {
      assert HasStatus(l, key, l[i].attempt, l[i].status);
    }
    forall a: nat | Launch(key, a, Started) in l ensures Ended(l, key, a) {
      assert HasStatus(l, key, a, Started) && !OpenStarted(l, key, a);
      EndedExactly(l, key, a);
    }
  }

  lemma DispatcherWrites(s: State, s': State, e: Event, key: SlotKey, pc: DispatchPc, r: Record)
    requires Inv(s) && HasPid(e) && e.pid in s.procs && s.procs[e.pid] == Dispatcher(key, pc)
    requires StepDispatcher(s, e.pid, key, pc, e) == Some(s') && r in s'.ledger && r !in s.ledger
    ensures Justified(s, e, r)
  {
    var l := s.ledger;
    assert ProcOk(l, s.procs[e.pid]) && (pc != DWant ==> key in HeldBy(s.procs[e.pid]));
    hide IsNextAttempt, AppendLocked;
    if e.Commit? && pc.DPlanned? {
      var k := pc.attempt;
      DispatchBatchFresh(l, key, k);
      assert r in DispatchBatch(l, key, k);
      BatchWrites(l, key, k, r);
    }
  }

  lemma BatchWrites(l: Ledger, key: SlotKey, k: nat, r: Record)
    requires LedgerInv(l) && LedgerNext(l, key) <= k && r in DispatchBatch(l, key, k)
    ensures forall i | 0 <= i < |l| && l[i].Launch? && l[i].key == key :: l[i].attempt < k
    ensures r == Launch(key, k, Dispatched)
         || (r.Launch? && r == Launch(key, r.attempt, LaunchFailed)
             && Launch(key, r.attempt, Dispatched) in l && !Ended(l, key, r.attempt))
  {
    forall i | 0 <= i < |l| && l[i].Launch? && l[i].key == key ensures l[i].attempt < k {
      assert HasStatus(l, key, l[i].attempt, l[i].status);
    }
    var open := DispatchedBelow(l, key, LedgerNext(l, key));
    if r != Launch(key, k, Dispatched) {
      var i :| 0 <= i < |open| && r == Launch(key, open[i], LaunchFailed);
      assert open[i] in open;
      LastDispatched(l, key, open[i]);
      EndedExactly(l, key, open[i]);
    }
  }

  lemma CleanerWrites(s: State, s': State, e: Event, affected: seq<SlotKey>, pc: CleanPc, r: Record)
    requires Inv(s) && HasPid(e) && e.pid in s.procs && s.procs[e.pid] == Cleaner(affected, pc)
    requires StepCleaner(s, e.pid, affected, pc, e) == Some(s') && r in s'.ledger && r !in s.ledger
    ensures Justified(s, e, r)
  {
    var l := s.ledger;
    assert ProcOk(l, s.procs[e.pid]);
    hide LedgerInv, OpenStartedSet, AppendLocked, Conflicts;
    if e.CloseOrphan? && pc.CChecking? && pc.index < |affected| {
      var key, k := affected[pc.index], e.k;
      assert key in HeldBy(s.procs[e.pid]);
      AppendOne(l, Launch(key, k, LaunchFailed));
      assert OpenStarted(l, key, k);
      EndedExactly(l, key, k);
    }
  }

  lemma UnlockedWrites(s: State, s': State, e: Event, r: Record)
    requires Inv(s) && Next(s, e) == Some(s') && r in s'.ledger && r !in s.ledger
    requires e.AppendNonLaunch? || e.SettleDispatched? || e.RecoverOutcome?
    ensures Justified(s, e, r)
  {
    var l := s.ledger;
    hide Inv, LedgerInv, AppendLocked, Conflicts;
    match e
    case AppendNonLaunch(record) => AppendOne(l, record);
    case SettleDispatched(key) =>
      var k := LatestStart(l, key).value.attempt;
      EndedExactly(l, key, k);
    case RecoverOutcome(key, k) =>
      AppendOne(l, Launch(key, k, Submitted));
      EndedExactly(l, key, k);
  }

  /** Every record a step adds is one that this step may add. */
  lemma WritesAreJustified(s: State, s': State, e: Event, r: Record)
    requires Reachable(s) && Next(s, e) == Some(s') && r in s'.ledger && r !in s.ledger
    ensures Justified(s, e, r)
  {
    hide Reachable, Inv, Justified, StepLauncher, StepDispatcher, StepCleaner;
    hide AppendLocked, LatestStart, HasEnd, HasStatus;
    ReachableInv(s);
    match e
    case AppendNonLaunch(_) => UnlockedWrites(s, s', e, r);
    case SettleDispatched(_) => UnlockedWrites(s, s', e, r);
    case RecoverOutcome(_, _) => UnlockedWrites(s, s', e, r);
    case Begin(_, _) =>
    case Stop(_) =>
    case Acquire(_) =>
    case NewRound =>
    case _ =>
      match s.procs[e.pid]
      case Launcher(key, pc) => LauncherWrites(s, s', e, key, pc, r);
      case Dispatcher(key, pc) => DispatcherWrites(s, s', e, key, pc, r);
      case Cleaner(affected, pc) => CleanerWrites(s, s', e, affected, pc, r);
  }
}
