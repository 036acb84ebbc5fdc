/** The loops of the slot verbs over one slot of a panel, each proved against the
    ledger functions and the steps of PanelProtocol
    (cmd/mindspec/panel_launch.go, cmd/mindspec/panel_checkout.go). */
module PanelVerbs {
  import opened Common
  import opened PanelLedger
  import opened PanelProtocol

  /** What the environment answers to one pass of the launch loop. */
  datatype Reply = Reply(
    prepared: bool,               // configuration, prompt and attempt directory
    registered: bool,             // the supervisor started and its record was appended
    hasExit: bool,                // exit.json could be read
    exitedClean: bool,            // exit code 0 and no timeout
    accepted: Option<nat>,        // the submit step accepted these verdict bytes
    recordedOnly: Option<nat>,    // it recorded these bytes and then failed
    quota: bool,                  // stderr carries a quota signal
    outcomeAppended: bool,
    onQuota: Option<string>,      // the substitute family of the runner
    substituteAppended: bool,
    substituteIsProcess: bool,
    statusRead: bool)             // the tally after the last pass

  /** The parsed form of verdict bytes. */
  datatype Decision = Decision(final: bool, void: bool)

  datatype LaunchResult = LaunchSucceeded | LaunchRefused

  /** The outcome the launch loop records for one pass. */
  function OutcomeOf(r: Reply): Status {
    if r.hasExit && r.exitedClean then (if r.accepted.Some? then Submitted else Malformed)
    else if r.hasExit && r.quota then QuotaWall
    else LaunchFailed
  }

  /** What the launch makes of the replies from pass n on: a malformed reply is retried
      once, a quota wall substituted once, and only a final non-VOID submission succeeds. */
  function LaunchResultOf(replies: nat -> Reply, n: nat, retried: bool, substituted: bool,
                          verdictOf: nat -> Decision): LaunchResult
    decreases !retried, !substituted
  {
    var r := replies(n);
    if !r.prepared || !r.registered || !r.outcomeAppended then LaunchRefused
    else if OutcomeOf(r) == Malformed && !retried then LaunchResultOf(replies, n + 1, true, substituted, verdictOf)
    else if OutcomeOf(r) == QuotaWall && r.onQuota.Some? && !substituted then
      if r.substituteAppended && r.substituteIsProcess then LaunchResultOf(replies, n + 1, retried, true, verdictOf)
      else LaunchRefused
    else if r.statusRead && OutcomeOf(r) == Submitted && verdictOf(r.accepted.value) == Decision(true, false)
    then LaunchSucceeded
    else LaunchRefused
  }

  lemma OutcomeExactly(r: Reply)
    ensures OutcomeOf(r) == Submitted <==> r.hasExit && r.exitedClean && r.accepted.Some?
    ensures OutcomeOf(r) == Malformed <==> r.hasExit && r.exitedClean && r.accepted.None?
    ensures OutcomeOf(r) == QuotaWall <==> r.hasExit && !r.exitedClean && r.quota
    ensures OutcomeOf(r) == LaunchFailed <==> !(r.hasExit && (r.exitedClean || r.quota))
  {
  }

  // ----- Success in terms of the replies -----

  /** The pass ran and its outcome was recorded. */
  predicate Ran(r: Reply) { r.prepared && r.registered && r.outcomeAppended }

  /** A clean exit without an acceptable verdict: retried, the first time. */
  predicate AsksRetry(r: Reply) { Ran(r) && r.hasExit && r.exitedClean && r.accepted.None? }

  /** An exit that was read, was not clean and carried a quota signal, of a runner with a
      substitute family that is a process: switched, the first time. */
  predicate AsksSwitch(r: Reply) {
    && Ran(r) && r.hasExit && !r.exitedClean && r.quota
    && r.onQuota.Some? && r.substituteAppended && r.substituteIsProcess
  }

  /** A clean exit with an accepted final verdict that is not VOID. */
  predicate Final(r: Reply, verdictOf: nat -> Decision) {
    && Ran(r) && r.hasExit && r.exitedClean && r.accepted.Some? && r.statusRead
    && verdictOf(r.accepted.value).final && !verdictOf(r.accepted.value).void
  }

  /** At once, after one retry, after one switch, or after both in either order; the
      switch only for a slot not switched yet. */
  predicate Succeeds(replies: nat -> Reply, substituted: bool, verdictOf: nat -> Decision) {
    var first, second, third := replies(0), replies(1), replies(2);
    || Final(first, verdictOf)
    || (AsksRetry(first)
        && (Final(second, verdictOf) || (!substituted && AsksSwitch(second) && Final(third, verdictOf))))
    || (!substituted && AsksSwitch(first)
        && (Final(second, verdictOf) || (AsksRetry(second) && Final(third, verdictOf))))
  }

  /** A launch succeeds exactly in one of these ways. */
  lemma LaunchSucceedsExactly(replies: nat -> Reply, substituted: bool, verdictOf: nat -> Decision)
    ensures LaunchResultOf(replies, 0, false, substituted, verdictOf).LaunchSucceeded?
       <==> Succeeds(replies, substituted, verdictOf)
  {
    LastPass(replies, verdictOf);
    RetryLeft(replies, 1, verdictOf);
    SwitchLeft(replies, 1, verdictOf);
    var first := replies(0);
    if AsksRetry(first) {
      assert LaunchResultOf(replies, 0, false, substituted, verdictOf)
          == LaunchResultOf(replies, 1, true, substituted, verdictOf);
    } else if AsksSwitch(first) && !substituted {
      assert LaunchResultOf(replies, 0, false, substituted, verdictOf)
          == LaunchResultOf(replies, 1, false, true, verdictOf);
    }
  }

  /** With retry and switch used up. */
  lemma LastPass(replies: nat -> Reply, verdictOf: nat -> Decision)
    ensures forall n: nat ::
      LaunchResultOf(replies, n, true, true, verdictOf).LaunchSucceeded? <==> Final(replies(n), verdictOf)
  {
  }

  /** With only the retry left. */
  lemma RetryLeft(replies: nat -> Reply, n: nat, verdictOf: nat -> Decision)
    ensures LaunchResultOf(replies, n, false, true, verdictOf).LaunchSucceeded? <==>
      Final(replies(n), verdictOf) || (AsksRetry(replies(n)) && Final(replies(n + 1), verdictOf))
  {
    LastPass(replies, verdictOf);
  }

  /** With only the switch left. */
  lemma SwitchLeft(replies: nat -> Reply, n: nat, verdictOf: nat -> Decision)
    ensures LaunchResultOf(replies, n, true, false, verdictOf).LaunchSucceeded? <==>
      Final(replies(n), verdictOf) || (AsksSwitch(replies(n)) && Final(replies(n + 1), verdictOf))
  {
    LastPass(replies, verdictOf);
  }

  /** Processes a run of steps starts. */
  function ProcessStarts(run: seq<Event>): nat {
    if run == [] then 0
    else ProcessStarts(run[..|run| - 1]) + if run[|run| - 1].Register? then 1 else 0
  }

  lemma {:induction false} ExecSnoc(s: State, run: seq<Event>, e: Event)
    requires Exec(s, run).Some?
    ensures Exec(s, run + [e]) == Next(Exec(s, run).value, e)
    decreases |run|
  {
    if run == [] {
      assert [e][1..] == [];
    } else {
      assert (run + [e])[1..] == run[1..] + [e];
      ExecSnoc(Next(s, run[0]).value, run[1..], e);
    }
  }

  /** run leads from s0 to s, where pid is at pc of its launch of the slot. */
  ghost predicate At(s0: State, run: seq<Event>, s: State, l: Ledger, reserved: set<nat>, key: SlotKey, pid: Pid,
                     pc: LaunchPc)
  {
    Exec(s0, run) == Some(s)
    && s.ledger == l && Reserved(s, key) == reserved && s.round == key.round
    && pid in s.procs && s.procs[pid] == Launcher(key, pc)
  }

  lemma AtMeans(s0: State, run: seq<Event>, s: State, l: Ledger, reserved: set<nat>, key: SlotKey, pid: Pid,
                pc: LaunchPc)
    requires At(s0, run, s, l, reserved, key, pid, pc)
    ensures Exec(s0, run) == Some(s) && s.ledger == l
  {
  }

  lemma Extend(s0: State, run: seq<Event>, s: State, e: Event) returns (run': seq<Event>, s': State)
    requires Exec(s0, run) == Some(s) && Next(s, e).Some?
    ensures Exec(s0, run') == Some(s') && Some(s') == Next(s, e)
    ensures ProcessStarts(run') == ProcessStarts(run) + if e.Register? then 1 else 0
  {
    run', s' := run + [e], Next(s, e).value;
    ExecSnoc(s0, run, e);
    assert run'[..|run|] == run;
  }

  lemma PrepareStep(s0: State, run: seq<Event>, s: State, l: Ledger, rs: set<nat>, key: SlotKey, pid: Pid,
                    retried: bool, k: nat)
      returns (run': seq<Event>, s': State)
    requires At(s0, run, s, l, rs, key, pid, LReady(retried)) && IsNextAttempt(l, rs, key, k)
    ensures At(s0, run', s', l, rs + {k}, key, pid, LPrepared(k, retried))
    ensures ProcessStarts(run') == ProcessStarts(run)
  {
    run', s' := Extend(s0, run, s, Prepare(pid, k));
  }

  lemma RegisterStep(s0: State, run: seq<Event>, s: State, l: Ledger, rs: set<nat>, key: SlotKey, pid: Pid,
                     retried: bool, k: nat)
      returns (run': seq<Event>, s': State)
    requires Inv(s0) && At(s0, run, s, l, rs, key, pid, LPrepared(k, retried))
    ensures AppendLocked(l, [Launch(key, k, Started)]) == Some(l + [Launch(key, k, Started)])
    ensures At(s0, run', s', l + [Launch(key, k, Started)], rs, key, pid, LRunning(k, retried))
    ensures ProcessStarts(run') == ProcessStarts(run) + 1
  {
    RunKeepsInv(s0, run);
    assert ProcOk(s.ledger, s.procs[pid]);
    FreshNumber(l, key, k);
    assert !HasStatus(l, key, k, Started);
    AppendFresh(l, Launch(key, k, Started));
    run', s' := Extend(s0, run, s, Register(pid));
  }

  lemma OutcomeStep(s0: State, run: seq<Event>, s: State, l: Ledger, rs: set<nat>, key: SlotKey, pid: Pid,
                    retried: bool, k: nat, st: Status)
      returns (run': seq<Event>, s': State)
    requires Inv(s0) && At(s0, run, s, l, rs, key, pid, LRunning(k, retried)) && !st.Opens()
    ensures AppendLocked(l, [Launch(key, k, st)]) == Some(l + [Launch(key, k, st)])
    ensures At(s0, run', s', l + [Launch(key, k, st)], rs, key, pid, LJudged(st, retried))
    ensures ProcessStarts(run') == ProcessStarts(run)
  {
    RunKeepsInv(s0, run);
    assert ProcOk(s.ledger, s.procs[pid]);
    assert OpenStarted(l, key, k) && !HasStatus(l, key, k, st);
    AppendFresh(l, Launch(key, k, st));
    run', s' := Extend(s0, run, s, RecordOutcome(pid, st));
  }

  lemma RetryStep(s0: State, run: seq<Event>, s: State, l: Ledger, rs: set<nat>, key: SlotKey, pid: Pid)
      returns (run': seq<Event>, s': State)
    requires At(s0, run, s, l, rs, key, pid, LJudged(Malformed, false))
    ensures At(s0, run', s', l, rs, key, pid, LReady(true))
    ensures ProcessStarts(run') == ProcessStarts(run)
  {
    run', s' := Extend(s0, run, s, Retry(pid));
  }

  lemma SubstituteStep(s0: State, run: seq<Event>, s: State, l: Ledger, rs: set<nat>, key: SlotKey, pid: Pid,
                       retried: bool, to: string)
      returns (run': seq<Event>, s': State)
    requires Inv(s0) && At(s0, run, s, l, rs, key, pid, LJudged(QuotaWall, retried)) && !Substituted(l, key)
    ensures AppendLocked(l, [Substitution(key, to)]) == Some(l + [Substitution(key, to)])
    ensures At(s0, run', s', l + [Substitution(key, to)], rs, key, pid, LReady(retried))
    ensures Substituted(l + [Substitution(key, to)], key)
    ensures ProcessStarts(run') == ProcessStarts(run)
  {
    RunKeepsInv(s0, run);
    AppendSubstitution(l, key, to);
    run', s' := Extend(s0, run, s, Substitute(pid, to));
    assert (l + [Substitution(key, to)])[|l|] == Substitution(key, to);
  }

  /** The record the submit step appends for new bytes. */
  function NextVerdict(l: Ledger, key: SlotKey, file: nat): Record {
    var latest := LatestSubmission(l, key);
    Verdict(key, if latest.Some? then latest.value.seqno + 1 else 1, file)
  }

  /** The ledger after these bytes were submitted: unchanged if they are those of the
      latest submission, and otherwise with a record of the next sequence number. */
  function AfterSubmit(l: Ledger, key: SlotKey, file: nat): Ledger {
    var latest := LatestSubmission(l, key);
    if latest.Some? && latest.value.seqno != 0 && latest.value.file == file then l else l + [NextVerdict(l, key, file)]
  }

  /** Verdict i is the latest of its slot: the first one with the highest number. */
  predicate IsLatest(l: Ledger, key: SlotKey, i: nat) {
    && i < |l| && l[i].Verdict? && l[i].key == key && l[i].seqno > 0
    && (forall j | 0 <= j < |l| && l[j].Verdict? && l[j].key == key :: l[j].seqno <= l[i].seqno)
    && (forall j | 0 <= j < i && l[j].Verdict? && l[j].key == key :: l[j].seqno < l[i].seqno)
  }

  lemma {:induction false} LatestExactly(l: Ledger, key: SlotKey)
    ensures LatestSubmission(l, key).Some? ==>
      exists i: nat :: IsLatest(l, key, i) && l[i] == LatestSubmission(l, key).value
    ensures LatestSubmission(l, key).None? ==> forall i: nat :: !IsLatest(l, key, i)
  {
    if l != [] {
      var n := |l| - 1;
      LatestExactly(l[..n], key);
      if LatestSubmission(l, key) == LatestSubmission(l[..n], key) && LatestSubmission(l, key).Some? {
        var i: nat :| IsLatest(l[..n], key, i) && l[..n][i] == LatestSubmission(l[..n], key).value;
        assert IsLatest(l, key, i);
      } else if LatestSubmission(l, key).Some? {
        assert IsLatest(l, key, n);
      }
    }
  }

  /** Submitting the bytes of the latest verdict again writes nothing; other bytes get the
      number after the highest one of the slot, which is one when there is none. */
  lemma SubmitExactly(l: Ledger, key: SlotKey, file: nat)
    ensures AfterSubmit(l, key, file) == l <==> exists i: nat :: IsLatest(l, key, i) && l[i].file == file
    ensures forall i: nat | IsLatest(l, key, i) && l[i].file != file ::
      AfterSubmit(l, key, file) == l + [Verdict(key, l[i].seqno + 1, file)]
    ensures (forall i: nat :: !IsLatest(l, key, i)) ==> AfterSubmit(l, key, file) == l + [Verdict(key, 1, file)]
  {
    LatestExactly(l, key);
    forall i: nat, j: nat | IsLatest(l, key, i) && IsLatest(l, key, j) ensures i == j {
    }
  }

  /** What a pass writes: nothing before its process is registered; then the start of
      attempt k, the submission if a clean exit left bytes that were recorded, and the
      outcome, unless appending that fails. */
  predicate PassWrites(l: Ledger, l': Ledger, key: SlotKey, k: nat, r: Reply) {
    if !r.prepared || !r.registered then l' == l
    else
      var started := l + [Launch(key, k, Started)];
      var submitted :=
        if !r.hasExit || !r.exitedClean then started
        else if r.accepted.Some? then AfterSubmit(started, key, r.accepted.value)
        else if r.recordedOnly.Some? then AfterSubmit(started, key, r.recordedOnly.value)
        else started;
      l' == submitted + if r.outcomeAppended then [Launch(key, k, OutcomeOf(r))] else []
  }

  lemma SubmitStep(s0: State, run: seq<Event>, s: State, l: Ledger, rs: set<nat>, key: SlotKey, pid: Pid,
                   pc: LaunchPc, file: nat)
      returns (run': seq<Event>, s': State)
    requires Inv(s0) && At(s0, run, s, l, rs, key, pid, pc)
    ensures AppendLocked(l, [NextVerdict(l, key, file)]) == Some(l + [NextVerdict(l, key, file)])
    ensures At(s0, run', s', l + [NextVerdict(l, key, file)], rs, key, pid, pc)
    ensures ProcessStarts(run') == ProcessStarts(run)
  {
    RunKeepsInv(s0, run);
    var r := NextVerdict(l, key, file);
    AppendOne(l, r);
    run', s' := Extend(s0, run, s, AppendNonLaunch(r));
  }

  lemma LatestAfterAppend(l: Ledger, r: Record, key: SlotKey)
    ensures LatestSubmission(l + [r], key) ==
      if r.Verdict? && r.key == key
         && r.seqno > (if LatestSubmission(l, key).Some? then LatestSubmission(l, key).value.seqno else 0)
      then Some(r) else LatestSubmission(l, key)
  {
  }

  /** The last record is the outcome st of an attempt of the slot. */
  predicate EndsWith(l: Ledger, key: SlotKey, st: Status) {
    l != [] && l[|l| - 1].Launch? && l[|l| - 1].key == key && l[|l| - 1].status == st
  }

  lemma SubstitutedAfterAppend(l: Ledger, r: Record, key: SlotKey)
    requires !r.Substitution?
    ensures Substituted(l + [r], key) == Substituted(l, key)
  {
    if Substituted(l, key) {
      var i :| 0 <= i < |l| && l[i].Substitution? && l[i].key == key;
      assert (l + [r])[i] == l[i];
    }
  }

  /** starts and ended hold the attempts of l with a started record and with another. */
  ghost predicate ReadSoFar(l: Ledger, key: SlotKey, starts: set<nat>, ended: set<nat>) {
    && (forall a: nat :: a in starts <==> HasStatus(l, key, a, Started))
    && (forall a: nat :: a in ended <==> exists st :: st != Started && HasStatus(l, key, a, st))
  }

  lemma ReadNext(l: Ledger, e: Record, key: SlotKey, starts: set<nat>, ended: set<nat>)
    requires ReadSoFar(l, key, starts, ended)
    ensures e.Launch? && e.key == key && e.status == Started ==> ReadSoFar(l + [e], key, starts + {e.attempt}, ended)
    ensures e.Launch? && e.key == key && e.status != Started ==> ReadSoFar(l + [e], key, starts, ended + {e.attempt})
    ensures !(e.Launch? && e.key == key) ==> ReadSoFar(l + [e], key, starts, ended)
  {
    AppendFrame(l, e);
    hide HasStatus;
    if e.Launch? && e.key == key {
      assert HasStatus(l + [e], key, e.attempt, e.status);
    }
  }

  lemma OpenIsStartedNotEnded(l: Ledger, key: SlotKey, starts: set<nat>, ended: set<nat>)
    requires LedgerInv(l) && ReadSoFar(l, key, starts, ended)
    ensures forall a: nat :: OpenStarted(l, key, a) <==> a in starts && a !in ended
    ensures forall a: nat :: HasStart(l, key, a) <==> a in starts || a in ended
  {
    forall a: nat | a in ended ensures HasStart(l, key, a) {
      var st :| st != Started && HasStatus(l, key, a, st);
      if !st.Opens() { EndHasStart(l, key, a); }
    }
  }

  lemma OpenIsBelow(l: Ledger, key: SlotKey, n: nat)
    requires LedgerNext(l, key) <= n
    ensures forall a: nat | OpenStarted(l, key, a) :: a < n
  {
    forall a: nat | OpenStarted(l, key, a) ensures a < n { assert HasStatus(l, key, a, Started); }
  }

  /** Appends the outcome of one orphan. */
  method CloseOne(l: Ledger, key: SlotKey, k: nat) returns (l': Ledger)
    requires LedgerInv(l) && OpenStarted(l, key, k)
    ensures l' == l + [Launch(key, k, LaunchFailed)] && LedgerInv(l')
    ensures forall a: nat :: OpenStarted(l', key, a) <==> OpenStarted(l, key, a) && a != k
  {
    ghost var todo := OpenStartedSet(l, key);
    OpenSetExact(l, key);
    CloseKeeps(l, key, k, todo);
    l' := AppendLocked(l, [Launch(key, k, LaunchFailed)]).value;
  }

  /** What can keep checkProcessOrphans from an attempt: its path is refused, the pgid
      file of an unregistered one is unreadable, its supervisor cannot be stopped, or the
      outcome of a registered one cannot be appended. */
  datatype OrphanFaults = OrphanFaults(paths: set<nat>, pgids: set<nat>, stops: set<nat>, appends: set<nat>) {
    predicate Block(k: nat, registered: bool) {
      k in paths || k in stops || (if registered then k in appends else k in pgids)
    }
  }

  /** In terms of the four sets. */
  lemma BlocksExactly(f: OrphanFaults, k: nat)
    ensures f.Block(k, true) <==> k in f.paths + f.stops + f.appends
    ensures f.Block(k, false) <==> k in f.paths + f.stops + f.pgids
  {
  }

  /** One slot and round as the verbs that hold its lock see it: the panel's ledger, and
      the attempt numbers reserved in the slot directory. */
  class Slot {
    const key: SlotKey
    const pid: Pid
    const verdictOf: nat -> Decision
    var ledger: Ledger
    var reserved: set<nat>

    constructor (key: SlotKey, pid: Pid, verdictOf: nat -> Decision, ledger: Ledger, reserved: set<nat>)
      ensures this.key == key && this.pid == pid && this.verdictOf == verdictOf
      ensures this.ledger == ledger && this.reserved == reserved
    {
      this.key, this.pid, this.verdictOf, this.ledger, this.reserved := key, pid, verdictOf, ledger, reserved;
    }

    /** panel.NextAttemptNumber: the highest number in the ledger or the slot directory, plus one. */
    method NextAttemptNumber() returns (k: nat)
      ensures IsNextAttempt(ledger, reserved, key, k)
    {
      var high := LedgerNext(ledger, key) - 1;
      LedgerNextPositive(ledger, key);
      var rest := reserved;
      while rest != {}
        invariant rest <= reserved && high + 1 >= LedgerNext(ledger, key)
        invariant forall d | d in reserved && d !in rest :: d <= high
        invariant high + 1 == LedgerNext(ledger, key) || high in reserved
        decreases rest
      {
        var d :| d in rest;
        if d > high { high := d; }
        rest := rest - {d};
      }
      k := high + 1;
    }

    /** The maps starts and ended of checkProcessOrphans. */
    method ReadAttempts() returns (starts: set<nat>, ended: set<nat>)
      requires LedgerInv(ledger)
      ensures forall a: nat :: OpenStarted(ledger, key, a) <==> a in starts && a !in ended
      ensures forall a: nat :: HasStart(ledger, key, a) <==> a in starts || a in ended
    {
      starts, ended := {}, {};
      assert ReadSoFar(ledger[..0], key, starts, ended);
      hide ReadSoFar;
      for i := 0 to |ledger|
        invariant ReadSoFar(ledger[..i], key, starts, ended)
      {
        var e := ledger[i];
        assert ledger[..i + 1] == ledger[..i] + [e];
        ReadNext(ledger[..i], e, key, starts, ended);
        if e.Launch? && e.key == key {
          if e.status == Started { starts := starts + {e.attempt}; } else { ended := ended + {e.attempt}; }
        }
      }
      assert ledger[..|ledger|] == ledger;
      OpenIsStartedNotEnded(ledger, key, starts, ended);
    }

    /** checkProcessOrphans under the slot lock: every process attempt without an
        outcome is stopped and closed, lowest number first, and so is the supervisor
        of a bare attempt directory. listed: ledger and directory could be read. */
    method CheckProcessOrphans(listed: bool, f: OrphanFaults) returns (ok: bool, ghost closed: seq<nat>)
      requires LedgerInv(ledger)
      modifies this`ledger
      ensures LedgerInv(ledger)
      ensures ledger == old(ledger) + Closings(key, closed)
      ensures forall a | a in closed :: OpenStarted(old(ledger), key, a) && !f.Block(a, true)
      ensures ok ==> NoOpenStarted(ledger, key)
      ensures ok <==>
        && listed
        && (forall a: nat | OpenStarted(old(ledger), key, a) :: !f.Block(a, true))
        && (forall a | a in reserved && !HasStart(old(ledger), key, a) :: !f.Block(a, false))
      ensures !listed ==> closed == []
      ensures !ok && listed ==> exists a: nat ::
        && f.Block(a, OpenStarted(old(ledger), key, a)) && forall b: nat | b < a :: !OpenStarted(ledger, key, b)
    {
      hide LedgerInv, OpenStarted, HasStart, LedgerNext;
      closed := [];
      assert ledger + Closings(key, closed) == ledger;
      if !listed { return false, closed; }
      var starts, ended := ReadAttempts();
      var n := NextAttemptNumber();
      ghost var was := ledger;
      closed := [];
      assert was + Closings(key, closed) == was;
      for k := 0 to n
        invariant LedgerInv(ledger) && ledger == was + Closings(key, closed)
        invariant forall a | a in closed :: a < k && OpenStarted(was, key, a) && !f.Block(a, true)
        invariant forall a: nat :: OpenStarted(ledger, key, a) <==> OpenStarted(was, key, a) && k <= a
        invariant forall a: nat | a < k && OpenStarted(was, key, a) :: !f.Block(a, true)
        invariant forall a: nat | a < k && a in reserved && !HasStart(was, key, a) :: !f.Block(a, false)
      {
        if (k in starts || k in reserved) && k !in ended {
          assert OpenStarted(was, key, k) <==> k in starts;
          if k in f.paths { return false, closed; }
          if k !in starts && k in f.pgids { return false, closed; }
          if k in f.stops { return false, closed; }
          if k in starts {
            if k in f.appends { return false, closed; }
            ledger := CloseOne(ledger, key, k);
            assert Closings(key, closed + [k]) == Closings(key, closed) + [Launch(key, k, LaunchFailed)];
            closed := closed + [k];
          }
        }
      }
      OpenIsBelow(was, key, n);
      ok := true;
    }

    /** dispatchSlot: the maps over the attempts, then one batch behind the ledger comparison. */
    method DispatchRecords(k: nat) returns (batch: seq<Record>)
      ensures batch == DispatchBatch(ledger, key, k)
    {
      var last: map<nat, Status> := map[];
      for i := 0 to |ledger|
        invariant forall a: nat :: a in last <==> LastStatus(ledger[..i], key, a).Some?
        invariant forall a: nat | a in last :: LastStatus(ledger[..i], key, a) == Some(last[a])
      {
        assert ledger[..i + 1][..i] == ledger[..i];
        var e := ledger[i];
        if e.Launch? && e.key == key { last := last[e.attempt := e.status]; }
      }
      assert ledger[..|ledger|] == ledger;
      var n := LedgerNext(ledger, key);
      var numbers: seq<nat> := [];
      for a := 0 to n
        invariant numbers == DispatchedBelow(ledger, key, a)
      {
        if a in last && last[a] == Dispatched { numbers := numbers + [a]; }
      }
      batch := Closings(key, numbers) + [Launch(key, k, Dispatched)];
    }

    /** The submit step: the same bytes again reuse the latest record, other bytes
        get the next sequence number. */
    method Submit(file: nat, pc: LaunchPc, ghost s0: State, ghost run0: seq<Event>, ghost s: State)
        returns (ghost run: seq<Event>, ghost s': State)
      requires Inv(s0) && At(s0, run0, s, ledger, reserved, key, pid, pc)
      modifies this`ledger
      ensures At(s0, run, s', ledger, reserved, key, pid, pc)
      ensures ProcessStarts(run) == ProcessStarts(run0)
      ensures LatestSubmission(ledger, key).Some? && LatestSubmission(ledger, key).value.file == file
      ensures Substituted(ledger, key) == Substituted(old(ledger), key)
      ensures ledger == AfterSubmit(old(ledger), key, file)
    {
      var latest := LatestSubmission(ledger, key);
      run, s' := run0, s;
      if latest.None? || latest.value.seqno == 0 || latest.value.file != file {
        var r := NextVerdict(ledger, key, file);
        run, s' := SubmitStep(s0, run0, s, ledger, reserved, key, pid, pc, file);
        LatestAfterAppend(ledger, r, key);
        SubstitutedAfterAppend(ledger, r, key);
        ledger := AppendLocked(ledger, [r]).value;
      }
    }

    /** One pass: attempt directory, registration, run, submission, outcome. */
    method Pass(r: Reply, retried: bool, ghost s0: State, ghost run0: seq<Event>, ghost s: State)
        returns (startedOne: bool, status: Option<Status>, ghost run: seq<Event>, ghost s': State)
      requires Inv(s0) && At(s0, run0, s, ledger, reserved, key, pid, LReady(retried))
      modifies this
      ensures Exec(s0, run) == Some(s') && s'.ledger == ledger
      ensures ProcessStarts(run) == ProcessStarts(run0) + if startedOne then 1 else 0
      ensures Substituted(ledger, key) == Substituted(old(ledger), key)
      ensures startedOne == (r.prepared && r.registered)
      ensures status.Some? == (startedOne && r.outcomeAppended)
      ensures status == Some(Submitted) <==> Ran(r) && r.hasExit && r.exitedClean && r.accepted.Some?
      ensures status == Some(Malformed) <==> Ran(r) && r.hasExit && r.exitedClean && r.accepted.None?
      ensures status == Some(QuotaWall) <==> Ran(r) && r.hasExit && !r.exitedClean && r.quota
      ensures status == Some(LaunchFailed) <==> Ran(r) && !(r.hasExit && (r.exitedClean || r.quota))
      ensures status.Some? ==>
        && status.value == OutcomeOf(r)
        && At(s0, run, s', ledger, reserved, key, pid, LJudged(status.value, retried))
        && EndsWith(ledger, key, status.value)
      ensures status == Some(Submitted) ==>
                LatestSubmission(ledger, key).Some? && LatestSubmission(ledger, key).value.file == r.accepted.value
      ensures exists k ::
        && PassWrites(old(ledger), ledger, key, k, r)
        && reserved == old(reserved) + (if r.prepared then {k} else {})
        && (r.prepared ==> IsNextAttempt(old(ledger), old(reserved), key, k))
    {
      hide Inv, Next, Exec, LatestSubmission, Substituted, IsNextAttempt, AppendLocked, ProcessStarts, AfterSubmit;
      hide OutcomeOf, At;
      OutcomeExactly(r);
      startedOne, status, run, s' := false, None, run0, s;
      AtMeans(s0, run, s', ledger, reserved, key, pid, LReady(retried));
      assert !r.prepared ==> PassWrites(ledger, ledger, key, 0, r);
      if !r.prepared { return; }
      var k := NextAttemptNumber();
      run, s' := PrepareStep(s0, run, s', ledger, reserved, key, pid, retried, k);
      reserved := reserved + {k};
      AtMeans(s0, run, s', ledger, reserved, key, pid, LPrepared(k, retried));
      assert !r.registered ==> PassWrites(ledger, ledger, key, k, r);
      if !r.registered { return; }
      run, s' := RegisterStep(s0, run, s', ledger, reserved, key, pid, retried, k);
      SubstitutedAfterAppend(ledger, Launch(key, k, Started), key);
      ledger := AppendLocked(ledger, [Launch(key, k, Started)]).value;
      startedOne := true;
      var outcome := OutcomeOf(r);
      var recorded := if r.accepted.Some? then r.accepted else r.recordedOnly;
      if r.hasExit && r.exitedClean && recorded.Some? {
        run, s' := Submit(recorded.value, LRunning(k, retried), s0, run, s');
      }
      AtMeans(s0, run, s', ledger, reserved, key, pid, LRunning(k, retried));
      assert !r.outcomeAppended ==> PassWrites(old(ledger), ledger + [], key, k, r);
      if !r.outcomeAppended { return; }
      run, s' := OutcomeStep(s0, run, s', ledger, reserved, key, pid, retried, k, outcome);
      SubstitutedAfterAppend(ledger, Launch(key, k, outcome), key);
      LatestAfterAppend(ledger, Launch(key, k, outcome), key);
      ledger := AppendLocked(ledger, [Launch(key, k, outcome)]).value;
      status := Some(outcome);
      AtMeans(s0, run, s', ledger, reserved, key, pid, LJudged(outcome, retried));
      assert PassWrites(old(ledger), ledger, key, k, r);
    }

    /** The loop of runPanelLaunch. Its passes are steps of the protocol, it starts at
        most three processes, and it succeeds only when the latest submission of the
        slot is final and not VOID. */
    method LaunchLoop(replies: nat -> Reply, ghost s0: State)
        returns (result: LaunchResult, started: nat, ghost run: seq<Event>, ghost s: State)
      requires Inv(s0) && At(s0, [], s0, ledger, reserved, key, pid, LReady(false))
      modifies this
      ensures Exec(s0, run) == Some(s) && s.ledger == ledger
      ensures started == ProcessStarts(run) <= 3
      ensures result == LaunchResultOf(replies, 0, false, Substituted(old(ledger), key), verdictOf)
      ensures result.LaunchSucceeded? ==>
        && LatestSubmission(ledger, key).Some?
        && verdictOf(LatestSubmission(ledger, key).value.file) == Decision(true, false)
        && EndsWith(ledger, key, Submitted)
      ensures result.LaunchSucceeded? <==> Succeeds(replies, Substituted(old(ledger), key), verdictOf)
      ensures Substituted(ledger, key) && !Substituted(old(ledger), key) ==> exists n: nat | n < started ::
        && Ran(replies(n)) && replies(n).hasExit && !replies(n).exitedClean && replies(n).quota
        && replies(n).onQuota.Some? && replies(n).substituteAppended
    {
      hide Inv, Next, LatestSubmission, Substituted, AppendLocked, Succeeds, OutcomeOf, PassWrites, IsNextAttempt, At;
      LaunchSucceedsExactly(replies, Substituted(ledger, key), verdictOf);
      ghost var wall: nat := 0;
      var retried := false;
      started, run, s, result := 0, [], s0, LaunchRefused;
      while true
        invariant At(s0, run, s, ledger, reserved, key, pid, LReady(retried))
        invariant started == ProcessStarts(run) && result == LaunchRefused
        invariant LaunchResultOf(replies, 0, false, Substituted(old(ledger), key), verdictOf)
               == LaunchResultOf(replies, started, retried, Substituted(ledger, key), verdictOf)
        invariant started + (if retried then 0 else 1) + (if Substituted(ledger, key) then 0 else 1) <= 2
        invariant Substituted(ledger, key) && !Substituted(old(ledger), key) ==>
          && wall < started && Ran(replies(wall)) && replies(wall).hasExit && !replies(wall).exitedClean
          && replies(wall).quota && replies(wall).onQuota.Some? && replies(wall).substituteAppended
        decreases !retried, !Substituted(ledger, key)
      {
        var r := replies(started);
        var startedOne, status;
        startedOne, status, run, s := Pass(r, retried, s0, run, s);
        if startedOne { started := started + 1; }
        if status == None { return; }
        if status == Some(Malformed) && !retried {
          run, s := RetryStep(s0, run, s, ledger, reserved, key, pid);
          retried := true;
          continue;
        }
        if status == Some(QuotaWall) && r.onQuota.Some? && !Substituted(ledger, key) {
          if !r.substituteAppended { return; }
          run, s := SubstituteStep(s0, run, s, ledger, reserved, key, pid, retried, r.onQuota.value);
          ledger := AppendLocked(ledger, [Substitution(key, r.onQuota.value)]).value;
          AtMeans(s0, run, s, ledger, reserved, key, pid, LReady(retried));
          wall := started - 1;
          if r.substituteIsProcess { continue; }
        }
        if r.statusRead && status == Some(Submitted) && verdictOf(r.accepted.value) == Decision(true, false) {
          result := LaunchSucceeded;
        }
        return;
      }
    }
  }

  /** What a cleanup gets: every lock, a refused path, or the slots it could not lock. */
  datatype LockResult = Taken | BadPath(slot: SlotKey) | NotLocked(failed: set<SlotKey>)

  /** The slot lock files of a panel, as the processes that take them see them. */
  class SlotLocks {
    var owner: map<SlotKey, Pid>

    /** The locking part of cleanupPanelCheckouts: every affected slot is tried, even
        after a failure, but a refused path ends the loop. Either way one failure gives
        back everything that was taken. faulty: lock files with errors of their own. */
    method AcquireAll(pid: Pid, affected: seq<SlotKey>, badPath: set<SlotKey>, faulty: set<SlotKey>)
      returns (r: LockResult)
      requires forall i, j | 0 <= i < j < |affected| :: affected[i] != affected[j]
      modifies this
      ensures r.BadPath? <==> exists k :: k in affected && k in badPath
      ensures r.BadPath? ==> exists i | 0 <= i < |affected| ::
        && affected[i] == r.slot && r.slot in badPath && forall j | 0 <= j < i :: affected[j] !in badPath
      ensures !r.BadPath? ==> r == NotLocked(Elements(affected) * (old(owner).Keys + faulty)) || r.Taken?
      ensures r.Taken? <==> forall k | k in affected :: k !in badPath && k !in old(owner) && k !in faulty
      ensures owner == if r.Taken? then old(owner) + Locks(Elements(affected), pid) else old(owner)
    {
      ghost var was := owner;
      ElementsAre(affected);
      hide Elements, Locks;
      var bad, locks, failures := TryAll(pid, affected, badPath, faulty);
      if bad.Some? || failures != {} {
        GiveBack(was, locks, pid);
        ReleaseAll(locks);
        return if bad.Some? then BadPath(affected[bad.value]) else NotLocked(failures);
      }
      assert forall k | k in affected && (k in was || k in faulty) :: k in failures;
      assert Elements(locks) == Elements(affected);
      r := Taken;
    }

    /** The loop: the locks taken and the slots that failed, up to the first refused path. */
    method TryAll(pid: Pid, affected: seq<SlotKey>, badPath: set<SlotKey>, faulty: set<SlotKey>)
      returns (bad: Option<nat>, locks: seq<SlotKey>, failures: set<SlotKey>)
      requires forall i, j | 0 <= i < j < |affected| :: affected[i] != affected[j]
      modifies this
      ensures owner == old(owner) + Locks(Elements(locks), pid) && Elements(locks) !! old(owner).Keys
      ensures bad.None? ==>
        && (forall k | k in affected :: k !in badPath)
        && Elements(locks) == Elements(affected) - old(owner).Keys - faulty
        && failures == Elements(affected) * (old(owner).Keys + faulty)
      ensures bad.Some? ==>
        && bad.value < |affected| && affected[bad.value] in badPath
        && forall j | 0 <= j < bad.value :: affected[j] !in badPath
    {
      locks, failures := [], {};
      ghost var was := owner;
      assert was + Locks({}, pid) == was && Elements(locks) == Elements(affected[..0]) == {};
      hide Elements, Locks;
      for i := 0 to |affected|
        invariant owner == was + Locks(Elements(locks), pid)
        invariant Elements(locks) == Elements(affected[..i]) - was.Keys - faulty
        invariant failures == Elements(affected[..i]) * (was.Keys + faulty)
        invariant forall j | 0 <= j < i :: affected[j] !in badPath
      {
        var k := affected[i];
        ElementsSnoc(affected, i);
        if k in badPath { return Some(i), locks, failures; }
        if k in owner || k in faulty {
          failures := failures + {k};
        } else {
          TakeOne(was, locks, k, pid);
          owner := owner[k := pid];
          locks := locks + [k];
        }
      }
      assert affected[..|affected|] == affected;
      bad := None;
    }

    /** Gives the locks back in reverse order. */
    method ReleaseAll(locks: seq<SlotKey>)
      modifies this
      ensures owner == old(owner) - Elements(locks)
    {
      var i := |locks|;
      while i > 0
        invariant 0 <= i <= |locks|
        invariant owner == old(owner) - Elements(locks[i..])
      {
        i := i - 1;
        owner := owner - {locks[i]};
        assert locks[i..] == [locks[i]] + locks[i + 1..];
      }
      assert locks[0..] == locks;
    }
  }

  lemma ElementsAre(s: seq<SlotKey>)
    ensures forall k :: k in Elements(s) <==> k in s
  {
  }

  lemma ElementsSnoc(s: seq<SlotKey>, i: nat)
    requires i < |s|
    ensures Elements(s[..i + 1]) == Elements(s[..i]) + {s[i]}
  {
  }

  lemma TakeOne(was: map<SlotKey, Pid>, locks: seq<SlotKey>, k: SlotKey, pid: Pid)
    ensures Elements(locks + [k]) == Elements(locks) + {k}
    ensures (was + Locks(Elements(locks), pid))[k := pid] == was + Locks(Elements(locks + [k]), pid)
  {
  }

  lemma GiveBack(was: map<SlotKey, Pid>, locks: seq<SlotKey>, pid: Pid)
    requires Elements(locks) !! was.Keys
    ensures (was + Locks(Elements(locks), pid)) - Elements(locks) == was
  {
  }

  function Elements(s: seq<SlotKey>): set<SlotKey> {
    set k | k in s
  }

  /** The entries of the lock table for a set of slots held by one process. */
  function Locks(slots: set<SlotKey>, pid: Pid): map<SlotKey, Pid> {
    map k | k in slots :: pid
  }
}
