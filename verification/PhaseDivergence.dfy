/** Where stored and derived phase part: the exact conditions, and a run for each
    (cmd/mindspec/next.go, cmd/mindspec/release.go, internal/complete/complete.go,
    internal/approve/plan.go). */
module PhaseDivergence {
  import opened Common
  import opened PhaseCache
  import opened PhaseProtocol

  // ----- The exact cost of a release that did not see its bead in progress -----

  /** Such a release stores nothing, so from agreement it leaves agreement exactly when
      setting the bead open does not change what the children derive to. */
  lemma BlindReleaseExact(s: State, pid: Pid, s': State)
    requires pid in s.tasks && s.tasks[pid].Releasing? && !s.tasks[pid].sawInProgress
    requires s.field == Known(Derive(s.children)) && Next(s, ReleaseOpen(pid)) == Some(s')
    ensures s'.field == Known(Derive(s'.children))
       <==> Derive(SetStatus(s.children, s.tasks[pid].bead, Open)) == Derive(s.children)
  {
  }

  lemma {:induction false} ExecAppend(s: State, run: seq<Event>, s1: State, e: Event)
    requires Exec(s, run) == Some(s1)
    ensures Exec(s, run + [e]) == Next(s1, e)
    decreases |run|
  {
    if run == [] {
      assert run + [e] == [e] && [e][1..] == [];
    } else {
      assert (run + [e])[1..] == run[1..] + [e];
      ExecAppend(Next(s, run[0]).value, run[1..], s1, e);
    }
  }

  /** One bead, closed and in review. */
  function InReview(): State {
    State([Child(Lifecycle, Closed)], Known(Review), true, false, None, map[], false, false, false, false)
  }

  lemma SingleDerivations()
    ensures Derive([Child(Lifecycle, Closed)]) == Review && Derive([Child(Lifecycle, Open)]) == Plan
    ensures Derive([Child(Lifecycle, InProgress)]) == Implement
  {
    var closed, open, active := [Child(Lifecycle, Closed)], [Child(Lifecycle, Open)], [Child(Lifecycle, InProgress)];
    assert closed[0].kind.Lifecycle? && open[0].kind.Lifecycle? && active[0].kind.Lifecycle?;
    assert closed[0].status == Closed && open[0].status == Open && active[0].status == InProgress;
  }

  lemma BlindRelease() returns (run: seq<Event>)
    ensures Exec(InReview(), run) == Some(InReview().(children := [Child(Lifecycle, Open)], blind := true))
  {
    SingleDerivations();
    hide Derive;
    var s := InReview();
    var r, s' := TwoSteps(s, [], s, ReleaseRead(0, 0), ReleaseOpen(0));
    assert s'.children == [Child(Lifecycle, Open)] && s'.tasks == map[];
    run := r;
  }

  /** Releasing the only, already closed, bead leaves review stored over derived plan. */
  lemma BlindReleaseDiverges()
    ensures exists s, run, s' ::
      && Start(s) && s.field == Known(Derive(s.children)) && Exec(s, run) == Some(s') && Quiescent(s')
      && s'.field == Known(Review) && Derive(s'.children) == Plan && !s'.lost && !s'.stale && !s'.done
  {
    SingleDerivations();
    hide Derive, Next;
    var run := BlindRelease();
    assert Start(InReview());
  }

  // ----- A phase derived before the lock -----

  /** Storing such a phase leaves agreement exactly when it is still the derived one. */
  lemma LateStoreExact(s: State, run: seq<Event>, s1: State, pid: Pid, s': State)
    requires Start(s) && Exec(s, run) == Some(s1) && Next(s1, Commit(pid)) == Some(s')
    requires pid in s1.tasks && Late(s1.tasks[pid])
    ensures s'.field == Known(Derive(s'.children)) <==> s1.tasks[pid].todo[0].target == Derive(s1.children)
  {
    hide Derive;
    RunAdmissible(s, run, s1);
  }

  predicate Late(t: Task) { t.Sections? && t.todo != [] && t.todo[0].Precomputed? }

  /** A step of a completion, of a reconciliation or of the heal before them; none fails. */
  predicate OfCompletion(e: Event) {
    e.StartHeal? || e.CompleteClose? || e.CompleteDerive? || e.Reconcile? || e.Acquire? || e.DecideInLock? || e.Commit?
  }

  /** The last late store of a run: what it stored, and whether some step changed the
      derived phase between the verb's derivation and its commit. */
  datatype LastStore = LastStore(target: Phase, overtaken: bool)

  datatype History = History(overtaken: set<Pid>, last: Option<LastStore>)

  function Note(h: History, s: State, e: Event): History
    requires Next(s, e).Some?
  {
    var s' := Next(s, e).value;
    if Derive(s'.children) != Derive(s.children) then h.(overtaken := s'.tasks.Keys)
    else if e.CompleteDerive? || e.Reconcile? then h.(overtaken := h.overtaken - {e.pid})
    else if e.Commit? && e.pid in s.tasks && Late(s.tasks[e.pid]) then
      h.(last := Some(LastStore(s.tasks[e.pid].todo[0].target, e.pid in h.overtaken)))
    else h
  }

  function NoteAll(h: History, s: State, run: seq<Event>): History
    requires Exec(s, run).Some?
    decreases |run|
  {
    if run == [] then h else NoteAll(Note(h, s, run[0]), Next(s, run[0]).value, run[1..])
  }

  predicate NotAbove(p: Phase, q: Phase) {
    Rank(p).Some? && Rank(q).Some? && Rank(p).value <= Rank(q).value
  }

  /** Closing beads only ever moves the derived phase forward. */
  lemma ClosingNeverLowers(cs: seq<Child>, i: nat)
    requires i < |cs|
    ensures NotAbove(Derive(cs), Derive(SetStatus(cs, i, Closed)))
  {
    var ds := SetStatus(cs, i, Closed);
    assert forall k | 0 <= k < |cs| :: ds[k].kind == cs[k].kind && (k != i ==> ds[k] == cs[k]);
    if Has(cs, InProgress) && cs[i].kind.Lifecycle? { assert ds[i].status == Closed; }
    if Has(cs, Closed) {
      var k :| 0 <= k < |cs| && cs[k].kind.Lifecycle? && cs[k].status == Closed;
      assert ds[k].kind.Lifecycle? && ds[k].status == Closed;
    }
  }

  /** A task of such a run: a heal that stores nothing, or a completion with its target. */
  predicate CompletionTask(p: Pid, t: Task, overtaken: set<Pid>, derived: Phase) {
    match t
    case Releasing(_, _) => false
    case Completing => true
    case Sections(todo, stage) =>
      if todo != [] && todo[0].Precomputed? then
        && |todo| == 1 && NotAbove(todo[0].target, derived)
        && (p in overtaken <==> todo[0].target != derived)
        && (stage.Decided? ==> stage.decision.write == Some(todo[0].target))
      else
        && (forall sec | sec in todo :: sec.Migrate? || sec.Semantics?)
        && (stage.Decided? ==> stage.decision.write.None?)
  }

  predicate Owing(t: Task) { t.Completing? || Late(t) }

  /** As long as a completion is under way its store is still to come. Otherwise the
      phases agree unless the last store was overtaken. */
  ghost predicate Settled(s: State, h: History) {
    || (exists p | p in s.tasks :: Owing(s.tasks[p]))
    || (s.field == Known(Derive(s.children)) <==> !(h.last.Some? && h.last.value.overtaken))
  }

  ghost predicate CompletionInv(s: State, h: History) {
    && LockInv(s) && s.field.Known? && NotAbove(s.field.phase, Derive(s.children))
    && (forall p | p in s.tasks :: CompletionTask(p, s.tasks[p], h.overtaken, Derive(s.children)))
    && (h.last.Some? ==> s.field == Known(h.last.value.target))
    && Settled(s, h)
  }

  lemma CompletionStep(s: State, e: Event, s': State, h: History)
    requires CompletionInv(s, h) && OfCompletion(e) && Next(s, e) == Some(s')
    ensures CompletionInv(s', Note(h, s, e))
  {
    LockInvKept(s, s', e);
    match e
    case CompleteClose(pid, i) => ClosingStep(s, pid, i, s', h);
    case CompleteDerive(_) => DerivingStep(s, e, s', h);
    case Reconcile(_) => DerivingStep(s, e, s', h);
    case StartHeal(pid) => QuietCompletionStep(s, e, s', h);
    case Acquire(pid) => QuietCompletionStep(s, e, s', h);
    case DecideInLock(pid) =>
      DecidingStep(s, pid, s', h);
      QuietCompletionStep(s, e, s', h);
    case Commit(pid) => CommittingStep(s, pid, s', h);
  }

  lemma ClosingStep(s: State, pid: Pid, i: nat, s': State, h: History)
    requires CompletionInv(s, h) && Next(s, CompleteClose(pid, i)) == Some(s') && LockInv(s')
    ensures CompletionInv(s', Note(h, s, CompleteClose(pid, i)))
  {
    ClosingNeverLowers(s.children, i);
    hide Derive;
    assert Owing(s'.tasks[pid]);
  }

  lemma DerivingStep(s: State, e: Event, s': State, h: History)
    requires CompletionInv(s, h) && (e.CompleteDerive? || e.Reconcile?) && Next(s, e) == Some(s') && LockInv(s')
    ensures CompletionInv(s', Note(h, s, e))
  {
    hide Derive;
    assert Owing(s'.tasks[e.pid]);
  }

  lemma OnlyTheTask(s: State, e: Event, s': State)
    requires Next(s, e) == Some(s') && (e.StartHeal? || e.Acquire? || e.DecideInLock?)
    ensures s'.children == s.children && s'.field == s.field
    ensures e.pid in s'.tasks && s'.tasks == s.tasks[e.pid := s'.tasks[e.pid]]
  {
    hide Derive, Decide;
  }

  /** A step that stores nothing and leaves what its task owes. */
  lemma QuietCompletionStep(s: State, e: Event, s': State, h: History)
    requires CompletionInv(s, h) && Next(s, e) == Some(s') && LockInv(s')
    requires e.StartHeal? || e.Acquire? || e.DecideInLock?
    requires e.pid in s'.tasks && CompletionTask(e.pid, s'.tasks[e.pid], h.overtaken, Derive(s.children))
    requires e.pid in s.tasks && Owing(s.tasks[e.pid]) ==> Owing(s'.tasks[e.pid])
    ensures CompletionInv(s', Note(h, s, e))
  {
    OnlyTheTask(s, e, s');
    hide Derive, Next, LockInv, Rank;
    assert Note(h, s, e) == h;
    if p :| p in s.tasks && Owing(s.tasks[p]) { assert Owing(s'.tasks[p]); }
  }

  lemma DecidingStep(s: State, pid: Pid, s': State, h: History)
    requires CompletionInv(s, h) && Next(s, DecideInLock(pid)) == Some(s')
    ensures pid in s'.tasks && CompletionTask(pid, s'.tasks[pid], h.overtaken, Derive(s.children))
    ensures Owing(s.tasks[pid]) ==> Owing(s'.tasks[pid])
  {
    var t := s.tasks[pid];
    if t.todo[0].Semantics? && LegacySignature(s.field, s.children) { LegacyRewriteAgrees(s.field, s.children); }
  }

  lemma CommittingStep(s: State, pid: Pid, s': State, h: History)
    requires CompletionInv(s, h) && Next(s, Commit(pid)) == Some(s') && LockInv(s')
    ensures CompletionInv(s', Note(h, s, Commit(pid)))
  {
    CommitEnds(s, pid, s');
    if Late(s.tasks[pid]) { LateCommit(s, pid, s', h); } else { HealCommit(s, pid, s', h); }
  }

  lemma LateCommit(s: State, pid: Pid, s': State, h: History)
    requires CompletionInv(s, h) && Next(s, Commit(pid)) == Some(s') && LockInv(s')
    requires InSection(s, pid) && Late(s.tasks[pid]) && s.tasks[pid].stage.Decided?
    requires s'.field == Stored(s, s.tasks[pid].stage.decision).field && s'.children == s.children
    requires s'.tasks == s.tasks - {pid}
    ensures CompletionInv(s', Note(h, s, Commit(pid)))
  {
    hide Derive, Next, LockInv, Rank;
    var target := s.tasks[pid].todo[0].target;
    assert CompletionTask(pid, s.tasks[pid], h.overtaken, Derive(s.children));
    assert s'.field == Known(target);
    assert Note(h, s, Commit(pid)) == h.(last := Some(LastStore(target, pid in h.overtaken)));
  }

  lemma HealCommit(s: State, pid: Pid, s': State, h: History)
    requires CompletionInv(s, h) && Next(s, Commit(pid)) == Some(s') && LockInv(s')
    requires InSection(s, pid) && !Late(s.tasks[pid]) && s.tasks[pid].stage.Decided?
    requires s'.field == Stored(s, s.tasks[pid].stage.decision).field && s'.children == s.children
    requires var rest := s.tasks[pid].todo[1..];
      s'.tasks == if rest == [] then s.tasks - {pid} else s.tasks[pid := Sections(rest, Outside)]
    ensures CompletionInv(s', Note(h, s, Commit(pid)))
  {
    hide Derive, Next, LockInv, Rank;
    var todo := s.tasks[pid].todo;
    assert CompletionTask(pid, s.tasks[pid], h.overtaken, Derive(s.children));
    assert forall sec | sec in todo[1..] :: sec in todo;
    assert todo[1..] != [] ==> todo[1] in todo;
    assert Note(h, s, Commit(pid)) == h && s'.field == s.field;
    if p :| p in s.tasks && Owing(s.tasks[p]) { assert Owing(s'.tasks[p]); }
  }

  lemma {:induction false} CompletionRun(s: State, run: seq<Event>, s': State, h: History)
    requires CompletionInv(s, h) && (forall e | e in run :: OfCompletion(e)) && Exec(s, run) == Some(s')
    ensures CompletionInv(s', NoteAll(h, s, run))
    decreases |run|
  {
    if run != [] {
      var s1 := Next(s, run[0]).value;
      CompletionStep(s, run[0], s1, h);
      CompletionRun(s1, run[1..], s', Note(h, s, run[0]));
    }
  }

  /** Completions and reconciliations without a failure, in every interleaving: from
      agreement they end in agreement exactly when none of them stored, or the last to
      store stored what the final children derive to; and that is exactly when no step
      changed the derived phase between that verb's derivation and its commit. */
  lemma LateStoresExactly(s: State, run: seq<Event>, s': State)
    requires Start(s) && s.field == Known(Derive(s.children)) && (forall e | e in run :: OfCompletion(e))
    requires Exec(s, run) == Some(s') && Quiescent(s')
    ensures var last := NoteAll(History({}, None), s, run).last;
      && (s'.field == Known(Derive(s'.children)) <==> (last.Some? ==> last.value.target == Derive(s'.children)))
      && (s'.field == Known(Derive(s'.children)) <==> (last.Some? ==> !last.value.overtaken))
  {
    DerivedPhases(s.children);
    CompletionRun(s, run, s', History({}, None));
  }

  /** Two beads in progress under a stored implement. */
  function TwoInProgress(): State {
    State([Child(Lifecycle, InProgress), Child(Lifecycle, InProgress)], Known(Implement), true, false, None, map[],
          false, false, false, false)
  }

  function AfterFirst(): State {
    TwoInProgress().(children := [Child(Lifecycle, Closed), Child(Lifecycle, InProgress)],
                     tasks := map[0 := Sections([Precomputed(Implement)], Outside)])
  }

  function AfterBoth(): State {
    TwoInProgress().(children := [Child(Lifecycle, Closed), Child(Lifecycle, Closed)],
                     tasks := map[0 := Sections([Precomputed(Implement)], Outside),
                                  1 := Sections([Precomputed(Review)], Outside)])
  }

  lemma PairDerivations()
    ensures Derive([Child(Lifecycle, Closed), Child(Lifecycle, InProgress)]) == Implement
    ensures Derive([Child(Lifecycle, Closed), Child(Lifecycle, Closed)]) == Review
    ensures Derive([Child(Lifecycle, InProgress), Child(Lifecycle, InProgress)]) == Implement
  {
    var mixed := [Child(Lifecycle, Closed), Child(Lifecycle, InProgress)];
    assert mixed[1].kind.Lifecycle? && mixed[1].status == InProgress;
    var both := [Child(Lifecycle, Closed), Child(Lifecycle, Closed)];
    assert both[0].kind.Lifecycle?;
    var none := [Child(Lifecycle, InProgress), Child(Lifecycle, InProgress)];
    assert none[0].kind.Lifecycle? && none[0].status == InProgress;
  }

  /** Two completions race: the first derives implement, */
  lemma FirstCloses() returns (run: seq<Event>)
    ensures Exec(TwoInProgress(), run) == Some(AfterFirst())
  {
    PairDerivations();
    hide Derive;
    var s := TwoInProgress();
    var r, s1 := TwoSteps(s, [], s, CompleteClose(0, 0), CompleteDerive(0));
    assert s1.children == AfterFirst().children && s1.tasks == AfterFirst().tasks;
    run := r;
  }

  /** the second closes the last bead and derives review. */
  lemma BothClosed() returns (run: seq<Event>)
    ensures Exec(TwoInProgress(), run) == Some(AfterBoth())
  {
    PairDerivations();
    hide Derive;
    var r1 := FirstCloses();
    var r2, s2 := TwoSteps(TwoInProgress(), r1, AfterFirst(), CompleteClose(1, 1), CompleteDerive(1));
    assert s2.children == AfterBoth().children && s2.tasks == AfterBoth().tasks;
    run := r2;
  }

  /** The second stores review, then the first stores implement over it. */
  lemma StaleRun() returns (run: seq<Event>, s': State)
    ensures Exec(TwoInProgress(), run) == Some(s') && s'.tasks == map[] && s'.field == Known(Implement)
    ensures s'.children == AfterBoth().children && !s'.lost && !s'.blind && !s'.done
  {
    var r2 := BothClosed();
    var r3, s3 := WriteNow(TwoInProgress(), r2, AfterBoth(), 1, Precomputed(Review), Review);
    assert s3.tasks[0] == Sections([Precomputed(Implement)], Outside);
    run, s' := WriteNow(TwoInProgress(), r3, s3, 0, Precomputed(Implement), Implement);
  }

  lemma StaleCompletionDiverges()
    ensures exists s, run, s' ::
      && Start(s) && s.field == Known(Derive(s.children)) && Exec(s, run) == Some(s') && Quiescent(s')
      && s'.field == Known(Implement) && Derive(s'.children) == Review && !s'.lost && !s'.blind && !s'.done
  {
    PairDerivations();
    var run, s' := StaleRun();
    assert Start(TwoInProgress());
  }

  lemma TwoSteps(s: State, run: seq<Event>, s1: State, e: Event, e': Event) returns (run': seq<Event>, s': State)
    requires Exec(s, run) == Some(s1) && Next(s1, e).Some? && Next(Next(s1, e).value, e').Some?
    ensures Exec(s, run') == Some(s') && Some(s') == Next(Next(s1, e).value, e')
  {
    var s2 := Next(s1, e).value;
    s' := Next(s2, e').value;
    ExecAppend(s, run, s1, e);
    ExecAppend(s, run + [e], s2, e');
    run' := run + [e] + [e'];
  }

  /** One section, taken through the lock without interruption. */
  lemma WriteNow(s: State, run: seq<Event>, s1: State, pid: Pid, sec: Section, target: Phase)
    returns (run': seq<Event>, s': State)
    requires Exec(s, run) == Some(s1) && s1.lock == None && !sec.Terminal?
    requires pid in s1.tasks && s1.tasks[pid] == Sections([sec], Outside)
    requires Decide(sec, s1.field, s1.marker, s1.done, s1.children).write == Some(target)
    ensures Exec(s, run') == Some(s') && s'.tasks == s1.tasks - {pid} && SameButField(s1, s')
    ensures s'.lock == None && s'.field == Known(target) && (!sec.Precomputed? ==> s'.stale == s1.stale)
  {
    DecidesNow(s1, pid, sec);
    var r2, s2 := TwoSteps(s, run, s1, Acquire(pid), DecideInLock(pid));
    CommitsNow(s1, s2, pid, sec, target);
    s' := Next(s2, Commit(pid)).value;
    ExecAppend(s, r2, s2, Commit(pid));
    run' := r2 + [Commit(pid)];
  }

  predicate SameButField(s: State, s': State) {
    s'.children == s.children && s'.done == s.done && s'.blind == s.blind && s'.lost == s.lost && s'.ending == s.ending
  }

  lemma DecidesNow(s1: State, pid: Pid, sec: Section)
    requires s1.lock == None && pid in s1.tasks && s1.tasks[pid] == Sections([sec], Outside) && !sec.Terminal?
    ensures Next(s1, Acquire(pid)).Some? && Next(Next(s1, Acquire(pid)).value, DecideInLock(pid)).Some?
    ensures InLock(s1, Next(Next(s1, Acquire(pid)).value, DecideInLock(pid)).value, pid, sec)
  {
    hide Derive, Decide;
  }

  /** As before, but pid has decided on its write. */
  predicate InLock(s1: State, s2: State, pid: Pid, sec: Section) {
    && s2.lock == Some(pid) && SameButField(s1, s2) && (!sec.Precomputed? ==> s2.stale == s1.stale)
    && s2.tasks == s1.tasks[pid := Sections([sec], Decided(Decide(sec, s1.field, s1.marker, s1.done, s1.children)))]
  }

  lemma CommitsNow(s1: State, s2: State, pid: Pid, sec: Section, target: Phase)
    requires pid in s1.tasks && InLock(s1, s2, pid, sec)
    requires Decide(sec, s1.field, s1.marker, s1.done, s1.children).write == Some(target)
    ensures Next(s2, Commit(pid)).Some?
    ensures var s' := Next(s2, Commit(pid)).value;
      && s'.tasks == s1.tasks - {pid} && s'.lock == None && s'.field == Known(target)
      && SameButField(s1, s') && (!sec.Precomputed? ==> s'.stale == s1.stale)
  {
    hide Derive, Decide;
  }

  // ----- Approving a plan again -----

  /** The children as plan approve leaves them: all that were there closed as superseded,
      and the beads of the new plan open. */
  function Reapproved(cs: seq<Child>, n: nat): (ds: seq<Child>)
    ensures |ds| == |cs| + n
  {
    seq(|cs|, (i: int) requires 0 <= i < |cs| => cs[i].(status := Closed)) + seq(n, _ => Child(Lifecycle, Open))
  }

  /** plan.go promises that stored and derived phase agree until the first claim, since
      open children derive plan. Superseded beads are closed children, so the plan it
      stores agrees exactly when no lifecycle bead was there before. */
  lemma PlanApprovalAgrees(stored: Field, marker: bool, done: bool, cs: seq<Child>, n: nat)
    requires stored == Absent || !IsBackwardMove(stored, Plan)
    ensures Decide(PlanWrite, stored, marker, done, Reapproved(cs, n)).write == Some(Derive(Reapproved(cs, n)))
       <==> NoLifecycle(cs)
    ensures !NoLifecycle(cs) ==> Derive(Reapproved(cs, n)) == if n == 0 then Review else Implement
  {
    var ds := Reapproved(cs, n);
    if i :| 0 <= i < |cs| && cs[i].kind.Lifecycle? {
      assert ds[i].kind.Lifecycle? && ds[i].status == Closed;
      if n > 0 { assert ds[|cs|].kind.Lifecycle? && ds[|cs|].status == Open; }
    } else if n > 0 {
      assert ds[|cs|].kind.Lifecycle? && ds[|cs|].status == Open;
    }
  }

  /** One open bead is superseded, and one created. */
  lemma BeadReplaced(s: State) returns (run: seq<Event>, s': State)
    requires s.children == [Child(Lifecycle, Open)] && s.tasks == map[]
    ensures Exec(s, run) == Some(s') && s'.children == [Child(Lifecycle, Closed), Child(Lifecycle, Open)]
    ensures s' == s.(children := s'.children, blind := s'.blind, tasks := map[0 := Sections([PlanWrite], Outside)])
  {
    hide Derive;
    var r1, s1 := TwoSteps(s, [], s, BeadEdited(0, Closed), BeadAdded(Lifecycle));
    ExecAppend(s, r1, s1, StartPlanWrite(0));
    run, s' := r1 + [StartPlanWrite(0)], Next(s1, StartPlanWrite(0)).value;
    assert s'.tasks == map[0 := Sections([PlanWrite], Outside)];
  }

  /** Approving again over one open bead leaves plan stored over derived implement. */
  lemma ReapprovalDiverges()
    ensures exists s, run, s' ::
      && Start(s) && s.field == Known(Derive(s.children)) && Exec(s, run) == Some(s') && Quiescent(s')
      && s'.field == Known(Plan) && Derive(s'.children) == Implement && !s'.lost && !s'.stale && !s'.ending
  {
    var cs := [Child(Lifecycle, Open)];
    assert cs[0].kind.Lifecycle?;
    var s := State(cs, Known(Plan), true, false, None, map[], false, false, false, false);
    var r, s2 := BeadReplaced(s);
    assert s2.children == Reapproved(cs, 1);
    PlanApprovalAgrees(s.field, true, false, cs, 1);
    assert s.field == Known(Derive(cs));
    assert Decide(PlanWrite, Known(Plan), true, false, s2.children).write == Some(Plan);
    hide Derive, Next, Decide;
    var run, s' := WriteNow(s, r, s2, 0, PlanWrite, Plan);
    assert s'.tasks == map[];
  }

  // ----- What a lost claim advance leaves -----

  /** next.go calls the divergence after a lost claim advance always forward and names
      the unforced repair as the command that converges. It converges exactly when the
      stored phase is spec or plan. */
  lemma LostAdvanceRecovery(stored: Field, marker: bool, cs: seq<Child>)
    requires Derive(cs) == Implement && stored != Known(Implement)
    ensures Decide(Repair(false), stored, marker, false, cs).write == Some(Implement)
       <==> stored == Known(Spec) || stored == Known(Plan)
    ensures Decide(Repair(true), stored, marker, false, cs).write == Some(Implement)
  {
  }

  /** A closed bead of an epic in review, released and then claimed again. */
  function Reclaimed(): State {
    State([Child(Lifecycle, InProgress)], Known(Review), true, false, None,
          map[0 := Sections([Semantics, ClaimAdvance], Outside)], true, false, false, false)
  }

  lemma ReclaimRun() returns (run: seq<Event>)
    ensures Exec(InReview(), run) == Some(Reclaimed())
  {
    hide Derive;
    var r := BlindRelease();
    var s1 := InReview().(children := [Child(Lifecycle, Open)], blind := true);
    ExecAppend(InReview(), r, s1, Claim(0, 0));
    run := r + [Claim(0, 0)];
    assert Next(s1, Claim(0, 0)).value.children == Reclaimed().children;
  }

  lemma AdvanceLost(s: State, run: seq<Event>) returns (run': seq<Event>, s': State)
    requires Exec(s, run) == Some(Reclaimed())
    ensures Exec(s, run') == Some(s') && s' == Reclaimed().(tasks := map[], lost := true)
  {
    hide Derive;
    run', s' := TwoSteps(s, run, Reclaimed(), SectionFails(0), SectionFails(0));
    assert s'.tasks == map[];
  }

  /** A run that needs the forced repair: its claim advance is lost over a stored review. */
  lemma LostAdvanceStuck()
    ensures exists s, run, s' ::
      && Start(s) && s.field == Known(Derive(s.children)) && Exec(s, run) == Some(s') && Quiescent(s')
      && Derive(s'.children) == Implement && s'.field == Known(Review)
      && Decide(Repair(false), s'.field, s'.marker, s'.done, s'.children) == NoWrite
  {
    SingleDerivations();
    var r := ReclaimRun();
    var run, s' := AdvanceLost(InReview(), r);
    LostAdvanceRecovery(s'.field, s'.marker, s'.children);
    hide Derive, Next;
    assert Start(InReview());
  }
}
