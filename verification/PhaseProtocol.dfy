/** Every locked writer of one epic's phase, interleaved step by step. Children change
    outside the phase lock; each verb then runs its locked sections: read the stored
    phase, read the children, decide, write
    (cmd/mindspec/next.go, cmd/mindspec/release.go, internal/phase/phaselock.go). */
module PhaseProtocol {
  import opened Common
  import opened PhaseCache

  type Pid = nat

  datatype Stage =
    | Outside
    | Holding(stored: Field, marked: bool)
    | Decided(decision: Decision)

  datatype Task =
    | Releasing(bead: nat, sawInProgress: bool)  // status read, set-open still to come
    | Completing                                 // bead closed, next phase not derived yet
    | Sections(todo: seq<Section>, stage: Stage)

  datatype State = State(
    children: seq<Child>,
    field: Field,
    marker: bool,
    done: bool,
    lock: Option<Pid>,
    tasks: map<Pid, Task>,
    // What has happened so far that the protocol does not repair by itself.
    blind: bool,   // the derived phase changed by a step that no section of its own follows
    lost: bool,    // a synchronising section failed, or its process stopped
    stale: bool,   // a phase derived before the lock no longer matched when it was written
    ending: bool)  // a terminal write was decided, or the epic ended

  datatype Event =
    | Claim(pid: Pid, bead: nat)
    | ReleaseRead(pid: Pid, bead: nat)
    | ReleaseOpen(pid: Pid)
    | CompleteClose(pid: Pid, bead: nat)
    | CompleteDerive(pid: Pid)
    | Reconcile(pid: Pid)                        // impl approve: derive first, lock later
    | StartRepair(pid: Pid, force: bool)
    | StartReplay(pid: Pid)
    | StartHeal(pid: Pid)                        // before complete, plan approve, impl approve
    | StartPlanWrite(pid: Pid)                   // plan approve, once its beads are there
    | StartTerminal(pid: Pid)                    // impl approve, impl adopt
    | Acquire(pid: Pid)
    | DecideInLock(pid: Pid)
    | Commit(pid: Pid)
    | SectionFails(pid: Pid)                     // lock timeout, failed read or failed write
    | Crash(pid: Pid)
    | Terminate                                  // the epic is closed and marked done
    | BeadAdded(kind: Kind)                      // plan approve and bd create an open bead
    | BeadEdited(bead: nat, status: BeadStatus)  // plan approve supersedes, bd closes or reopens

  function SetStatus(cs: seq<Child>, i: nat, st: BeadStatus): seq<Child>
    requires i < |cs|
  {
    cs[i := cs[i].(status := st)]
  }

  function Put(s: State, pid: Pid, t: Task): State { s.(tasks := s.tasks[pid := t]) }

  /** Goes on with the remaining sections, or ends. */
  function Finish(s: State, pid: Pid, rest: seq<Section>): State {
    var s' := s.(lock := if s.lock == Some(pid) then None else s.lock);
    if rest == [] then s'.(tasks := s.tasks - {pid}) else Put(s', pid, Sections(rest, Outside))
  }

  /** A section whose write the agreement of the cache rests on. */
  predicate Synchronises(sec: Section) { sec.ClaimAdvance? || sec.ReleaseSync? || sec.Precomputed? }

  /** A failed section is only reported; the verb goes on with the ones after it. */
  function AfterFailure(t: Task): seq<Section> {
    if t.Sections? && t.todo != [] then t.todo[1..] else []
  }

  predicate LostByFailure(t: Task) {
    t.Completing? || (t.Sections? && t.todo != [] && Synchronises(t.todo[0]))
  }

  predicate LostByStopping(t: Task) {
    t.Completing? || (t.Sections? && exists i | 0 <= i < |t.todo| :: Synchronises(t.todo[i]))
  }

  /** Steps outside the lock. */
  predicate OutsideLock(e: Event) {
    !e.Acquire? && !e.DecideInLock? && !e.Commit? && !e.SectionFails? && !e.Crash? && !OfNobody(e)
  }

  /** Steps that no process of the protocol answers for. */
  predicate OfNobody(e: Event) { e.Terminate? || e.BeadAdded? || e.BeadEdited? }

  /** A step outside the lock: what it does to the children, and what its process does
      next, if anything. */
  datatype Move = Move(children: seq<Child>, task: Option<Task>)

  function OutsideMove(s: State, e: Event): Option<Move>
    requires OutsideLock(e)
  {
    match e
    case Claim(pid, i) =>
      if pid in s.tasks || i >= |s.children| then None
      else
        var todo := if s.children[i].kind.Lifecycle? then [Semantics, ClaimAdvance] else [Semantics];
        Some(Move(SetStatus(s.children, i, InProgress), Some(Sections(todo, Outside))))
    case ReleaseRead(pid, i) =>
      if pid in s.tasks || i >= |s.children| then None
      else Some(Move(s.children, Some(Releasing(i, s.children[i].status == InProgress))))
    case ReleaseOpen(pid) =>
      if pid !in s.tasks || !s.tasks[pid].Releasing? || s.tasks[pid].bead >= |s.children| then None
      else Some(Move(SetStatus(s.children, s.tasks[pid].bead, Open),
                     if s.tasks[pid].sawInProgress then Some(Sections([Semantics, ReleaseSync], Outside)) else None))
    case CompleteClose(pid, i) =>
      if pid in s.tasks || i >= |s.children| then None
      else Some(Move(SetStatus(s.children, i, Closed), Some(Completing)))
    case CompleteDerive(pid) =>
      if pid !in s.tasks || !s.tasks[pid].Completing? then None
      else Some(Move(s.children, Some(Sections([Precomputed(Derive(s.children))], Outside))))
    case Reconcile(pid) =>
      if pid in s.tasks then None
      else Some(Move(s.children, Some(Sections([Precomputed(Derive(s.children))], Outside))))
    case StartRepair(pid, force) =>
      if pid in s.tasks then None else Some(Move(s.children, Some(Sections([Semantics, Repair(force)], Outside))))
    case StartReplay(pid) =>
      if pid in s.tasks then None else Some(Move(s.children, Some(Sections([ReplayBackfill], Outside))))
    case StartHeal(pid) =>
      if pid in s.tasks then None else Some(Move(s.children, Some(Sections([Migrate, Semantics], Outside))))
    case StartPlanWrite(pid) =>
      if pid in s.tasks then None else Some(Move(s.children, Some(Sections([PlanWrite], Outside))))
    case StartTerminal(pid) =>
      if pid in s.tasks then None else Some(Move(s.children, Some(Sections([Terminal], Outside))))
  }

  /** A process that ends without a section of its own after changing what the children
      derive to leaves the cache behind. */
  function Moved(s: State, pid: Pid, m: Move): State {
    State(m.children, s.field, s.marker, s.done, s.lock,
          if m.task.Some? then s.tasks[pid := m.task.value] else s.tasks - {pid},
          s.blind || (m.task.None? && Derive(m.children) != Derive(s.children)), s.lost, s.stale, s.ending)
  }

  /** The children as a step of nobody leaves them. */
  function Changed(s: State, children: seq<Child>): State {
    s.(children := children, blind := s.blind || Derive(children) != Derive(s.children))
  }

  predicate InSection(s: State, pid: Pid) { pid in s.tasks && s.tasks[pid].Sections? && s.tasks[pid].todo != [] }

  function AcquireNext(s: State, pid: Pid): Option<State> {
    if s.lock != None || !InSection(s, pid) then None
    else Some(Put(s.(lock := Some(pid)), pid, s.tasks[pid].(stage := Holding(s.field, s.marker))))
  }

  function DecideNext(s: State, pid: Pid): Option<State> {
    if !InSection(s, pid) || !s.tasks[pid].stage.Holding? then None
    else
      var t := s.tasks[pid];
      var d := Decide(t.todo[0], t.stage.stored, t.stage.marked, s.done, s.children);
      Some(Put(s.(stale := s.stale || (t.todo[0].Precomputed? && t.todo[0].target != Derive(s.children)),
                  ending := s.ending || t.todo[0].Terminal?),
               pid, t.(stage := Decided(d))))
  }

  function CommitNext(s: State, pid: Pid): Option<State> {
    if !InSection(s, pid) || !s.tasks[pid].stage.Decided? then None
    else Some(Finish(Stored(s, s.tasks[pid].stage.decision), pid, s.tasks[pid].todo[1..]))
  }

  function Stored(s: State, d: Decision): State {
    s.(field := if d.write.Some? then Known(d.write.value) else s.field, marker := s.marker || d.mark)
  }

  function Next(s: State, e: Event): Option<State> {
    if OutsideLock(e) then
      match OutsideMove(s, e) case None => None case Some(m) => Some(Moved(s, e.pid, m))
    else
      match e
      case Acquire(pid) => AcquireNext(s, pid)
      case DecideInLock(pid) => DecideNext(s, pid)
      case Commit(pid) => CommitNext(s, pid)
      case SectionFails(pid) =>
        if pid !in s.tasks then None
        else Some(Finish(s.(lost := s.lost || LostByFailure(s.tasks[pid])), pid, AfterFailure(s.tasks[pid])))
      case Crash(pid) =>
        if pid !in s.tasks then None
        else Some(Finish(s.(lost := s.lost || LostByStopping(s.tasks[pid])), pid, []))
      case Terminate => Some(s.(done := true, ending := true))
      case BeadAdded(kind) => Some(Changed(s, s.children + [Child(kind, Open)]))
      case BeadEdited(i, st) => if i >= |s.children| then None else Some(Changed(s, SetStatus(s.children, i, st)))
  }

  function Exec(s: State, run: seq<Event>): Option<State>
    decreases |run|
  {
    if run == [] then Some(s)
    else match Next(s, run[0]) case None => None case Some(s') => Exec(s', run[1..])
  }

  /** A state with no verb under way. */
  predicate Quiescent(s: State) { s.tasks == map[] }

  ghost predicate Start(s: State) {
    Quiescent(s) && s.lock == None && !s.done && !s.blind && !s.lost && !s.stale && !s.ending
  }

  // ----- Mutual exclusion -----

  ghost predicate LockInv(s: State) {
    && (forall p | p in s.tasks :: TaskOk(s, p, s.tasks[p]))
    && (s.lock.Some? ==> s.lock.value in s.tasks && Inside(s.tasks[s.lock.value]))
  }

  predicate Inside(t: Task) { t.Sections? && !t.stage.Outside? }

  /** Only the owner is inside the lock, and what it read is still stored. */
  predicate TaskOk(s: State, p: Pid, t: Task) {
    t.Sections? ==>
      && t.todo != [] && (t.stage.Outside? || s.lock == Some(p))
      && (t.stage.Holding? ==> t.stage.stored == s.field && t.stage.marked == s.marker)
  }

  lemma FinishKeeps(s: State, s1: State, pid: Pid, rest: seq<Section>)
    requires LockInv(s) && pid in s.tasks
    requires s1.tasks == s.tasks && s1.lock == s.lock
    requires s.lock == Some(pid) || (s1.field == s.field && s1.marker == s.marker)
    ensures LockInv(Finish(s1, pid, rest))
  {
    var s' := Finish(s1, pid, rest);
    FinishFrame(s1, pid, rest);
    hide Finish;
    forall p | p in s'.tasks ensures TaskOk(s', p, s'.tasks[p]) {
      if p != pid { OtherTaskOk(s, s', pid, p); }
    }
  }

  lemma FinishFrame(s: State, pid: Pid, rest: seq<Section>)
    requires pid in s.tasks
    ensures var s' := Finish(s, pid, rest);
      && s'.children == s.children && s'.field == s.field && s'.marker == s.marker
      && s'.lock == (if s.lock == Some(pid) then None else s.lock)
      && s'.tasks == if rest == [] then s.tasks - {pid} else s.tasks[pid := Sections(rest, Outside)]
  {
  }

  /** A task other than the one that moved. */
  lemma OtherTaskOk(s: State, s': State, pid: Pid, p: Pid)
    requires LockInv(s) && p in s.tasks && p in s'.tasks && p != pid && s'.tasks[p] == s.tasks[p]
    requires s'.lock == if s.lock == Some(pid) then None else s.lock
    requires s.lock == Some(pid) || (s'.field == s.field && s'.marker == s.marker)
    ensures TaskOk(s', p, s'.tasks[p])
  {
    assert TaskOk(s, p, s.tasks[p]);
  }

  /** Such a step starts, moves on, or ends a task that holds no section. */
  lemma MoveIsOutside(s: State, e: Event)
    requires OutsideLock(e) && OutsideMove(s, e).Some?
    ensures var task := OutsideMove(s, e).value.task;
      && (e.pid in s.tasks ==> !s.tasks[e.pid].Sections?)
      && (task.None? ==> e.pid in s.tasks)
      && (task.Some? && task.value.Sections? ==> task.value.todo != [] && task.value.stage.Outside?)
  {
  }

  lemma OutsideStepKeepsLock(s: State, s': State, e: Event)
    requires LockInv(s) && OutsideLock(e) && Next(s, e) == Some(s')
    ensures LockInv(s')
  {
  }

  lemma LockStepKeepsLock(s: State, s': State, e: Event)
    requires LockInv(s) && (e.Acquire? || e.DecideInLock? || e.Commit?) && Next(s, e) == Some(s')
    ensures LockInv(s')
  {
  }

  /** A section is given up without writing, or the whole task stops. */
  predicate Drops(s: State, s': State, pid: Pid, rest: seq<Section>) {
    && pid in s.tasks
    && s' == Finish(s.(lost := s'.lost), pid, rest)
    && (!s'.lost ==>
          || (rest == AfterFailure(s.tasks[pid]) && !LostByFailure(s.tasks[pid]))
          || (rest == [] && !LostByStopping(s.tasks[pid])))
  }

  lemma FailureDrops(s: State, s': State, pid: Pid)
    requires Next(s, SectionFails(pid)) == Some(s')
    ensures pid in s.tasks && Drops(s, s', pid, AfterFailure(s.tasks[pid]))
  {
  }

  lemma StoppingDrops(s: State, s': State, pid: Pid)
    requires Next(s, Crash(pid)) == Some(s')
    ensures Drops(s, s', pid, [])
  {
  }

  lemma DropKeepsLock(s: State, s': State, pid: Pid, rest: seq<Section>)
    requires LockInv(s) && Drops(s, s', pid, rest)
    ensures LockInv(s')
  {
    FinishKeeps(s, s.(lost := s'.lost), pid, rest);
  }

  lemma LockInvKept(s: State, s': State, e: Event)
    requires LockInv(s) && Next(s, e) == Some(s')
    ensures LockInv(s')
  {
    hide Derive, Decide, OutsideMove, LostByFailure, LostByStopping, TaskOk;
    if OutsideLock(e) {
      OutsideStepKeepsLock(s, s', e);
    } else if e.SectionFails? {
      FailureDrops(s, s', e.pid);
      DropKeepsLock(s, s', e.pid, AfterFailure(s.tasks[e.pid]));
    } else if e.Crash? {
      StoppingDrops(s, s', e.pid);
      DropKeepsLock(s, s', e.pid, []);
    } else if OfNobody(e) {
      NobodyKeepsLock(s, s', e);
    } else {
      LockStepKeepsLock(s, s', e);
    }
  }

  lemma NobodyKeepsLock(s: State, s': State, e: Event)
    requires LockInv(s) && OfNobody(e) && Next(s, e) == Some(s')
    ensures LockInv(s')
  {
    NobodyFrame(s, s', e);
    hide Next, OfNobody;
    forall p | p in s'.tasks ensures TaskOk(s', p, s'.tasks[p]) { assert TaskOk(s, p, s.tasks[p]); }
  }

  lemma NobodyFrame(s: State, s': State, e: Event)
    requires OfNobody(e) && Next(s, e) == Some(s')
    ensures s'.tasks == s.tasks && s'.lock == s.lock && s'.field == s.field && s'.marker == s.marker
  {
    hide Derive, SetStatus;
    match e
    case Terminate =>
    case BeadAdded(kind) => assert s' == Changed(s, s.children + [Child(kind, Open)]);
    case BeadEdited(i, st) => assert s' == Changed(s, SetStatus(s.children, i, st));
  }

  // ----- Agreement -----

  /** The sections of a task whose decision is still to come. */
  function Undecided(t: Task): seq<Section>
    requires t.Sections? && t.todo != []
  {
    if t.stage.Decided? then t.todo[1..] else t.todo
  }

  predicate OwesSync(t: Task) {
    t.Completing?
    || (t.Sections? && t.todo != [] && exists sec | sec in Undecided(t) :: sec.ReleaseSync? || sec.Precomputed?)
  }

  predicate OwesAdvance(t: Task) {
    t.Sections? && t.todo != [] && ClaimAdvance in Undecided(t)
  }

  /** The task inside the lock. */
  function Holder(s: State): Option<Task> {
    if s.lock.Some? && s.lock.value in s.tasks && Inside(s.tasks[s.lock.value])
    then Some(s.tasks[s.lock.value]) else None
  }

  function Written(held: Option<Task>, field: Field): Field
    requires held.Some? ==> Inside(held.value)
  {
    if held.Some? && held.value.stage.Decided? && held.value.stage.decision.write.Some?
    then Known(held.value.stage.decision.write.value) else field
  }

  function Unwritten(held: Option<Task>, field: Field): Field
    requires held.Some? ==> Inside(held.value)
  {
    if held.Some? && held.value.stage.Decided? && held.value.todo != [] && !Synchronises(held.value.todo[0])
    then field else Written(held, field)
  }

  /** The stored phase once the section that has already decided has written. */
  function Effective(s: State): Field { Written(Holder(s), s.field) }

  /** The stored phase if that section fails instead. A failed synchronising section
      counts as lost, so only the others matter. */
  function Fallback(s: State): Field { Unwritten(Holder(s), s.field) }

  ghost predicate RepairableFrom(s: State, f: Field) {
    || f == Known(Derive(s.children))
    || (exists p | p in s.tasks :: OwesSync(s.tasks[p]))
    || (Derive(s.children) == Implement && exists p | p in s.tasks :: OwesAdvance(s.tasks[p]))
  }

  /** Stored and derived phase agree, or a section still to decide will make them. */
  ghost predicate Repairable(s: State) {
    RepairableFrom(s, Effective(s)) && RepairableFrom(s, Fallback(s))
  }

  ghost predicate Inv(s: State) {
    LockInv(s) && s.field.Known? && (s.done ==> s.ending) && (s.ending || s.blind || s.lost || s.stale || Repairable(s))
  }

  // Each of the three ways to be repairable survives a step, or turns into another.

  lemma OwersKept(s: State, s': State, pid: Pid)
    requires forall p | p in s.tasks && p != pid :: p in s'.tasks && s'.tasks[p] == s.tasks[p]
    requires pid in s.tasks ==>
      && (OwesSync(s.tasks[pid]) ==> pid in s'.tasks && OwesSync(s'.tasks[pid]))
      && (OwesAdvance(s.tasks[pid]) ==> pid in s'.tasks && OwesAdvance(s'.tasks[pid]))
    ensures (exists p | p in s.tasks :: OwesSync(s.tasks[p])) ==> exists p | p in s'.tasks :: OwesSync(s'.tasks[p])
    ensures (exists p | p in s.tasks :: OwesAdvance(s.tasks[p])) ==>
      exists p | p in s'.tasks :: OwesAdvance(s'.tasks[p])
  {
  }

  /** A step that changes neither the children nor what will be stored. */
  lemma QuietStep(s: State, s': State, pid: Pid)
    requires Repairable(s) && s'.children == s.children
    requires Effective(s') == Effective(s) && Fallback(s') == Fallback(s)
    requires forall p | p in s.tasks && p != pid :: p in s'.tasks && s'.tasks[p] == s.tasks[p]
    requires pid in s.tasks ==>
      && (OwesSync(s.tasks[pid]) ==> pid in s'.tasks && OwesSync(s'.tasks[pid]))
      && (OwesAdvance(s.tasks[pid]) ==> pid in s'.tasks && OwesAdvance(s'.tasks[pid]))
    ensures Repairable(s')
  {
  }

  lemma ClaimedDerivesImplement(cs: seq<Child>, i: nat)
    requires i < |cs|
    ensures cs[i].kind.Lifecycle? ==> Derive(SetStatus(cs, i, InProgress)) == Implement
    ensures forall st :: !cs[i].kind.Lifecycle? ==> Derive(SetStatus(cs, i, st)) == Derive(cs)
  {
    var ds := SetStatus(cs, i, InProgress);
    if cs[i].kind.Lifecycle? {
      assert ds[i].kind.Lifecycle? && ds[i].status == InProgress;
    } else {
      forall st ensures Derive(SetStatus(cs, i, st)) == Derive(cs) { FollowUpsDoNotCount(cs, i, st); }
    }
  }

  lemma FollowUpsDoNotCount(cs: seq<Child>, i: nat, st: BeadStatus)
    requires i < |cs| && !cs[i].kind.Lifecycle?
    ensures Derive(SetStatus(cs, i, st)) == Derive(cs)
  {
    var ds := SetStatus(cs, i, st);
    forall st' ensures Child(Lifecycle, st') in cs <==> Child(Lifecycle, st') in ds {
      if Child(Lifecycle, st') in cs {
        var k :| 0 <= k < |cs| && cs[k] == Child(Lifecycle, st');
        assert ds[k] == cs[k];
      }
    }
    DeriveIsSetBased(cs, ds);
  }

  lemma ClaimKept(s: State, s': State, pid: Pid, i: nat)
    requires Inv(s) && Next(s, Claim(pid, i)) == Some(s')
    ensures Inv(s')
  {
    LockInvKept(s, s', Claim(pid, i));
    ClaimedDerivesImplement(s.children, i);
    if s.children[i].kind.Lifecycle? {
      assert OwesAdvance(s'.tasks[pid]);
    } else if Repairable(s) {
      OwersKept(s, s', pid);
    }
  }

  lemma ReleaseOpenKept(s: State, s': State, pid: Pid)
    requires Inv(s) && Next(s, ReleaseOpen(pid)) == Some(s')
    ensures Inv(s')
  {
    LockInvKept(s, s', ReleaseOpen(pid));
    if s.tasks[pid].sawInProgress {
      assert ReleaseSync in Undecided(s'.tasks[pid]);
      assert OwesSync(s'.tasks[pid]);
    } else if Repairable(s) && Derive(s'.children) == Derive(s.children) {
      OwersKept(s, s', pid);
    }
  }

  /** Deciding leaves what other tasks owe as it was. */
  lemma StillRepairable(s: State, s': State, pid: Pid, f: Field)
    requires RepairableFrom(s, f) && s'.children == s.children
    requires forall p | p in s.tasks && p != pid :: p in s'.tasks && s'.tasks[p] == s.tasks[p]
    requires pid in s.tasks ==>
      && (OwesSync(s.tasks[pid]) ==> pid in s'.tasks && OwesSync(s'.tasks[pid]))
      && (OwesAdvance(s.tasks[pid]) ==>
          (pid in s'.tasks && OwesAdvance(s'.tasks[pid])) || Derive(s.children) != Implement)
    ensures RepairableFrom(s', f)
  {
  }

  lemma DerivedPhases(cs: seq<Child>)
    ensures Derive(cs) in {Plan, Implement, Review}
  {
  }

  /** The moment of decision: what is decided agrees with the children as they are. */
  lemma DecideKept(s: State, s': State, pid: Pid)
    requires Inv(s) && Next(s, DecideInLock(pid)) == Some(s')
    ensures Inv(s')
  {
    LockInvKept(s, s', DecideInLock(pid));
    var t := s.tasks[pid];
    var sec, d := t.todo[0], s'.tasks[pid].stage.decision;
    assert t.stage.stored == s.field && Effective(s) == s.field;
    assert t.todo == [sec] + t.todo[1..];
    if s'.ending || s.blind || s.lost || s'.stale {
    } else if sec.ReleaseSync? || sec.Precomputed? {
      assert Effective(s') == Fallback(s') == Known(Derive(s'.children));
    } else if sec.ClaimAdvance? {
      if Derive(s.children) == Implement {
        assert Effective(s') == Fallback(s') == Known(Implement);
      } else {
        assert Effective(s') == Fallback(s') == s.field;
        StillRepairable(s, s', pid, s.field);
      }
    } else {
      assert Fallback(s') == s.field;
      StillRepairable(s, s', pid, s.field);
      if d.write.Some? && sec.PlanWrite? {
        // Over spec nothing agreed before; over plan nothing changes.
        assert Effective(s') == Known(Plan) && s.field in {Known(Spec), Known(Plan)};
        DerivedPhases(s.children);
        assert RepairableFrom(s, Known(Plan));
        StillRepairable(s, s', pid, Known(Plan));
      } else if d.write.Some? {
        if sec.Semantics? { LegacyRewriteAgrees(s.field, s.children); }
        assert Effective(s') == Known(Derive(s'.children));
      }
    }
  }

  lemma CommitKept(s: State, s': State, pid: Pid)
    requires Inv(s) && Next(s, Commit(pid)) == Some(s')
    ensures Inv(s')
  {
    LockInvKept(s, s', Commit(pid));
    CommitsEffective(s, s', pid);
    CommitOwes(s, s', pid);
    hide Derive, Next, LockInv, Effective, Fallback, OwesSync, OwesAdvance;
    if Repairable(s) { StillRepairable(s, s', pid, Effective(s)); }
  }

  /** What is stored after a commit is what counted as stored before. */
  lemma CommitsEffective(s: State, s': State, pid: Pid)
    requires LockInv(s) && Next(s, Commit(pid)) == Some(s')
    ensures Effective(s') == Fallback(s') == Effective(s)
  {
    hide Derive;
    assert TaskOk(s, pid, s.tasks[pid]) && s.lock == Some(pid) && s'.lock == None;
  }

  lemma CommitOwes(s: State, s': State, pid: Pid)
    requires LockInv(s) && Next(s, Commit(pid)) == Some(s')
    ensures pid in s.tasks && s' == s.(field := s'.field, marker := s'.marker, lock := s'.lock, tasks := s'.tasks)
    ensures s'.field.Known? || s'.field == s.field
    ensures forall p | p in s.tasks && p != pid :: p in s'.tasks && s'.tasks[p] == s.tasks[p]
    ensures OwesSync(s.tasks[pid]) ==> pid in s'.tasks && OwesSync(s'.tasks[pid])
    ensures OwesAdvance(s.tasks[pid]) ==> pid in s'.tasks && OwesAdvance(s'.tasks[pid])
  {
    CommitEnds(s, pid, s');
    hide Next, LockInv, Derive;
  }

  /** What a commit does to the state. */
  lemma CommitEnds(s: State, pid: Pid, s': State)
    requires Next(s, Commit(pid)) == Some(s')
    ensures InSection(s, pid) && s.tasks[pid].stage.Decided?
    ensures s' == s.(field := s'.field, marker := s'.marker, lock := s'.lock, tasks := s'.tasks)
    ensures s'.field == Stored(s, s.tasks[pid].stage.decision).field
    ensures var rest := s.tasks[pid].todo[1..];
      s'.tasks == if rest == [] then s.tasks - {pid} else s.tasks[pid := Sections(rest, Outside)]
  {
    hide Derive;
  }

  /** A section given up without writing by the holder of the lock, for a section that
      nothing waits for, */
  lemma HolderDropKeepsFields(s: State, s': State, pid: Pid, rest: seq<Section>)
    requires LockInv(s) && pid in s.tasks && s' == Finish(s.(lost := s'.lost), pid, rest)
    requires s.lock == Some(pid) && s.tasks[pid].Sections? && !Synchronises(s.tasks[pid].todo[0])
    ensures Effective(s') == Fallback(s') == s.field == Fallback(s)
  {
    hide Derive;
    assert s'.lock == None;
  }

  /** or by somebody else. */
  lemma OtherDropKeepsFields(s: State, s': State, pid: Pid, rest: seq<Section>)
    requires LockInv(s) && pid in s.tasks && s' == Finish(s.(lost := s'.lost), pid, rest) && s.lock != Some(pid)
    ensures Effective(s') == Effective(s) && Fallback(s') == Fallback(s)
  {
    FinishFrame(s.(lost := s'.lost), pid, rest);
    hide Derive, Written, Unwritten, Finish, TaskOk;
    assert s.lock.Some? ==> s'.tasks[s.lock.value] == s.tasks[s.lock.value];
    assert Holder(s') == Holder(s);
  }

  lemma DropKept(s: State, s': State, pid: Pid, rest: seq<Section>)
    requires LockInv(s) && Repairable(s) && pid in s.tasks && s' == Finish(s.(lost := s'.lost), pid, rest)
    requires s.lock == Some(pid) ==> s.tasks[pid].Sections? && !Synchronises(s.tasks[pid].todo[0])
    requires OwesSync(s.tasks[pid]) ==> pid in s'.tasks && OwesSync(s'.tasks[pid])
    requires OwesAdvance(s.tasks[pid]) ==> pid in s'.tasks && OwesAdvance(s'.tasks[pid])
    ensures Repairable(s')
  {
    if s.lock == Some(pid) { HolderDropKeepsFields(s, s', pid, rest); } else { OtherDropKeepsFields(s, s', pid, rest); }
    FinishFrame(s.(lost := s'.lost), pid, rest);
    hide Finish, LockInv, Derive, OwesSync, OwesAdvance, Effective, Fallback, RepairableFrom;
    StillRepairable(s, s', pid, Fallback(s));
    if s.lock != Some(pid) { StillRepairable(s, s', pid, Effective(s)); }
  }

  /** A section that failed without being counted as lost was owed to nobody. */
  lemma NothingOwed(s: State, s': State, pid: Pid, rest: seq<Section>)
    requires LockInv(s) && Drops(s, s', pid, rest) && !s'.lost
    ensures s.lock == Some(pid) ==> s.tasks[pid].Sections? && !Synchronises(s.tasks[pid].todo[0])
    ensures OwesSync(s.tasks[pid]) ==> pid in s'.tasks && OwesSync(s'.tasks[pid])
    ensures OwesAdvance(s.tasks[pid]) ==> pid in s'.tasks && OwesAdvance(s'.tasks[pid])
  {
  }

  lemma DropsKept(s: State, s': State, pid: Pid, rest: seq<Section>)
    requires Inv(s) && Drops(s, s', pid, rest)
    requires s.lost ==> s'.lost
    ensures Inv(s')
  {
    DropKeepsLock(s, s', pid, rest);
    if !s'.lost && Repairable(s) {
      NothingOwed(s, s', pid, rest);
      DropKept(s, s', pid, rest);
    }
  }

  /** Starting a verb whose sections are all still to come changes nothing yet. */
  predicate Starts(e: Event) {
    || e.ReleaseRead? || e.Reconcile? || e.StartRepair? || e.StartReplay? || e.StartHeal?
    || e.StartPlanWrite? || e.StartTerminal?
  }

  lemma StartsKept(s: State, s': State, e: Event)
    requires Inv(s) && Starts(e) && Next(s, e) == Some(s')
    ensures Inv(s')
  {
    LockInvKept(s, s', e);
    hide Derive, Decide, LockInv;
    if Repairable(s) { QuietStep(s, s', e.pid); }
  }

  lemma AcquireKept(s: State, s': State, pid: Pid)
    requires Inv(s) && AcquireNext(s, pid) == Some(s')
    ensures Inv(s')
  {
    LockInvKept(s, s', Acquire(pid));
    if Repairable(s) { QuietStep(s, s', pid); }
  }

  lemma CompletesKept(s: State, s': State, e: Event)
    requires Inv(s) && (e.CompleteClose? || e.CompleteDerive?) && Next(s, e) == Some(s')
    ensures Inv(s')
  {
    LockInvKept(s, s', e);
    if e.CompleteDerive? { assert Precomputed(Derive(s.children)) in Undecided(s'.tasks[e.pid]); }
    assert OwesSync(s'.tasks[e.pid]);
  }

  lemma StepKept(s: State, s': State, e: Event)
    requires Inv(s) && Next(s, e) == Some(s')
    ensures Inv(s')
  {
    hide Derive, Decide, OutsideMove, LostByFailure, LostByStopping, Repairable;
    if Starts(e) {
      StartsKept(s, s', e);
    } else if e.CompleteClose? || e.CompleteDerive? {
      CompletesKept(s, s', e);
    } else {
      match e
      case Claim(pid, i) => ClaimKept(s, s', pid, i);
      case ReleaseOpen(pid) => ReleaseOpenKept(s, s', pid);
      case Acquire(pid) => AcquireKept(s, s', pid);
      case DecideInLock(pid) => DecideKept(s, s', pid);
      case Commit(pid) => CommitKept(s, s', pid);
      case SectionFails(pid) =>
        FailureDrops(s, s', pid);
        DropsKept(s, s', pid, AfterFailure(s.tasks[pid]));
      case Crash(pid) =>
        StoppingDrops(s, s', pid);
        DropsKept(s, s', pid, []);
      case Terminate => LockInvKept(s, s', e);
      case BeadAdded(_) => NobodysKept(s, s', e);
      case BeadEdited(_, _) => NobodysKept(s, s', e);
    }
  }

  lemma NobodysKept(s: State, s': State, e: Event)
    requires Inv(s) && (e.BeadAdded? || e.BeadEdited?) && Next(s, e) == Some(s')
    ensures Inv(s')
  {
    hide Derive;
    LockInvKept(s, s', e);
  }

  // ----- Whole runs -----

  lemma {:induction false} RunKept(s: State, run: seq<Event>, s': State)
    requires Inv(s) && Exec(s, run) == Some(s')
    ensures Inv(s')
    decreases |run|
  {
    if run != [] {
      var s1 := Next(s, run[0]).value;
      StepKept(s, s1, run[0]);
      RunKept(s1, run[1..], s');
    }
  }

  /** Quiescent agreement. From a start where the stored phase is the derived one, in
      every interleaving of all locked writers, once no verb is under way the two agree
      again, unless the run passed through one of three named events or the epic ended. */
  lemma QuiescentAgreement(s: State, run: seq<Event>, s': State)
    requires Start(s) && s.field == Known(Derive(s.children))
    requires Exec(s, run) == Some(s') && Quiescent(s')
    ensures s'.field == Known(Derive(s'.children)) || s'.ending || s'.blind || s'.lost || s'.stale
  {
    RunKept(s, run, s');
  }

  // ----- When the three events cannot happen -----

  /** A verb of the claim-and-release family: claims, and releases that saw their bead
      in progress. */
  predicate ClaimOrRelease(s: State, e: Event) {
    match e
    case Claim(_, _) => true
    case ReleaseRead(_, i) => i < |s.children| && s.children[i].status == InProgress
    case ReleaseOpen(_) => true
    case Acquire(_) => true
    case DecideInLock(_) => true
    case Commit(_) => true
    case _ => false
  }

  predicate ClaimReleaseRun(s: State, run: seq<Event>)
    decreases |run|
  {
    run == []
    || (ClaimOrRelease(s, run[0])
        && (Next(s, run[0]).Some? ==> ClaimReleaseRun(Next(s, run[0]).value, run[1..])))
  }

  predicate ClaimReleaseTask(t: Task) {
    match t
    case Releasing(_, saw) => saw
    case Completing => false
    case Sections(todo, _) => forall i | 0 <= i < |todo| :: !todo[i].Precomputed? && !todo[i].Terminal?
  }

  ghost predicate Untroubled(s: State) {
    !s.ending && !s.blind && !s.lost && !s.stale && forall p | p in s.tasks :: ClaimReleaseTask(s.tasks[p])
  }

  lemma ClaimReleaseStep(s: State, e: Event, s': State)
    requires Untroubled(s) && ClaimOrRelease(s, e) && Next(s, e) == Some(s')
    ensures Untroubled(s')
  {
  }

  lemma {:induction false} ClaimReleaseUntroubled(s: State, run: seq<Event>, s': State)
    requires Untroubled(s) && ClaimReleaseRun(s, run) && Exec(s, run) == Some(s')
    ensures Untroubled(s')
    decreases |run|
  {
    if run != [] {
      var s1 := Next(s, run[0]).value;
      ClaimReleaseStep(s, run[0], s1);
      ClaimReleaseUntroubled(s1, run[1..], s');
    }
  }

  /** The documented promise, on every run of claims and releases that each saw their
      bead in progress: agreement at every quiescent state, so a delayed claim advance
      never overwrites what a newer release stored. */
  lemma ClaimReleaseAgreement(s: State, run: seq<Event>, s': State)
    requires Start(s) && s.field == Known(Derive(s.children))
    requires ClaimReleaseRun(s, run) && Exec(s, run) == Some(s') && Quiescent(s')
    ensures s'.field == Known(Derive(s'.children))
  {
    ClaimReleaseUntroubled(s, run, s');
    QuiescentAgreement(s, run, s');
  }

  // ----- What each writer may store -----

  /** Every change of the stored phase is a commit by the lock holder of what it had
      decided, and nothing has been stored since it read. */
  lemma OnlyCommitsStore(s: State, e: Event, s': State)
    requires LockInv(s) && Next(s, e) == Some(s') && s'.field != s.field
    ensures e.Commit? && s.lock == Some(e.pid) && InSection(s, e.pid)
    ensures s.tasks[e.pid].stage.Decided? && s.tasks[e.pid].stage.decision.write.Some?
    ensures s'.field == Known(s.tasks[e.pid].stage.decision.write.value)
  {
    if !e.Commit? { FieldKept(s, e, s'); }
  }

  lemma FieldKept(s: State, e: Event, s': State)
    requires Next(s, e) == Some(s') && !e.Commit?
    ensures s'.field == s.field
  {
    hide Derive, Decide, OutsideMove, LostByFailure, LostByStopping, AfterFailure, SetStatus;
    if OutsideLock(e) {
      assert s'.field == Moved(s, e.pid, OutsideMove(s, e).value).field;
    } else if e.SectionFails? || e.Crash? {
      DropsField(s, e, s');
    }
  }

  lemma DropsField(s: State, e: Event, s': State)
    requires Next(s, e) == Some(s') && (e.SectionFails? || e.Crash?)
    ensures s'.field == s.field
  {
    hide Derive, Decide, OutsideMove, LostByFailure, LostByStopping, AfterFailure, SetStatus;
  }

  /** What a decided section may write over the phase that is stored now. */
  predicate Admissible(sec: Section, stored: Field, d: Decision) {
    if d.write.None? then !sec.Precomputed? && !sec.ReleaseSync? && !sec.Terminal?
    else
      match sec
      case Semantics => stored == Known(Implement) && d.write.value == Plan
      case ClaimAdvance => d.write.value == Implement && stored != Known(Implement)
      case ReleaseSync => true
      case Repair(force) => force || !IsBackwardMove(stored, d.write.value)
      case ReplayBackfill => stored == Absent && d.write.value == Plan
      case Migrate => stored == Absent
      case PlanWrite => d.write.value == Plan && (stored == Absent || !IsBackwardMove(stored, Plan))
      case Precomputed(target) => d.write.value == target
      case Terminal => d.write.value == Done
  }

  ghost predicate AdmissibleInv(s: State) {
    forall p | p in s.tasks && s.tasks[p].Sections? && s.tasks[p].stage.Decided? && s.tasks[p].todo != [] ::
      Admissible(s.tasks[p].todo[0], s.field, s.tasks[p].stage.decision)
  }

  /** Tasks other than the acting one, and tasks without a decision, take care of themselves. */
  lemma AdmissibleBut(s: State, s': State, pid: Pid)
    requires AdmissibleInv(s)
    requires forall p | p in s'.tasks && p != pid :: p in s.tasks && s'.tasks[p] == s.tasks[p]
    requires s'.field == s.field ||
      forall p | p in s'.tasks && p != pid && s'.tasks[p].Sections? :: !s'.tasks[p].stage.Decided?
    requires pid in s'.tasks && s'.tasks[pid].Sections? && s'.tasks[pid].stage.Decided? && s'.tasks[pid].todo != [] ==>
      Admissible(s'.tasks[pid].todo[0], s'.field, s'.tasks[pid].stage.decision)
    ensures AdmissibleInv(s')
  {
  }

  lemma AdmissibleKept(s: State, e: Event, s': State)
    requires LockInv(s) && AdmissibleInv(s) && Next(s, e) == Some(s')
    ensures AdmissibleInv(s')
  {
    hide Admissible, Derive, Decide, LockInv, LostByFailure, LostByStopping;
    if OutsideLock(e) {
      MoveIsOutside(s, e);
      hide OutsideMove;
      AdmissibleBut(s, s', e.pid);
    } else {
      match e
      case DecideInLock(pid) => DecisionAdmissible(s, pid, s');
      case Commit(pid) => CommitAdmissible(s, pid, s');
      case Acquire(pid) => AdmissibleBut(s, s', pid);
      case SectionFails(pid) =>
        FailureDrops(s, s', pid);
        DropAdmissible(s, s', pid, AfterFailure(s.tasks[pid]));
      case Crash(pid) =>
        StoppingDrops(s, s', pid);
        DropAdmissible(s, s', pid, []);
      case Terminate =>
      case BeadAdded(_) =>
      case BeadEdited(_, _) =>
    }
  }

  lemma DropAdmissible(s: State, s': State, pid: Pid, rest: seq<Section>)
    requires AdmissibleInv(s) && Drops(s, s', pid, rest)
    ensures AdmissibleInv(s')
  {
  }

  lemma CommitAdmissible(s: State, pid: Pid, s': State)
    requires LockInv(s) && AdmissibleInv(s) && CommitNext(s, pid) == Some(s')
    ensures AdmissibleInv(s')
  {
  }

  lemma DecisionAdmissible(s: State, pid: Pid, s': State)
    requires LockInv(s) && AdmissibleInv(s) && DecideNext(s, pid) == Some(s')
    ensures AdmissibleInv(s')
  {
  }

  lemma {:induction false} RunAdmissible(s: State, run: seq<Event>, s': State)
    requires LockInv(s) && AdmissibleInv(s) && Exec(s, run) == Some(s')
    ensures LockInv(s') && AdmissibleInv(s')
    decreases |run|
  {
    if run != [] {
      var s1 := Next(s, run[0]).value;
      LockInvKept(s, s1, run[0]);
      AdmissibleKept(s, run[0], s1);
      RunAdmissible(s1, run[1..], s');
    }
  }

  /** In every interleaving: a store by an unforced repair or a plan approval never lowers
      the phase, a replay or a migration only ever fills in a missing phase, and a claim
      only ever advances to implement. The comparison is with the phase the store replaces. */
  lemma StoresRespectGuards(s: State, run: seq<Event>, s1: State, pid: Pid, s': State)
    requires Start(s) && Exec(s, run) == Some(s1) && Next(s1, Commit(pid)) == Some(s')
    requires s'.field != s1.field
    ensures pid in s1.tasks && s1.tasks[pid].Sections? && s1.tasks[pid].todo != [] && s'.field.Known?
    ensures s1.tasks[pid].todo[0] == Repair(false) ==>
      RankOf(s1.field).Some? && RankOf(s'.field).Some? && RankOf(s1.field).value <= RankOf(s'.field).value
    ensures s1.tasks[pid].todo[0] == ReplayBackfill ==> s1.field == Absent && s'.field == Known(Plan)
    ensures s1.tasks[pid].todo[0] == Migrate ==> s1.field == Absent
    ensures s1.tasks[pid].todo[0] == PlanWrite ==>
      s'.field == Known(Plan) && (s1.field == Absent || s1.field == Known(Spec) || s1.field == Known(Plan))
    ensures s1.tasks[pid].todo[0] == ClaimAdvance ==> s'.field == Known(Implement)
    ensures s1.tasks[pid].todo[0] == Semantics ==> s1.field == Known(Implement) && s'.field == Known(Plan)
    ensures s1.tasks[pid].todo[0] == Terminal ==> s'.field == Known(Done)
  {
    RunAdmissible(s, run, s1);
    OnlyCommitsStore(s1, Commit(pid), s');
  }
}
