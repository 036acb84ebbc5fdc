/** Which steps give the agreement of stored and derived phase an excuse: the flags of the
    state machine that PhaseProtocol.QuiescentAgreement names (cmd/mindspec/next.go). */
module PhaseExcuses {
  import opened Common
  import opened PhaseCache
  import opened PhaseProtocol

  /** The excuses, each with exactly the step that gives it. */
  lemma ExcusesExactly(s: State, e: Event, s': State)
    requires Next(s, e) == Some(s')
    ensures s'.stale <==>
      || s.stale
      || (e.DecideInLock? && s.tasks[e.pid].todo[0].Precomputed? && s.tasks[e.pid].todo[0].target != Derive(s.children))
    ensures s'.ending <==>
      || s.ending || e.Terminate?
      || (e.DecideInLock? && s.tasks[e.pid].todo[0] == Terminal)
    ensures s'.blind <==>
      || s.blind
      || (Derive(s'.children) != Derive(s.children)
          && (e.BeadAdded? || e.BeadEdited? || (e.ReleaseOpen? && !s.tasks[e.pid].sawInProgress)))
    ensures s'.lost <==>
      || s.lost
      || ((e.SectionFails? || e.Crash?) && LosesSync(s.tasks[e.pid], e.Crash?))
  {
    if OutsideLock(e) {
      MoveExcuses(s, e, s');
    } else if e.SectionFails? || e.Crash? {
      FailureExcuses(s, e, s');
    } else if e.DecideInLock? {
      DecideExcuses(s, e.pid, s');
    } else if OfNobody(e) {
      NobodyExcuses(s, e, s');
      hide Derive, Next;
    } else {
      LockExcuses(s, e, s');
      hide Derive, Next;
    }
  }

  /** The task had still to derive the phase, or a claim advance, a release sync or a late
      store that now does not happen: the next section, or for a stop any of them. */
  predicate LosesSync(t: Task, stops: bool) {
    match t
    case Releasing(_, _) => false
    case Completing => true
    case Sections(todo, _) =>
      exists i | 0 <= i < |todo| && (stops || i == 0) ::
        todo[i] == ClaimAdvance || todo[i] == ReleaseSync || todo[i].Precomputed?
  }

  lemma MoveExcuses(s: State, e: Event, s': State)
    requires OutsideLock(e) && Next(s, e) == Some(s')
    ensures s'.stale == s.stale && s'.lost == s.lost && s'.ending == s.ending
    ensures s'.blind <==>
      || s.blind
      || (Derive(s'.children) != Derive(s.children) && e.ReleaseOpen? && !s.tasks[e.pid].sawInProgress)
  {
    hide Derive, SetStatus;
  }

  lemma FailureExcuses(s: State, e: Event, s': State)
    requires (e.SectionFails? || e.Crash?) && Next(s, e) == Some(s')
    ensures s'.stale == s.stale && s'.blind == s.blind && s'.ending == s.ending && s'.children == s.children
    ensures s'.lost <==> s.lost || LosesSync(s.tasks[e.pid], e.Crash?)
  {
    hide Derive, Decide, SetStatus, OutsideMove;
  }

  lemma DecideExcuses(s: State, pid: Pid, s': State)
    requires Next(s, DecideInLock(pid)) == Some(s')
    ensures s'.lost == s.lost && s'.blind == s.blind && s'.children == s.children
    ensures s'.stale <==>
      s.stale || (s.tasks[pid].todo[0].Precomputed? && s.tasks[pid].todo[0].target != Derive(s.children))
    ensures s'.ending <==> s.ending || s.tasks[pid].todo[0] == Terminal
  {
    hide Derive, Decide;
  }

  lemma LockExcuses(s: State, e: Event, s': State)
    requires (e.Acquire? || e.Commit?) && Next(s, e) == Some(s')
    ensures s' == s.(field := s'.field, marker := s'.marker, lock := s'.lock, tasks := s'.tasks)
  {
    if e.Commit? {
      CommitEnds(s, e.pid, s');
      hide Next;
    } else {
      hide Derive, Decide;
    }
  }

  lemma NobodyExcuses(s: State, e: Event, s': State)
    requires OfNobody(e) && Next(s, e) == Some(s')
    ensures s'.lost == s.lost && s'.stale == s.stale && (s'.ending <==> s.ending || e.Terminate?)
    ensures s'.blind <==> s.blind || Derive(s'.children) != Derive(s.children)
  {
    hide Derive, SetStatus;
    match e
    case Terminate =>
    case BeadAdded(kind) => assert s' == Changed(s, s.children + [Child(kind, Open)]);
    case BeadEdited(i, st) => assert s' == Changed(s, SetStatus(s.children, i, st));
  }
}
