/** Claiming a bead and releasing it again: the order of their durable steps and what a
    failure between two steps leaves (cmd/mindspec/next.go, cmd/mindspec/release.go). */
module Claims {
  import opened Common
  import opened PhaseCache

  /** A bead as both verbs see it. syncs counts the phase syncs that releases asked for. */
  datatype State = State(status: BeadStatus, worktree: bool, marker: Option<string>, syncs: nat)

  datatype Outcome = Completed | Refused | Failed

  // ----- release -----

  /** dirt is None when the dirty check itself fails; cursor says whether the epic and the
      bead's status could be read. */
  datatype ReleaseRun = ReleaseRun(
    idBlank: bool, force: bool, dirt: Option<bool>, remove: StepResult, cursor: bool, open: StepResult)

  predicate MayRemove(r: ReleaseRun) { !r.idBlank && (r.force || r.dirt == Some(false)) }

  /** The durable effect of one release, possibly stopped after any step. */
  function ReleaseNext(s: State, r: ReleaseRun): State {
    if !MayRemove(r) then s
    else
      var s1 := if r.remove.Durable() then s.(worktree := false) else s;
      if !r.remove.Succeeded? then s1
      else
        var s2 := if r.open.Durable() then s1.(status := Open) else s1;
        if !r.open.Succeeded? then s2
        else if r.cursor && s.status == InProgress then s2.(syncs := s2.syncs + 1) else s2
  }

  function ReleaseReports(r: ReleaseRun): Outcome {
    if r.idBlank || (!r.force && r.dirt == None) then Failed
    else if !MayRemove(r) then Refused
    else if !r.remove.Succeeded? || !r.open.Succeeded? then Failed
    else Completed
  }

  // ----- claim -----

  /** signals: the readiness signals fail and the operator insisted. */
  datatype ClaimRun = ClaimRun(
    ready: bool, signals: bool, override: string, write: StepResult, claim: StepResult, rollback: StepResult)

  function ClaimNext(s: State, c: ClaimRun): State {
    if !c.ready then s
    else
      var s1 := if c.signals && c.write.Durable() then s.(marker := Some(c.override)) else s;
      if c.signals && !c.write.Succeeded? then s1
      else
        var s2 := if c.claim.Durable() then s1.(status := InProgress) else s1;
        if c.claim.Succeeded? then s2
        else if c.signals && c.rollback.Durable() then s2.(marker := None) else s2
  }

  function ClaimReports(c: ClaimRun): Outcome {
    if !c.ready then Refused
    else if c.signals && !c.write.Succeeded? then Failed
    else if c.claim.Succeeded? then Completed else Failed
  }

  class Bead {
    var status: BeadStatus
    var worktree: bool
    var marker: Option<string>
    var syncs: nat

    constructor (s: State)
      ensures Now() == s
    {
      status, worktree, marker, syncs := s.status, s.worktree, s.marker, s.syncs;
    }

    function Now(): State
      reads this
    {
      State(status, worktree, marker, syncs)
    }

    /** runRelease: dirty check, remove the worktree, read the cursor, set open, sync. */
    method RunRelease(r: ReleaseRun) returns (out: Outcome)
      modifies this
      ensures Now() == ReleaseNext(old(Now()), r) && out == ReleaseReports(r)
      ensures worktree != old(worktree) ==> !r.idBlank && (r.force || r.dirt == Some(false)) && !worktree
      ensures out == Refused <==> !r.idBlank && !r.force && r.dirt == Some(true)
      ensures out == Completed <==>
        !r.idBlank && (r.force || r.dirt == Some(false)) && r.remove == Succeeded && r.open == Succeeded
      ensures out == Completed ==> !worktree && status == Open
      ensures syncs != old(syncs) <==> out == Completed && r.cursor && old(status) == InProgress
    {
      if r.idBlank { return Failed; }
      if !r.force {
        if r.dirt == None { return Failed; }
        if r.dirt.value { return Refused; }
      }
      if r.remove.Durable() { worktree := false; }
      if !r.remove.Succeeded? { return Failed; }
      var active := r.cursor && status == InProgress;
      if r.open.Durable() { status := Open; }
      if !r.open.Succeeded? { return Failed; }
      if active { syncs := syncs + 1; }
      out := Completed;
    }

    /** The claim part of nextCmd: gate, override marker, claim, rollback. */
    method RunClaim(c: ClaimRun) returns (out: Outcome)
      modifies this
      ensures Now() == ClaimNext(old(Now()), c) && out == ClaimReports(c)
      ensures out == Refused <==> !c.ready
      ensures out == Completed <==> c.ready && (c.signals ==> c.write == Succeeded) && c.claim == Succeeded
      ensures out == Completed ==> status == InProgress && (c.signals ==> marker == Some(c.override))
      ensures !c.signals ==> marker == old(marker)
      ensures worktree == old(worktree) && syncs == old(syncs)
    {
      if !c.ready { return Refused; }
      if c.signals {
        if c.write.Durable() { marker := Some(c.override); }
        if !c.write.Succeeded? { return Failed; }
      }
      if c.claim.Durable() { status := InProgress; }
      if !c.claim.Succeeded? {
        if c.signals && c.rollback.Durable() { marker := None; }
        return Failed;
      }
      out := Completed;
    }
  }

  // ----- Over every sequence of releases -----

  function AfterReleases(s: State, runs: seq<ReleaseRun>): State
    decreases |runs|
  {
    if runs == [] then s else AfterReleases(ReleaseNext(s, runs[0]), runs[1..])
  }

  /** A bead that releases opened has no worktree left: removing comes first. */
  lemma {:induction false} OpenedOnlyWithoutWorktree(s: State, runs: seq<ReleaseRun>)
    requires s.status != Open
    ensures AfterReleases(s, runs).status == Open ==> !AfterReleases(s, runs).worktree
    ensures AfterReleases(s, runs).status in {s.status, Open}
    decreases |runs|
  {
    if runs != [] {
      var s1 := ReleaseNext(s, runs[0]);
      if s1.status == Open { WorktreeStaysGone(s1, runs[1..]); } else { OpenedOnlyWithoutWorktree(s1, runs[1..]); }
    }
  }

  lemma {:induction false} WorktreeStaysGone(s: State, runs: seq<ReleaseRun>)
    requires !s.worktree && s.status == Open
    ensures !AfterReleases(s, runs).worktree && AfterReleases(s, runs).status == Open
    decreases |runs|
  {
    if runs != [] { WorktreeStaysGone(ReleaseNext(s, runs[0]), runs[1..]); }
  }

  /** After any history of stopped runs, a run that is let through and not disturbed leaves
      the bead open and its worktree gone. */
  lemma ReleaseConverges(s: State, runs: seq<ReleaseRun>, r: ReleaseRun)
    requires !r.idBlank && (r.force || r.dirt == Some(false)) && r.remove.Succeeded? && r.open.Succeeded?
    ensures var s' := ReleaseNext(AfterReleases(s, runs), r); s'.status == Open && !s'.worktree
  {
  }

  /** What a re-run does not repair: over all runs of release on one claim the phase is
      synced at most once, and never again after a run that stopped past set-open. */
  lemma {:induction false} SyncedAtMostOnce(s: State, runs: seq<ReleaseRun>)
    ensures s.syncs <= AfterReleases(s, runs).syncs <= s.syncs + if s.status == InProgress then 1 else 0
    decreases |runs|
  {
    if runs != [] { SyncedAtMostOnce(ReleaseNext(s, runs[0]), runs[1..]); }
  }

  /** Whether it is synced at all is decided by the first run whose set-open takes effect:
      that run must also have seen the reply and read the cursor. */
  lemma {:induction false} SyncedExactly(s: State, runs: seq<ReleaseRun>)
    requires s.status == InProgress
    ensures AfterReleases(s, runs).syncs == s.syncs + 1 <==> FirstOpeningSyncs(runs)
    decreases |runs|
  {
    if runs != [] {
      var s1 := ReleaseNext(s, runs[0]);
      if Opens(runs[0]) {
        SyncedAtMostOnce(s1, runs[1..]);
      } else {
        SyncedExactly(s1, runs[1..]);
        LaterOpening(runs);
      }
    }
  }

  predicate Opens(r: ReleaseRun) {
    !r.idBlank && (r.force || r.dirt == Some(false)) && r.remove.Succeeded? && r.open.Durable()
  }

  predicate FirstOpeningSyncs(runs: seq<ReleaseRun>) {
    exists i | 0 <= i < |runs| ::
      && Opens(runs[i]) && runs[i].open.Succeeded? && runs[i].cursor
      && forall j | 0 <= j < i :: !Opens(runs[j])
  }

  lemma LaterOpening(runs: seq<ReleaseRun>)
    requires runs != [] && !Opens(runs[0])
    ensures FirstOpeningSyncs(runs) <==> FirstOpeningSyncs(runs[1..])
  {
  }

  // ----- The override marker -----

  /** A successful insisted claim has both: the marker is durable and the bead claimed. A
      refusal of the readiness gate leaves everything as it was. */
  lemma InsistedClaim(s: State, c: ClaimRun)
    ensures ClaimReports(c).Completed? ==>
      ClaimNext(s, c).status == InProgress && (c.signals ==> ClaimNext(s, c).marker == Some(c.override))
    ensures ClaimReports(c).Refused? ==> ClaimNext(s, c) == s
  {
  }

  /** The source promises that a claim that failed leaves no authorizing marker. On a bead
      that had none, a failed insisted run leaves one exactly when its own write took
      effect and no rollback did: because the reply to the write was lost, in which case
      none is tried, or because the rollback failed too. */
  lemma OrphanedMarkerExactly(s: State, c: ClaimRun)
    requires c.ready && c.signals && s.marker == None && ClaimReports(c).Failed?
    ensures ClaimNext(s, c).marker.Some? <==> c.write.FailedAfter? || (c.write.Succeeded? && !c.rollback.Durable())
  {
  }

  /** An input for which it does: the write took effect and its reply was lost. */
  lemma LostReplyOrphansMarker(s: State, claim: StepResult, rollback: StepResult)
    requires s.marker == None && s.status == Open
    ensures var c := ClaimRun(true, true, "evidence", FailedAfter, claim, rollback);
      ClaimReports(c).Failed? && ClaimNext(s, c) == s.(marker := Some("evidence"))
  {
  }

  /** The rollback erases a marker that an earlier run had left, and takes back nothing
      else: the bead is as before exactly when it had no marker and the claim that was
      reported as failed did not move it. */
  lemma RollbackErasesEarlierMarker(s: State, c: ClaimRun)
    requires c.ready && c.signals && c.write.Succeeded? && !c.claim.Succeeded? && c.rollback.Durable()
    ensures ClaimNext(s, c).marker == None
    ensures ClaimNext(s, c) == s <==> s.marker == None && (c.claim.FailedBefore? || s.status == InProgress)
  {
  }

  /** A failed insisted run can even leave the bead claimed without the marker that
      authorised it: exactly when the reply to the claim was lost and the rollback worked. */
  lemma ClaimedWithoutMarkerExactly(s: State, c: ClaimRun)
    requires c.ready && c.signals && s.status != InProgress && ClaimReports(c).Failed?
    ensures ClaimNext(s, c).status == InProgress && ClaimNext(s, c).marker == None
       <==> c.write.Succeeded? && c.claim.FailedAfter? && c.rollback.Durable()
  {
  }

  // ----- Over every history of claims and releases -----

  datatype Step = Claiming(claim: ClaimRun) | Releasing(release: ReleaseRun)

  function StepNext(s: State, step: Step): State {
    match step
    case Claiming(c) => ClaimNext(s, c)
    case Releasing(r) => ReleaseNext(s, r)
  }

  function After(s: State, steps: seq<Step>): State {
    if steps == [] then s else StepNext(After(s, steps[..|steps| - 1]), steps[|steps| - 1])
  }

  /** An insisted claim whose marker was written and not rolled back. */
  predicate LeavesMarker(step: Step) {
    && step.Claiming? && step.claim.ready && step.claim.signals && step.claim.write.Durable()
    && (step.claim.write.FailedAfter? || step.claim.claim.Succeeded? || !step.claim.rollback.Durable())
  }

  /** One whose marker was rolled back. */
  predicate ClearsMarker(step: Step) {
    && step.Claiming? && step.claim.ready && step.claim.signals && step.claim.write.Succeeded?
    && !step.claim.claim.Succeeded? && step.claim.rollback.Durable()
  }

  /** A claim that took effect, whether or not it was reported. */
  predicate TakesBead(step: Step) {
    && step.Claiming? && step.claim.ready && (step.claim.signals ==> step.claim.write.Succeeded?)
    && step.claim.claim.Durable()
  }

  predicate OpensBead(step: Step) { step.Releasing? && Opens(step.release) }

  lemma MarkerStep(s: State, step: Step)
    ensures StepNext(s, step).marker ==
      if LeavesMarker(step) then Some(step.claim.override) else if ClearsMarker(step) then None else s.marker
  {
  }

  lemma StatusStep(s: State, step: Step)
    ensures StepNext(s, step).status ==
      if TakesBead(step) then InProgress else if OpensBead(step) then Open else s.status
  {
  }

  /** The last step of a kind that matters. */
  ghost predicate LastMarkerStep(steps: seq<Step>, i: nat) {
    && i < |steps| && (LeavesMarker(steps[i]) || ClearsMarker(steps[i]))
    && forall j | i < j < |steps| :: !LeavesMarker(steps[j]) && !ClearsMarker(steps[j])
  }

  ghost predicate LastStatusStep(steps: seq<Step>, i: nat) {
    && i < |steps| && (TakesBead(steps[i]) || OpensBead(steps[i]))
    && forall j | i < j < |steps| :: !TakesBead(steps[j]) && !OpensBead(steps[j])
  }

  /** The marker is that of the last insisted claim that wrote or rolled one back: no
      release ever takes it away. */
  lemma {:induction false} MarkerIsOfLastClaim(s: State, steps: seq<Step>)
    ensures forall i: nat | LastMarkerStep(steps, i) ::
      After(s, steps).marker == if LeavesMarker(steps[i]) then Some(steps[i].claim.override) else None
    ensures (forall i: nat :: !LastMarkerStep(steps, i)) ==> After(s, steps).marker == s.marker
  {
    if steps != [] {
      var n := |steps| - 1;
      var before := steps[..n];
      MarkerIsOfLastClaim(s, before);
      MarkerStep(After(s, before), steps[n]);
      hide StepNext, LeavesMarker, ClearsMarker;
      if LeavesMarker(steps[n]) || ClearsMarker(steps[n]) {
        assert LastMarkerStep(steps, n);
      } else {
        forall i: nat ensures LastMarkerStep(steps, i) <==> LastMarkerStep(before, i) {}
      }
    }
  }

  lemma {:induction false} StatusIsOfLastStep(s: State, steps: seq<Step>)
    ensures forall i: nat | LastStatusStep(steps, i) ::
      After(s, steps).status == if TakesBead(steps[i]) then InProgress else Open
    ensures (forall i: nat :: !LastStatusStep(steps, i)) ==> After(s, steps).status == s.status
  {
    if steps != [] {
      var n := |steps| - 1;
      var before := steps[..n];
      StatusIsOfLastStep(s, before);
      StatusStep(After(s, before), steps[n]);
      hide StepNext, TakesBead, OpensBead;
      if TakesBead(steps[n]) || OpensBead(steps[n]) {
        assert LastStatusStep(steps, n);
      } else {
        forall i: nat ensures LastStatusStep(steps, i) <==> LastStatusStep(before, i) {}
      }
    }
  }

  /** A readiness override sits on an unclaimed bead, where a later claim would inherit it,
      exactly when the last marker step left its marker and the last step that moved the
      bead was a release, or none did. */
  lemma MarkerOnUnclaimedBeadExactly(s: State, steps: seq<Step>)
    requires s.status != InProgress && s.marker == None
    ensures After(s, steps).marker.Some? && After(s, steps).status != InProgress <==>
      && (exists i: nat :: LastMarkerStep(steps, i) && LeavesMarker(steps[i]))
      && (forall i: nat | LastStatusStep(steps, i) :: OpensBead(steps[i]))
  {
    MarkerIsOfLastClaim(s, steps);
    StatusIsOfLastStep(s, steps);
  }

  /** In particular an insisted claim and a release that both succeed leave it there. */
  lemma ReleaseLeavesMarker(s: State, c: ClaimRun, r: ReleaseRun)
    requires c.ready && c.signals && ClaimReports(c).Completed? && ReleaseReports(r).Completed?
    ensures After(s, [Claiming(c), Releasing(r)]).marker == Some(c.override)
    ensures After(s, [Claiming(c), Releasing(r)]).status == Open
  {
    var steps := [Claiming(c), Releasing(r)];
    assert LastMarkerStep(steps, 0);
    assert LastStatusStep(steps, 1);
    MarkerIsOfLastClaim(s, steps);
    StatusIsOfLastStep(s, steps);
  }
}
