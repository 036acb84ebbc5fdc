/** impl adopt: the gates before it, and its two-stage terminal transition with a crash
    possible after every durable step (internal/approve/adopt.go). Runs are sequential. */
module Adopt {
  import opened Common
  import opened PhaseCache
  import opened AdoptLattice

  datatype EvidenceMark = ByEvidence | ByAttestation(trigger: Trigger)

  /** The audit payload, written in one merge. */
  datatype Payload = Payload(reason: string, actor: string, at: string, evidence: EvidenceMark)

  /** What the export file says about the epic. */
  datatype Snapshot = Snapshot(done: bool, payload: Option<Payload>, closed: bool)

  /** Everything of the epic that survives a crash. */
  datatype Durable = Durable(
    phase: Field, done: bool, payload: Option<Payload>, marked: bool, closed: bool,
    exportFile: Option<Snapshot>, committed: Option<Snapshot>)

  function Shot(d: Durable): Snapshot { Snapshot(d.done, d.payload, d.closed) }

  /** How each durable step of one run goes. A run that is killed is one whose step fails. */
  datatype Faults = Faults(read: bool, audit: StepResult, close: StepResult, export_: StepResult,
                           commit: StepResult, mark: StepResult)

  predicate NoFault(f: Faults) {
    !f.read && f.audit.Succeeded? && f.close.Succeeded? && f.export_.Succeeded?
    && f.commit.Succeeded? && f.mark.Succeeded?
  }

  datatype Outcome =
    | Refused          // by a gate or by the lattice
    | AlreadyDone      // done by the normal path
    | AlreadyAdopted   // one-shot
    | Failed           // an error; some step may still have reached the store
    | Adopted(verified: bool, trigger: Option<Trigger>)

  // ----- The gates -----

  datatype EpicLookup = LookupError | NoEpic | Found

  datatype LocalBranch = CheckFailed | Gone | Present(tip: Probe)

  datatype EpicBead = EpicBead(closed: bool, bead: Bead)

  datatype Facts = Facts(
    reasonBlank: bool, epic: EpicLookup,
    phases: Option<(Field, Field)>,           // stored and derived
    children: Option<seq<Option<string>>>,    // the lifecycle children's statuses, as read
    branch: LocalBranch,
    scanned: Option<seq<EpicBead>>,           // the orphan scan's listing
    remote: Remote, listed: Option<seq<Bead>>)

  predicate GateOk(p: Field) { p == Known(Review) || p == Known(Done) }

  predicate Orphan(b: EpicBead) {
    b.closed && b.bead.branch.Surviving? && EvaluateAgainstMain(b.bead.branch.tip) == Negative
  }

  /** Every refusal before the lattice is consulted. */
  predicate PassesGates(f: Facts) {
    && !f.reasonBlank && f.epic.Found?
    && f.phases.Some? && (GateOk(f.phases.value.0) || GateOk(f.phases.value.1))
    && f.children.Some? && (forall i | 0 <= i < |f.children.value| :: f.children.value[i] == Some("closed"))
    && f.branch.Gone?
    && f.scanned.Some? && forall i | 0 <= i < |f.scanned.value| :: !Orphan(f.scanned.value[i])
  }

  /** What the gates ask for: a reason, an epic in review or done, no lifecycle child but
      closed ones, no local spec branch, and no closed bead whose surviving branch would
      still have to be merged or would bring deleted content back. */
  lemma GatesExactly(f: Facts)
    ensures PassesGates(f) <==>
      && !f.reasonBlank && f.epic == EpicLookup.Found && f.branch == Gone
      && f.phases.Some? && {f.phases.value.0, f.phases.value.1} * {Known(Review), Known(Done)} != {}
      && f.children.Some? && (forall status | status in f.children.value :: status == Some("closed"))
      && f.scanned.Some? && forall b | b in f.scanned.value && b.closed ::
        b.bead.branch !in {Surviving(StaleDeletion), Surviving(Clean)}
  {
    if f.phases.Some? {
      var stored, derived := f.phases.value.0, f.phases.value.1;
      assert stored in {stored, derived} && derived in {stored, derived};
      if GateOk(stored) { assert stored in {stored, derived} * {Known(Review), Known(Done)}; }
      if GateOk(derived) { assert derived in {stored, derived} * {Known(Review), Known(Done)}; }
    }
    if f.children.Some? { assert forall i | 0 <= i < |f.children.value| :: f.children.value[i] in f.children.value; }
    if f.scanned.Some? {
      assert forall i | 0 <= i < |f.scanned.value| :: f.scanned.value[i] in f.scanned.value;
      forall b | b in f.scanned.value
        ensures Orphan(b) <==> b.closed && b.bead.branch in {Surviving(StaleDeletion), Surviving(Clean)} {}
    }
  }

  /** The orphan scan is only an earlier and narrower gate: over the same beads the
      lattice refuses too, and as negative. */
  lemma OrphanIsNegative(r: Remote, beads: seq<EpicBead>, listed: seq<Bead>, c: Class)
    requires |listed| == |beads| && forall i | 0 <= i < |beads| :: listed[i] == beads[i].bead
    requires exists i | 0 <= i < |beads| :: Orphan(beads[i])
    requires ClassMeans(r, listed, c)
    ensures c in {NegativeEvidence, SourcesConflict} && TriggerOf(c) == Some(NegativeTrigger)
  {
  }

  // ----- One run -----

  /** One run as the durable state sees it: what the lattice said, if it was reached, and
      what the run would record. */
  datatype Attempt = Attempt(cls: Option<Class>, attest: bool, reason: string, actor: string,
                             at: string, faults: Faults)

  predicate MayFinalize(a: Attempt) {
    a.cls.Some? && (a.cls.value.Verified? || a.attest)
  }

  function EvidenceOf(a: Attempt): EvidenceMark
    requires MayFinalize(a)
  {
    if a.cls.value.Verified? then ByEvidence else ByAttestation(TriggerOf(a.cls.value).value)
  }

  function PayloadOf(a: Attempt): Payload
    requires MayFinalize(a)
  {
    Payload(a.reason, a.actor, a.at, EvidenceOf(a))
  }

  function AfterAudit(d: Durable, p: Payload): Durable { d.(phase := Known(Done), done := true, payload := Some(p)) }

  function AfterClose(d: Durable): Durable { d.(closed := true) }

  /** Export the tracker, commit that file, mark. */
  function ExportStage(d: Durable, f: Faults): Durable {
    var d1 := if f.export_.Durable() then d.(exportFile := Some(Shot(d))) else d;
    if !f.export_.Succeeded? then d1
    else
      var d2 := if f.commit.Durable() then d1.(committed := d1.exportFile) else d1;
      if !f.commit.Succeeded? then d2 else if f.mark.Durable() then d2.(marked := true) else d2
  }

  function CloseStage(d: Durable, f: Faults): Durable {
    var d1 := if f.close.Durable() then AfterClose(d) else d;
    if f.close.Succeeded? then ExportStage(d1, f) else d1
  }

  function Next(d: Durable, a: Attempt): Durable {
    if !MayFinalize(a) || a.faults.read then d
    else if d.payload.None? && d.done then d
    else if d.payload.Some? && d.marked then d
    else if d.payload.Some? then CloseStage(d, a.faults)
    else
      var d1 := if a.faults.audit.Durable() then AfterAudit(d, PayloadOf(a)) else d;
      if a.faults.audit.Succeeded? then CloseStage(d1, a.faults) else d1
  }

  /** What the run reports. */
  function Reports(d: Durable, a: Attempt): Outcome {
    if !MayFinalize(a) then Refused
    else if a.faults.read then Failed
    else if d.payload.None? && d.done then AlreadyDone
    else if d.payload.Some? && d.marked then AlreadyAdopted
    else if d.payload.None? && !a.faults.audit.Succeeded? then Failed
    else if !a.faults.close.Succeeded? || !a.faults.export_.Succeeded? || !a.faults.commit.Succeeded?
            || !a.faults.mark.Succeeded?
    then Failed
    else Adopted(a.cls.value.Verified?, if a.cls.value.Verified? then None else TriggerOf(a.cls.value))
  }

  class Epic {
    var phase: Field
    var done: bool
    var payload: Option<Payload>
    var marked: bool
    var closed: bool
    var exportFile: Option<Snapshot>
    var committed: Option<Snapshot>

    constructor (d: Durable)
      ensures State() == d
    {
      phase, done, payload, marked := d.phase, d.done, d.payload, d.marked;
      closed, exportFile, committed := d.closed, d.exportFile, d.committed;
    }

    function State(): Durable
      reads this
    {
      Durable(phase, done, payload, marked, closed, exportFile, committed)
    }

    /** bd close; an epic that is closed already is not an error. */
    method Close(step: StepResult) returns (ok: bool)
      modifies this`closed
      ensures ok == step.Succeeded? && State() == if step.Durable() then AfterClose(old(State())) else old(State())
    {
      if step.Durable() { closed := true; }
      ok := step.Succeeded?;
    }

    method FinalizeExportStage(f: Faults) returns (ok: bool)
      modifies this
      ensures State() == ExportStage(old(State()), f)
      ensures ok == (f.export_.Succeeded? && f.commit.Succeeded? && f.mark.Succeeded?)
    {
      if f.export_.Durable() { exportFile := Some(Snapshot(done, payload, closed)); }
      if !f.export_.Succeeded? { return false; }
      if f.commit.Durable() { committed := exportFile; }
      if !f.commit.Succeeded? { return false; }
      if f.mark.Durable() { marked := true; }
      ok := f.mark.Succeeded?;
    }

    /** adoptFinalize, for a run the gates and the lattice let through. */
    method Finalize(a: Attempt) returns (r: Outcome)
      requires MayFinalize(a)
      modifies this
      ensures State() == Next(old(State()), a) && r == Reports(old(State()), a)
    {
      var f := a.faults;
      if f.read { return Failed; }
      var alreadyAdopted, alreadyDone, stage2Done := payload.Some?, done, marked;
      if alreadyDone && !alreadyAdopted { return AlreadyDone; }
      if alreadyAdopted && stage2Done { return AlreadyAdopted; }
      if !alreadyAdopted {
        if f.audit.Durable() {
          phase, done, payload := Known(Done), true, Some(PayloadOf(a));
        }
        if !f.audit.Succeeded? { return Failed; }
      }
      var ok := Close(f.close);
      if !ok { return Failed; }
      ok := FinalizeExportStage(f);
      if !ok { return Failed; }
      r := Adopted(a.cls.value.Verified?, if a.cls.value.Verified? then None else TriggerOf(a.cls.value));
    }

    /** AdoptSpec: gates, lattice, then the terminal transition. The attempt it returns is
        what the durable state sees of it. */
    method AdoptSpec(f: Facts, attest: bool, reason: string, actor: string, at: string, faults: Faults)
      returns (r: Outcome, ghost a: Attempt)
      modifies this
      ensures a.attest == attest && a.reason == reason && a.actor == actor && a.at == at && a.faults == faults
      ensures State() == Next(old(State()), a) && r == Reports(old(State()), a)
      ensures a.cls.Some? <==> PassesGates(f)
      ensures a.cls.Some? ==>
        && !f.reasonBlank && f.epic == EpicLookup.Found && f.branch == Gone
        && f.phases.Some? && {f.phases.value.0, f.phases.value.1} * {Known(Review), Known(Done)} != {}
        && f.children.Some? && (forall status | status in f.children.value :: status == Some("closed"))
        && f.scanned.Some? && forall b | b in f.scanned.value && b.closed ::
          b.bead.branch !in {Surviving(StaleDeletion), Surviving(Clean)}
      ensures a.cls.Some? ==>
        if f.listed.Some? then ClassMeans(f.remote, f.listed.value, a.cls.value) else a.cls.value == EvidenceError
      ensures r.Refused? ==> State() == old(State())
    {
      GatesExactly(f);
      a := Attempt(None, attest, reason, actor, at, faults);
      if f.reasonBlank || !f.epic.Found? { return Refused, a; }
      if f.phases.None? { return Refused, a; }
      if !GateOk(f.phases.value.0) && !GateOk(f.phases.value.1) { return Refused, a; }
      if f.children.None? { return Refused, a; }
      for i := 0 to |f.children.value|
        invariant forall j | 0 <= j < i :: f.children.value[j] == Some("closed")
      {
        var status := f.children.value[i];
        if status == None { return Refused, a; }
        if status.value != "closed" { return Refused, a; }
      }
      if !f.branch.Gone? { return Refused, a; }
      if f.scanned.None? { return Refused, a; }
      for i := 0 to |f.scanned.value|
        invariant forall j | 0 <= j < i :: !Orphan(f.scanned.value[j])
      {
        if Orphan(f.scanned.value[i]) { return Refused, a; }
      }
      var result := EvaluateAdoptLattice(f.remote, f.listed);
      var attempt := Attempt(Some(result.cls), attest, reason, actor, at, faults);
      a := attempt;
      if result.cls != Verified && !attest { return Refused, a; }
      r := Finalize(attempt);
    }
  }

  // ----- Over every sequence of runs -----

  function AfterRuns(d: Durable, runs: seq<Attempt>): Durable
    decreases |runs|
  {
    if runs == [] then d else AfterRuns(Next(d, runs[0]), runs[1..])
  }

  /** A payload once written never changes, whatever later runs were given. */
  lemma {:induction false} PayloadNeverChanges(d: Durable, runs: seq<Attempt>)
    requires d.payload.Some?
    ensures AfterRuns(d, runs).payload == d.payload && AfterRuns(d, runs).done == d.done
    decreases |runs|
  {
    if runs != [] { PayloadNeverChanges(Next(d, runs[0]), runs[1..]); }
  }

  /** The marker says: payload written, epic closed, and a committed export that shows
      both. The payload and the done flag are one write. */
  ghost predicate MarkerSound(d: Durable) {
    && (d.payload.Some? ==> d.done)
    && (d.marked ==> d.payload.Some? && d.closed && d.committed == Some(Shot(d)))
  }

  /** What adopt never touches before the payload is there. */
  ghost predicate Untouched(d0: Durable, d: Durable) {
    d.payload.None? ==> d == d0
  }

  lemma OneRunKeeps(d0: Durable, d: Durable, a: Attempt)
    requires MarkerSound(d) && Untouched(d0, d)
    ensures MarkerSound(Next(d, a)) && Untouched(d0, Next(d, a))
  {
  }

  /** Marker soundness, and that nothing changes, in particular that the epic is not
      closed, while no payload is durable. Since a run may stop after any step, the states
      between its steps are among these. */
  lemma {:induction false} RunsKeep(d0: Durable, d: Durable, runs: seq<Attempt>)
    requires MarkerSound(d) && Untouched(d0, d)
    ensures MarkerSound(AfterRuns(d, runs)) && Untouched(d0, AfterRuns(d, runs))
    decreases |runs|
  {
    if runs != [] {
      OneRunKeeps(d0, d, runs[0]);
      RunsKeep(d0, Next(d, runs[0]), runs[1..]);
    }
  }

  lemma CloseComesAfterPayload(d: Durable, runs: seq<Attempt>)
    requires MarkerSound(d) && AfterRuns(d, runs).closed && !d.closed
    ensures AfterRuns(d, runs).payload.Some?
  {
    RunsKeep(d, d, runs);
  }

  ghost predicate Terminal(d: Durable) {
    && d.marked && d.payload.Some? && d.done && d.closed
    && d.committed == Some(Snapshot(true, d.payload, true))
  }

  /** A run that reports adopted has reached the terminal state, whatever failed before; it
      reports so exactly when it was let through, every step it took succeeded, and the
      epic was neither done otherwise nor adopted and marked already. */
  lemma AdoptedExactly(d: Durable, runs: seq<Attempt>, a: Attempt)
    requires MarkerSound(d)
    ensures var before := AfterRuns(d, runs);
      && (Reports(before, a).Adopted? <==>
            && a.cls.Some? && (a.cls == Some(Verified) || a.attest) && !a.faults.read
            && (if before.payload.None? then !before.done && a.faults.audit == Succeeded else !before.marked)
            && a.faults.close == a.faults.export_ == a.faults.commit == a.faults.mark == Succeeded)
      && (Reports(before, a).Adopted? ==>
            var d' := Next(before, a);
            && d'.marked && d'.payload.Some? && d'.done && d'.closed
            && d'.committed == Some(Snapshot(true, d'.payload, true)))
  {
    RunsKeep(d, d, runs);
  }

  /** After any history, the first run that is let through and not disturbed ends in the
      terminal state, unless the epic was already done, by adopt or without it. */
  lemma FirstFinishedRunTerminates(d: Durable, runs: seq<Attempt>, a: Attempt)
    requires MarkerSound(d) && MayFinalize(a) && NoFault(a.faults)
    ensures var before := AfterRuns(d, runs);
      match Reports(before, a)
      case Adopted(_, _) => Terminal(Next(before, a))
      case AlreadyAdopted => Terminal(before) && Next(before, a) == before
      case AlreadyDone => before.done && before.payload.None? && Next(before, a) == before
      case _ => false
  {
    RunsKeep(d, d, runs);
  }

  /** Where a payload comes from: the first run that wrote it, with that run's reason and
      with the evidence mark its own lattice result allows. */
  lemma {:induction false} PayloadHasASource(d: Durable, runs: seq<Attempt>) returns (k: nat)
    requires d.payload.None? && AfterRuns(d, runs).payload.Some?
    ensures k < |runs| && MayFinalize(runs[k]) && AfterRuns(d, runs).payload == Some(PayloadOf(runs[k]))
    ensures var p := AfterRuns(d, runs).payload.value;
      p.reason == runs[k].reason && p.actor == runs[k].actor && p.at == runs[k].at
    ensures runs[k].faults.audit.Durable() && AfterRuns(d, runs[..k]).payload.None?
    decreases |runs|
  {
    var d1 := Next(d, runs[0]);
    if d1.payload.Some? {
      k := 0;
      PayloadNeverChanges(d1, runs[1..]);
    } else {
      k := PayloadHasASource(d1, runs[1..]);
      assert runs[1..][k] == runs[k + 1];
      assert runs[..k + 1][1..] == runs[1..][..k];
      k := k + 1;
    }
  }

  /** The payload, the done flag and the stored phase done are one write: over every
      sequence of runs none of them is there without the others. */
  lemma {:induction false} AuditIsOneWrite(d: Durable, runs: seq<Attempt>)
    requires d.payload.None?
    ensures var d' := AfterRuns(d, runs);
      if d'.payload.None? then d'.done == d.done && d'.phase == d.phase else d'.done && d'.phase == Known(Done)
    decreases |runs|
  {
    if runs != [] {
      var d1 := Next(d, runs[0]);
      if d1.payload.None? { AuditIsOneWrite(d1, runs[1..]); } else { PhaseStays(d1, runs[1..]); }
    }
  }

  lemma {:induction false} PhaseStays(d: Durable, runs: seq<Attempt>)
    requires d.payload.Some?
    ensures AfterRuns(d, runs).payload == d.payload
    ensures AfterRuns(d, runs).phase == d.phase && AfterRuns(d, runs).done == d.done
    decreases |runs|
  {
    if runs != [] { PhaseStays(Next(d, runs[0]), runs[1..]); }
  }

  /** A durable verified mark was written only by a run whose lattice was VERIFIED, and an
      attested mark carries the trigger of its own run's refusal class. */
  lemma MarksAreEarned(d: Durable, runs: seq<Attempt>) returns (k: nat)
    requires d.payload.None? && AfterRuns(d, runs).payload.Some?
    ensures k < |runs|
    ensures match AfterRuns(d, runs).payload.value.evidence
      case ByEvidence => runs[k].cls == Some(Verified)
      case ByAttestation(t) =>
        && runs[k].attest
        && (runs[k].cls, t) in {
          (Some(NegativeEvidence), NegativeTrigger), (Some(SourcesConflict), NegativeTrigger),
          (Some(EvidenceError), ErrorTrigger), (Some(CoverageUnavailable), NoSource)}
  {
    k := PayloadHasASource(d, runs);
  }

  /** What a run reports is about its own evidence: it agrees with the durable mark
      exactly when the run that wrote the payload had evidence of the same kind. */
  lemma ReportAgreesExactly(d: Durable, a: Attempt)
    requires MayFinalize(a) && Reports(d, a).Adopted?
    ensures var p := Next(d, a).payload;
      p.Some? && (Reports(d, a).verified == p.value.evidence.ByEvidence?
                  <==> (d.payload.None? || d.payload.value.evidence.ByEvidence? == a.cls.value.Verified?))
  {
  }

  /** It can disagree: an attested run stops after its audit write, and a verified run
      resumes it. */
  lemma ResumedRunMayDisagree()
    ensures exists d, first, second ::
      && MarkerSound(d) && d.payload.None? && MayFinalize(first) && MayFinalize(second)
      && Reports(Next(d, first), second) == Adopted(true, None)
      && Next(Next(d, first), second).payload == Some(PayloadOf(first))
      && EvidenceOf(first) == ByAttestation(NoSource)
  {
    var d := Durable(Known(Review), false, None, false, false, None, None);
    var killed := Faults(false, FailedAfter, Succeeded, Succeeded, Succeeded, Succeeded);
    var clean := killed.(audit := Succeeded);
    var first := Attempt(Some(CoverageUnavailable), true, "r1", "a", "t1", killed);
    var second := Attempt(Some(Verified), false, "r2", "a", "t2", clean);
    assert Reports(Next(d, first), second) == Adopted(true, None);
  }
}
