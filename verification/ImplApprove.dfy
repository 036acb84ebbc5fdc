/** impl approve: read-only gates, then a fixed order of durable writes, each of which may
    fail before or after it takes effect (internal/approve/impl.go). */
module ImplApprove {
  import opened Common
  import opened PhaseCache

  type Id = string

  // ----- The allow-set -----

  /** The planned ids that are lifecycle children, in the order and number of the plan. */
  function Intersect(plan: seq<Id>, lifecycle: seq<Id>): seq<Id> {
    if plan == [] then []
    else
      var n := |plan| - 1;
      Intersect(plan[..n], lifecycle) + if plan[n] in lifecycle then [plan[n]] else []
  }

  method IntersectIDs(planBeadIDs: seq<Id>, lifecycleChildren: seq<Id>) returns (out: seq<Id>)
    ensures out == Intersect(planBeadIDs, lifecycleChildren)
  {
    var lifecycle: set<Id> := {};
    for i := 0 to |lifecycleChildren|
      invariant forall id :: id in lifecycle <==> id in lifecycleChildren[..i]
    {
      assert lifecycleChildren[..i + 1] == lifecycleChildren[..i] + [lifecycleChildren[i]];
      lifecycle := lifecycle + {lifecycleChildren[i]};
    }
    assert lifecycleChildren[..|lifecycleChildren|] == lifecycleChildren;
    out := [];
    for i := 0 to |planBeadIDs|
      invariant out == Intersect(planBeadIDs[..i], lifecycleChildren)
    {
      assert planBeadIDs[..i + 1][..i] == planBeadIDs[..i];
      if planBeadIDs[i] in lifecycle { out := out + [planBeadIDs[i]]; }
    }
    assert planBeadIDs[..|planBeadIDs|] == planBeadIDs;
  }

  /** Exactly the intersection: every lifecycle child as often as the plan names it, and
      nothing else. */
  lemma {:induction false} IntersectCounts(plan: seq<Id>, lifecycle: seq<Id>, id: Id)
    ensures multiset(Intersect(plan, lifecycle))[id] == if id in lifecycle then multiset(plan)[id] else 0
  {
    if plan != [] {
      var n := |plan| - 1;
      assert plan == plan[..n] + [plan[n]];
      IntersectCounts(plan[..n], lifecycle, id);
    }
  }

  /** In the order of the plan: what an initial part of the plan contributes comes first. */
  lemma {:induction false} IntersectKeepsOrder(plan: seq<Id>, rest: seq<Id>, lifecycle: seq<Id>)
    ensures Intersect(plan + rest, lifecycle) == Intersect(plan, lifecycle) + Intersect(rest, lifecycle)
    decreases |rest|
  {
    if rest == [] {
      assert plan + rest == plan;
    } else {
      var n := |rest| - 1;
      IntersectKeepsOrder(plan, rest[..n], lifecycle);
      assert (plan + rest)[..|plan| + n] == plan + rest[..n];
    }
  }

  // ----- The worktree leg and the orphan gate -----

  const BEAD_BRANCH_PREFIX := "bead/"

  /** One worktree; ancestor is None when the ancestry probe fails. */
  datatype Worktree = Worktree(branch: string, ancestor: Option<bool>)

  predicate HasPrefix(s: string, p: string) { |p| <= |s| && s[..|p|] == p }

  /** The worktree's branch is the bead branch of a closed bead of this epic. */
  predicate Relevant(e: Worktree, closed: seq<Id>, validId: Id -> bool) {
    && HasPrefix(e.branch, BEAD_BRANCH_PREFIX)
    && var id := e.branch[|BEAD_BRANCH_PREFIX|..];
       id != "" && validId(id) && id in closed
  }

  predicate WorktreesMerged(entries: seq<Worktree>, closed: seq<Id>, validId: Id -> bool) {
    forall i | 0 <= i < |entries| && Relevant(entries[i], closed, validId) :: entries[i].ancestor == Some(true)
  }

  method RunWorktreeEnumerationLeg(entries: Option<seq<Worktree>>, closedIds: Option<seq<Id>>, validId: Id -> bool)
    returns (ok: bool)
    ensures ok <==> entries.Some? && closedIds.Some? && WorktreesMerged(entries.value, closedIds.value, validId)
  {
    if entries.None? || closedIds.None? { return false; }
    for i := 0 to |entries.value|
      invariant forall j | 0 <= j < i && Relevant(entries.value[j], closedIds.value, validId) ::
        entries.value[j].ancestor == Some(true)
    {
      var e := entries.value[i];
      if HasPrefix(e.branch, BEAD_BRANCH_PREFIX) {
        var id := e.branch[|BEAD_BRANCH_PREFIX|..];
        if id != "" && validId(id) && id in closedIds.value {
          if e.ancestor == None { return false; }
          if !e.ancestor.value { return false; }
        }
      }
    }
    ok := true;
  }

  datatype Plan = Unreadable | Malformed | BeadIDs(ids: seq<Id>)

  datatype OrphanFacts = OrphanFacts(
    orphans: Option<seq<Id>>, worktrees: Option<seq<Worktree>>, closedIds: Option<seq<Id>>,
    settled: set<Id>)  // the planned beads whose durable obligations check out

  /** No orphan, no unmerged worktree of a closed bead, a readable plan, and no open
      obligation on any planned bead; whatever cannot be read refuses. */
  predicate OrphanGateOk(f: OrphanFacts, plan: Plan, validId: Id -> bool) {
    && f.orphans == Some([])
    && f.worktrees.Some? && f.closedIds.Some? && WorktreesMerged(f.worktrees.value, f.closedIds.value, validId)
    && plan.BeadIDs? && forall i | 0 <= i < |plan.ids| :: plan.ids[i] in f.settled
  }

  method RunOrphanObligationGate(f: OrphanFacts, plan: Plan, validId: Id -> bool) returns (ok: bool)
    ensures ok <==> OrphanGateOk(f, plan, validId)
  {
    if f.orphans.None? { return false; }
    if |f.orphans.value| > 0 { return false; }
    ok := RunWorktreeEnumerationLeg(f.worktrees, f.closedIds, validId);
    if !ok { return; }
    if !plan.BeadIDs? { return false; }
    for i := 0 to |plan.ids|
      invariant forall j | 0 <= j < i :: plan.ids[j] in f.settled
    {
      if plan.ids[i] !in f.settled { return false; }
    }
    ok := true;
  }

  // ----- The gates -----

  datatype Branch = Indeterminate | Missing(statusRead: bool, children: Option<seq<Id>>) | Exists

  /** Checks of other packages, each passed or not; PushProbe matters only with a remote. */
  datatype Checks = Checks(mergeBase: bool, docChildren: bool, docGate: bool, worktreePreflight: bool, panelCore: bool,
                           panelDeferral: bool, finalReview: bool, mergePreflight: bool, pushProbe: bool)

  datatype Facts = Facts(
    migrated: bool, epicFound: bool, semantics: bool,
    phases: Option<(Field, Field)>,
    remote: Option<bool>, branch: Branch, plan: Plan, statuses: map<Id, string>,
    lifecycle: Option<seq<Id>>, orphan: OrphanFacts, checks: Checks, adrFails: bool,
    auditDue: bool)  // the final-review gate left something to record

  datatype Options = Options(allowDocSkew: bool, overrideADR: bool, supersedeADR: bool, allowNetDeletion: bool)

  predicate PhaseGate(p: Field) { p == Known(Review) || p == Known(Done) }

  predicate AllClosed(f: Facts) {
    f.plan.BeadIDs? ==> forall i | 0 <= i < |f.plan.ids| ::
      f.plan.ids[i] in f.statuses && f.statuses[f.plan.ids[i]] == "closed"
  }

  /** Everything that must hold before the first durable write. */
  predicate GatesPass(f: Facts, validId: Id -> bool) {
    && f.migrated && f.epicFound && f.semantics
    && f.phases.Some? && (PhaseGate(f.phases.value.0) || PhaseGate(f.phases.value.1))
    && f.remote.Some? && f.branch.Exists? && !f.plan.Malformed? && AllClosed(f)
    && f.checks.mergeBase && f.lifecycle.Some? && f.checks.docChildren && f.checks.docGate
    && OrphanGateOk(f.orphan, f.plan, validId)
    && f.checks.worktreePreflight && f.checks.panelCore && f.checks.panelDeferral && f.checks.finalReview
    && f.checks.mergePreflight && (f.remote.value ==> f.checks.pushProbe)
  }

  /** What the facts have to say for a terminal write, worded without the gates: the epic in
      review or done with its branch there; every planned bead closed and settled; no
      orphan, and every worktree on the branch of a closed bead merged; every check of
      another package passed. */
  ghost predicate Ready(f: Facts, validId: Id -> bool) {
    && f.migrated && f.epicFound && f.semantics
    && f.phases.Some?
    && (f.phases.value.0 in {Known(Review), Known(Done)} || f.phases.value.1 in {Known(Review), Known(Done)})
    && f.remote.Some? && f.branch == Exists && f.plan.BeadIDs? && f.lifecycle.Some?
    && (forall id | id in f.plan.ids :: id in f.statuses && f.statuses[id] == "closed" && id in f.orphan.settled)
    && f.orphan.orphans == Some([]) && f.orphan.worktrees.Some? && f.orphan.closedIds.Some?
    && (forall e, id | e in f.orphan.worktrees.value && id in f.orphan.closedIds.value ::
          e.branch == "bead/" + id && id != "" && validId(id) ==> e.ancestor == Some(true))
    && f.checks.(pushProbe := true) == Checks(true, true, true, true, true, true, true, true, true)
    && (f.remote == Some(true) ==> f.checks.pushProbe)
  }

  lemma MergedExactly(entries: seq<Worktree>, closed: seq<Id>, validId: Id -> bool)
    ensures WorktreesMerged(entries, closed, validId) <==>
      forall e, id | e in entries && id in closed ::
        e.branch == "bead/" + id && id != "" && validId(id) ==> e.ancestor == Some(true)
  {
    if WorktreesMerged(entries, closed, validId) {
      forall e, id | e in entries && id in closed && e.branch == "bead/" + id && id != "" && validId(id)
        ensures e.ancestor == Some(true)
      {
        var i :| 0 <= i < |entries| && entries[i] == e;
        assert e.branch[|BEAD_BRANCH_PREFIX|..] == id && e.branch[..|BEAD_BRANCH_PREFIX|] == "bead/";
        assert Relevant(entries[i], closed, validId);
      }
    } else {
      var i :| 0 <= i < |entries| && Relevant(entries[i], closed, validId) && entries[i].ancestor != Some(true);
      var e := entries[i];
      var id := e.branch[|BEAD_BRANCH_PREFIX|..];
      assert e in entries && id in closed && e.branch == e.branch[..|BEAD_BRANCH_PREFIX|] + id;
    }
  }

  /** The gates ask for exactly that. */
  lemma GatesExactly(f: Facts, validId: Id -> bool)
    ensures GatesPass(f, validId) <==> Ready(f, validId)
  {
    if f.orphan.worktrees.Some? && f.orphan.closedIds.Some? {
      MergedExactly(f.orphan.worktrees.value, f.orphan.closedIds.value, validId);
    }
    hide WorktreesMerged;
    if f.plan.BeadIDs? { assert forall i | 0 <= i < |f.plan.ids| :: f.plan.ids[i] in f.plan.ids; }
  }

  method PlannedBeadsClosed(f: Facts) returns (ok: bool)
    ensures ok <==> AllClosed(f)
  {
    if f.plan.BeadIDs? {
      for i := 0 to |f.plan.ids|
        invariant forall j | 0 <= j < i :: f.plan.ids[j] in f.statuses && f.statuses[f.plan.ids[j]] == "closed"
      {
        var id := f.plan.ids[i];
        if id !in f.statuses { return false; }
        if f.statuses[id] != "closed" { return false; }
      }
    }
    ok := true;
  }

  /** A closed, done epic without its branch: only its publication is resumed. */
  predicate Resumes(f: Facts, epicClosed: bool) {
    && f.migrated && f.epicFound && f.semantics && f.remote.Some?
    && f.branch.Missing? && f.branch.statusRead && f.branch.children.Some?
    && epicClosed && f.phases.Some? && f.phases.value.0 == Known(Done)
  }

  datatype Preflight = Refuse | ResumeOnly(children: seq<Id>) | Go(allowSet: seq<Id>, reconcile: bool)

  /** The read-only part, in the source's order. An unreadable plan skips the first plan
      gate and is refused by the orphan gate, so a nil allow-set never gets through. */
  method RunGates(f: Facts, epicClosed: bool, validId: Id -> bool) returns (r: Preflight)
    ensures r.Go? <==> GatesPass(f, validId)
    ensures r.Go? <==> Ready(f, validId)
    ensures r.Go? ==> f.plan.BeadIDs? && f.lifecycle.Some? && r.allowSet == Intersect(f.plan.ids, f.lifecycle.value)
    ensures r.Go? ==> f.phases.Some? && r.reconcile == !PhaseGate(f.phases.value.0)
    ensures r.ResumeOnly? <==> Resumes(f, epicClosed)
    ensures r.ResumeOnly? ==> Some(r.children) == f.branch.children
  {
    GatesExactly(f, validId);
    hide Ready;
    if !f.migrated || !f.epicFound || !f.semantics || f.phases.None? { return Refuse; }
    var reconcile := false;
    if PhaseGate(f.phases.value.0) {
    } else if PhaseGate(f.phases.value.1) {
      reconcile := true;
    } else {
      return Refuse;
    }
    if f.remote.None? || f.branch.Indeterminate? { return Refuse; }
    if f.branch.Missing? {
      if f.branch.statusRead && epicClosed && f.phases.value.0 == Known(Done) && f.branch.children.Some? {
        return ResumeOnly(f.branch.children.value);
      }
      return Refuse;
    }
    if f.plan.Malformed? { return Refuse; }
    var closed := PlannedBeadsClosed(f);
    if !closed || !f.checks.mergeBase || f.lifecycle.None? || !f.checks.docChildren || !f.checks.docGate {
      return Refuse;
    }
    var allowSet: seq<Id> := [];
    if f.plan.BeadIDs? { allowSet := IntersectIDs(f.plan.ids, f.lifecycle.value); }
    var ok := RunOrphanObligationGate(f.orphan, f.plan, validId);
    if !ok { return Refuse; }
    if !f.checks.worktreePreflight || !f.checks.panelCore || !f.checks.panelDeferral || !f.checks.finalReview
       || !f.checks.mergePreflight
    {
      return Refuse;
    }
    if f.remote.value && !f.checks.pushProbe { return Refuse; }
    r := Go(allowSet, reconcile);
  }

  // ----- The writes -----

  datatype Override = DocSkew | ADROverride | ADRSupersede | NetDeletion

  /** What reaches durable storage, in order. */
  datatype Write =
    | Placeholder
    | Audit
    | Reconcile
    | Close
    | MarkDone
    | Finalize(allowSet: seq<Id>, ok: bool)
    | Resume(children: seq<Id>)
    | Record(override: Override)

  datatype Faults = Faults(placeholder: StepResult, audit: StepResult, reconcile: StepResult, epicStatus: bool,
                           close: StepResult, done: StepResult, finalize: StepResult, resume: StepResult,
                           skew: StepResult, adr: StepResult, supersede: StepResult, netDeletion: StepResult)

  /** What may be written after a past. closed0 is the epic's status before the run. */
  ghost predicate Allowed(f: Facts, o: Options, validId: Id -> bool, closed0: bool, past: seq<Write>, w: Write) {
    && (if w.Resume? then Resumes(f, closed0) else GatesPass(f, validId))
    && match w
       case Resume(children) => past == [] && Some(children) == f.branch.children
       case Placeholder => past == [] && o.supersedeADR
       case Audit => (forall i | 0 <= i < |past| :: past[i] == Placeholder)
                     && (f.adrFails ==> o.overrideADR || o.supersedeADR)
       case Reconcile => f.phases.Some? && !PhaseGate(f.phases.value.0) && Close !in past && MarkDone !in past
       case Close => !closed0 && Close !in past && MarkDone !in past && (f.adrFails ==> o.overrideADR || o.supersedeADR)
       case MarkDone => (closed0 || Close in past) && MarkDone !in past
       case Finalize(ids, _) => MarkDone in past && !Finalized(past) && f.plan.BeadIDs? && f.lifecycle.Some?
                                && ids == Intersect(f.plan.ids, f.lifecycle.value)
       case Record(k) => FinalizedOk(past) && Requested(o, k) && Record(k) !in past
  }

  predicate Requested(o: Options, k: Override) {
    match k
    case DocSkew => o.allowDocSkew
    case ADROverride => o.overrideADR
    case ADRSupersede => o.supersedeADR
    case NetDeletion => o.allowNetDeletion
  }

  predicate Finalized(past: seq<Write>) { exists i | 0 <= i < |past| :: past[i].Finalize? }

  predicate FinalizedOk(past: seq<Write>) { exists i | 0 <= i < |past| :: past[i].Finalize? && past[i].ok }

  ghost predicate Legal(f: Facts, o: Options, validId: Id -> bool, closed0: bool, log: seq<Write>) {
    forall k | 0 <= k < |log| :: Allowed(f, o, validId, closed0, log[..k], log[k])
  }

  lemma LegalNext(f: Facts, o: Options, validId: Id -> bool, closed0: bool, log: seq<Write>, w: Write)
    requires Legal(f, o, validId, closed0, log) && Allowed(f, o, validId, closed0, log, w)
    ensures Legal(f, o, validId, closed0, log + [w])
  {
    var t := log + [w];
    forall k | 0 <= k < |t| ensures Allowed(f, o, validId, closed0, t[..k], t[k]) {
      if k < |log| { assert t[..k] == log[..k]; } else { assert t[..k] == log; }
    }
  }

  function StepOf(w: Faults, k: Override): StepResult {
    match k
    case DocSkew => w.skew
    case ADROverride => w.adr
    case ADRSupersede => w.supersede
    case NetDeletion => w.netDeletion
  }

  /** An ADR divergence that no flag overrides. */
  predicate AdrRefuses(f: Facts, o: Options) { f.adrFails && !o.overrideADR && !o.supersedeADR }

  /** Every step that this run needs succeeds; a failed override record is only a warning. */
  predicate Undisturbed(f: Facts, o: Options, closed0: bool, w: Faults) {
    && (o.supersedeADR ==> w.placeholder.Succeeded?) && (f.auditDue ==> w.audit.Succeeded?)
    && (f.phases.Some? && !PhaseGate(f.phases.value.0) ==> w.reconcile.Succeeded?)
    && w.epicStatus && (closed0 || w.close.Succeeded?) && w.done.Succeeded? && w.finalize.Succeeded?
  }

  datatype Outcome = Refused | Landed | Failed | Approved

  /** The epic, and what this run has written to it and around it. */
  class Epic {
    var closed: bool
    var done: bool
    ghost var log: seq<Write>

    constructor (closed: bool, done: bool)
      ensures this.closed == closed && this.done == done && log == []
    {
      this.closed, this.done, log := closed, done, [];
    }

    /** One durable step. */
    method Do(w: Write, step: StepResult) returns (ok: bool)
      modifies this
      ensures ok == step.Succeeded?
      ensures log == if step.Durable() then old(log) + [w] else old(log)
      ensures closed == (old(closed) || (w == Close && step.Durable()))
      ensures done == (old(done) || (w == MarkDone && step.Durable()))
    {
      if step.Durable() {
        log := log + [w];
        if w == Close { closed := true; }
        if w == MarkDone { done := true; }
      }
      ok := step.Succeeded?;
    }

    /** MUTATION 1 and 2: an open epic is closed, then marked done. */
    method CloseAndMarkDone(f: Facts, o: Options, validId: Id -> bool, ghost closed0: bool, w: Faults)
      returns (ok: bool)
      requires GatesPass(f, validId) && (f.adrFails ==> o.overrideADR || o.supersedeADR)
      requires Legal(f, o, validId, closed0, log) && closed == closed0
      requires Close !in log && MarkDone !in log && !Finalized(log)
      modifies this
      ensures Legal(f, o, validId, closed0, log) && old(log) <= log && !Finalized(log)
      ensures closed == (closed0 || Close in log) && done == (old(done) || MarkDone in log)
      ensures ok ==> MarkDone in log && closed
      ensures ok <==> w.epicStatus && (closed0 || w.close.Succeeded?) && w.done.Succeeded?
      ensures forall x | x in old(log) :: x in log
    {
      if !w.epicStatus { return false; }
      if !closed {
        LegalNext(f, o, validId, closed0, log, Close);
        ok := Do(Close, w.close);
        if !ok { return; }
      }
      LegalNext(f, o, validId, closed0, log, MarkDone);
      ok := Do(MarkDone, w.done);
    }

    /** One override, if it was asked for; a failed record is only a warning. */
    method RecordOverride(f: Facts, o: Options, validId: Id -> bool, ghost closed0: bool, k: Override, step: StepResult)
      requires Recording(f, o, validId, closed0, log) && Record(k) !in log
      modifies this
      ensures Recording(f, o, validId, closed0, log) && OnlyAdds(old(log), log, {k})
      ensures Requested(o, k) && step.Durable() ==> Record(k) in log
      ensures closed == old(closed) && done == old(done)
    {
      if Requested(o, k) {
        LegalNext(f, o, validId, closed0, log, Record(k));
        StillFinalized(log, [Record(k)]);
        var recorded := Do(Record(k), step);
      }
    }

    method RecordAdrOverrides(f: Facts, o: Options, validId: Id -> bool, ghost closed0: bool, w: Faults)
      requires Recording(f, o, validId, closed0, log) && Record(ADROverride) !in log && Record(ADRSupersede) !in log
      modifies this
      ensures Recording(f, o, validId, closed0, log) && OnlyAdds(old(log), log, {ADROverride, ADRSupersede})
      ensures Requested(o, ADROverride) && w.adr.Durable() ==> Record(ADROverride) in log
      ensures Requested(o, ADRSupersede) && w.supersede.Durable() ==> Record(ADRSupersede) in log
      ensures closed == old(closed) && done == old(done)
    {
      hide GatesPass, Legal, FinalizedOk;
      ghost var l0 := log;
      RecordOverride(f, o, validId, closed0, ADROverride, w.adr);
      ghost var l1 := log;
      RecordOverride(f, o, validId, closed0, ADRSupersede, w.supersede);
      AddsCompose(l0, l1, log, {ADROverride}, {ADRSupersede});
      assert {ADROverride} + {ADRSupersede} == {ADROverride, ADRSupersede};
    }

    method RecordOverrides(f: Facts, o: Options, validId: Id -> bool, ghost closed0: bool, w: Faults)
      requires Recording(f, o, validId, closed0, log) && forall k :: Record(k) !in log
      modifies this
      ensures FinalizedOk(log) && Legal(f, o, validId, closed0, log)
      ensures OnlyAdds(old(log), log, {DocSkew} + {ADROverride, ADRSupersede} + {NetDeletion})
      ensures forall k | Requested(o, k) && StepOf(w, k).Durable() :: Record(k) in log
      ensures closed == old(closed) && done == old(done)
    {
      hide GatesPass, Legal, FinalizedOk;
      ghost var l0 := log;
      RecordOverride(f, o, validId, closed0, DocSkew, w.skew);
      ghost var l1 := log;
      RecordAdrOverrides(f, o, validId, closed0, w);
      AddsCompose(l0, l1, log, {DocSkew}, {ADROverride, ADRSupersede});
      ghost var l2 := log;
      RecordOverride(f, o, validId, closed0, NetDeletion, w.netDeletion);
      AddsCompose(l0, l2, log, {DocSkew} + {ADROverride, ADRSupersede}, {NetDeletion});
      forall k | Requested(o, k) && StepOf(w, k).Durable() ensures Record(k) in log {
        match k case DocSkew => case ADROverride => case ADRSupersede => case NetDeletion =>
      }
    }

    /** What precedes the terminal mutations: placeholder, ADR refusal, audit, reconcile. */
    method PrepareWrites(f: Facts, o: Options, validId: Id -> bool, reconcile: bool, w: Faults)
      returns (r: Option<Outcome>)
      requires GatesPass(f, validId) && f.phases.Some? && reconcile == !PhaseGate(f.phases.value.0) && log == []
      modifies this
      ensures Legal(f, o, validId, old(closed), log) && closed == old(closed) && done == old(done)
      ensures forall x | x in log :: x.Placeholder? || x.Audit? || x.Reconcile?
      ensures r in {None, Some(Refused), Some(Failed)} && (r == Some(Refused) ==> log == [])
      ensures r == None ==> (f.adrFails ==> o.overrideADR || o.supersedeADR)
      ensures r == Some(Refused) <==> AdrRefuses(f, o)
      ensures r == None <==>
        && !AdrRefuses(f, o) && (o.supersedeADR ==> w.placeholder.Succeeded?)
        && (f.auditDue ==> w.audit.Succeeded?) && (reconcile ==> w.reconcile.Succeeded?)
      ensures r == None ==>
        && (o.supersedeADR ==> Placeholder in log) && (f.auditDue ==> Audit in log) && (reconcile ==> Reconcile in log)
    {
      hide GatesPass, Legal;
      NothingWritten(f, o, validId, closed);
      if o.supersedeADR {
        LegalNext(f, o, validId, closed, log, Placeholder);
        var ok := Do(Placeholder, w.placeholder);
        if !ok { return Some(Failed); }
      }
      if !o.overrideADR && !o.supersedeADR && f.adrFails { return Some(Refused); }
      if f.auditDue {
        LegalNext(f, o, validId, closed, log, Audit);
        var ok := Do(Audit, w.audit);
        if !ok { return Some(Failed); }
      }
      if reconcile {
        LegalNext(f, o, validId, closed, log, Reconcile);
        var ok := Do(Reconcile, w.reconcile);
        if !ok { return Some(Failed); }
      }
      r := None;
    }

    /** MUTATION 3: the merge or the PR, with the lifecycle children of the plan. */
    method FinalizeEpic(f: Facts, o: Options, validId: Id -> bool, allowSet: seq<Id>, ghost closed0: bool, w: Faults)
      returns (ok: bool)
      requires GatesPass(f, validId) && f.plan.BeadIDs? && f.lifecycle.Some?
      requires allowSet == Intersect(f.plan.ids, f.lifecycle.value)
      requires Legal(f, o, validId, closed0, log) && MarkDone in log && !Finalized(log)
      modifies this
      ensures Legal(f, o, validId, closed0, log) && old(log) <= log && closed == old(closed) && done == old(done)
      ensures Close in log <==> Close in old(log)
      ensures ok == w.finalize.Succeeded?
      ensures ok ==> FinalizedOk(log) && forall k :: Record(k) !in log
    {
      hide GatesPass, Legal;
      ghost var past := log;
      LegalNext(f, o, validId, closed0, past, Finalize(allowSet, w.finalize.Succeeded?));
      NoRecordsYet(f, o, validId, closed0, past);
      ok := Do(Finalize(allowSet, w.finalize.Succeeded?), w.finalize);
      if ok { assert log[|past|].Finalize? && log[|past|].ok; }
    }

    /** A closed, done epic: resume its publication, with its lifecycle children. */
    method ResumeFinalized(f: Facts, o: Options, validId: Id -> bool, children: seq<Id>, w: Faults) returns (r: Outcome)
      requires Resumes(f, closed) && f.branch.children == Some(children) && log == []
      modifies this
      ensures Legal(f, o, validId, old(closed), log) && closed == old(closed) && done == old(done)
      ensures log == if w.resume.Durable() then [Resume(children)] else []
      ensures r == if w.resume.Succeeded? then Landed else Failed
    {
      NothingWritten(f, o, validId, closed);
      LegalNext(f, o, validId, closed, log, Resume(children));
      var ok := Do(Resume(children), w.resume);
      r := if ok then Landed else Failed;
    }

    /** The gates and then the writes, in the source's order. */
    method TakeSteps(f: Facts, o: Options, validId: Id -> bool, w: Faults) returns (r: Outcome)
      requires log == []
      modifies this
      ensures Legal(f, o, validId, old(closed), log)
      ensures closed == (old(closed) || Close in log) && done == (old(done) || MarkDone in log)
      ensures r.Refused? ==> log == []
      ensures r.Refused? <==> !Resumes(f, old(closed)) && (!GatesPass(f, validId) || AdrRefuses(f, o))
      ensures r.Landed? <==> Resumes(f, old(closed)) && w.resume.Succeeded?
      ensures r.Landed? ==> log == [Resume(f.branch.children.value)]
      ensures r.Approved? <==> GatesPass(f, validId) && !AdrRefuses(f, o) && Undisturbed(f, o, old(closed), w)
      ensures r.Approved? ==> FinalizedOk(log) && MarkDone in log && closed
      ensures r.Approved? ==>
        && (o.supersedeADR ==> Placeholder in log) && (f.auditDue ==> Audit in log)
        && (!PhaseGate(f.phases.value.0) ==> Reconcile in log)
        && forall k | Requested(o, k) && StepOf(w, k).Durable() :: Record(k) in log
    {
      ghost var closed0 := closed;
      hide GatesPass, Legal, Resumes, FinalizedOk, Ready;
      NothingWritten(f, o, validId, closed);
      var pre := RunGates(f, closed, validId);
      if pre.Refuse? { return Refused; }
      if pre.ResumeOnly? {
        r := ResumeFinalized(f, o, validId, pre.children, w);
        return;
      }
      var stop := PrepareWrites(f, o, validId, pre.reconcile, w);
      if stop.Some? { return stop.value; }
      assert forall i | 0 <= i < |log| :: log[i] in log;
      var ok := CloseAndMarkDone(f, o, validId, closed0, w);
      if !ok { return Failed; }
      ok := FinalizeEpic(f, o, validId, pre.allowSet, closed0, w);
      if !ok { return Failed; }
      RecordOverrides(f, o, validId, closed0, w);
      r := Approved;
    }

    /** ApproveImpl. Every refusal precedes every durable write of this run; the outcome
        is decided by the facts and by which steps succeed, as stated here in full. */
    method ApproveImpl(f: Facts, o: Options, validId: Id -> bool, w: Faults) returns (r: Outcome)
      requires log == []
      modifies this
      ensures Legal(f, o, validId, old(closed), log)
      ensures closed == (old(closed) || Close in log) && done == (old(done) || MarkDone in log)
      ensures r.Refused? ==> log == []
      ensures r.Refused? <==>
        && !OnlyPublicationLeft(f, old(closed))
        && (!Ready(f, validId) || (f.adrFails && !o.overrideADR && !o.supersedeADR))
      ensures r.Landed? <==> OnlyPublicationLeft(f, old(closed)) && w.resume == Succeeded
      ensures r.Landed? ==> log == [Resume(f.branch.children.value)]
      ensures r.Approved? <==>
        && Ready(f, validId) && (f.adrFails ==> o.overrideADR || o.supersedeADR)
        && (o.supersedeADR ==> w.placeholder == Succeeded) && (f.auditDue ==> w.audit == Succeeded)
        && (f.phases.value.0 !in {Known(Review), Known(Done)} ==> w.reconcile == Succeeded)
        && w.epicStatus && (old(closed) || w.close == Succeeded) && w.done == Succeeded && w.finalize == Succeeded
      ensures (exists x :: x in log && !x.Resume?) ==> Ready(f, validId)
      ensures r.Approved? ==> MarkDone in log && closed && exists x :: x in log && x.Finalize? && x.ok
      ensures r.Approved? ==>
        && (o.supersedeADR ==> Placeholder in log) && (f.auditDue ==> Audit in log)
        && (f.phases.value.0 !in {Known(Review), Known(Done)} ==> Reconcile in log)
        && (o.allowDocSkew && w.skew.Durable() ==> Record(DocSkew) in log)
        && (o.overrideADR && w.adr.Durable() ==> Record(ADROverride) in log)
        && (o.supersedeADR && w.supersede.Durable() ==> Record(ADRSupersede) in log)
        && (o.allowNetDeletion && w.netDeletion.Durable() ==> Record(NetDeletion) in log)
    {
      ghost var closed0 := closed;
      r := TakeSteps(f, o, validId, w);
      ResumesExactly(f, closed0);
      GatesExactly(f, validId);
      WritesNeedGates(f, o, validId, closed0, log);
      RecordedEach(o, w, log);
      hide Ready, GatesPass, Legal, OnlyPublicationLeft, Resumes, StepOf, Requested;
    }
  }

  /** Everything but the publication is done: the epic closed and stored as done, its
      branch gone, its status and children readable. */
  predicate OnlyPublicationLeft(f: Facts, epicClosed: bool) {
    && f.migrated && f.epicFound && f.semantics && f.remote.Some?
    && f.branch.Missing? && f.branch.statusRead && f.branch.children.Some?
    && epicClosed && f.phases.Some? && f.phases.value.0 == Known(Done)
  }

  lemma ResumesExactly(f: Facts, epicClosed: bool)
    ensures Resumes(f, epicClosed) <==> OnlyPublicationLeft(f, epicClosed)
  {
  }

  lemma RecordedEach(o: Options, w: Faults, log: seq<Write>)
    ensures (forall k | Requested(o, k) && StepOf(w, k).Durable() :: Record(k) in log) ==>
      && (o.allowDocSkew && w.skew.Durable() ==> Record(DocSkew) in log)
      && (o.overrideADR && w.adr.Durable() ==> Record(ADROverride) in log)
      && (o.supersedeADR && w.supersede.Durable() ==> Record(ADRSupersede) in log)
      && (o.allowNetDeletion && w.netDeletion.Durable() ==> Record(NetDeletion) in log)
  {
    assert Requested(o, DocSkew) == o.allowDocSkew && StepOf(w, DocSkew) == w.skew;
    assert Requested(o, ADROverride) == o.overrideADR && StepOf(w, ADROverride) == w.adr;
    assert Requested(o, ADRSupersede) == o.supersedeADR && StepOf(w, ADRSupersede) == w.supersede;
    assert Requested(o, NetDeletion) == o.allowNetDeletion && StepOf(w, NetDeletion) == w.netDeletion;
  }

  /** The tail of a run: finalize has succeeded. */
  ghost predicate Recording(f: Facts, o: Options, validId: Id -> bool, closed0: bool, log: seq<Write>) {
    GatesPass(f, validId) && Legal(f, o, validId, closed0, log) && FinalizedOk(log)
  }

  ghost predicate OnlyAdds(before: seq<Write>, after: seq<Write>, ks: set<Override>) {
    before <= after && forall x | x in after :: x in before || (x.Record? && x.override in ks)
  }

  lemma AddsCompose(l0: seq<Write>, l1: seq<Write>, l2: seq<Write>, ks: set<Override>, ks': set<Override>)
    requires OnlyAdds(l0, l1, ks) && OnlyAdds(l1, l2, ks')
    ensures OnlyAdds(l0, l2, ks + ks')
  {
  }

  lemma NothingWritten(f: Facts, o: Options, validId: Id -> bool, closed0: bool)
    ensures Legal(f, o, validId, closed0, [])
  {
  }

  lemma StillFinalized(past: seq<Write>, more: seq<Write>)
    requires FinalizedOk(past)
    ensures FinalizedOk(past + more)
  {
    var i :| 0 <= i < |past| && past[i].Finalize? && past[i].ok;
    assert (past + more)[i] == past[i];
  }

  lemma NoRecordsYet(f: Facts, o: Options, validId: Id -> bool, closed0: bool, log: seq<Write>)
    requires Legal(f, o, validId, closed0, log) && !Finalized(log)
    ensures forall k :: Record(k) !in log
  {
  }

  // ----- What every log says -----

  /** No write at all, in particular no close and no done mark, unless every gate passed:
      but for a closed, done epic, for which the run writes only its resumed publication. */
  lemma WritesNeedGates(f: Facts, o: Options, validId: Id -> bool, closed0: bool, log: seq<Write>)
    requires Legal(f, o, validId, closed0, log)
    ensures log == [] || GatesPass(f, validId) || (Resumes(f, closed0) && log == [Resume(f.branch.children.value)])
    ensures log == [] || Ready(f, validId) || (Resumes(f, closed0) && log == [Resume(f.branch.children.value)])
    ensures (exists x :: x in log && (x == Close || x == MarkDone || x.Finalize?)) ==> Ready(f, validId)
  {
    GatesExactly(f, validId);
    hide Ready;
    if log != [] { assert Allowed(f, o, validId, closed0, log[..0], log[0]); }
    if |log| > 1 { assert Allowed(f, o, validId, closed0, log[..1], log[1]); }
  }

  /** The done mark comes after the close, unless the epic was closed already; finalize
      comes once and after the done mark, with exactly the planned lifecycle children; an
      override is recorded only after finalize returned success, and only if asked for. */
  lemma OrderOfWrites(f: Facts, o: Options, validId: Id -> bool, closed0: bool, log: seq<Write>, k: nat)
    requires Legal(f, o, validId, closed0, log) && k < |log|
    ensures log[k] == MarkDone ==> closed0 || exists j | 0 <= j < k :: log[j] == Close
    ensures log[k].Finalize? ==>
      && (exists j | 0 <= j < k :: log[j] == MarkDone) && (forall j | 0 <= j < k :: !log[j].Finalize?)
      && f.plan.BeadIDs? && f.lifecycle.Some? && log[k].allowSet == Intersect(f.plan.ids, f.lifecycle.value)
    ensures log[k].Record? ==> Requested(o, log[k].override) && exists j | 0 <= j < k :: log[j].Finalize? && log[j].ok
    ensures log[k] == Record(DocSkew) ==> o.allowDocSkew
    ensures log[k] == Record(ADROverride) ==> o.overrideADR
    ensures log[k] == Record(ADRSupersede) ==> o.supersedeADR
    ensures log[k] == Record(NetDeletion) ==> o.allowNetDeletion
    ensures log[k] == Placeholder ==> o.supersedeADR && k == 0
    ensures log[k] == Reconcile ==> f.phases.Some? && f.phases.value.0 !in {Known(Review), Known(Done)}
    ensures log[k] in {Audit, Close} ==> (f.adrFails ==> o.overrideADR || o.supersedeADR)
    ensures log[k] == Close ==> !closed0 && Close !in log[..k] && MarkDone !in log[..k]
  {
  }

  // ----- Over every sequence of runs -----

  datatype Ran = Ran(facts: Facts, options: Options, log: seq<Write>)

  /** The epic's status before each run and after the last. */
  datatype Status = Status(closed: bool, done: bool)

  ghost predicate History(validId: Id -> bool, states: seq<Status>, runs: seq<Ran>) {
    && |states| == |runs| + 1
    && forall i | 0 <= i < |runs| ::
      && Legal(runs[i].facts, runs[i].options, validId, states[i].closed, runs[i].log)
      && states[i + 1] == Status(states[i].closed || Close in runs[i].log, states[i].done || MarkDone in runs[i].log)
  }

  /** Whatever fails in whichever run, an epic marked done is closed. */
  lemma {:induction false} DoneImpliesClosed(validId: Id -> bool, states: seq<Status>, runs: seq<Ran>, n: nat)
    requires History(validId, states, runs) && (states[0].done ==> states[0].closed) && n < |states|
    ensures states[n].done ==> states[n].closed
  {
    if n > 0 {
      DoneImpliesClosed(validId, states, runs, n - 1);
      var last := runs[n - 1];
      assert states[n - 1 + 1] == states[n];
      if MarkDone in last.log {
        var k :| 0 <= k < |last.log| && last.log[k] == MarkDone;
        OrderOfWrites(last.facts, last.options, validId, states[n - 1].closed, last.log, k);
      }
    }
  }
}
