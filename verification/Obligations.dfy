/** Plan deferral obligations: collected from the panel ledgers at spec approval, kept in
    the epic's metadata, and checked against the plan's Resolutions text
    (internal/approve/document_gate.go, spec.go, lifecycle_gate.go). */
module Obligations {
  import opened Common
  import opened LifecycleGate
  import opened Metadata

  // ----- Collecting the ids of one ledger -----

  const SPEC_GATE := "spec_approve"

  /** Record i is a deferral of this spec, and the last round record before it opened a
      spec-approve round of this spec. */
  ghost predicate Obliges(lines: seq<Record>, spec: string, i: nat, id: string) {
    i < |lines| && lines[i] == DeferredToPlan(spec, id) && LatestRound(lines[..i]) == Some(Round(spec, SPEC_GATE))
  }

  ghost predicate Obliged(lines: seq<Record>, spec: string, id: string) {
    exists i: nat :: Obliges(lines, spec, i, id)
  }

  /** In terms of the lines: a spec-approve round of the spec, no round after it, and then
      the deferral. */
  lemma ObligedExactly(lines: seq<Record>, spec: string, id: string)
    ensures Obliged(lines, spec, id) <==> exists i: nat, j: nat :: DeferredIn(lines, spec, i, j, id)
  {
    if j: nat :| Obliges(lines, spec, j, id) { var i := RoundOf(lines, spec, j, id); }
    if i: nat, j: nat :| DeferredIn(lines, spec, i, j, id) { DeferredObliges(lines, spec, i, j, id); }
  }

  /** Line i opens a spec-approve round of the spec, and line j defers the id within it. */
  predicate DeferredIn(lines: seq<Record>, spec: string, i: nat, j: nat, id: string) {
    && i < j < |lines|
    && lines[i] == Round(spec, "spec_approve") && lines[j] == DeferredToPlan(spec, id)
    && forall k | i < k < j :: !lines[k].Round?
  }

  lemma RoundOf(lines: seq<Record>, spec: string, j: nat, id: string) returns (i: nat)
    requires Obliges(lines, spec, j, id)
    ensures DeferredIn(lines, spec, i, j, id)
  {
    LatestRoundExactly(lines[..j], Round(spec, SPEC_GATE));
    hide LatestRound;
    i :| i < j && lines[..j][i] == Round(spec, SPEC_GATE) && forall k | i < k < j :: !lines[..j][k].Round?;
    assert forall k | 0 <= k < j :: lines[..j][k] == lines[k];
  }

  lemma DeferredObliges(lines: seq<Record>, spec: string, i: nat, j: nat, id: string)
    requires DeferredIn(lines, spec, i, j, id)
    ensures Obliges(lines, spec, j, id)
  {
    LatestRoundExactly(lines[..j], Round(spec, SPEC_GATE));
    hide LatestRound;
    assert forall k | 0 <= k < j :: lines[..j][k] == lines[k];
    assert lines[..j][i] == Round(spec, SPEC_GATE);
  }

  method CollectPlanDeferralIDs(lines: seq<Record>, spec: string, before: set<string>) returns (r: Option<set<string>>)
    ensures r.Some? <==> BadLine !in lines
    ensures r.Some? ==> forall id :: id in r.value <==> id in before || Obliged(lines, spec, id)
  {
    var ids, specRound := before, false;
    for i := 0 to |lines|
      invariant BadLine !in lines[..i]
      invariant specRound <==> LatestRound(lines[..i]) == Some(Round(spec, SPEC_GATE))
      invariant forall id | id in ids :: id in before || Obliged(lines, spec, id)
      invariant before <= ids
      invariant forall k: nat, id | k < i && Obliges(lines, spec, k, id) :: id in ids
    {
      var line := lines[i];
      assert lines[..i + 1] == lines[..i] + [line];
      if line == BadLine { return None; }
      if line.Round? { specRound := line.spec == spec && line.gate == SPEC_GATE; }
      if line.DeferredToPlan? && specRound && line.spec == spec {
        assert Obliges(lines, spec, i, line.id);
        ids := ids + {line.id};
      }
    }
    assert lines[..|lines|] == lines;
    r := Some(ids);
  }

  /** Appending to a ledger takes no obligation back. */
  lemma AppendKeepsObligations(lines: seq<Record>, more: seq<Record>, spec: string, id: string)
    requires Obliged(lines, spec, id)
    ensures Obliged(lines + more, spec, id)
  {
    var i: nat :| Obliges(lines, spec, i, id);
    assert (lines + more)[..i] == lines[..i];
    assert Obliges(lines + more, spec, i, id);
  }

  type Ledgers = seq<seq<Record>>

  ghost predicate Due(ledgers: Ledgers, spec: string, id: string) {
    exists k | 0 <= k < |ledgers| :: Obliged(ledgers[k], spec, id)
  }

  predicate Sound(ledgers: Ledgers) {
    forall k | 0 <= k < |ledgers| :: BadLine !in ledgers[k]
  }

  method CollectAll(ledgers: Ledgers, spec: string, before: set<string>) returns (r: Option<set<string>>)
    ensures r.Some? <==> Sound(ledgers)
    ensures r.Some? ==> forall id :: id in r.value <==> id in before || Due(ledgers, spec, id)
  {
    var ids := before;
    for k := 0 to |ledgers|
      invariant Sound(ledgers[..k])
      invariant forall id :: id in ids <==> id in before || exists j | 0 <= j < k :: Obliged(ledgers[j], spec, id)
    {
      assert forall j | 0 <= j <= k :: ledgers[..k + 1][j] == ledgers[j];
      var more := CollectPlanDeferralIDs(ledgers[k], spec, ids);
      if more.None? { return None; }
      ids := more.value;
    }
    assert ledgers[..|ledgers|] == ledgers;
    r := Some(ids);
  }

  // ----- Where an approval looks for obligations -----

  /** The panels that the scan found, and the ledgers tracked in the spec checkout, None
      when they could not be read. Tracked lines are validated only, so there a line that
      breaks hygiene still counts. */
  datatype Sources = Sources(panels: seq<Registration>, tracked: Option<Ledgers>)

  function LedgersOf(regs: seq<Registration>): (ledgers: Ledgers)
    ensures |ledgers| == |regs| && forall k | 0 <= k < |regs| :: ledgers[k] == regs[k].ledger
  {
    seq(|regs|, (k: int) requires 0 <= k < |regs| => regs[k].ledger)
  }

  function Found(src: Sources, spec: string): Ledgers {
    LedgersOf(Select(src.panels, spec, SPEC_GATE)) + if src.tracked.Some? then src.tracked.value else []
  }

  predicate Collectable(src: Sources, spec: string) { src.tracked.Some? && Sound(Found(src, spec)) }

  /** specPlanDeferralIDs: every attributed panel's ledger, then the tracked ones. */
  method SpecPlanDeferralIDs(src: Sources, spec: string) returns (r: Option<set<string>>)
    ensures r.Some? <==> Collectable(src, spec)
    ensures r.Some? ==> forall id :: id in r.value <==> Due(Found(src, spec), spec, id)
  {
    var panels := LifecycleRegistrations(src.panels, spec, SPEC_GATE);
    ghost var found := Found(src, spec);
    var ids := {};
    for k := 0 to |panels|
      invariant Sound(found[..k])
      invariant forall id :: id in ids <==> exists j | 0 <= j < k :: Obliged(found[j], spec, id)
    {
      assert found[k] == panels[k].ledger && found[..k + 1] == found[..k] + [found[k]];
      var lines := ReadLedger(panels[k].ledger);
      if lines.None? { return None; }
      var more := CollectPlanDeferralIDs(lines.value, spec, ids);
      ids := more.value;
    }
    if src.tracked.None? { return None; }
    r := CollectAll(src.tracked.value, spec, ids);
    hide Obliged, Readable;
    ghost var first := found[..|panels|];
    assert found == first + src.tracked.value;
    SoundBoth(first, src.tracked.value);
    forall id ensures Due(found, spec, id) <==> Due(first, spec, id) || Due(src.tracked.value, spec, id) {
      DueBoth(first, src.tracked.value, spec, id);
    }
    assert forall id :: id in ids <==> Due(first, spec, id);
  }

  lemma SoundBoth(a: Ledgers, b: Ledgers)
    ensures Sound(a + b) <==> Sound(a) && Sound(b)
  {
    assert forall k | 0 <= k < |b| :: (a + b)[|a| + k] == b[k];
    assert forall k | 0 <= k < |a| :: (a + b)[k] == a[k];
  }

  lemma DueBoth(a: Ledgers, b: Ledgers, spec: string, id: string)
    ensures Due(a + b, spec, id) <==> Due(a, spec, id) || Due(b, spec, id)
  {
    assert forall k | 0 <= k < |b| :: (a + b)[|a| + k] == b[k];
    assert forall k | 0 <= k < |a| :: (a + b)[k] == a[k];
  }

  /** A deferral is due exactly when it stands in the ledger of an attributed panel or in
      a tracked ledger. */
  lemma DueExactly(src: Sources, spec: string, id: string)
    ensures Due(Found(src, spec), spec, id) <==>
      || (exists reg | reg in src.panels :: Attributed(reg, spec, SPEC_GATE) && Obliged(reg.ledger, spec, id))
      || (src.tracked.Some? && Due(src.tracked.value, spec, id))
  {
    var found, panels := Found(src, spec), Select(src.panels, spec, SPEC_GATE);
    if k :| 0 <= k < |found| && Obliged(found[k], spec, id) {
      if k < |panels| { assert panels[k] in panels; } else { assert found[k] == src.tracked.value[k - |panels|]; }
    }
    if reg :| reg in src.panels && Attributed(reg, spec, SPEC_GATE) && Obliged(reg.ledger, spec, id) {
      var k :| 0 <= k < |panels| && panels[k] == reg;
      assert found[k] == reg.ledger;
    }
    if src.tracked.Some? && Due(src.tracked.value, spec, id) {
      var k :| 0 <= k < |src.tracked.value| && Obliged(src.tracked.value[k], spec, id);
      assert found[|panels| + k] == src.tracked.value[k];
    }
  }

  /** What a panel with an accepted ledger deferred is due as long as its latest round is
      a spec-approve round of the spec, whatever has been done to its snapshot. */
  lemma EditCannotDropObligations(src: Sources, reg: Registration, spec: string, id: string)
    requires reg in src.panels && Readable(reg.ledger) && LatestRound(reg.ledger) == Some(Round(spec, "spec_approve"))
    requires Obliged(reg.ledger, spec, id)
    ensures Due(Found(src, spec), spec, id)
  {
    DueExactly(src, spec, id);
  }

  /** A panel that is the only source of a deferral. The approval refuses, or the deferral
      is due, exactly as long as the panel is attributed: without that it is dropped. */
  lemma OnlySourceExactly(reg: Registration, spec: string, id: string)
    requires Obliged(reg.ledger, spec, id)
    ensures var src := Sources([reg], Some([]));
      (Collectable(src, spec) ==> Due(Found(src, spec), spec, id)) <==> Attributed(reg, spec, SPEC_GATE)
  {
    var src := Sources([reg], Some([]));
    DueExactly(src, spec, id);
    assert reg in [reg];
    if !Attributed(reg, spec, SPEC_GATE) { assert Select([reg], spec, SPEC_GATE) == []; }
  }

  /** So one refused line and an edit of the snapshot drop an obligation: the same ledger
      refuses the approval under its own snapshot and owes nothing under the edited one. */
  lemma LostAttributionDropsObligation(reg: Registration, edited: Registration)
    requires reg.spec == "s" && reg.gate == "spec_approve" && edited == reg.(spec := "other", broken := false)
    requires reg.ledger == [Round("s", "spec_approve"), DeferredToPlan("s", "f1"), BadLine]
    ensures Obliged(reg.ledger, "s", "f1")
    ensures !Collectable(Sources([reg], Some([])), "s")
    ensures Collectable(Sources([edited], Some([])), "s") && !Due(Found(Sources([edited], Some([])), "s"), "s", "f1")
  {
    assert reg.ledger[..1] == [Round("s", SPEC_GATE)];
    assert Obliges(reg.ledger, "s", 1, "f1");
    assert reg.ledger[2] == BadLine && Attributed(reg, "s", SPEC_GATE);
    assert reg in [reg] && reg in Select([reg], "s", SPEC_GATE);
    var panels := Select([reg], "s", SPEC_GATE);
    var k :| 0 <= k < |panels| && panels[k] == reg;
    assert Found(Sources([reg], Some([])), "s")[k] == reg.ledger;
    assert !Attributed(edited, "s", SPEC_GATE) && Select([edited], "s", SPEC_GATE) == [];
  }

  // ----- The list kept on the epic -----

  /** What a metadata value can be here: a list of strings, or anything else. */
  datatype Value = Ids(ids: seq<string>) | Other(text: string)

  const DEFERRAL_IDS: Key := "plan_deferral_ids"

  /** The recorded ids, or None when the entry cannot be read as a list of non-empty strings. */
  function Recorded(m: map<Key, Value>): Option<seq<string>> {
    if DEFERRAL_IDS !in m then Some([])
    else if m[DEFERRAL_IDS].Ids? && "" !in m[DEFERRAL_IDS].ids then Some(m[DEFERRAL_IDS].ids)
    else None
  }

  predicate Holds(m: map<Key, Value>, id: string) {
    DEFERRAL_IDS in m && m[DEFERRAL_IDS].Ids? && id in m[DEFERRAL_IDS].ids
  }

  method RecordedPlanDeferralIDs(m: map<Key, Value>) returns (r: Option<seq<string>>)
    ensures r == Recorded(m)
    ensures "plan_deferral_ids" !in m ==> r == Some([])
    ensures "plan_deferral_ids" in m ==>
      match m["plan_deferral_ids"]
      case Ids(ids) => r == if "" in ids then None else Some(ids)
      case Other(_) => r == None
    ensures r.Some? ==> forall id :: Holds(m, id) <==> id in r.value
  {
    if DEFERRAL_IDS !in m { return Some([]); }
    if !m[DEFERRAL_IDS].Ids? { return None; }
    var ids := m[DEFERRAL_IDS].ids;
    for i := 0 to |ids|
      invariant "" !in ids[..i]
    {
      if ids[i] == "" { return None; }
      assert ids[..i + 1] == ids[..i] + [ids[i]];
    }
    assert ids[..|ids|] == ids;
    r := Some(ids);
  }

  /** The members of a set as a list without repetition. */
  method ListIDs(ids: set<string>) returns (list: seq<string>)
    ensures forall id :: id in list <==> id in ids
    ensures |list| == |ids|
  {
    list := [];
    var todo := ids;
    while todo != {}
      invariant todo <= ids && forall id :: id in list <==> id in ids && id !in todo
      invariant |list| + |todo| == |ids|
      decreases |todo|
    {
      var id :| id in todo;
      list, todo := list + [id], todo - {id};
    }
  }

  /** What the lifecycle gate decided, as the audit writes it. */
  function AuditKeys(o: Outcome, now: string): (m: map<Key, Value>)
    ensures DEFERRAL_IDS !in m
  {
    (if o.skipped then map["panel_gate_skipped" := Other("true"), "panel_gate_skipped_at" := Other(now)] else map[])
    + (if o.abandoned then map["panel_abandoned" := Other("true"), "panel_abandoned_at" := Other(now),
                               "panel_abandoned_reason" := Other(o.reason)] else map[])
    + (if o.absent then map["panel_absent" := Other("true"), "panel_absent_gate" := Other(o.gate),
                            "panel_absent_at" := Other(now)] else map[])
  }

  /** The keys of the audit say exactly what the gate decided, and carry the reason, the
      gate and the time. */
  lemma AuditKeysExactly(o: Outcome, now: string)
    ensures forall k :: k in AuditKeys(o, now) <==>
      || (o.skipped && k in {"panel_gate_skipped", "panel_gate_skipped_at"})
      || (o.abandoned && k in {"panel_abandoned", "panel_abandoned_at", "panel_abandoned_reason"})
      || (o.absent && k in {"panel_absent", "panel_absent_gate", "panel_absent_at"})
    ensures forall k | k in AuditKeys(o, now) ::
      AuditKeys(o, now)[k] == Other(
        if k in {"panel_gate_skipped", "panel_abandoned", "panel_absent"} then "true"
        else if k == "panel_abandoned_reason" then o.reason
        else if k == "panel_absent_gate" then o.gate
        else now)
  {
  }

  datatype Faults = Faults(epicRead: bool, createFails: bool, mergeRead: bool, marshal: bool, merge: StepResult)

  /** The lifecycle epic of one spec; None until an approval creates it. */
  class SpecEpic {
    var epic: Option<map<Key, Value>>
    const spec: string

    constructor (spec: string)
      ensures this.spec == spec && epic == None
    {
      this.spec, epic := spec, None;
    }

    ghost function Metadata(): map<Key, Value>
      reads this
    {
      if epic.Some? then epic.value else map[]
    }

    /** recordLifecycleGateAudit: one merge-write, none at all when there is nothing to
        say. The nil list of the source is the empty one: no approval passes another. */
    method RecordAudit(outcome: Outcome, deferralIDs: seq<string>, now: string, f: Faults) returns (ok: bool)
      modifies this
      ensures epic == if old(epic).Some? && !f.mergeRead && !f.marshal && f.merge.Durable()
                      then Some(Recording(old(epic).value, outcome, deferralIDs, now)) else old(epic)
      ensures ok <==>
        || (deferralIDs == [] && AuditKeys(outcome, now) == map[])
        || (old(epic).Some? && !f.mergeRead && !f.marshal && f.merge.Succeeded?)
    {
      var meta := AuditKeys(outcome, now);
      if deferralIDs != [] { meta := meta[DEFERRAL_IDS := Ids(deferralIDs)]; }
      assert meta == AuditKeys(outcome, now)
        + if deferralIDs == [] then map[] else map[DEFERRAL_IDS := Ids(deferralIDs)];
      if meta == map[] {
        assert epic.Some? ==> epic.value + meta == epic.value;
        return true;
      }
      if epic.None? { return false; }
      var store := new IssueStore<Value>(epic, true, false);
      assert store.Contents() == epic.value;
      ok := store.MergeMetadata(meta, f.mergeRead, f.marshal, f.merge);
      epic := Some(store.Contents());
    }

    /** The list this approval is to record: what the ledgers say, and once there is any,
        what the epic already records. None refuses the approval. */
    method ObligationList(src: Sources, epicRead: bool) returns (r: Option<seq<string>>)
      ensures r.Some? <==>
        && Collectable(src, spec)
        && (epic.Some? && (exists id :: Due(Found(src, spec), spec, id)) ==> !epicRead && Recorded(epic.value).Some?)
      ensures r.Some? ==> (r.value == [] <==> !exists id :: Due(Found(src, spec), spec, id))
      ensures r.Some? ==> forall id :: id in r.value <==>
        || Due(Found(src, spec), spec, id)
        || (epic.Some? && r.value != [] && Recorded(epic.value).Some? && id in Recorded(epic.value).value)
      ensures r.Some? && epic.Some? && r.value != [] ==> Recorded(epic.value).Some?
    {
      var collected := SpecPlanDeferralIDs(src, spec);
      if collected.None? { return None; }
      var ids := collected.value;
      if epic.Some? && ids != {} {
        if epicRead { return None; }
        var recorded := RecordedPlanDeferralIDs(epic.value);
        if recorded.None? { return None; }
        ids := ids + KeySet(recorded.value);
      }
      var list := ListIDs(ids);
      r := Some(list);
    }

    /** The obligation leg of ApproveSpec: collect, union with what is recorded, create
        the epic if it is missing, write. Whatever fails, no recorded obligation is lost;
        success records every obligation that is due; nothing else is ever recorded. */
    method Approve(src: Sources, outcome: Outcome, now: string, f: Faults) returns (ok: bool)
      modifies this
      ensures old(epic).Some? ==> epic.Some?
      ensures ApprovalStep(spec, old(Metadata()), Approval(src, ok), Metadata())
      ensures ok <==> Succeeds(spec, old(epic), src, outcome, now, f)
      ensures forall k | k in old(Metadata()) && k != DEFERRAL_IDS && k !in AuditKeys(outcome, now) ::
        k in Metadata() && Metadata()[k] == old(Metadata())[k]
    {
      var list := ObligationList(src, f.epicRead);
      if list.None? { return false; }
      if epic.None? && !f.createFails { epic := Some(map["mindspec_phase" := Other("plan")]); }
      RecordingKeeps(Metadata(), outcome, list.value, now);
      ok := RecordAudit(outcome, list.value, now, f);
    }
  }

  /** When an approval gets its obligations and its audit recorded: the ledgers read, the
      recorded list read if there is anything to add to it, and, unless there is nothing
      to write, an epic and an undisturbed write. */
  ghost predicate Succeeds(spec: string, epic: Option<map<Key, Value>>, src: Sources, outcome: Outcome,
                           now: string, f: Faults)
  {
    var due := exists id :: Due(Found(src, spec), spec, id);
    && Collectable(src, spec)
    && (epic.Some? && due ==> !f.epicRead && Recorded(epic.value).Some?)
    && (due || AuditKeys(outcome, now) != map[] ==>
          (epic.Some? || !f.createFails) && !f.mergeRead && !f.marshal && f.merge.Succeeded?)
  }

  /** The merged metadata of an audit write. */
  function Recording(m: map<Key, Value>, outcome: Outcome, deferralIDs: seq<string>, now: string): map<Key, Value> {
    m + (AuditKeys(outcome, now) + if deferralIDs == [] then map[] else map[DEFERRAL_IDS := Ids(deferralIDs)])
  }

  lemma RecordingKeeps(m: map<Key, Value>, outcome: Outcome, ids: seq<string>, now: string)
    ensures var m' := Recording(m, outcome, ids, now);
      && (forall id :: Holds(m', id) <==> if ids == [] then Holds(m, id) else id in ids)
      && (forall k | k in m && k != DEFERRAL_IDS && k !in AuditKeys(outcome, now) :: k in m' && m'[k] == m[k])
  {
  }

  // ----- Over all approvals of one spec -----

  /** One run of spec approve: what it found and whether it succeeded. */
  datatype Approval = Approval(src: Sources, ok: bool)

  ghost predicate ApprovalStep(spec: string, m: map<Key, Value>, a: Approval, m': map<Key, Value>) {
    && (forall id | Holds(m, id) :: Holds(m', id))
    && (a.ok ==> Collectable(a.src, spec) && forall id | Due(Found(a.src, spec), spec, id) :: Holds(m', id))
    && (forall id | Holds(m', id) :: Holds(m, id) || Due(Found(a.src, spec), spec, id))
  }

  ghost predicate ApprovalRun(spec: string, ms: seq<map<Key, Value>>, run: seq<Approval>) {
    |ms| == |run| + 1 && forall i | 0 <= i < |run| :: ApprovalStep(spec, ms[i], run[i], ms[i + 1])
  }

  /** Obligations never shrink, whatever ledgers a later run still finds. */
  lemma {:induction false} ObligationsGrow(spec: string, ms: seq<map<Key, Value>>, run: seq<Approval>, i: nat, j: nat,
                                           id: string)
    requires ApprovalRun(spec, ms, run) && i <= j < |ms| && Holds(ms[i], id)
    ensures Holds(ms[j], id)
    decreases j - i
  {
    if i < j {
      assert ApprovalStep(spec, ms[i], run[i], ms[i + 1]);
      ObligationsGrow(spec, ms, run, i + 1, j, id);
    }
  }

  /** Nor are any invented: every id recorded was there at the start or due in some run. */
  lemma {:induction false} ObligationsHaveASource(spec: string, ms: seq<map<Key, Value>>, run: seq<Approval>, j: nat,
                                                  id: string)
    requires ApprovalRun(spec, ms, run) && j < |ms| && Holds(ms[j], id)
    ensures Holds(ms[0], id) || exists i | 0 <= i < j :: Due(Found(run[i].src, spec), spec, id)
  {
    if j > 0 {
      assert ApprovalStep(spec, ms[j - 1], run[j - 1], ms[j]);
      if Holds(ms[j - 1], id) { ObligationsHaveASource(spec, ms, run, j - 1, id); }
    }
  }

  /** What one successful approval accepted must be named by every plan approved later,
      even when the ledgers it came from are gone. */
  lemma AcceptedMustBeNamed(spec: string, ms: seq<map<Key, Value>>, run: seq<Approval>, i: nat, j: nat, id: string,
                            tracked: Option<Ledgers>, section: string)
    requires ApprovalRun(spec, ms, run) && i < |run| && i < j < |ms|
    requires run[i].ok && Due(Found(run[i].src, spec), spec, id)
    requires PlanPasses(spec, ms[j], tracked, section)
    ensures Names(section, id)
  {
    assert ApprovalStep(spec, ms[i], run[i], ms[i + 1]);
    ObligationsGrow(spec, ms, run, i + 1, j, id);
  }

  // ----- The plan check -----

  predicate TokenChar(c: char) {
    'a' <= c <= 'z' || 'A' <= c <= 'Z' || '0' <= c <= '9' || c == '-' || c == '_'
  }

  /** section[i..j] is a whole token: token characters only, and none right beside them. */
  predicate Token(section: string, i: nat, j: nat) {
    && i < j <= |section|
    && (forall k | i <= k < j :: TokenChar(section[k]))
    && (i > 0 ==> !TokenChar(section[i - 1]))
    && (j < |section| ==> !TokenChar(section[j]))
  }

  ghost predicate Names(section: string, id: string) {
    exists i: nat, j: nat :: Token(section, i, j) && section[i..j] == id
  }

  /** The words of a text, cut at every character that no id contains. */
  method Words(section: string) returns (words: seq<string>)
    ensures forall w :: w in words <==> Names(section, w)
  {
    words := [];
    var start: int := -1;
    for k := 0 to |section|
      invariant start == -1 ==> k == 0 || !TokenChar(section[k - 1])
      invariant start != -1 ==> 0 <= start < k && (start > 0 ==> !TokenChar(section[start - 1]))
      invariant start != -1 ==> forall n | start <= n < k :: TokenChar(section[n])
      invariant forall w | w in words :: Names(section, w)
      invariant forall i: nat, j: nat | Token(section, i, j) && j < k :: section[i..j] in words
      invariant forall i: nat, j: nat | Token(section, i, j) && j == k && start == -1 :: false
    {
      if TokenChar(section[k]) {
        if start == -1 { start := k; }
      } else if start != -1 {
        assert Token(section, start, k);
        forall i: nat | Token(section, i, k) ensures i == start { SameStart(section, i, start, k); }
        words, start := words + [section[start..k]], -1;
      }
    }
    if start != -1 {
      assert Token(section, start, |section|);
      forall i: nat | Token(section, i, |section|) ensures i == start { SameStart(section, i, start, |section|); }
      words := words + [section[start..]];
      assert section[start..] == section[start..|section|];
    }
  }

  lemma SameStart(section: string, i: nat, i': nat, j: nat)
    requires Token(section, i, j) && Token(section, i', j)
    ensures i == i'
  {
  }

  /** ASCII letters and digits by their codes, hyphen and underscore. */
  predicate IdChar(c: char) {
    || c == '-' || c == '_'
    || 48 <= c as int <= 57 || 65 <= c as int <= 90 || 97 <= c as int <= 122
  }

  /** The id stands in the text between characters that no id contains, or its ends. */
  ghost predicate StandsAlone(section: string, id: string) {
    && id != "" && (forall c | c in id :: IdChar(c))
    && exists before, after :: Between(section, before, id, after)
  }

  predicate Between(section: string, before: string, id: string, after: string) {
    && section == before + id + after
    && (before != "" ==> !IdChar(before[|before| - 1])) && (after != "" ==> !IdChar(after[0]))
  }

  lemma NamesExactly(section: string, id: string)
    ensures Names(section, id) <==> StandsAlone(section, id)
  {
    if Names(section, id) { NamedStandsAlone(section, id); }
    if StandsAlone(section, id) { AloneIsNamed(section, id); }
  }

  lemma NamedStandsAlone(section: string, id: string)
    requires Names(section, id)
    ensures StandsAlone(section, id)
  {
    SameChars();
    var i: nat, j: nat :| Token(section, i, j) && section[i..j] == id;
    hide TokenChar, IdChar;
    var before, after := section[..i], section[j..];
    forall c | c in id ensures IdChar(c) {
      var k :| 0 <= k < |id| && id[k] == c;
      assert section[i + k] == c && TokenChar(section[i + k]);
    }
    assert section == before + id + after;
    assert before != "" ==> before[|before| - 1] == section[i - 1];
    assert after != "" ==> after[0] == section[j];
    assert Between(section, before, id, after);
  }

  lemma SameChars()
    ensures forall c :: TokenChar(c) <==> IdChar(c)
  {
  }

  lemma AloneIsNamed(section: string, id: string)
    requires StandsAlone(section, id)
    ensures Names(section, id)
  {
    var before, after :| Between(section, before, id, after);
    SameChars();
    hide TokenChar, IdChar;
    var i, j := |before|, |before| + |id|;
    assert section[i..j] == id;
    forall k | i <= k < j ensures TokenChar(section[k]) { assert section[k] == id[k - i] && id[k - i] in id; }
    assert i > 0 ==> section[i - 1] == before[i - 1];
    assert j < |section| ==> section[j] == after[0];
    assert Token(section, i, j);
  }

  /** An id that is part of a longer token does not count as named. */
  method ResolutionNamesID(section: string, id: string) returns (named: bool)
    ensures named <==> Names(section, id)
    ensures named <==> StandsAlone(section, id)
  {
    NamesExactly(section, id);
    hide StandsAlone;
    var words := Words(section);
    for i := 0 to |words|
      invariant id !in words[..i]
    {
      if words[i] == id { return true; }
      assert words[..i + 1] == words[..i] + [words[i]];
    }
    assert words[..|words|] == words;
    named := false;
  }

  /** Exactly the non-empty ids made of token characters can be named at all. */
  lemma NamableIds(id: string)
    ensures (exists section :: Names(section, id)) <==> id != "" && forall c | c in id :: IdChar(c)
  {
    if section :| Names(section, id) {
      var i: nat, j: nat :| Token(section, i, j) && section[i..j] == id;
      forall k | 0 <= k < |id| ensures TokenChar(id[k]) { assert id[k] == section[i + k]; }
    }
    if id != "" && forall c | c in id :: IdChar(c) {
      forall k | 0 <= k < |id| ensures TokenChar(id[k]) { assert id[k] in id; }
      assert id[0..|id|] == id;
      assert Token(id, 0, |id|);
      assert Names(id, id);
    }
  }

  /** The check of plan approve: every id of the epic's list and of the tracked ledgers
      is a whole token of the Resolutions text. */
  ghost predicate PlanPasses(spec: string, m: map<Key, Value>, tracked: Option<Ledgers>, section: string) {
    && Recorded(m).Some? && tracked.Some? && Sound(tracked.value)
    && forall id | Holds(m, id) || Due(tracked.value, spec, id) :: Names(section, id)
  }

  /** tracked is None when the tracked ledgers could not be read. */
  method CheckPlanResolutions(spec: string, m: map<Key, Value>, tracked: Option<Ledgers>, section: string)
    returns (ok: bool, missing: seq<string>)
    ensures ok <==> PlanPasses(spec, m, tracked, section)
    ensures missing != [] ==> tracked.Some?
    ensures forall id | id in missing :: !Names(section, id) && (Holds(m, id) || Due(tracked.value, spec, id))
    ensures !ok && Recorded(m).Some? && tracked.Some? && Sound(tracked.value) ==>
      forall id | Holds(m, id) || Due(tracked.value, spec, id) :: Names(section, id) || id in missing
  {
    hide Names, StandsAlone, Obliged;
    missing := [];
    var recorded := RecordedPlanDeferralIDs(m);
    if recorded.None? || tracked.None? { return false, []; }
    var ids := CollectAll(tracked.value, spec, KeySet(recorded.value));
    if ids.None? { return false, []; }
    var list := ListIDs(ids.value);
    for i := 0 to |list|
      invariant forall id | id in missing :: id in list && !Names(section, id)
      invariant forall k | 0 <= k < i :: Names(section, list[k]) || list[k] in missing
    {
      var named := ResolutionNamesID(section, list[i]);
      if !named { missing := missing + [list[i]]; }
    }
    ok := missing == [];
    if !ok { assert missing[0] in missing; }
  }
}
