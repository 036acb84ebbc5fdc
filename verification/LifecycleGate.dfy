/** The panel gate of spec, plan and final approvals: which registrations it consults, and
    when they let the approval pass (internal/approve/lifecycle_gate.go). */
module LifecycleGate {
  import opened Common

  datatype Action = Allow | Warn | Block

  /** One record of a panel's ledger, as far as the gates read it. */
  datatype Record =
    | Round(spec: string, gate: string)
    | DeferredToPlan(spec: string, id: string)
    | OtherRecord
    | BadLine  // a line the reader of the ledger refuses

  /** One registered panel: its snapshot, its ledger, and what the shared checks say. A
      ledger that cannot be read at all counts as one with a refused line. */
  datatype Registration = Registration(
    slug: string, spec: string, gate: string, broken: bool, abandoned: bool, reason: string, ledger: seq<Record>,
    tallied: bool, intact: bool,                       // the tally, and panel.json unchanged outside the verbs
    targetOk: bool, headRead: bool, dirtRead: bool,    // consulted only when not abandoned
    decision: Action, covered: bool)

  // ----- Attribution -----

  /** The last round record of a ledger. */
  function LatestRound(ledger: seq<Record>): Option<Record> {
    if ledger == [] then None
    else if ledger[|ledger| - 1].Round? then Some(ledger[|ledger| - 1])
    else LatestRound(ledger[..|ledger| - 1])
  }

  lemma {:induction false} LatestRoundExactly(ledger: seq<Record>, r: Record)
    ensures LatestRound(ledger) == Some(r) <==>
      exists i | 0 <= i < |ledger| :: ledger[i] == r && r.Round? && forall j | i < j < |ledger| :: !ledger[j].Round?
    ensures LatestRound(ledger) == None <==> forall i | 0 <= i < |ledger| :: !ledger[i].Round?
  {
    if ledger != [] {
      var n := |ledger| - 1;
      LatestRoundExactly(ledger[..n], r);
      assert forall i | 0 <= i < n :: ledger[..n][i] == ledger[i];
      if !ledger[n].Round? && exists i | 0 <= i < n ::
        ledger[..n][i] == r && r.Round? && forall j | i < j < n :: !ledger[..n][j].Round?
      {
        var i :| 0 <= i < n && ledger[..n][i] == r && r.Round? && forall j | i < j < n :: !ledger[..n][j].Round?;
        assert ledger[i] == r && forall j | i < j < |ledger| :: !ledger[j].Round?;
      }
    }
  }

  /** One refused line and the whole ledger is unread. */
  predicate Readable(ledger: seq<Record>) { BadLine !in ledger }

  /** ReadLedger: the lines, or the error of the first one that is refused. */
  method ReadLedger(ledger: seq<Record>) returns (r: Option<seq<Record>>)
    ensures r == if Readable(ledger) then Some(ledger) else None
  {
    for i := 0 to |ledger|
      invariant BadLine !in ledger[..i]
    {
      if ledger[i] == BadLine { return None; }
      assert ledger[..i + 1] == ledger[..i] + [ledger[i]];
    }
    assert ledger[..|ledger|] == ledger;
    r := Some(ledger);
  }

  /** A registration belongs to an approval by its snapshot, by its latest round, or by
      being broken beyond attribution, which fails closed. */
  predicate Attributed(reg: Registration, spec: string, gate: string) {
    || (reg.spec == spec && reg.gate == gate)
    || (Readable(reg.ledger) && LatestRound(reg.ledger) == Some(Round(spec, gate)))
    || (reg.broken && reg.spec == "")
  }

  function Select(regs: seq<Registration>, spec: string, gate: string): (r: seq<Registration>)
    ensures forall reg :: reg in r <==> reg in regs && Attributed(reg, spec, gate)
  {
    if regs == [] then []
    else
      var n := |regs| - 1;
      assert regs == regs[..n] + [regs[n]];
      Select(regs[..n], spec, gate) + if Attributed(regs[n], spec, gate) then [regs[n]] else []
  }

  method LifecycleRegistrations(regs: seq<Registration>, spec: string, gate: string) returns (result: seq<Registration>)
    ensures result == Select(regs, spec, gate)
  {
    result := [];
    for i := 0 to |regs|
      invariant result == Select(regs[..i], spec, gate)
    {
      assert regs[..i + 1][..i] == regs[..i];
      var reg := regs[i];
      var matches := reg.spec == spec && reg.gate == gate;
      if !matches {
        // The error is dropped: an unreadable ledger has no lines here.
        var read := ReadLedger(reg.ledger);
        var lines := if read.Some? then read.value else [];
        for j := 0 to |lines|
          invariant matches == (LatestRound(lines[..j]) == Some(Round(spec, gate)))
        {
          assert lines[..j + 1][..j] == lines[..j];
          if lines[j].Round? { matches := lines[j].spec == spec && lines[j].gate == gate; }
        }
        assert lines[..|lines|] == lines;
      }
      if matches || (reg.broken && reg.spec == "") { result := result + [reg]; }
    }
    assert regs[..|regs|] == regs;
  }

  /** The comment promises attribution of a damaged snapshot by its latest decodable
      round. A panel is safe from every edit of its snapshot exactly when every line of
      its ledger is accepted and the latest round is of this gate. */
  lemma SafeFromEditsExactly(ledger: seq<Record>, spec: string, gate: string)
    ensures (forall reg: Registration | reg.ledger == ledger :: Attributed(reg, spec, gate))
       <==> Readable(ledger) && LatestRound(ledger) == Some(Round(spec, gate))
  {
    var foreign := Registration("", spec + "x", gate, false, false, "", ledger,
                                true, true, true, true, true, Block, true);
    assert foreign.spec != spec;
    if forall reg: Registration | reg.ledger == ledger :: Attributed(reg, spec, gate) {
      assert Attributed(foreign, spec, gate);
    }
  }

  /** Editing or breaking one snapshot: when the panel is still consulted. */
  lemma EditedSnapshotExactly(regs: seq<Registration>, i: nat, edited: Registration, spec: string, gate: string)
    requires i < |regs| && edited.ledger == regs[i].ledger
    ensures edited in Select(regs[i := edited], spec, gate) <==>
      || (edited.spec == spec && edited.gate == gate)
      || (Readable(regs[i].ledger) && LatestRound(regs[i].ledger) == Some(Round(spec, gate)))
      || (edited.broken && edited.spec == "")
  {
    assert regs[i := edited][i] == edited;
  }

  // ----- The gate -----

  /** config is None when it cannot be loaded. */
  datatype Mode = Mode(config: Option<Config>, skipEnv: bool, specDir: bool, worktree: bool)

  datatype Config = Config(panelGate: bool, enforcePresence: bool)

  datatype Outcome = Outcome(gate: string, skipped: bool, absent: bool, abandoned: bool, reason: string, live: string)

  /** Abandonment is consulted after integrity and only for a panel decided with a warning. */
  predicate LetsPass(m: Mode, reg: Registration) {
    && !reg.broken && reg.tallied && reg.intact
    && (reg.abandoned || (reg.targetOk && reg.headRead && (m.worktree ==> reg.dirtRead)))
    && ((reg.decision.Warn? && reg.abandoned) || (reg.decision.Allow? && reg.covered))
  }

  predicate AllPass(m: Mode, regs: seq<Registration>) {
    forall i | 0 <= i < |regs| :: LetsPass(m, regs[i])
  }

  /** The gate is consulted: it is switched on and not skipped. */
  predicate Consulted(m: Mode) { m.config.Some? && m.config.value.panelGate && !m.skipEnv }

  predicate GatePasses(m: Mode, regs: seq<Registration>) {
    && m.config.Some?
    && (Consulted(m) ==> m.specDir && (regs == [] ==> !m.config.value.enforcePresence) && AllPass(m, regs))
  }

  function Reasons(regs: seq<Registration>): string {
    if regs == [] then ""
    else
      var n := |regs| - 1;
      var before := Reasons(regs[..n]);
      if !regs[n].decision.Warn? then before
      else (if before == "" then "" else before + "; ") + regs[n].reason
  }

  /** The first named panel that is not waved through as abandoned. */
  function FirstLive(regs: seq<Registration>): string {
    if regs == [] then ""
    else
      var n := |regs| - 1;
      var before := FirstLive(regs[..n]);
      if before == "" && !regs[n].decision.Warn? then regs[n].slug else before
  }

  /** What a passing gate reports. */
  function OutcomeOf(m: Mode, gate: string, regs: seq<Registration>): Outcome
    requires m.config.Some?
  {
    Outcome(gate, m.config.value.panelGate && m.skipEnv, Consulted(m) && regs == [],
            Consulted(m) && exists i | 0 <= i < |regs| :: regs[i].decision.Warn?,
            if Consulted(m) then Reasons(regs) else "", if Consulted(m) then FirstLive(regs) else "")
  }

  /** runLifecycleGate over the registrations that the scan found. */
  method RunLifecycleGate(m: Mode, spec: string, gate: string, scanned: seq<Registration>)
    returns (ok: bool, o: Outcome)
    ensures ok <==> GatePasses(m, Select(scanned, spec, gate))
    ensures ok ==> o == OutcomeOf(m, gate, Select(scanned, spec, gate))
  {
    o := Outcome(gate, false, false, false, "", "");
    if m.config.None? { return false, o; }
    if !m.config.value.panelGate { return true, o; }
    if m.skipEnv { return true, o.(skipped := true); }
    if !m.specDir { return false, o; }
    var regs := LifecycleRegistrations(scanned, spec, gate);
    if |regs| == 0 { return !m.config.value.enforcePresence, o.(absent := true); }
    for i := 0 to |regs|
      invariant forall j | 0 <= j < i :: LetsPass(m, regs[j])
      invariant o.gate == gate && !o.skipped && !o.absent
      invariant o.abandoned <==> exists j | 0 <= j < i :: regs[j].decision.Warn?
      invariant o.reason == Reasons(regs[..i]) && o.live == FirstLive(regs[..i])
    {
      assert regs[..i + 1][..i] == regs[..i];
      var reg := regs[i];
      if reg.broken || !reg.tallied || !reg.intact { return false, o; }
      if !reg.abandoned {
        if !reg.targetOk || !reg.headRead { return false, o; }
        if m.worktree && !reg.dirtRead { return false, o; }
      }
      if reg.decision.Block? { return false, o; }
      if reg.decision.Warn? {
        if !reg.abandoned { return false, o; }
        var reason := o.reason;
        if reason != "" { reason := reason + "; "; }
        o := o.(abandoned := true, reason := reason + reg.reason);
      } else {
        if !reg.covered { return false, o; }
        if o.live == "" { o := o.(live := reg.slug); }
      }
    }
    assert regs[..|regs|] == regs;
    ok := true;
  }

  // ----- What a pass means for the panels that were scanned -----

  /** A consulted gate with a spec directory passes exactly when every attributed panel
      lets it pass, and there is one if presence is enforced. */
  lemma PassesExactly(m: Mode, regs: seq<Registration>, spec: string, gate: string)
    requires Consulted(m) && m.specDir
    ensures GatePasses(m, Select(regs, spec, gate)) <==>
      && (forall reg | reg in regs && Attributed(reg, spec, gate) :: LetsPass(m, reg))
      && (m.config.value.enforcePresence ==> exists reg :: reg in regs && Attributed(reg, spec, gate))
    ensures GatePasses(m, Select(regs, spec, gate)) <==>
      && (forall reg | reg in regs && Attributed(reg, spec, gate) ::
            && !reg.broken && reg.tallied && reg.intact
            && (if reg.abandoned then reg.decision == Warn || (reg.decision == Allow && reg.covered)
                else
                  && reg.targetOk && reg.headRead && (m.worktree ==> reg.dirtRead)
                  && reg.decision == Allow && reg.covered))
      && (m.config.value.enforcePresence ==> exists reg :: reg in regs && Attributed(reg, spec, gate))
  {
    var selected := Select(regs, spec, gate);
    if GatePasses(m, selected) {
      forall reg | reg in regs && Attributed(reg, spec, gate) ensures LetsPass(m, reg) {
        var i :| 0 <= i < |selected| && selected[i] == reg;
      }
    }
    if selected != [] { assert selected[0] in selected; }
    hide Attributed;
  }

  /** Before that: an unreadable config refuses, a gate that is switched off or skipped
      passes, and a spec without a directory refuses. */
  lemma PassesUnconsulted(m: Mode, regs: seq<Registration>)
    requires m.config.None? || !m.config.value.panelGate || m.skipEnv || !m.specDir
    ensures GatePasses(m, regs) <==> m.config.Some? && (!m.config.value.panelGate || m.skipEnv)
  {
  }

  /** What a pass is recorded as: skipped when the gate is on and skipped; without a panel,
      or by abandonment, only when it is on, not skipped, and that is so. */
  lemma OutcomeExactly(m: Mode, gate: string, regs: seq<Registration>)
    requires m.config.Some?
    ensures var o := OutcomeOf(m, gate, regs);
      && o.gate == gate
      && (o.skipped <==> m.config.value.panelGate && m.skipEnv)
      && (o.absent <==> m.config.value.panelGate && !m.skipEnv && regs == [])
      && (o.abandoned <==> m.config.value.panelGate && !m.skipEnv && exists reg | reg in regs :: reg.decision == Warn)
      && (!m.config.value.panelGate || m.skipEnv ==> o.reason == "" && o.live == "")
      && (m.config.value.panelGate && !m.skipEnv ==> o.reason == Reasons(regs) && o.live == FirstLive(regs))
  {
    assert forall i | 0 <= i < |regs| :: regs[i] in regs;
  }

  /** The panel named as live is the first that was not waved through. */
  lemma {:induction false} FirstLiveExactly(regs: seq<Registration>, i: nat)
    requires i < |regs| && regs[i].decision != Warn && regs[i].slug != ""
    requires forall j | 0 <= j < i :: regs[j].decision == Warn
    ensures FirstLive(regs) == regs[i].slug
  {
    var n := |regs| - 1;
    assert forall k | 0 <= k < n :: regs[..n][k] == regs[k];
    if i < n {
      FirstLiveExactly(regs[..n], i);
    } else {
      NothingLive(regs[..n]);
    }
  }

  lemma {:induction false} NothingLive(regs: seq<Registration>)
    requires forall j | 0 <= j < |regs| :: regs[j].decision == Warn
    ensures FirstLive(regs) == ""
  {
    if regs != [] {
      assert forall k | 0 <= k < |regs| - 1 :: regs[..|regs| - 1][k] == regs[k];
      NothingLive(regs[..|regs| - 1]);
    }
  }

  /** The reasons of the panels waved through, in the order of the scan. */
  lemma ReasonsOfTwo(a: Registration, b: Registration)
    requires a.decision == Warn && a.reason != ""
    ensures Reasons([a]) == a.reason
    ensures Reasons([a, b]) == if b.decision == Warn then a.reason + "; " + b.reason else a.reason
  {
    assert [a, b][..1] == [a] && [a][..0] == [];
    assert Reasons([]) == "";
  }

  /** Passing does not depend on the order in which the panels are scanned. */
  lemma PassIsOrderIndependent(m: Mode, regs: seq<Registration>, regs': seq<Registration>, spec: string, gate: string)
    requires multiset(regs) == multiset(regs')
    ensures GatePasses(m, Select(regs, spec, gate)) <==> GatePasses(m, Select(regs', spec, gate))
  {
    assert forall reg :: reg in regs <==> reg in multiset(regs);
    assert forall reg :: reg in regs' <==> reg in multiset(regs');
    if Consulted(m) && m.specDir {
      PassesExactly(m, regs, spec, gate);
      PassesExactly(m, regs', spec, gate);
    }
  }

  /** A panel with an accepted ledger whose latest round is of this gate must itself let
      the gate pass, whatever has been done to its snapshot. */
  lemma EditCannotUnblock(m: Mode, regs: seq<Registration>, i: nat, edited: Registration, spec: string, gate: string)
    requires i < |regs| && edited.ledger == regs[i].ledger && Consulted(m) && m.specDir
    requires Readable(regs[i].ledger) && LatestRound(regs[i].ledger) == Some(Round(spec, gate))
    requires GatePasses(m, Select(regs[i := edited], spec, gate))
    ensures LetsPass(m, edited)
  {
    PassesExactly(m, regs[i := edited], spec, gate);
    assert regs[i := edited][i] == edited;
  }

  /** With one refused line in its ledger, an edit of the snapshot takes a blocking panel
      out of its gate, which then passes as one that has no panel. */
  lemma EditUnblocks(m: Mode, reg: Registration, edited: Registration)
    requires m == Mode(Some(Config(true, false)), false, true, false)
    requires reg.ledger == [Round("s", "g"), BadLine] && reg.spec == "s" && reg.gate == "g" && reg.decision == Block
    requires edited == reg.(spec := "other", broken := false)
    ensures !GatePasses(m, Select([reg], "s", "g"))
    ensures GatePasses(m, Select([edited], "s", "g")) && Select([edited], "s", "g") == []
  {
    PassesExactly(m, [reg], "s", "g");
    PassesExactly(m, [edited], "s", "g");
    assert reg in [reg] && Attributed(reg, "s", "g");
    assert edited.ledger[1] == BadLine && !Attributed(edited, "s", "g");
  }

  /** A consulted gate passes without any live panel exactly when presence is not enforced
      and none is attributed, or when every attributed panel is intact and abandoned. */
  lemma PassWithoutLivePanel(m: Mode, regs: seq<Registration>, spec: string, gate: string)
    requires Consulted(m) && m.specDir && forall reg | reg in regs :: reg.slug != ""
    ensures GatePasses(m, Select(regs, spec, gate)) && FirstLive(Select(regs, spec, gate)) == "" <==>
      && (m.config.value.enforcePresence ==> exists reg :: reg in regs && Attributed(reg, spec, gate))
      && forall reg | reg in regs && Attributed(reg, spec, gate) ::
        reg.abandoned && reg.decision.Warn? && !reg.broken && reg.tallied && reg.intact
  {
    var selected := Select(regs, spec, gate);
    assert forall i | 0 <= i < |selected| :: selected[i] in selected;
    NoLive(selected);
    PassesExactly(m, regs, spec, gate);
    if FirstLive(selected) == "" {
      forall reg | reg in regs && Attributed(reg, spec, gate) ensures reg.decision.Warn? {
        var i :| 0 <= i < |selected| && selected[i] == reg;
      }
    }
  }

  lemma {:induction false} NoLive(regs: seq<Registration>)
    requires forall i | 0 <= i < |regs| :: regs[i].slug != ""
    ensures FirstLive(regs) == "" <==> forall i | 0 <= i < |regs| :: regs[i].decision.Warn?
  {
    if regs != [] {
      var n := |regs| - 1;
      NoLive(regs[..n]);
      assert forall i | 0 <= i < n :: regs[..n][i] == regs[i];
    }
  }
}
