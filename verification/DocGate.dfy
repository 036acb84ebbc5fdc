/** The documentation gate of impl approve: which domains landed steps exempt, and which
    doc deferrals they settle (internal/approve/doc_declarations.go). */
module DocGate {
  import opened Common

  type Id = string
  type Domain = string

  /** The merge and second parent a bead recorded when it landed. */
  datatype Landing = Landing(sha: string, second: string)

  /** The doc impact of one step; a step without one either failed to diff or changed nothing.
      The sources are the domains of the changed files, in whatever order their map yields them. */
  datatype Impact = NoImpact(failed: bool) | Impact(docs: set<Domain>, sources: seq<Domain>)

  datatype Step = Step(sha: string, parents: seq<string>, impact: Impact)

  datatype Declaration = Declaration(domain: Domain, reason: string, actor: string, date: string)

  datatype DocDeferral = DocDeferral(id: string, source: Id, owner: Id, domains: seq<Domain>)

  /** One bead's metadata; None stands for records that do not parse. */
  datatype BeadMeta = BeadMeta(landing: Landing, declared: Option<seq<Declaration>>, deferred: Option<seq<DocDeferral>>)

  // ----- Which bead a step belongs to -----

  /** A two-parent step is bound to a bead by both recorded ids. */
  predicate Binds(l: Landing, s: Step) {
    |s.parents| == 2 && l.sha != "" && l.second != "" && s.sha == l.sha && s.parents[1] == l.second
  }

  /** The lookup walks a Go map, so any bound bead may be the one it returns. */
  predicate MayChoose(landings: map<Id, Landing>, s: Step, choice: Option<Id>) {
    match choice
    case Some(id) => id in landings && Binds(landings[id], s)
    case None => forall id | id in landings :: !Binds(landings[id], s)
  }

  method DeclaringMergeBead(landings: map<Id, Landing>, s: Step) returns (choice: Option<Id>)
    ensures MayChoose(landings, s, choice)
    ensures choice.Some? ==>
      && choice.value in landings && |s.parents| == 2
      && landings[choice.value].sha == s.sha != "" && landings[choice.value].second == s.parents[1] != ""
    ensures choice.None? ==>
      || |s.parents| != 2 || s.sha == "" || s.parents[1] == ""
      || forall id | id in landings :: landings[id].sha != s.sha || landings[id].second != s.parents[1]
  {
    if |s.parents| != 2 { return None; }
    var todo := landings.Keys;
    while todo != {}
      invariant todo <= landings.Keys && forall id | id in landings && id !in todo :: !Binds(landings[id], s)
      decreases |todo|
    {
      var id :| id in todo;
      var l := landings[id];
      if l.sha != "" && l.second != "" && s.sha == l.sha && s.parents[1] == l.second { return Some(id); }
      todo := todo - {id};
    }
    choice := None;
  }

  // ----- The fold over the landed steps -----

  type Declarations = map<Id, set<Domain>>

  predicate Declares(declared: Declarations, id: Id, d: Domain) { id in declared && d in declared[id] }

  predicate Touches(s: Step, d: Domain) { s.impact.Impact? && d != "" && d in s.impact.sources }

  predicate ChangesDocs(s: Step, d: Domain) { s.impact.Impact? && d in s.impact.docs }

  predicate Readable(s: Step) { s.parents != [] && s.impact != NoImpact(true) }

  /** Every step that touches the domain was taken for a bead that declared it, and there
      is such a step. */
  predicate ExemptBy(declared: Declarations, steps: seq<Step>, chosen: seq<Option<Id>>, d: Domain)
    requires |chosen| == |steps|
  {
    && (exists i | 0 <= i < |steps| :: Touches(steps[i], d))
    && (forall i | 0 <= i < |steps| && Touches(steps[i], d) ::
          chosen[i].Some? && Declares(declared, chosen[i].value, d))
  }

  /** In terms of the steps themselves: some landed step has the domain among its sources,
      and each that has it was taken for a bead that declared it. */
  lemma ExemptExactly(declared: Declarations, steps: seq<Step>, chosen: seq<Option<Id>>, d: Domain)
    requires |chosen| == |steps|
    ensures ExemptBy(declared, steps, chosen, d) <==>
      && d != "" && (exists s | s in steps :: s.impact.Impact? && d in s.impact.sources)
      && forall i | 0 <= i < |steps| && steps[i].impact.Impact? && d in steps[i].impact.sources ::
        chosen[i].Some? && chosen[i].value in declared && d in declared[chosen[i].value]
  {
    if s :| s in steps && s.impact.Impact? && d in s.impact.sources {
      var i :| 0 <= i < |steps| && steps[i] == s;
      assert d != "" ==> Touches(steps[i], d);
    }
    if i :| 0 <= i < |steps| && Touches(steps[i], d) { assert steps[i] in steps; }
  }

  lemma LandedExactly(steps: seq<Step>, chosen: seq<Option<Id>>, owner: Id, d: Domain)
    requires |chosen| == |steps|
    ensures LandedBy(steps, chosen, owner, d) <==>
      exists i | 0 <= i < |steps| :: chosen[i] == Some(owner) && steps[i].impact.Impact? && d in steps[i].impact.docs
  {
    if i :| 0 <= i < |steps| && chosen[i] == Some(owner) && steps[i].impact.Impact? && d in steps[i].impact.docs {
      assert ChangesDocs(steps[i], d);
    }
  }

  predicate LandedBy(steps: seq<Step>, chosen: seq<Option<Id>>, owner: Id, d: Domain)
    requires |chosen| == |steps|
  {
    exists i | 0 <= i < |steps| :: chosen[i] == Some(owner) && ChangesDocs(steps[i], d)
  }

  ghost predicate Choices(landings: map<Id, Landing>, steps: seq<Step>, chosen: seq<Option<Id>>) {
    |chosen| == |steps| && forall i | 0 <= i < |steps| :: MayChoose(landings, steps[i], chosen[i])
  }

  predicate Landed(landedDocs: map<Id, set<Domain>>, owner: Id, d: Domain) {
    owner in landedDocs && d in landedDocs[owner]
  }

  /** The domains the chosen bead may exempt. */
  function Granted(declared: Declarations, choice: Option<Id>): (g: set<Domain>)
    ensures forall d :: d in g <==> choice.Some? && Declares(declared, choice.value, d)
  {
    if choice.Some? && choice.value in declared then declared[choice.value] else {}
  }

  datatype Marks = Marks(exempt: set<Domain>, seen: set<Domain>)

  /** One touched domain: exempt when first met, and only while every step grants it. */
  function Mark(granted: set<Domain>, m: Marks, d: Domain): (m': Marks)
    ensures m'.seen == m.seen + {d}
    ensures forall e | e != d :: e in m'.exempt <==> e in m.exempt
    ensures d in m'.exempt <==> (d in m.exempt || d !in m.seen) && d in granted
  {
    var first := if d in m.seen then m.exempt else m.exempt + {d};
    Marks(if d in granted then first else first - {d}, m.seen + {d})
  }

  /** A domain already met keeps its exemption only if this step grants it; a new one is
      exempt if it does. */
  ghost predicate Marked(granted: set<Domain>, m0: Marks, sources: seq<Domain>, m: Marks) {
    && (forall d :: d in m.seen <==> d in m0.seen || (d != "" && d in sources))
    && (forall d ::
          d in m.exempt <==> if d != "" && d in sources then (d in m0.exempt || d !in m0.seen) && d in granted
                             else d in m0.exempt)
  }

  lemma MarkOne(granted: set<Domain>, m0: Marks, sources: seq<Domain>, m: Marks, d: Domain)
    requires Marked(granted, m0, sources, m) && m0.exempt <= m0.seen
    ensures Marked(granted, m0, sources + [d], if d == "" then m else Mark(granted, m, d))
  {
  }

  method MarkSources(granted: set<Domain>, sources: seq<Domain>, m0: Marks) returns (m: Marks)
    requires m0.exempt <= m0.seen
    ensures Marked(granted, m0, sources, m)
  {
    m := m0;
    for i := 0 to |sources|
      invariant Marked(granted, m0, sources[..i], m)
    {
      var d := sources[i];
      MarkOne(granted, m0, sources[..i], m, d);
      assert sources[..i + 1] == sources[..i] + [d];
      if d != "" {
        var exempt, seen := m.exempt, m.seen;
        if d !in seen { exempt, seen := exempt + {d}, seen + {d}; }
        if d !in granted { exempt := exempt - {d}; }
        assert seen == m.seen + {d};
        m := Marks(exempt, seen);
      }
    }
    assert sources[..|sources|] == sources;
  }

  predicate Touched(steps: seq<Step>, d: Domain) {
    exists i | 0 <= i < |steps| :: Touches(steps[i], d)
  }

  /** What the maps of the fold stand for. */
  ghost predicate Folded(declared: Declarations, steps: seq<Step>, chosen: seq<Option<Id>>, m: Marks,
                         landedDocs: map<Id, set<Domain>>)
  {
    && |chosen| == |steps|
    && (forall d :: d in m.seen <==> Touched(steps, d))
    && (forall d :: d in m.exempt <==> ExemptBy(declared, steps, chosen, d))
    && (forall owner, d :: Landed(landedDocs, owner, d) <==> LandedBy(steps, chosen, owner, d))
  }

  lemma TouchedNext(steps: seq<Step>, s: Step, d: Domain)
    ensures Touched(steps + [s], d) <==> Touched(steps, d) || Touches(s, d)
  {
    assert forall i | 0 <= i < |steps| :: (steps + [s])[i] == steps[i];
    assert (steps + [s])[|steps|] == s;
  }

  lemma ExemptNext(declared: Declarations, steps: seq<Step>, chosen: seq<Option<Id>>, s: Step,
                   choice: Option<Id>, d: Domain)
    requires |chosen| == |steps|
    ensures ExemptBy(declared, steps + [s], chosen + [choice], d) <==>
      if Touches(s, d)
      then (ExemptBy(declared, steps, chosen, d) || !Touched(steps, d)) && d in Granted(declared, choice)
      else ExemptBy(declared, steps, chosen, d)
  {
    var steps', chosen' := steps + [s], chosen + [choice];
    assert forall i | 0 <= i < |steps| :: steps'[i] == steps[i] && chosen'[i] == chosen[i];
    assert steps'[|steps|] == s && chosen'[|steps|] == choice;
  }

  lemma LandedNext(steps: seq<Step>, chosen: seq<Option<Id>>, s: Step, choice: Option<Id>, owner: Id, d: Domain)
    requires |chosen| == |steps|
    ensures LandedBy(steps + [s], chosen + [choice], owner, d) <==>
      LandedBy(steps, chosen, owner, d) || (choice == Some(owner) && ChangesDocs(s, d))
  {
    var steps', chosen' := steps + [s], chosen + [choice];
    assert forall i | 0 <= i < |steps| :: steps'[i] == steps[i] && chosen'[i] == chosen[i];
    assert steps'[|steps|] == s && chosen'[|steps|] == choice;
  }

  /** One more step, whose sources were marked and whose docs were added. */
  lemma FoldNext(declared: Declarations, steps: seq<Step>, chosen: seq<Option<Id>>, m: Marks,
                 landedDocs: map<Id, set<Domain>>,
                 s: Step, choice: Option<Id>, m': Marks, landedDocs': map<Id, set<Domain>>)
    requires Folded(declared, steps, chosen, m, landedDocs)
    requires if s.impact.Impact? then Marked(Granted(declared, choice), m, s.impact.sources, m') else m' == m
    requires landedDocs' == AddDocs(landedDocs, s, choice)
    ensures Folded(declared, steps + [s], chosen + [choice], m', landedDocs')
  {
    forall d ensures d in m'.seen <==> Touched(steps + [s], d) { TouchedNext(steps, s, d); }
    forall d ensures d in m'.exempt <==> ExemptBy(declared, steps + [s], chosen + [choice], d) {
      ExemptNext(declared, steps, chosen, s, choice, d);
      assert d in m.seen <==> Touched(steps, d);
    }
    forall owner, d ensures Landed(landedDocs', owner, d) <==> LandedBy(steps + [s], chosen + [choice], owner, d) {
      LandedNext(steps, chosen, s, choice, owner, d);
      assert Landed(landedDocs', owner, d) <==>
        Landed(landedDocs, owner, d) || (choice == Some(owner) && ChangesDocs(s, d));
    }
  }

  function AddDocs(landedDocs: map<Id, set<Domain>>, s: Step, choice: Option<Id>): map<Id, set<Domain>> {
    if s.impact.Impact? && choice.Some?
    then landedDocs[choice.value :=
         (if choice.value in landedDocs then landedDocs[choice.value] else {}) + s.impact.docs]
    else landedDocs
  }

  method FoldLanded(landings: map<Id, Landing>, declared: Declarations, steps: seq<Step>)
    returns (ok: bool, exempt: set<Domain>, landedDocs: map<Id, set<Domain>>, ghost chosen: seq<Option<Id>>)
    ensures ok <==> forall i | 0 <= i < |steps| :: Readable(steps[i])
    ensures ok <==> forall i | 0 <= i < |steps| :: steps[i].parents != [] && steps[i].impact != NoImpact(true)
    ensures ok ==> Choices(landings, steps, chosen)
    ensures ok ==> forall d :: d in exempt <==> ExemptBy(declared, steps, chosen, d)
    ensures ok ==> forall owner, d :: Landed(landedDocs, owner, d) <==> LandedBy(steps, chosen, owner, d)
  {
    var m := Marks({}, {});
    exempt, landedDocs, chosen := {}, map[], [];
    for i := 0 to |steps|
      invariant forall j | 0 <= j < i :: Readable(steps[j])
      invariant Choices(landings, steps[..i], chosen)
      invariant Folded(declared, steps[..i], chosen, m, landedDocs)
    {
      var s := steps[i];
      if s.parents == [] { return false, {}, map[], []; }
      if s.impact == NoImpact(true) { return false, {}, map[], []; }
      var choice := DeclaringMergeBead(landings, s);
      var m', landedDocs' := m, landedDocs;
      if s.impact.Impact? {
        if choice.Some? {
          var docs := if choice.value in landedDocs then landedDocs[choice.value] else {};
          landedDocs' := landedDocs[choice.value := docs + s.impact.docs];
        }
        ExemptWereSeen(declared, steps[..i], chosen, m, landedDocs);
        m' := MarkSources(Granted(declared, choice), s.impact.sources, m);
      }
      FoldNext(declared, steps[..i], chosen, m, landedDocs, s, choice, m', landedDocs');
      assert steps[..i + 1] == steps[..i] + [s];
      m, landedDocs, chosen := m', landedDocs', chosen + [choice];
    }
    assert steps[..|steps|] == steps;
    ok, exempt := true, m.exempt;
  }

  lemma ExemptWereSeen(declared: Declarations, steps: seq<Step>, chosen: seq<Option<Id>>, m: Marks,
                     landedDocs: map<Id, set<Domain>>)
    requires Folded(declared, steps, chosen, m, landedDocs)
    ensures m.exempt <= m.seen
  {
  }

  // ----- The records of the beads -----

  predicate Complete(r: Declaration, isSpace: char -> bool) {
    r.domain != "" && (exists i | 0 <= i < |r.reason| :: !isSpace(r.reason[i])) && r.actor != "" && r.date != ""
  }

  predicate WellFormed(d: DocDeferral) { d.id != "" && d.source != "" && d.owner != "" && d.domains != [] }

  /** A bead whose records can be read as the gate needs them. */
  predicate Usable(beads: map<Id, BeadMeta>, id: Id) {
    && id in beads && beads[id].declared.Some? && beads[id].deferred.Some?
    && forall i | 0 <= i < |beads[id].deferred.value| :: WellFormed(beads[id].deferred.value[i])
  }

  /** Complete declarations name a domain, an actor and a date, and give a reason that is
      not blank; no other row declares anything. */
  lemma DeclaredExactly(rows: seq<Declaration>, isSpace: char -> bool, d: Domain)
    ensures d in DeclaredDomains(rows, isSpace) <==>
      exists row | row in rows ::
        && row.domain == d && d != "" && row.actor != "" && row.date != ""
        && exists c | c in row.reason :: !isSpace(c)
  {
    if row :| row in rows && row.domain == d && d != "" && row.actor != "" && row.date != ""
              && exists c | c in row.reason :: !isSpace(c)
    {
      var i :| 0 <= i < |rows| && rows[i] == row;
      var c :| c in row.reason && !isSpace(c);
      var k :| 0 <= k < |row.reason| && row.reason[k] == c;
      assert Complete(rows[i], isSpace);
    }
    if i :| 0 <= i < |rows| && Complete(rows[i], isSpace) && rows[i].domain == d { assert rows[i] in rows; }
  }

  /** The records of a bead are usable when both lists parse and every deferral is whole. */
  lemma UsableExactly(beads: map<Id, BeadMeta>, id: Id)
    ensures Usable(beads, id) <==>
      && id in beads && beads[id].declared.Some? && beads[id].deferred.Some?
      && forall row | row in beads[id].deferred.value ::
        row.id != "" && row.source != "" && row.owner != "" && row.domains != []
  {
    if id in beads && beads[id].deferred.Some? {
      var rows := beads[id].deferred.value;
      assert forall i | 0 <= i < |rows| :: rows[i] in rows;
    }
  }

  function DeclaredDomains(rows: seq<Declaration>, isSpace: char -> bool): (ds: set<Domain>)
    ensures forall d :: d in ds <==> exists i | 0 <= i < |rows| :: Complete(rows[i], isSpace) && rows[i].domain == d
  {
    if rows == [] then {}
    else
      var n := |rows| - 1;
      DeclaredDomains(rows[..n], isSpace) + if Complete(rows[n], isSpace) then {rows[n].domain} else {}
  }

  /** The deferrals recorded on a bead that name that bead as their source. */
  function OwnDeferrals(id: Id, rows: seq<DocDeferral>): seq<DocDeferral> {
    if rows == [] then []
    else
      var n := |rows| - 1;
      OwnDeferrals(id, rows[..n]) + if rows[n].source == id then [rows[n]] else []
  }

  function AllDeferrals(beads: map<Id, BeadMeta>, ids: seq<Id>): seq<DocDeferral>
    requires forall i | 0 <= i < |ids| :: Usable(beads, ids[i])
  {
    if ids == [] then []
    else
      var n := |ids| - 1;
      assert Usable(beads, ids[n]);
      AllDeferrals(beads, ids[..n]) + OwnDeferrals(ids[n], beads[ids[n]].deferred.value)
  }

  lemma {:induction false} OwnExactly(id: Id, rows: seq<DocDeferral>, d: DocDeferral)
    ensures d in OwnDeferrals(id, rows) <==> d in rows && d.source == id
  {
    if rows != [] {
      var n := |rows| - 1;
      OwnExactly(id, rows[..n], d);
      assert rows == rows[..n] + [rows[n]];
    }
  }

  /** The deferrals of the epic: those its beads recorded with themselves as the source. */
  lemma {:induction false} AllExactly(beads: map<Id, BeadMeta>, ids: seq<Id>, d: DocDeferral)
    requires forall i | 0 <= i < |ids| :: Usable(beads, ids[i])
    ensures d in AllDeferrals(beads, ids) <==> d.source in ids && d in beads[d.source].deferred.value
  {
    if ids != [] {
      var n := |ids| - 1;
      assert Usable(beads, ids[n]);
      AllExactly(beads, ids[..n], d);
      OwnExactly(ids[n], beads[ids[n]].deferred.value, d);
      assert ids == ids[..n] + [ids[n]];
    }
  }

  method ReadBead(id: Id, meta: BeadMeta, isSpace: char -> bool) returns (r: Option<(set<Domain>, seq<DocDeferral>)>)
    ensures r.Some? <==> Usable(map[id := meta], id)
    ensures r.Some? ==>
      r.value == (DeclaredDomains(meta.declared.value, isSpace), OwnDeferrals(id, meta.deferred.value))
  {
    if meta.declared.None? { return None; }
    var rows, domains := meta.declared.value, {};
    for i := 0 to |rows|
      invariant domains == DeclaredDomains(rows[..i], isSpace)
    {
      assert rows[..i + 1][..i] == rows[..i];
      if Complete(rows[i], isSpace) { domains := domains + {rows[i].domain}; }
    }
    assert rows[..|rows|] == rows;
    if meta.deferred.None? { return None; }
    var deferred, own := meta.deferred.value, [];
    for i := 0 to |deferred|
      invariant forall j | 0 <= j < i :: WellFormed(deferred[j])
      invariant own == OwnDeferrals(id, deferred[..i])
    {
      assert deferred[..i + 1][..i] == deferred[..i];
      if !WellFormed(deferred[i]) { return None; }
      if deferred[i].source == id { own := own + [deferred[i]]; }
    }
    assert deferred[..|deferred|] == deferred;
    r := Some((domains, own));
  }

  /** What has been read of the epic's beads. */
  ghost predicate Gathered(beads: map<Id, BeadMeta>, ids: seq<Id>, isSpace: char -> bool,
                           declared: Declarations, landings: map<Id, Landing>, deferrals: seq<DocDeferral>)
  {
    && (forall i | 0 <= i < |ids| :: Usable(beads, ids[i])) && deferrals == AllDeferrals(beads, ids)
    && MapsGathered(beads, ids, isSpace, declared, landings)
  }

  ghost predicate MapsGathered(beads: map<Id, BeadMeta>, ids: seq<Id>, isSpace: char -> bool,
                               declared: Declarations, landings: map<Id, Landing>)
  {
    && (forall id :: id in declared <==> id in ids)
    && (forall id :: id in landings <==> id in ids)
    && (forall id | id in declared ::
          Usable(beads, id) && declared[id] == DeclaredDomains(beads[id].declared.value, isSpace))
    && (forall id | id in landings :: id in beads && landings[id] == beads[id].landing)
  }

  lemma GatherNext(beads: map<Id, BeadMeta>, ids: seq<Id>, isSpace: char -> bool,
                   declared: Declarations, landings: map<Id, Landing>, deferrals: seq<DocDeferral>, id: Id)
    requires Gathered(beads, ids, isSpace, declared, landings, deferrals) && Usable(beads, id)
    ensures Gathered(beads, ids + [id], isSpace,
                     declared[id := DeclaredDomains(beads[id].declared.value, isSpace)],
                     landings[id := beads[id].landing],
                     deferrals + OwnDeferrals(id, beads[id].deferred.value))
  {
    AllUsable(beads, ids, id);
    MapsNext(beads, ids, isSpace, declared, landings, id);
    hide MapsGathered, AllDeferrals, DeclaredDomains, OwnDeferrals, Usable;
  }

  lemma MapsNext(beads: map<Id, BeadMeta>, ids: seq<Id>, isSpace: char -> bool,
                 declared: Declarations, landings: map<Id, Landing>, id: Id)
    requires MapsGathered(beads, ids, isSpace, declared, landings) && Usable(beads, id)
    ensures MapsGathered(beads, ids + [id], isSpace,
                         declared[id := DeclaredDomains(beads[id].declared.value, isSpace)],
                         landings[id := beads[id].landing])
  {
  }

  lemma AllUsable(beads: map<Id, BeadMeta>, ids: seq<Id>, id: Id)
    requires (forall i | 0 <= i < |ids| :: Usable(beads, ids[i])) && Usable(beads, id)
    ensures forall i | 0 <= i < |ids + [id]| :: Usable(beads, (ids + [id])[i])
    ensures AllDeferrals(beads, ids + [id]) == AllDeferrals(beads, ids) + OwnDeferrals(id, beads[id].deferred.value)
  {
  }

  /** The records of the epic's beads, in order. Any bead that cannot be read refuses. */
  method GatherRecords(beads: map<Id, BeadMeta>, ids: seq<Id>, isSpace: char -> bool)
    returns (ok: bool, declared: Declarations, landings: map<Id, Landing>, deferrals: seq<DocDeferral>)
    ensures ok <==> forall i | 0 <= i < |ids| :: Usable(beads, ids[i])
    ensures ok ==> Gathered(beads, ids, isSpace, declared, landings, deferrals)
  {
    hide Gathered, AllDeferrals, DeclaredDomains, OwnDeferrals;
    declared, landings, deferrals := map[], map[], [];
    NothingGathered(beads, isSpace);
    for i := 0 to |ids|
      invariant Gathered(beads, ids[..i], isSpace, declared, landings, deferrals)
      invariant forall j | 0 <= j < i :: Usable(beads, ids[j])
    {
      var id := ids[i];
      if id !in beads { return false, declared, landings, deferrals; }
      var r := ReadBead(id, beads[id], isSpace);
      assert Usable(map[id := beads[id]], id) == Usable(beads, id);
      if r.None? { return false, declared, landings, deferrals; }
      GatherNext(beads, ids[..i], isSpace, declared, landings, deferrals, id);
      assert ids[..i + 1] == ids[..i] + [id];
      landings := landings[id := beads[id].landing];
      declared := declared[id := r.value.0];
      deferrals := deferrals + r.value.1;
    }
    assert ids[..|ids|] == ids;
    ok := true;
  }

  lemma NothingGathered(beads: map<Id, BeadMeta>, isSpace: char -> bool)
    ensures Gathered(beads, [], isSpace, map[], map[], [])
  {
  }

  predicate OwnsOne(ds: seq<DocDeferral>, id: Id) {
    exists k | 0 <= k < |ds| :: ds[k].owner == id
  }

  /** Owners can be beads outside the epic; their landed docs still count. */
  method AddOwners(beads: map<Id, BeadMeta>, deferrals: seq<DocDeferral>, landings0: map<Id, Landing>)
    returns (ok: bool, landings: map<Id, Landing>)
    requires forall id | id in landings0 :: id in beads && landings0[id] == beads[id].landing
    ensures ok <==> forall k | 0 <= k < |deferrals| :: deferrals[k].owner in beads
    ensures forall id | id in landings :: id in beads && landings[id] == beads[id].landing
    ensures ok ==> forall id :: id in landings <==> id in landings0 || OwnsOne(deferrals, id)
  {
    landings := landings0;
    for k := 0 to |deferrals|
      invariant forall j | 0 <= j < k :: deferrals[j].owner in beads
      invariant forall id | id in landings :: id in beads && landings[id] == beads[id].landing
      invariant forall id :: id in landings <==> id in landings0 || exists j | 0 <= j < k :: deferrals[j].owner == id
    {
      var owner := deferrals[k].owner;
      if owner !in landings {
        if owner !in beads { return false, landings; }
        landings := landings[owner := beads[owner].landing];
      }
    }
    ok := true;
  }

  // ----- The gate -----

  datatype Outcome = Unreadable | Decided(refused: bool, open: seq<DocDeferral>, exempt: set<Domain>)

  predicate Settled(landedDocs: map<Id, set<Domain>>, d: DocDeferral) {
    forall j | 0 <= j < |d.domains| :: Landed(landedDocs, d.owner, d.domains[j])
  }

  function OpenDeferrals(landedDocs: map<Id, set<Domain>>, ds: seq<DocDeferral>): (open: seq<DocDeferral>)
    ensures forall d :: d in open <==> d in ds && !Settled(landedDocs, d)
  {
    if ds == [] then []
    else
      var n := |ds| - 1;
      assert ds == ds[..n] + [ds[n]];
      OpenDeferrals(landedDocs, ds[..n]) + if Settled(landedDocs, ds[n]) then [] else [ds[n]]
  }

  method FindSettled(landedDocs: map<Id, set<Domain>>, d: DocDeferral) returns (resolved: bool)
    ensures resolved <==> Settled(landedDocs, d)
  {
    hide Landed;
    resolved := true;
    for j := 0 to |d.domains|
      invariant resolved <==> forall k | 0 <= k < j :: Landed(landedDocs, d.owner, d.domains[k])
    {
      if !Landed(landedDocs, d.owner, d.domains[j]) { resolved := false; }
    }
  }

  method FindOpen(landedDocs: map<Id, set<Domain>>, ds: seq<DocDeferral>) returns (open: seq<DocDeferral>)
    ensures open == OpenDeferrals(landedDocs, ds)
  {
    hide Settled;
    open := [];
    for i := 0 to |ds|
      invariant open == OpenDeferrals(landedDocs, ds[..i])
    {
      assert ds[..i + 1][..i] == ds[..i];
      var resolved := FindSettled(landedDocs, ds[i]);
      if !resolved { open := open + [ds[i]]; }
    }
    assert ds[..|ds|] == ds;
  }

  /** A deferral stays open while one of its domains has no doc change in a step taken for
      its owner. */
  predicate StillOpen(ds: seq<DocDeferral>, steps: seq<Step>, chosen: seq<Option<Id>>, d: DocDeferral)
    requires |chosen| == |steps|
  {
    d in ds && exists j | 0 <= j < |d.domains| :: !LandedBy(steps, chosen, d.owner, d.domains[j])
  }

  /** In terms of the records: the deferral stands on its own source bead, and for one of
      its domains no step taken for its owner changed the docs. */
  lemma StillOpenExactly(beads: map<Id, BeadMeta>, ids: seq<Id>, steps: seq<Step>, chosen: seq<Option<Id>>,
                         d: DocDeferral)
    requires |chosen| == |steps| && forall i | 0 <= i < |ids| :: Usable(beads, ids[i])
    ensures StillOpen(AllDeferrals(beads, ids), steps, chosen, d) <==>
      && d.source in ids && d in beads[d.source].deferred.value
      && exists x | x in d.domains :: forall i | 0 <= i < |steps| && chosen[i] == Some(d.owner) ::
        !(steps[i].impact.Impact? && x in steps[i].impact.docs)
  {
    AllExactly(beads, ids, d);
    forall x ensures LandedBy(steps, chosen, d.owner, x) <==>
      !(forall i | 0 <= i < |steps| && chosen[i] == Some(d.owner) ::
          !(steps[i].impact.Impact? && x in steps[i].impact.docs))
    {
      LandedExactly(steps, chosen, d.owner, x);
    }
    hide LandedBy, AllDeferrals;
    assert forall j | 0 <= j < |d.domains| :: d.domains[j] in d.domains;
  }

  /** docsFail says whether the doc check still fails under a set of exempt domains;
      steps is None when the landed changes could not be read. */
  method ImplDocGate(beads: map<Id, BeadMeta>, ids: seq<Id>, steps: Option<seq<Step>>, docsFail: set<Domain> -> bool,
                     override: bool, isSpace: char -> bool)
    returns (r: Outcome, ghost declared: Declarations, ghost landings: map<Id, Landing>, ghost chosen: seq<Option<Id>>)
    ensures r.Decided? ==> forall i | 0 <= i < |ids| :: Usable(beads, ids[i])
    ensures r.Decided? ==>
      && (forall id :: id in declared <==> id in ids)
      && (forall id | id in declared ::
          Usable(beads, id) && declared[id] == DeclaredDomains(beads[id].declared.value, isSpace))
      && (forall id | id in landings :: id in beads && landings[id] == beads[id].landing)
      && (forall id :: id in landings <==> id in ids || OwnsOne(AllDeferrals(beads, ids), id))
    ensures r.Decided? && ids != [] ==>
      && steps.Some? && (forall i | 0 <= i < |steps.value| :: Readable(steps.value[i]))
      && Choices(landings, steps.value, chosen)
      && (forall d :: d in r.exempt <==> ExemptBy(declared, steps.value, chosen, d))
      && (forall d :: d in r.open <==> StillOpen(AllDeferrals(beads, ids), steps.value, chosen, d))
    ensures r.Decided? <==>
      && (forall i | 0 <= i < |ids| :: Usable(beads, ids[i]))
      && (forall d | d in AllDeferrals(beads, ids) :: d.owner in beads)
      && (ids != [] ==> steps.Some? && forall i | 0 <= i < |steps.value| :: Readable(steps.value[i]))
    ensures r.Decided? && ids == [] ==> r.exempt == {} && r.open == []
    ensures r.Decided? ==> r.refused == (!override && (docsFail(r.exempt) || r.open != []))
  {
    chosen := [];
    var ok, decls, lands, deferrals := GatherRecords(beads, ids, isSpace);
    declared, landings := decls, lands;
    if !ok { return Unreadable, declared, landings, chosen; }
    ok, lands := AddOwners(beads, deferrals, lands);
    landings := lands;
    if !ok { return Unreadable, declared, landings, chosen; }
    var exempt: set<Domain>, landedDocs: map<Id, set<Domain>> := {}, map[];
    if ids != [] || deferrals != [] {
      if steps.None? { return Unreadable, declared, landings, chosen; }
      ok, exempt, landedDocs, chosen := FoldLanded(lands, decls, steps.value);
      if !ok { return Unreadable, declared, landings, chosen; }
    }
    var open := FindOpen(landedDocs, deferrals);
    r := Decided(!override && (docsFail(exempt) || open != []), open, exempt);
  }

  // ----- Independence of the order, and where it ends -----

  /** No two beads recorded the same merge and second parent. */
  predicate Unambiguous(landings: map<Id, Landing>) {
    forall a, b | a in landings && b in landings && a != b ::
      landings[a].sha == "" || landings[a].second == "" || landings[a] != landings[b]
  }

  /** Then exemption and settlement depend only on which steps landed: their order, and
      the order any map is walked in, make no difference. */
  lemma OrderIndependent(landings: map<Id, Landing>, declared: Declarations,
                         s1: seq<Step>, c1: seq<Option<Id>>, s2: seq<Step>, c2: seq<Option<Id>>)
    requires Unambiguous(landings) && Choices(landings, s1, c1) && Choices(landings, s2, c2)
    requires multiset(s1) == multiset(s2)
    ensures forall d :: ExemptBy(declared, s1, c1, d) <==> ExemptBy(declared, s2, c2, d)
    ensures forall owner, d :: LandedBy(s1, c1, owner, d) <==> LandedBy(s2, c2, owner, d)
  {
    Included(landings, s1, c1, s2, c2);
    Included(landings, s2, c2, s1, c1);
    forall d ensures ExemptBy(declared, s1, c1, d) <==> ExemptBy(declared, s2, c2, d) {
      ExemptIncluded(declared, s1, c1, s2, c2, d);
      ExemptIncluded(declared, s2, c2, s1, c1, d);
    }
  }

  /** Every step of one run has a counterpart in the other, taken for the same bead. */
  ghost predicate Counterparts(s1: seq<Step>, c1: seq<Option<Id>>, s2: seq<Step>, c2: seq<Option<Id>>)
    requires |s1| == |c1| && |s2| == |c2|
  {
    forall i | 0 <= i < |s1| :: Occurs(s1[i], c1[i], s2, c2)
  }

  predicate Occurs(s: Step, c: Option<Id>, steps: seq<Step>, chosen: seq<Option<Id>>)
    requires |steps| == |chosen|
  {
    exists j :: 0 <= j < |steps| && steps[j] == s && chosen[j] == c
  }

  lemma OneChoice(landings: map<Id, Landing>, s: Step, c: Option<Id>, c': Option<Id>)
    requires Unambiguous(landings) && MayChoose(landings, s, c) && MayChoose(landings, s, c')
    ensures c == c'
  {
  }

  lemma Included(landings: map<Id, Landing>, s1: seq<Step>, c1: seq<Option<Id>>, s2: seq<Step>, c2: seq<Option<Id>>)
    requires Unambiguous(landings) && Choices(landings, s1, c1) && Choices(landings, s2, c2)
    requires multiset(s1) == multiset(s2)
    ensures Counterparts(s1, c1, s2, c2)
    ensures forall owner, d :: LandedBy(s1, c1, owner, d) ==> LandedBy(s2, c2, owner, d)
  {
    forall i | 0 <= i < |s1| ensures Occurs(s1[i], c1[i], s2, c2) {
      assert s1[i] in multiset(s2);
      var j :| 0 <= j < |s2| && s2[j] == s1[i];
      OneChoice(landings, s1[i], c1[i], c2[j]);
    }
  }

  lemma ExemptIncluded(declared: Declarations, s1: seq<Step>, c1: seq<Option<Id>>,
                       s2: seq<Step>, c2: seq<Option<Id>>, d: Domain)
    requires |s1| == |c1| && |s2| == |c2| && Counterparts(s1, c1, s2, c2) && Counterparts(s2, c2, s1, c1)
    ensures ExemptBy(declared, s1, c1, d) ==> ExemptBy(declared, s2, c2, d)
  {
  }

  /** Some bead bound to the step declared the domain, or some bound bead did not. */
  predicate SomeDeclarer(landings: map<Id, Landing>, declared: Declarations, s: Step, d: Domain) {
    exists id | id in landings :: Binds(landings[id], s) && Declares(declared, id, d)
  }

  predicate SomeSilent(landings: map<Id, Landing>, declared: Declarations, s: Step, d: Domain) {
    (exists id | id in landings :: Binds(landings[id], s) && !Declares(declared, id, d))
    || forall id | id in landings :: !Binds(landings[id], s)
  }

  /** A choice for one step that exempts the domain, or that refuses to, where there is one. */
  ghost function Pick(landings: map<Id, Landing>, declared: Declarations, s: Step, d: Domain,
                      exempting: bool): (c: Option<Id>)
    ensures MayChoose(landings, s, c)
    ensures exempting && SomeDeclarer(landings, declared, s, d) ==> c.Some? && Declares(declared, c.value, d)
    ensures !exempting && SomeSilent(landings, declared, s, d) ==> c.None? || !Declares(declared, c.value, d)
  {
    if exempting && SomeDeclarer(landings, declared, s, d) then
      var id :| id in landings && Binds(landings[id], s) && Declares(declared, id, d);
      Some(id)
    else if !exempting && exists id | id in landings :: Binds(landings[id], s) && !Declares(declared, id, d) then
      var id :| id in landings && Binds(landings[id], s) && !Declares(declared, id, d);
      Some(id)
    else if id :| id in landings && Binds(landings[id], s) then Some(id)
    else None
  }

  ghost predicate MayExempt(landings: map<Id, Landing>, declared: Declarations, steps: seq<Step>, d: Domain) {
    exists chosen :: Choices(landings, steps, chosen) && ExemptBy(declared, steps, chosen, d)
  }

  ghost predicate MayRefuse(landings: map<Id, Landing>, declared: Declarations, steps: seq<Step>, d: Domain) {
    exists chosen :: Choices(landings, steps, chosen) && !ExemptBy(declared, steps, chosen, d)
  }

  /** Whatever the map order, exactly what can come out for a domain: it can be exempt
      when every step touching it has a declaring bead bound to it, */
  lemma ExemptPossible(landings: map<Id, Landing>, declared: Declarations, steps: seq<Step>, d: Domain)
    ensures MayExempt(landings, declared, steps, d)
       <==> Touched(steps, d) && forall i | 0 <= i < |steps| && Touches(steps[i], d) ::
            SomeDeclarer(landings, declared, steps[i], d)
  {
    var granting := seq(|steps|, i requires 0 <= i < |steps| => Pick(landings, declared, steps[i], d, true));
    assert Choices(landings, steps, granting);
    if MayExempt(landings, declared, steps, d) {
      var chosen: seq<Option<Id>> :| Choices(landings, steps, chosen) && ExemptBy(declared, steps, chosen, d);
      forall i | 0 <= i < |steps| && Touches(steps[i], d) ensures SomeDeclarer(landings, declared, steps[i], d) {
        assert MayChoose(landings, steps[i], chosen[i]);
      }
    }
  }

  /** and refused when no step touches it, or some step touching it has no bead bound to
      it or one that did not declare it. Both are possible together only for a step that
      two beads are bound to. */
  lemma RefusalPossible(landings: map<Id, Landing>, declared: Declarations, steps: seq<Step>, d: Domain)
    ensures MayRefuse(landings, declared, steps, d)
       <==> !Touched(steps, d) || exists i | 0 <= i < |steps| && Touches(steps[i], d) ::
            SomeSilent(landings, declared, steps[i], d)
  {
    var refusing := seq(|steps|, i requires 0 <= i < |steps| => Pick(landings, declared, steps[i], d, false));
    assert Choices(landings, steps, refusing);
    if MayRefuse(landings, declared, steps, d) && Touched(steps, d) {
      var chosen: seq<Option<Id>> :| Choices(landings, steps, chosen) && !ExemptBy(declared, steps, chosen, d);
      var i :| 0 <= i < |steps| && Touches(steps[i], d) && !(chosen[i].Some? && Declares(declared, chosen[i].value, d));
      assert MayChoose(landings, steps[i], chosen[i]);
    }
  }

  /** Two beads that recorded the same merge, only one of which declared the domain it
      touches: both outcomes are possible for one and the same input. */
  lemma AmbiguousBindingIsUndetermined()
    ensures exists landings, declared, steps, d, c1, c2 ::
      && Choices(landings, steps, c1) && Choices(landings, steps, c2)
      && ExemptBy(declared, steps, c1, d) && !ExemptBy(declared, steps, c2, d)
  {
    var l := Landing("merge", "head");
    var landings: map<Id, Landing> := map["a" := l, "b" := l];
    var declared: Declarations := map["a" := {"workflow"}, "b" := {}];
    var steps := [Step("merge", ["base", "head"], Impact({}, ["workflow"]))];
    assert Touches(steps[0], "workflow") && Binds(landings["a"], steps[0]) && Binds(landings["b"], steps[0]);
    assert ExemptBy(declared, steps, [Some("a")], "workflow");
    assert !ExemptBy(declared, steps, [Some("b")], "workflow");
    assert Choices(landings, steps, [Some("a")]) && Choices(landings, steps, [Some("b")]);
  }
}
