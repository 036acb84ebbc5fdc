/** The phase of an epic: how it follows from its children, and the decisions of the
    verbs that cache it in the epic's metadata (internal/phase, cmd/mindspec/next.go,
    cmd/mindspec/repair.go, internal/approve/spec.go). */
module PhaseCache {
  import opened Common

  datatype Phase = Idle | Spec | Plan | Implement | Review | Done

  /** mindspec_phase as the lock reads it: missing, present but not a valid phase, or valid. */
  datatype Field = Absent | Invalid | Known(phase: Phase)

  datatype Kind = Lifecycle | FollowUp | Structural

  datatype BeadStatus = Open | InProgress | Closed | OtherStatus

  datatype Child = Child(kind: Kind, status: BeadStatus)

  // ----- Derivation -----

  predicate Has(cs: seq<Child>, st: BeadStatus) {
    exists i | 0 <= i < |cs| :: cs[i].kind.Lifecycle? && cs[i].status == st
  }

  predicate AllHave(cs: seq<Child>, st: BeadStatus) {
    forall i | 0 <= i < |cs| && cs[i].kind.Lifecycle? :: cs[i].status == st
  }

  predicate NoLifecycle(cs: seq<Child>) {
    forall i | 0 <= i < |cs| :: !cs[i].kind.Lifecycle?
  }

  /** The phase the children stand for; only lifecycle children matter. */
  function Derive(cs: seq<Child>): Phase {
    if NoLifecycle(cs) then Plan
    else if Has(cs, InProgress) then Implement
    else if AllHave(cs, Closed) then Review
    else if Has(cs, Closed) then Implement
    else Plan
  }

  /** In terms of the lifecycle children there are: review when all of them are closed and
      there is one, implement when one is in progress or some but not all are closed, plan
      when none is either. */
  lemma DerivedExactly(cs: seq<Child>)
    ensures Derive(cs) == Review <==>
      && (exists c | c in cs :: c.kind == Lifecycle)
      && (forall c | c in cs && c.kind == Lifecycle :: c.status == Closed)
    ensures Derive(cs) == Implement <==>
      || Child(Lifecycle, InProgress) in cs
      || (Child(Lifecycle, Closed) in cs && exists c | c in cs :: c.kind == Lifecycle && c.status != Closed)
    ensures Derive(cs) == Plan <==> Child(Lifecycle, InProgress) !in cs && Child(Lifecycle, Closed) !in cs
  {
    forall st ensures Has(cs, st) <==> Child(Lifecycle, st) in cs {
      if Child(Lifecycle, st) in cs {
        var i :| 0 <= i < |cs| && cs[i] == Child(Lifecycle, st);
        assert cs[i].kind.Lifecycle? && cs[i].status == st;
      }
    }
    if c :| c in cs && c.kind == Lifecycle { var i :| 0 <= i < |cs| && cs[i] == c; }
  }

  /** DerivePhaseFromChildren: three counters over the children. */
  method DerivePhaseFromChildren(cs: seq<Child>) returns (p: Phase)
    ensures p == Derive(cs)
  {
    var closed, inProgress, total := 0, 0, 0;
    for i := 0 to |cs|
      invariant total == 0 <==> NoLifecycle(cs[..i])
      invariant 0 <= closed <= total && 0 <= inProgress
      invariant inProgress > 0 <==> Has(cs[..i], InProgress)
      invariant closed > 0 <==> Has(cs[..i], Closed)
      invariant closed == total <==> AllHave(cs[..i], Closed)
    {
      var before, c := cs[..i], cs[i];
      assert cs[..i + 1] == before + [c];
      assert forall k | 0 <= k < i :: cs[..i + 1][k] == before[k];
      if c.kind.Lifecycle? {
        total := total + 1;
        assert cs[..i + 1][i] == c;
        match c.status
        case Closed => closed := closed + 1;
        case InProgress => inProgress := inProgress + 1;
        case _ =>
      }
    }
    assert cs[..|cs|] == cs;
    if total == 0 { return Plan; }
    if inProgress > 0 { return Implement; }
    if closed == total { return Review; }
    if closed > 0 { return Implement; }
    return Plan;
  }

  /** The derivation depends on the lifecycle children as a collection: follow-ups
      and the order of the children make no difference. */
  lemma DeriveIsSetBased(cs: seq<Child>, ds: seq<Child>)
    requires forall st :: Child(Lifecycle, st) in cs <==> Child(Lifecycle, st) in ds
    ensures Derive(cs) == Derive(ds)
  {
  }

  // ----- Lifecycle order -----

  function Rank(p: Phase): Option<nat> {
    match p
    case Idle => None
    case Spec => Some(0)
    case Plan => Some(1)
    case Implement => Some(2)
    case Review => Some(3)
    case Done => Some(4)
  }

  function RankOf(f: Field): Option<nat> {
    if f.Known? then Rank(f.phase) else None
  }

  /** IsBackwardMove: phases that cannot be compared count as backward. */
  predicate IsBackwardMove(from: Field, to: Phase) {
    RankOf(from).None? || Rank(to).None? || Rank(to).value < RankOf(from).value
  }

  /** A move is not backward exactly when it stays or goes on in the lifecycle. */
  lemma BackwardExactly(from: Field, to: Phase)
    ensures !IsBackwardMove(from, to) <==>
      exists i, j | 0 <= i <= j < 5 ::
        var lifecycle := [Spec, Plan, Implement, Review, Done];
        from == Known(lifecycle[i]) && to == lifecycle[j]
  {
    var lifecycle := [Spec, Plan, Implement, Review, Done];
    assert forall i: nat | i < 5 :: Rank(lifecycle[i]) == Some(i);
    if !IsBackwardMove(from, to) {
      var i, j := Rank(from.phase).value, Rank(to).value;
      assert from == Known(lifecycle[i]) && to == lifecycle[j];
    }
  }

  // ----- Decisions inside the lock -----

  /** The locked sections of the phase writers. */
  datatype Section =
    | Semantics                  // EnsurePhaseSemanticsV2
    | ClaimAdvance               // advancePhaseOnClaim
    | ReleaseSync                // SanctionedDerivedSync
    | Repair(force: bool)        // repair phase
    | ReplayBackfill             // backfillExistingEpicPhase
    | Migrate                    // EnsureMigratedWithCache
    | PlanWrite                  // plan approve, after its beads are created
    | Precomputed(target: Phase) // complete, impl approve: the value was derived before the lock
    | Terminal                   // impl approve, impl adopt: the phase done

  datatype Decision = Decision(write: Option<Phase>, mark: bool)

  const NoWrite := Decision(None, false)

  predicate LegacySignature(stored: Field, cs: seq<Child>) {
    stored == Known(Implement) && !NoLifecycle(cs) && AllHave(cs, Open)
  }

  /** What a section writes, from the stored value and marker the lock read and the
      children it reads inside the lock. done is the epic's terminal marker together
      with its closed status, which only repair consults. */
  function Decide(sec: Section, stored: Field, marker: bool, done: bool, cs: seq<Child>): Decision {
    match sec
    case Semantics =>
      if marker then NoWrite
      else if LegacySignature(stored, cs) then Decision(Some(Plan), true)
      else Decision(None, true)
    case ClaimAdvance =>
      if stored == Known(Implement) then NoWrite
      else if Derive(cs) != Implement then NoWrite
      else Decision(Some(Implement), false)
    case ReleaseSync => Decision(Some(Derive(cs)), false)
    case Repair(force) =>
      var derived := if done then Done else Derive(cs);
      if IsBackwardMove(stored, derived) && !force then NoWrite else Decision(Some(derived), false)
    case ReplayBackfill =>
      if stored == Absent then Decision(Some(Plan), false) else NoWrite
    case Migrate =>
      if stored == Absent then Decision(Some(Derive(cs)), false) else NoWrite
    case PlanWrite =>
      if stored != Absent && IsBackwardMove(stored, Plan) then NoWrite else Decision(Some(Plan), false)
    case Precomputed(target) => Decision(Some(target), false)
    case Terminal => Decision(Some(Done), false)
  }

  /** repair phase answers for a finished epic by its terminal marker and not by its
      children: it stores done, unless it is unforced and the stored phase is missing,
      invalid or idle. */
  lemma RepairOfFinished(force: bool, stored: Field, marker: bool, cs: seq<Child>)
    ensures Decide(Repair(force), stored, marker, true, cs).write ==
      if force || stored in {Known(Spec), Known(Plan), Known(Implement), Known(Review), Known(Done)}
      then Some(Done) else None
  {
  }

  /** And for any other by its children: forced it stores what they derive to, unforced
      only what the stored phase does not lie ahead of. */
  lemma RepairOfUnfinished(force: bool, stored: Field, marker: bool, cs: seq<Child>)
    ensures Decide(Repair(force), stored, marker, false, cs).write == Some(Derive(cs)) <==>
      || force || stored in {Known(Spec), Known(Plan)}
      || (stored == Known(Implement) && Derive(cs) in {Implement, Review})
      || (stored == Known(Review) && Derive(cs) == Review)
    ensures Decide(Repair(force), stored, marker, false, cs).write in {None, Some(Derive(cs))}
  {
  }

  /** The semantics rewrite: once, and only over a stored implement with lifecycle
      children that are all open. */
  lemma SemanticsExactly(stored: Field, marker: bool, done: bool, cs: seq<Child>)
    ensures Decide(Semantics, stored, marker, done, cs).mark == !marker
    ensures Decide(Semantics, stored, marker, done, cs).write ==
      if !marker && stored == Known(Implement) && (exists c | c in cs :: c.kind == Lifecycle)
         && forall c | c in cs && c.kind == Lifecycle :: c.status == Open
      then Some(Plan) else None
  {
    hide Derive;
    if c :| c in cs && c.kind == Lifecycle { var i :| 0 <= i < |cs| && cs[i] == c; }
    assert AllHave(cs, Open) <==> forall c | c in cs && c.kind == Lifecycle :: c.status == Open;
  }

  /** What the other sections store, from the phase and the marker read under the lock. */
  lemma SectionsExactly(stored: Field, marker: bool, done: bool, cs: seq<Child>)
    ensures Decide(ClaimAdvance, stored, marker, done, cs).write ==
      if stored != Known(Implement) && Derive(cs) == Implement then Some(Implement) else None
    ensures Decide(ReleaseSync, stored, marker, done, cs).write == Some(Derive(cs))
    ensures Decide(ReplayBackfill, stored, marker, done, cs).write == if stored == Absent then Some(Plan) else None
    ensures Decide(Migrate, stored, marker, done, cs).write == if stored == Absent then Some(Derive(cs)) else None
    ensures Decide(PlanWrite, stored, marker, done, cs).write ==
      if stored in {Absent, Known(Spec), Known(Plan)} then Some(Plan) else None
    ensures Decide(Terminal, stored, marker, done, cs).write == Some(Done)
    ensures forall target :: Decide(Precomputed(target), stored, marker, done, cs).write == Some(target)
    ensures forall sec: Section | !sec.Semantics? :: !Decide(sec, stored, marker, done, cs).mark
  {
    hide Derive;
  }

  /** The legacy rewrite only ever writes the phase the children stand for. */
  lemma LegacyRewriteAgrees(stored: Field, cs: seq<Child>)
    requires LegacySignature(stored, cs)
    ensures Derive(cs) == Plan
  {
  }
}
