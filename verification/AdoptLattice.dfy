/** The evidence an adopt needs: five-way aggregation over the remote spec branch and the
    epic's bead branches (internal/approve/adopt_lattice.go). */
module AdoptLattice {
  import opened Common

  /** How merging a ref into main would end; failing to tell is an error of its own. */
  datatype Probe = Ancestor | Superseded | StaleDeletion | Clean | EvaluationFailed

  datatype Evidence = Positive | Negative | Error

  datatype Remote = ConfigUnreadable | NotConfigured | FetchFailed | Fetched(tip: Probe)

  datatype Branch = MalformedId | ExistenceUnknown | NoBranch | Surviving(tip: Probe)

  /** What looking for a bead's landed merge on the fetched spec ref gives. */
  datatype LandedMerge = NotFound | LookupFailed | Found(merge: Probe)

  datatype Bead = Bead(branch: Branch, landed: LandedMerge)

  datatype Class = Verified | NegativeEvidence | SourcesConflict | EvidenceError | CoverageUnavailable

  datatype Trigger = NoSource | NegativeTrigger | ErrorTrigger

  /** The aggregate, and the bead its message names. */
  datatype Result = Result(cls: Class, bead: Option<nat>)

  function EvaluateAgainstMain(p: Probe): Evidence {
    match p
    case Ancestor => Positive
    case Superseded => Positive
    case StaleDeletion => Negative
    case Clean => Negative
    case EvaluationFailed => Error
  }

  /** None: no remote is configured, so this source does not exist. */
  function RemoteEvidence(r: Remote): Option<Evidence> {
    match r
    case ConfigUnreadable => Some(Error)
    case NotConfigured => None
    case FetchFailed => Some(Error)
    case Fetched(tip) => Some(EvaluateAgainstMain(tip))
  }

  /** None: the bead has no surviving branch. */
  function BranchEvidence(b: Bead): Option<Evidence> {
    match b.branch
    case MalformedId => Some(Error)
    case ExistenceUnknown => Some(Error)
    case NoBranch => None
    case Surviving(tip) => Some(EvaluateAgainstMain(tip))
  }

  function TriggerOf(c: Class): Option<Trigger> {
    match c
    case Verified => None
    case NegativeEvidence => Some(NegativeTrigger)
    case SourcesConflict => Some(NegativeTrigger)
    case EvidenceError => Some(ErrorTrigger)
    case CoverageUnavailable => Some(NoSource)
  }

  // ----- What the classes mean -----

  predicate SomeBead(beads: seq<Bead>, e: Evidence) {
    exists i | 0 <= i < |beads| :: BranchEvidence(beads[i]) == Some(e)
  }

  predicate HasRoute(r: Remote, beads: seq<Bead>) {
    RemoteEvidence(r) == Some(Positive) || exists i | 0 <= i < |beads| :: beads[i].branch.Surviving?
  }

  /** A bead without a branch that nothing else covers. */
  predicate Gap(r: Remote, b: Bead) {
    b.branch.NoBranch?
    && !(RemoteEvidence(r) == Some(Positive) && b.landed.Found? && EvaluateAgainstMain(b.landed.merge) == Positive)
  }

  /** A gap because something failed, rather than because evidence is missing. */
  predicate ErrorGap(r: Remote, b: Bead) {
    Gap(r, b) && RemoteEvidence(r) == Some(Positive)
    && (b.landed.LookupFailed? || (b.landed.Found? && EvaluateAgainstMain(b.landed.merge) == Error))
  }

  predicate Covered(r: Remote, beads: seq<Bead>) {
    forall i | 0 <= i < |beads| :: !Gap(r, beads[i])
  }

  /** The remote source is absent or positive, every surviving branch is positive, every
      branchless bead has a positive remote and a landed merge that is positive, and there
      is some route at all. */
  predicate AllEvidenced(r: Remote, beads: seq<Bead>) {
    && RemoteEvidence(r) in {None, Some(Positive)}
    && (forall i | 0 <= i < |beads| :: BranchEvidence(beads[i]) in {None, Some(Positive)})
    && Covered(r, beads) && HasRoute(r, beads)
  }

  predicate FirstGap(r: Remote, beads: seq<Bead>, k: nat) {
    k < |beads| && Gap(r, beads[k]) && forall i | 0 <= i < k :: !Gap(r, beads[i])
  }

  /** The first gap is one where something failed, or is one of missing evidence. */
  ghost predicate StopsAt(r: Remote, beads: seq<Bead>, failed: bool) {
    exists k: nat :: FirstGap(r, beads, k) && ErrorGap(r, beads[k]) == failed
  }

  predicate AnyNegative(r: Remote, beads: seq<Bead>) {
    RemoteEvidence(r) == Some(Negative) || SomeBead(beads, Negative)
  }

  predicate AnyError(r: Remote, beads: seq<Bead>) {
    RemoteEvidence(r) == Some(Error) || SomeBead(beads, Error)
  }

  predicate Conflict(r: Remote, beads: seq<Bead>) {
    RemoteEvidence(r) == Some(Positive) && SomeBead(beads, Negative)
  }

  /** The class, without a scan: what each of the five states says about the evidence. */
  ghost predicate ClassMeans(r: Remote, beads: seq<Bead>, c: Class) {
    match c
    case Verified => AllEvidenced(r, beads)
    case SourcesConflict => Conflict(r, beads)
    case NegativeEvidence => AnyNegative(r, beads) && !Conflict(r, beads)
    case EvidenceError => !AnyNegative(r, beads) && (AnyError(r, beads) || StopsAt(r, beads, true))
    case CoverageUnavailable =>
      && !AnyNegative(r, beads) && !AnyError(r, beads)
      && (if Covered(r, beads) then !HasRoute(r, beads) else StopsAt(r, beads, false))
  }

  /** Exactly one class fits. */
  lemma ClassIsUnique(r: Remote, beads: seq<Bead>, c: Class, c': Class)
    requires ClassMeans(r, beads, c) && ClassMeans(r, beads, c')
    ensures c == c'
  {
  }

  // ----- The classes in terms of what was probed -----

  /** Every bead is accounted for: its surviving branch is on main or superseded there, or
      it has none and the fetched spec branch and its landed merge on it are. */
  predicate Accounted(r: Remote, b: Bead) {
    match b.branch
    case Surviving(tip) => tip in {Ancestor, Superseded}
    case NoBranch => r in {Fetched(Ancestor), Fetched(Superseded)} && b.landed in {Found(Ancestor), Found(Superseded)}
    case _ => false
  }

  /** VERIFIED says that nothing is missing from main: the spec branch is there if a remote
      is configured, and so is the work of every bead, and something was consulted. */
  lemma VerifiedExactly(r: Remote, beads: seq<Bead>)
    ensures ClassMeans(r, beads, Verified) <==>
      && r in {NotConfigured, Fetched(Ancestor), Fetched(Superseded)}
      && (forall b | b in beads :: Accounted(r, b))
      && (r.NotConfigured? ==> exists b | b in beads :: b.branch.Surviving?)
  {
    assert forall i | 0 <= i < |beads| :: beads[i] in beads;
    if !r.NotConfigured? || exists b | b in beads :: b.branch.Surviving? {
      if r.NotConfigured? {
        var b :| b in beads && b.branch.Surviving?;
        var i :| 0 <= i < |beads| && beads[i] == b;
      }
    }
  }

  /** Negative or conflicting: some consulted tip would still have to be merged, or would
      bring deleted content back. */
  lemma NegativeExactly(r: Remote, beads: seq<Bead>)
    ensures ClassMeans(r, beads, NegativeEvidence) || ClassMeans(r, beads, SourcesConflict) <==>
      || r in {Fetched(StaleDeletion), Fetched(Clean)}
      || exists b | b in beads :: b.branch in {Surviving(StaleDeletion), Surviving(Clean)}
    ensures ClassMeans(r, beads, SourcesConflict) <==>
      && r in {Fetched(Ancestor), Fetched(Superseded)}
      && exists b | b in beads :: b.branch in {Surviving(StaleDeletion), Surviving(Clean)}
  {
    NegativeBead(beads);
  }

  lemma NegativeBead(beads: seq<Bead>)
    ensures SomeBead(beads, Negative) <==>
      exists b | b in beads :: b.branch in {Surviving(StaleDeletion), Surviving(Clean)}
    ensures SomeBead(beads, Error) <==>
      exists b | b in beads :: b.branch in {MalformedId, ExistenceUnknown, Surviving(EvaluationFailed)}
  {
    assert forall i | 0 <= i < |beads| :: beads[i] in beads;
    if b :| b in beads && b.branch in {Surviving(StaleDeletion), Surviving(Clean)} {
      var i :| 0 <= i < |beads| && beads[i] == b;
      assert BranchEvidence(beads[i]) == Some(Negative);
    }
    if b :| b in beads && b.branch in {MalformedId, ExistenceUnknown, Surviving(EvaluationFailed)} {
      var i :| 0 <= i < |beads| && beads[i] == b;
      assert BranchEvidence(beads[i]) == Some(Error);
    }
  }

  /** Some read of the first scan failed. */
  predicate ReadFailed(r: Remote, beads: seq<Bead>) {
    || r in {ConfigUnreadable, FetchFailed, Fetched(EvaluationFailed)}
    || exists b | b in beads :: b.branch in {MalformedId, ExistenceUnknown, Surviving(EvaluationFailed)}
  }

  /** Bead k is the first that is not accounted for. */
  predicate FirstMissing(r: Remote, beads: seq<Bead>, k: nat) {
    k < |beads| && !Accounted(r, beads[k]) && forall i | 0 <= i < k :: Accounted(r, beads[i])
  }

  /** The other two classes, when nothing consulted is negative: an error when a read of
      the first scan failed, or, past that, when looking for the landed merge of the first
      bead not accounted for did; missing coverage otherwise. */
  lemma ErrorExactly(r: Remote, beads: seq<Bead>)
    requires r !in {Fetched(StaleDeletion), Fetched(Clean)}
    requires forall b | b in beads :: b.branch !in {Surviving(StaleDeletion), Surviving(Clean)}
    ensures AnyError(r, beads) <==> ReadFailed(r, beads)
    ensures ClassMeans(r, beads, EvidenceError) <==>
      || ReadFailed(r, beads)
      || exists k: nat :: FirstMissing(r, beads, k)
           && r in {Fetched(Ancestor), Fetched(Superseded)}
           && beads[k].landed in {LookupFailed, Found(EvaluationFailed)}
    ensures ClassMeans(r, beads, CoverageUnavailable) <==>
      && !ClassMeans(r, beads, EvidenceError)
      && ((beads == [] && r.NotConfigured?) || exists b | b in beads :: !Accounted(r, b))
  {
    hide Gap, Accounted, Covered, HasRoute, StopsAt, FirstMissing;
    NegativeBead(beads);
    if !ReadFailed(r, beads) {
      StopsExactly(r, beads);
      CoveredExactly(r, beads);
    }
  }

  /** Past the first scan, the first gap is an error as its landed merge says. */
  lemma StopsExactly(r: Remote, beads: seq<Bead>)
    requires !ReadFailed(r, beads) && r !in {Fetched(StaleDeletion), Fetched(Clean)}
    requires forall b | b in beads :: b.branch !in {Surviving(StaleDeletion), Surviving(Clean)}
    ensures StopsAt(r, beads, true) <==>
      exists k: nat :: FirstMissing(r, beads, k)
        && r in {Fetched(Ancestor), Fetched(Superseded)}
        && beads[k].landed in {LookupFailed, Found(EvaluationFailed)}
    ensures if Covered(r, beads) then !StopsAt(r, beads, true) else StopsAt(r, beads, true) != StopsAt(r, beads, false)
  {
    hide ReadFailed, Gap, Accounted, FirstMissing, ErrorGap;
    GapsAreMissing(r, beads);
    FirstGapExists(r, beads, |beads|);
  }

  /** And nothing is a gap exactly when every bead is accounted for. */
  lemma CoveredExactly(r: Remote, beads: seq<Bead>)
    requires !ReadFailed(r, beads) && r !in {Fetched(StaleDeletion), Fetched(Clean)}
    requires forall b | b in beads :: b.branch !in {Surviving(StaleDeletion), Surviving(Clean)}
    ensures Covered(r, beads) <==> forall b | b in beads :: Accounted(r, b)
    ensures Covered(r, beads) ==> (HasRoute(r, beads) <==> beads != [] || !r.NotConfigured?)
  {
    hide ReadFailed, Gap, Accounted;
    GapsAreMissing(r, beads);
    assert forall i | 0 <= i < |beads| :: beads[i] in beads;
    if Covered(r, beads) {
      forall b | b in beads ensures Accounted(r, b) {
        var i :| 0 <= i < |beads| && beads[i] == b;
        assert !Gap(r, beads[i]);
      }
      if beads != [] { assert !Gap(r, beads[0]); }
    }
  }

  /** Past the first scan the beads not accounted for are the gaps, and a gap is one where
      something failed as its landed merge says. */
  lemma GapsAreMissing(r: Remote, beads: seq<Bead>)
    requires !ReadFailed(r, beads) && r !in {Fetched(StaleDeletion), Fetched(Clean)}
    requires forall b | b in beads :: b.branch !in {Surviving(StaleDeletion), Surviving(Clean)}
    ensures forall i | 0 <= i < |beads| :: Gap(r, beads[i]) <==> !Accounted(r, beads[i])
    ensures forall i | 0 <= i < |beads| :: Accounted(r, beads[i]) && r.NotConfigured? ==> beads[i].branch.Surviving?
    ensures forall i | 0 <= i < |beads| && Gap(r, beads[i]) :: ErrorGap(r, beads[i]) <==>
      r in {Fetched(Ancestor), Fetched(Superseded)} && beads[i].landed in {LookupFailed, Found(EvaluationFailed)}
    ensures forall k: nat :: FirstGap(r, beads, k) <==> FirstMissing(r, beads, k)
    ensures RemoteEvidence(r) == Some(Positive) <==> !r.NotConfigured?
  {
    forall i | 0 <= i < |beads|
      ensures Gap(r, beads[i]) <==> !Accounted(r, beads[i])
      ensures Accounted(r, beads[i]) && r.NotConfigured? ==> beads[i].branch.Surviving?
    {
      assert beads[i] in beads;
      GapIsMissing(r, beads[i]);
    }
  }

  lemma GapIsMissing(r: Remote, b: Bead)
    requires b.branch !in {MalformedId, ExistenceUnknown, Surviving(EvaluationFailed)}
    requires b.branch !in {Surviving(StaleDeletion), Surviving(Clean)}
    ensures Gap(r, b) <==> !Accounted(r, b)
    ensures Accounted(r, b) && r.NotConfigured? ==> b.branch.Surviving?
  {
    if b.branch.Surviving? {
      var tip := b.branch.tip;
      assert b.branch == Surviving(tip);
      assert tip != StaleDeletion && tip != Clean && tip != EvaluationFailed;
    }
  }

  lemma {:induction false} FirstGapExists(r: Remote, beads: seq<Bead>, n: nat)
    requires n <= |beads|
    ensures (forall i | 0 <= i < n :: !Gap(r, beads[i])) || exists k: nat :: FirstGap(r, beads, k)
  {
    if n > 0 {
      FirstGapExists(r, beads, n - 1);
      if (forall i | 0 <= i < n - 1 :: !Gap(r, beads[i])) && Gap(r, beads[n - 1]) { assert FirstGap(r, beads, n - 1); }
    }
  }

  // ----- The scan -----

  predicate FirstWith(beads: seq<Bead>, e: Evidence, k: nat) {
    k < |beads| && BranchEvidence(beads[k]) == Some(e) && forall i | 0 <= i < k :: BranchEvidence(beads[i]) != Some(e)
  }

  datatype BeadEval = BeadEval(hasBranch: bool, state: Evidence)

  function Eval(b: Bead): BeadEval {
    match b.branch
    case MalformedId => BeadEval(false, Error)
    case ExistenceUnknown => BeadEval(false, Error)
    case NoBranch => BeadEval(false, Positive)
    case Surviving(tip) => BeadEval(true, EvaluateAgainstMain(tip))
  }

  /** The first scan: each bead's branch, with the running flags. */
  method ScanBeads(r: Remote, beads: seq<Bead>)
    returns (evals: seq<BeadEval>, anyNegative: bool, anyError: bool, negativeAt: Option<nat>, errorAt: Option<nat>)
    ensures |evals| == |beads| && forall i | 0 <= i < |beads| :: evals[i] == Eval(beads[i])
    ensures anyNegative <==> AnyNegative(r, beads)
    ensures anyError <==> AnyError(r, beads)
    ensures negativeAt == None <==> RemoteEvidence(r) == Some(Negative) || !SomeBead(beads, Negative)
    ensures negativeAt.Some? ==> FirstWith(beads, Negative, negativeAt.value)
    ensures errorAt == None <==> RemoteEvidence(r) == Some(Error) || !SomeBead(beads, Error)
    ensures errorAt.Some? ==> FirstWith(beads, Error, errorAt.value)
  {
    evals := [];
    anyNegative, anyError := RemoteEvidence(r) == Some(Negative), RemoteEvidence(r) == Some(Error);
    negativeAt, errorAt := None, None;
    for i := 0 to |beads|
      invariant |evals| == i && forall j | 0 <= j < i :: evals[j] == Eval(beads[j])
      invariant anyNegative <==>
        RemoteEvidence(r) == Some(Negative) || exists j | 0 <= j < i :: BranchEvidence(beads[j]) == Some(Negative)
      invariant anyError <==>
        RemoteEvidence(r) == Some(Error) || exists j | 0 <= j < i :: BranchEvidence(beads[j]) == Some(Error)
      invariant negativeAt == None <==> RemoteEvidence(r) == Some(Negative) || !anyNegative
      invariant negativeAt.Some? ==> negativeAt.value < i && FirstWith(beads, Negative, negativeAt.value)
      invariant errorAt == None <==> RemoteEvidence(r) == Some(Error) || !anyError
      invariant errorAt.Some? ==> errorAt.value < i && FirstWith(beads, Error, errorAt.value)
    {
      var b := beads[i];
      if b.branch.MalformedId? || b.branch.ExistenceUnknown? {
        if !anyError { errorAt := Some(i); }
        anyError := true;
        evals := evals + [BeadEval(false, Error)];
      } else if b.branch.NoBranch? {
        evals := evals + [BeadEval(false, Positive)];
      } else {
        var st := EvaluateAgainstMain(b.branch.tip);
        if st == Error {
          if !anyError { errorAt := Some(i); }
          anyError := true;
        } else if st == Negative {
          if !anyNegative { negativeAt := Some(i); }
          anyNegative := true;
        }
        evals := evals + [BeadEval(true, st)];
      }
    }
  }

  /** evaluateAdoptLattice: the listing may fail, and then nothing else is consulted. */
  method EvaluateAdoptLattice(r: Remote, listed: Option<seq<Bead>>) returns (res: Result)
    ensures listed.None? ==> res == Result(EvidenceError, None)
    ensures listed.Some? ==> ClassMeans(r, listed.value, res.cls)
    ensures listed.Some? ==> (res.cls.Verified? <==>
      && r in {NotConfigured, Fetched(Ancestor), Fetched(Superseded)}
      && (forall b | b in listed.value :: Accounted(r, b))
      && (r.NotConfigured? ==> exists b | b in listed.value :: b.branch.Surviving?))
    ensures listed.Some? ==> (res.cls in {NegativeEvidence, SourcesConflict} <==>
      || r in {Fetched(StaleDeletion), Fetched(Clean)}
      || exists b | b in listed.value :: b.branch in {Surviving(StaleDeletion), Surviving(Clean)})
    ensures listed.Some? && ReadFailed(r, listed.value) ==>
      res.cls in {NegativeEvidence, SourcesConflict, EvidenceError}
    ensures listed.Some? && res.cls in {NegativeEvidence, SourcesConflict} && res.bead.Some? ==>
      && res.bead.value < |listed.value|
      && listed.value[res.bead.value].branch in {Surviving(StaleDeletion), Surviving(Clean)}
      && forall i | 0 <= i < res.bead.value :: listed.value[i].branch !in {Surviving(StaleDeletion), Surviving(Clean)}
    ensures listed.Some? && res.cls.SourcesConflict? ==>
      res.bead.Some? && FirstWith(listed.value, Negative, res.bead.value)
    ensures listed.Some? && res.cls.NegativeEvidence? && RemoteEvidence(r) != Some(Negative) ==>
      res.bead.Some? && FirstWith(listed.value, Negative, res.bead.value)
    ensures listed.Some? && res.cls.CoverageUnavailable? && !Covered(r, listed.value) ==>
      res.bead.Some? && FirstGap(r, listed.value, res.bead.value)
  {
    if listed.Some? { ClassesExactly(r, listed.value); }
    hide ClassMeans, Accounted, ReadFailed;
    var srcI := RemoteEvidence(r);
    if listed == None { return Result(EvidenceError, None); }
    res := Aggregate(r, listed.value, srcI);
    if res.cls in {NegativeEvidence, SourcesConflict} && res.bead.Some? {
      FirstNegativeExactly(listed.value, res.bead.value);
    }
  }

  lemma FirstNegativeExactly(beads: seq<Bead>, k: nat)
    requires FirstWith(beads, Negative, k)
    ensures beads[k].branch in {Surviving(StaleDeletion), Surviving(Clean)}
    ensures forall i | 0 <= i < k :: beads[i].branch !in {Surviving(StaleDeletion), Surviving(Clean)}
  {
    var tip := beads[k].branch.tip;
    assert beads[k].branch == Surviving(tip) && tip in {StaleDeletion, Clean};
    forall i | 0 <= i < k ensures beads[i].branch !in {Surviving(StaleDeletion), Surviving(Clean)} {
      assert BranchEvidence(beads[i]) != Some(Negative);
    }
  }

  lemma ClassesExactly(r: Remote, beads: seq<Bead>)
    ensures forall c | ClassMeans(r, beads, c) :: (c == Verified <==>
      && r in {NotConfigured, Fetched(Ancestor), Fetched(Superseded)}
      && (forall b | b in beads :: Accounted(r, b))
      && (r.NotConfigured? ==> exists b | b in beads :: b.branch.Surviving?))
    ensures forall c | ClassMeans(r, beads, c) :: (c in {NegativeEvidence, SourcesConflict} <==>
      || r in {Fetched(StaleDeletion), Fetched(Clean)}
      || exists b | b in beads :: b.branch in {Surviving(StaleDeletion), Surviving(Clean)})
    ensures ReadFailed(r, beads) ==>
      forall c | ClassMeans(r, beads, c) :: c in {NegativeEvidence, SourcesConflict, EvidenceError}
  {
    VerifiedExactly(r, beads);
    NegativeExactly(r, beads);
    NegativeBead(beads);
    forall c, c' | ClassMeans(r, beads, c) && ClassMeans(r, beads, c') ensures c == c' {
      ClassIsUnique(r, beads, c, c');
    }
    assert ReadFailed(r, beads) ==> AnyError(r, beads);
    assert AnyError(r, beads) ==> !ClassMeans(r, beads, CoverageUnavailable) && !ClassMeans(r, beads, Verified);
  }

  /** The rules of the aggregation, in their order. */
  method Aggregate(r: Remote, beads: seq<Bead>, srcI: Option<Evidence>) returns (res: Result)
    requires srcI == RemoteEvidence(r)
    ensures ClassMeans(r, beads, res.cls)
    ensures res.cls.SourcesConflict? ==> res.bead.Some? && FirstWith(beads, Negative, res.bead.value)
    ensures res.cls.NegativeEvidence? && srcI != Some(Negative) ==>
      res.bead.Some? && FirstWith(beads, Negative, res.bead.value)
    ensures res.cls.NegativeEvidence? && srcI == Some(Negative) ==> res.bead.None?
    ensures res.cls.CoverageUnavailable? && !Covered(r, beads) ==> res.bead.Some? && FirstGap(r, beads, res.bead.value)
  {
    var evals, anyNegative, anyError, negativeAt, errorAt := ScanBeads(r, beads);
    if srcI == Some(Positive) {
      for i := 0 to |evals|
        invariant forall j | 0 <= j < i :: BranchEvidence(beads[j]) != Some(Negative)
      {
        if evals[i].hasBranch && evals[i].state == Negative { return Result(SourcesConflict, Some(i)); }
      }
    }
    if anyNegative { return Result(NegativeEvidence, negativeAt); }
    if anyError { return Result(EvidenceError, errorAt); }
    res := CheckCoverage(r, beads, evals);
  }

  /** The coverage stage, reached when nothing evaluated is negative or failed. */
  method CheckCoverage(r: Remote, beads: seq<Bead>, evals: seq<BeadEval>) returns (res: Result)
    requires |evals| == |beads| && forall i | 0 <= i < |beads| :: evals[i] == Eval(beads[i])
    requires !AnyNegative(r, beads) && !AnyError(r, beads)
    ensures ClassMeans(r, beads, res.cls)
    ensures res.cls in {Verified, EvidenceError, CoverageUnavailable}
    ensures res.cls.CoverageUnavailable? && !Covered(r, beads) ==> res.bead.Some? && FirstGap(r, beads, res.bead.value)
  {
    var srcIPositive := RemoteEvidence(r) == Some(Positive);
    var haveAnyRoute := srcIPositive;
    for i := 0 to |evals|
      invariant forall j | 0 <= j < i :: !Gap(r, beads[j])
      invariant haveAnyRoute <==> srcIPositive || exists j | 0 <= j < i :: beads[j].branch.Surviving?
    {
      assert BranchEvidence(beads[i]) != Some(Error) && BranchEvidence(beads[i]) != Some(Negative);
      if evals[i].hasBranch {
        haveAnyRoute := true;
      } else {
        assert Gap(r, beads[i]) ==> FirstGap(r, beads, i);
        if !srcIPositive { return Result(CoverageUnavailable, Some(i)); }
        var landed := beads[i].landed;
        if landed.NotFound? { return Result(CoverageUnavailable, Some(i)); }
        if landed.LookupFailed? { return Result(EvidenceError, Some(i)); }
        var st := EvaluateAgainstMain(landed.merge);
        if st == Error { return Result(EvidenceError, Some(i)); }
        if st != Positive { return Result(CoverageUnavailable, Some(i)); }
        haveAnyRoute := true;
      }
    }
    res := if haveAnyRoute then Result(Verified, None) else Result(CoverageUnavailable, None);
  }

  // ----- The order in which the beads are listed -----

  lemma Counterpart(beads: seq<Bead>, beads': seq<Bead>, i: nat) returns (j: nat)
    requires multiset(beads) == multiset(beads') && i < |beads|
    ensures j < |beads'| && beads'[j] == beads[i]
  {
    assert beads[i] in multiset(beads');
    j :| j < |beads'| && beads'[j] == beads[i];
  }

  lemma EvidenceCarries(beads: seq<Bead>, beads': seq<Bead>, e: Evidence)
    requires multiset(beads) == multiset(beads') && SomeBead(beads, e)
    ensures SomeBead(beads', e)
  {
    var i :| 0 <= i < |beads| && BranchEvidence(beads[i]) == Some(e);
    var j := Counterpart(beads, beads', i);
  }

  lemma RouteCarries(r: Remote, beads: seq<Bead>, beads': seq<Bead>)
    requires multiset(beads) == multiset(beads') && HasRoute(r, beads)
    ensures HasRoute(r, beads')
  {
    if RemoteEvidence(r) != Some(Positive) {
      var i :| 0 <= i < |beads| && beads[i].branch.Surviving?;
      var j := Counterpart(beads, beads', i);
    }
  }

  lemma CoverageCarries(r: Remote, beads: seq<Bead>, beads': seq<Bead>)
    requires multiset(beads) == multiset(beads') && Covered(r, beads)
    ensures Covered(r, beads')
  {
    forall i: nat | i < |beads'| ensures !Gap(r, beads'[i]) { var j := Counterpart(beads', beads, i); }
  }

  lemma SameParts(r: Remote, beads: seq<Bead>, beads': seq<Bead>)
    requires multiset(beads) == multiset(beads')
    ensures forall e :: SomeBead(beads, e) ==> SomeBead(beads', e)
    ensures HasRoute(r, beads) ==> HasRoute(r, beads')
    ensures Covered(r, beads) ==> Covered(r, beads')
  {
    forall e | SomeBead(beads, e) ensures SomeBead(beads', e) { EvidenceCarries(beads, beads', e); }
    if HasRoute(r, beads) { RouteCarries(r, beads, beads'); }
    if Covered(r, beads) { CoverageCarries(r, beads, beads'); }
  }

  /** AllEvidenced, put together from those parts. */
  lemma EvidencedParts(r: Remote, beads: seq<Bead>)
    ensures AllEvidenced(r, beads) <==>
      RemoteEvidence(r) in {None, Some(Positive)} && !SomeBead(beads, Negative) && !SomeBead(beads, Error)
      && Covered(r, beads) && HasRoute(r, beads)
  {
  }

  /** VERIFIED or not, conflict, negative, and an error of the first scan do not depend on
      the order of the beads. */
  lemma FirstScanIsOrderIndependent(r: Remote, beads: seq<Bead>, beads': seq<Bead>)
    requires multiset(beads) == multiset(beads')
    ensures Conflict(r, beads) <==> Conflict(r, beads')
    ensures AnyNegative(r, beads) <==> AnyNegative(r, beads')
    ensures AnyError(r, beads) <==> AnyError(r, beads')
    ensures AllEvidenced(r, beads) <==> AllEvidenced(r, beads')
  {
    SameParts(r, beads, beads');
    SameParts(r, beads', beads);
    EvidencedParts(r, beads);
    EvidencedParts(r, beads');
  }

  ghost predicate SomeOrderGives(r: Remote, beads: seq<Bead>, c: Class) {
    exists beads' :: Reordered(beads, beads') && ClassMeans(r, beads', c)
  }

  ghost predicate Reordered(beads: seq<Bead>, beads': seq<Bead>) { multiset(beads') == multiset(beads) }

  /** Past the first scan the class is that of the first gap: an order can end in an
      evidence error exactly when some gap is one where something failed, and in missing
      coverage exactly when some gap is not. So the class is the same in every order
      exactly when the gaps are all of one kind. */
  lemma CoverageOrder(r: Remote, beads: seq<Bead>, failed: bool)
    requires !AnyNegative(r, beads) && !AnyError(r, beads) && !Covered(r, beads)
    ensures SomeOrderGives(r, beads, if failed then EvidenceError else CoverageUnavailable)
       <==> exists i | 0 <= i < |beads| :: Gap(r, beads[i]) && ErrorGap(r, beads[i]) == failed
  {
    var c := if failed then EvidenceError else CoverageUnavailable;
    if i: nat :| i < |beads| && Gap(r, beads[i]) && ErrorGap(r, beads[i]) == failed {
      var beads' := BroughtForward(r, beads, i);
      assert Reordered(beads, beads') && ClassMeans(r, beads', c);
    }
    if SomeOrderGives(r, beads, c) {
      var beads' :| Reordered(beads, beads') && ClassMeans(r, beads', c);
      FirstScanIsOrderIndependent(r, beads, beads');
      if Covered(r, beads') { CoverageCarries(r, beads', beads); }
      var k: nat :| FirstGap(r, beads', k) && ErrorGap(r, beads'[k]) == failed;
      var i := Counterpart(beads', beads, k);
    }
  }

  /** Any gap can be listed first. */
  lemma BroughtForward(r: Remote, beads: seq<Bead>, i: nat) returns (beads': seq<Bead>)
    requires i < |beads| && Gap(r, beads[i]) && !AnyNegative(r, beads) && !AnyError(r, beads)
    ensures multiset(beads') == multiset(beads)
    ensures ClassMeans(r, beads', if ErrorGap(r, beads[i]) then EvidenceError else CoverageUnavailable)
  {
    beads' := [beads[i]] + (beads[..i] + beads[i + 1..]);
    assert beads == beads[..i] + [beads[i]] + beads[i + 1..];
    FirstScanIsOrderIndependent(r, beads, beads');
    assert FirstGap(r, beads', 0);
    assert StopsAt(r, beads', ErrorGap(r, beads[i]));
  }
}
