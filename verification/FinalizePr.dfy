/** The finalize-PR automation after impl approve: open or adopt, wait for checks, merge,
    and reconcile by query after any failed leg (cmd/mindspec/finalize_pr.go). */
module FinalizePr {
  import opened Common

  type Url = string

  datatype Entry = Entry(state: string, url: Url, head: string, base: string)

  datatype Check = Check(name: string, state: string)

  datatype ChecksReply = NoChecksError | QueryFailed | Unparseable | Checks(checks: seq<Check>)

  datatype Config = Config(autoOpen: bool, autoMerge: bool)

  /** What the runner does and what it is told. None is a failed call. */
  datatype Event =
    | Probe(available: bool)
    | Lookup(entries: Option<seq<Entry>>)
    | Create(created: Option<Url>)
    | QueryChecks(pr: Url, reply: ChecksReply)
    | TimedOut(pr: Url)
    | Merge(pr: Url, ok: bool)
    | Reconcile(rows: Option<seq<Entry>>)
    | Refresh(fetched: bool)

  predicate IsOpen(e: Entry) { EqualFold(e.state, "OPEN") }

  predicate IsMerged(e: Entry) { EqualFold(e.state, "MERGED") }

  // ----- Choosing among the rows -----

  predicate Matches(e: Entry, head: string, base: string) { e.head == head && e.base == base }

  /** The adoption candidate: the last open match, and without one the first match. */
  ghost predicate Candidate(es: seq<Entry>, head: string, base: string, k: Option<nat>) {
    match k
    case None => forall i | 0 <= i < |es| :: !Matches(es[i], head, base)
    case Some(k) =>
      && k < |es| && Matches(es[k], head, base)
      && (if IsOpen(es[k]) then forall i | k < i < |es| && Matches(es[i], head, base) :: !IsOpen(es[i])
          else forall i | 0 <= i < |es| && Matches(es[i], head, base) :: k <= i && !IsOpen(es[i]))
  }

  ghost predicate OtherBase(es: seq<Entry>, head: string, base: string, k: Option<nat>) {
    match k
    case None => forall i | 0 <= i < |es| && es[i].head == head :: es[i].base == base
    case Some(k) =>
      && k < |es| && es[k].head == head && es[k].base != base
      && forall i | 0 <= i < k && es[i].head == head :: es[i].base == base
  }

  method ClassifyFinalizePREntries(es: seq<Entry>, head: string, base: string)
    returns (sameHeadBase: Option<nat>, otherBase: Option<nat>)
    ensures Candidate(es, head, base, sameHeadBase) && OtherBase(es, head, base, otherBase)
    ensures otherBase.None? <==> forall i | 0 <= i < |es| && es[i].head == head :: es[i].base == base
  {
    hide IsOpen;
    sameHeadBase, otherBase := None, None;
    for i := 0 to |es|
      invariant sameHeadBase.Some? ==> sameHeadBase.value < i
      invariant otherBase.Some? ==> otherBase.value < i
      invariant Candidate(es[..i], head, base, sameHeadBase) && OtherBase(es[..i], head, base, otherBase)
    {
      var e := es[i];
      assert forall j | 0 <= j < i :: es[..i + 1][j] == es[..i][j];
      assert es[..i + 1][i] == e;
      if e.head == head {
        if e.base == base {
          if sameHeadBase == None || IsOpen(e) { sameHeadBase := Some(i); }
        } else if otherBase == None {
          otherBase := Some(i);
        }
      }
    }
    assert es[..|es|] == es;
  }

  /** The candidate is unique, so the runner's choice depends on the rows alone. */
  lemma CandidateIsUnique(es: seq<Entry>, head: string, base: string, k: Option<nat>, k': Option<nat>)
    requires Candidate(es, head, base, k) && Candidate(es, head, base, k')
    ensures k == k'
  {
  }

  /** In terms of the rows: with an open match it is the last open one, without one the
      first match, and none if there is no match. */
  lemma CandidateExactly(es: seq<Entry>, head: string, base: string, k: nat)
    ensures Candidate(es, head, base, Some(k)) <==>
      && k < |es| && es[k].head == head && es[k].base == base
      && if exists i | 0 <= i < |es| :: es[i].head == head && es[i].base == base && EqualFold(es[i].state, "OPEN")
         then EqualFold(es[k].state, "OPEN")
              && forall i | k < i < |es| && es[i].head == head && es[i].base == base :: !EqualFold(es[i].state, "OPEN")
         else forall i | 0 <= i < k :: es[i].head != head || es[i].base != base
    ensures Candidate(es, head, base, None) <==>
      forall i | 0 <= i < |es| :: es[i].head != head || es[i].base != base
  {
    hide EqualFold;
  }

  /** The comment above the classification says that without an open row the last match
      stands. The first one does: a merge that a later row reports is recognised exactly
      when no matching row is open and the first matching row is the merged one. */
  lemma MergeRecognised(es: seq<Entry>, head: string, base: string, k: Option<nat>)
    requires Candidate(es, head, base, k)
    ensures (k.Some? && EqualFold(es[k.value].state, "MERGED")) <==>
      && (forall i | 0 <= i < |es| && es[i].head == head && es[i].base == base :: !EqualFold(es[i].state, "OPEN"))
      && exists i | 0 <= i < |es| ::
        && es[i].head == head && es[i].base == base && EqualFold(es[i].state, "MERGED")
        && forall j | 0 <= j < i :: es[j].head != head || es[j].base != base
  {
  }

  lemma ClosedRowHidesMerge()
    ensures exists es: seq<Entry>, head, base ::
      && |es| == 2 && Candidate(es, head, base, Some(0)) && !IsMerged(es[0])
      && Matches(es[1], head, base) && IsMerged(es[1])
  {
    var es := [Entry("CLOSED", "u0", "h", "main"), Entry("MERGED", "u1", "h", "main")];
    assert es[0].state[0] == 'C' && "MERGED"[0] == 'M';
    assert !IsOpen(es[0]) && !IsMerged(es[0]);
    assert es[1].state[0] == 'M' && |es[1].state| == 6;
    assert !IsOpen(es[1]);
    assert Candidate(es, "h", "main", Some(0));
  }

  /** An open row first, then a merged one. */
  method PickReconcileEntry(es: seq<Entry>) returns (k: Option<nat>)
    ensures k.None? <==> forall e | e in es :: !EqualFold(e.state, "OPEN") && !EqualFold(e.state, "MERGED")
    ensures k.Some? && (exists e | e in es :: EqualFold(e.state, "OPEN")) ==>
      k.value < |es| && EqualFold(es[k.value].state, "OPEN")
    ensures match k
      case None => forall i | 0 <= i < |es| :: !IsOpen(es[i]) && !IsMerged(es[i])
      case Some(k) => k < |es| && if IsOpen(es[k]) then forall i | 0 <= i < k :: !IsOpen(es[i])
                      else IsMerged(es[k]) && forall i | 0 <= i < |es| :: !IsOpen(es[i]) && (i < k ==> !IsMerged(es[i]))
  {
    k := None;
    assert forall i | 0 <= i < |es| :: es[i] in es;
    for i := 0 to |es|
      invariant forall j | 0 <= j < i :: !IsOpen(es[j])
      invariant k == None ==> forall j | 0 <= j < i :: !IsMerged(es[j])
      invariant k.Some? ==> k.value < i && IsMerged(es[k.value]) && forall j | 0 <= j < k.value :: !IsMerged(es[j])
    {
      if IsOpen(es[i]) { return Some(i); }
      if IsMerged(es[i]) && k == None { k := Some(i); }
    }
    if k.Some? { assert !IsOpen(es[k.value]); }
  }

  // ----- Legal traces -----

  predicate Green(upper: string -> string, c: Check) { upper(c.state) in {"SUCCESS", "SKIPPED", "NEUTRAL"} }

  predicate Running(upper: string -> string, c: Check) { upper(c.state) in {"PENDING", "IN_PROGRESS", "QUEUED", ""} }

  predicate AllGreen(upper: string -> string, reply: ChecksReply) {
    reply.Checks? && reply.checks != [] && forall i | 0 <= i < |reply.checks| :: Green(upper, reply.checks[i])
  }

  /** A leg that failed. */
  predicate Failed(e: Event) {
    match e
    case Lookup(entries) => entries == None
    case Create(created) => created == None
    case QueryChecks(_, reply) => reply.QueryFailed? || reply.Unparseable?
    case TimedOut(_) => true
    case Merge(_, ok) => !ok
    case _ => false
  }

  datatype Run = Run(cfg: Config, head: string, base: string, upper: string -> string)

  /** The PR was created by this run, or is the open candidate it found. */
  ghost predicate Opened(run: Run, past: seq<Event>, pr: Url) {
    exists i | 0 <= i < |past| :: OpenedBy(run, past[i], pr)
  }

  ghost predicate AdoptsOpen(run: Run, es: seq<Entry>, pr: Url) {
    exists k: nat :: Candidate(es, run.head, run.base, Some(k)) && IsOpen(es[k]) && es[k].url == pr
  }

  /** No matching row is open or merged first, and no row of this head has another base
      unless some row matches. */
  ghost predicate MayCreate(run: Run, es: seq<Entry>) {
    exists k: Option<nat> :: Candidate(es, run.head, run.base, k)
      && (if k.Some? then !IsOpen(es[k.value]) && !IsMerged(es[k.value]) else OtherBase(es, run.head, run.base, None))
  }

  ghost predicate OpenedBy(run: Run, e: Event, pr: Url) {
    || e == Create(Some(pr))
    || (e.Lookup? && e.entries.Some? && AdoptsOpen(run, e.entries.value, pr))
  }

  predicate SawMerge(run: Run, e: Event) {
    || (e.Merge? && e.ok)
    || (e.Lookup? && e.entries.Some? && exists k | 0 <= k < |e.entries.value| ::
          Matches(e.entries.value[k], run.head, run.base) && IsMerged(e.entries.value[k]))
    || (e.Reconcile? && e.rows.Some? && (exists k | 0 <= k < |e.rows.value| :: IsMerged(e.rows.value[k]))
          && forall k | 0 <= k < |e.rows.value| :: !IsOpen(e.rows.value[k]))
  }

  /** What may come next after a past. */
  ghost predicate Allowed(run: Run, past: seq<Event>, e: Event) {
    && run.cfg.autoOpen
    && (e.Reconcile? <==> past != [] && Failed(past[|past| - 1]))
    && match e
       case Probe(_) => past == []
       case Lookup(_) => past == [Probe(true)]
       case Create(_) =>
         |past| == 2 && past[1].Lookup? && past[1].entries.Some? && MayCreate(run, past[1].entries.value)
       case QueryChecks(pr, _) => run.cfg.autoMerge && Opened(run, past, pr)
       case TimedOut(pr) => run.cfg.autoMerge && Opened(run, past, pr)
       case Merge(pr, _) =>
         && run.cfg.autoMerge && Opened(run, past, pr)
         && past != [] && past[|past| - 1].QueryChecks? && past[|past| - 1].pr == pr
         && AllGreen(run.upper, past[|past| - 1].reply)
         && forall i | 0 <= i < |past| :: !past[i].Merge?
       case Reconcile(_) => true
       case Refresh(_) => past != [] && SawMerge(run, past[|past| - 1])
  }

  /** Where a run may end: nothing that the flags and the replies call for is left undone. */
  ghost predicate MayEnd(run: Run, past: seq<Event>) {
    if past == [] then !run.cfg.autoOpen
    else
      match past[|past| - 1]
      case Probe(available) => !available
      case Lookup(entries) => entries.Some? && EndsAtLookup(run, entries.value)
      case Create(created) => created.Some? && !run.cfg.autoMerge
      case QueryChecks(_, reply) =>
        || reply.NoChecksError?
        || (reply.Checks? && !AllGreen(run.upper, reply)
            && forall i | 0 <= i < |reply.checks| :: !Running(run.upper, reply.checks[i]))
      case TimedOut(_) => false
      case Merge(_, ok) => false
      case Reconcile(rows) => !SawMerge(run, Reconcile(rows))
      case Refresh(_) => true
  }

  /** Only another base is targeted, or the open candidate is adopted and merging is off. */
  ghost predicate EndsAtLookup(run: Run, es: seq<Entry>) {
    exists k: Option<nat> :: Candidate(es, run.head, run.base, k)
      && (if k.Some? then IsOpen(es[k.value]) && !run.cfg.autoMerge
          else exists i | 0 <= i < |es| :: es[i].head == run.head && es[i].base != run.base)
  }

  /** In terms of the last event: an automation that is on ends without gh; with the PR
      opened and merging off; with checks that nobody waits for, or that are done and not
      green; with only PRs against another base; with nothing merged to be seen after a
      failed leg; or with the main branch fetched. */
  lemma EndsExactly(run: Run, past: seq<Event>)
    requires past != [] && MayEnd(run, past)
    ensures match past[|past| - 1]
      case Probe(available) => !available
      case Create(created) => created.Some? && !run.cfg.autoMerge
      case QueryChecks(_, reply) =>
        || reply.NoChecksError?
        || (reply.Checks?
            && (reply.checks == []
                || exists c | c in reply.checks :: run.upper(c.state) !in {"SUCCESS", "SKIPPED", "NEUTRAL"})
            && forall c | c in reply.checks :: run.upper(c.state) !in {"PENDING", "IN_PROGRESS", "QUEUED", ""})
      case Lookup(entries) =>
        && entries.Some?
        && if exists row | row in entries.value :: row.head == run.head && row.base == run.base
           then !run.cfg.autoMerge && exists row | row in entries.value ::
             row.head == run.head && row.base == run.base && EqualFold(row.state, "OPEN")
           else exists row | row in entries.value :: row.head == run.head && row.base != run.base
      case Reconcile(rows) =>
        || rows.None?
        || (forall row | row in rows.value :: !EqualFold(row.state, "MERGED"))
        || (exists row | row in rows.value :: EqualFold(row.state, "OPEN"))
      case Refresh(_) => true
      case _ => false
  {
    hide EqualFold;
    match past[|past| - 1]
    case Lookup(entries) =>
      var es := entries.value;
      var k: Option<nat> :| Candidate(es, run.head, run.base, k)
        && (if k.Some? then IsOpen(es[k.value]) && !run.cfg.autoMerge
            else exists i | 0 <= i < |es| :: es[i].head == run.head && es[i].base != run.base);
      if k.Some? { assert es[k.value] in es; }
    case _ =>
  }

  ghost predicate Legal(run: Run, trace: seq<Event>) {
    forall k | 0 <= k < |trace| :: Allowed(run, trace[..k], trace[k])
  }

  lemma LegalNext(run: Run, trace: seq<Event>, e: Event)
    requires Legal(run, trace) && Allowed(run, trace, e)
    ensures Legal(run, trace + [e])
  {
    var t := trace + [e];
    forall k | 0 <= k < |t| ensures Allowed(run, t[..k], t[k]) {
      if k < |trace| { assert t[..k] == trace[..k]; } else { assert t[..k] == trace; }
    }
  }

  /** Opened stays so. */
  lemma StillOpened(run: Run, past: seq<Event>, more: seq<Event>, pr: Url)
    requires Opened(run, past, pr)
    ensures Opened(run, past + more, pr)
  {
    var i :| 0 <= i < |past| && OpenedBy(run, past[i], pr);
    assert (past + more)[i] == past[i];
  }

  // ----- The runner -----

  const CHECKS_TIMEOUT := 15 * 60
  const POLL_INTERVAL := 5

  /** GitHub and the clock: any reply may come, and time passes. */
  class Outside {
    ghost var trace: seq<Event>
    var now: int

    constructor ()
      ensures trace == []
    {
      trace, now := [], 0;
    }

    method Available() returns (ok: bool)
      modifies this
      ensures trace == old(trace) + [Probe(ok)]
    {
      ok := *;
      trace := trace + [Probe(ok)];
    }

    method GhLookup() returns (r: Option<seq<Entry>>)
      modifies this
      ensures trace == old(trace) + [Lookup(r)]
    {
      r := *;
      trace := trace + [Lookup(r)];
    }

    method GhCreate() returns (r: Option<Url>)
      modifies this
      ensures trace == old(trace) + [Create(r)]
    {
      r := *;
      trace := trace + [Create(r)];
    }

    method GhChecks(pr: Url) returns (r: ChecksReply)
      modifies this
      ensures trace == old(trace) + [QueryChecks(pr, r)] && now >= old(now)
    {
      r := *;
      trace := trace + [QueryChecks(pr, r)];
      var after: int := *;
      if after > now { now := after; }
    }

    method GhMerge(pr: Url) returns (ok: bool)
      modifies this
      ensures trace == old(trace) + [Merge(pr, ok)]
    {
      ok := *;
      trace := trace + [Merge(pr, ok)];
    }

    method GhReconcile() returns (r: Option<seq<Entry>>)
      modifies this
      ensures trace == old(trace) + [Reconcile(r)]
    {
      r := *;
      trace := trace + [Reconcile(r)];
    }

    method FetchMain() returns (ok: bool)
      modifies this
      ensures trace == old(trace) + [Refresh(ok)]
    {
      ok := *;
      trace := trace + [Refresh(ok)];
    }

    /** No call: the checks leg ran out of time. */
    method GiveUp(pr: Url)
      modifies this
      ensures trace == old(trace) + [TimedOut(pr)] && now == old(now)
    {
      trace := trace + [TimedOut(pr)];
    }

    method Sleep()
      modifies this
      ensures trace == old(trace) && now >= old(now) + POLL_INTERVAL
    {
      now := now + POLL_INTERVAL;
    }
  }

  /** The trace is legal, nothing is left to reconcile, and no merge was tried yet. */
  ghost predicate Settled(run: Run, trace: seq<Event>) {
    Legal(run, trace) && (trace != [] ==> !Failed(trace[|trace| - 1]))
  }

  ghost predicate NoMerge(trace: seq<Event>) {
    forall i | 0 <= i < |trace| :: !trace[i].Merge?
  }

  method SummariseChecks(upper: string -> string, checks: seq<Check>) returns (allDone: bool, allGreen: bool)
    ensures allDone <==> forall i | 0 <= i < |checks| :: !Running(upper, checks[i])
    ensures allGreen <==> forall i | 0 <= i < |checks| :: Green(upper, checks[i])
    ensures allDone <==> forall c | c in checks :: upper(c.state) !in {"PENDING", "IN_PROGRESS", "QUEUED", ""}
    ensures allGreen <==> forall c | c in checks :: upper(c.state) in {"SUCCESS", "SKIPPED", "NEUTRAL"}
  {
    assert forall i | 0 <= i < |checks| :: checks[i] in checks;
    allDone, allGreen := true, true;
    for i := 0 to |checks|
      invariant allDone <==> forall j | 0 <= j < i :: !Running(upper, checks[j])
      invariant allGreen <==> forall j | 0 <= j < i :: Green(upper, checks[j])
    {
      if Running(upper, checks[i]) { allDone := false; }
      if !Green(upper, checks[i]) { allGreen := false; }
    }
  }

  lemma Polled(run: Run, past: seq<Event>, pr: Url, e: Event)
    requires run.cfg.autoOpen && run.cfg.autoMerge && (e == TimedOut(pr) || (e.QueryChecks? && e.pr == pr))
    requires Settled(run, past) && NoMerge(past) && Opened(run, past, pr)
    ensures Legal(run, past + [e]) && NoMerge(past + [e]) && Opened(run, past + [e], pr)
  {
    hide Legal, OpenedBy;
    LegalNext(run, past, e);
    StillOpened(run, past, [e], pr);
  }

  /** Polls until every check is terminal or the time is up; None is a failed leg. Time
      passing between polls is what ends the loop. */
  method WaitForGreenChecks(run: Run, out: Outside, pr: Url) returns (r: Option<bool>)
    requires run.cfg.autoOpen && run.cfg.autoMerge
    requires Settled(run, out.trace) && NoMerge(out.trace) && Opened(run, out.trace, pr)
    modifies out
    ensures Legal(run, out.trace) && NoMerge(out.trace) && Opened(run, out.trace, pr)
    ensures out.trace != []
    ensures r == None <==> Failed(out.trace[|out.trace| - 1])
    ensures r == Some(false) ==> MayEnd(run, out.trace)
    ensures r == Some(true) ==>
      var last := out.trace[|out.trace| - 1];
      last.QueryChecks? && last.pr == pr && AllGreen(run.upper, last.reply)
    ensures r.Some? ==>
      var last := out.trace[|out.trace| - 1];
      && last.QueryChecks? && last.pr == pr && (last.reply.NoChecksError? || last.reply.Checks?)
      && (last.reply.Checks? ==>
            && (forall c | c in last.reply.checks :: run.upper(c.state) !in {"PENDING", "IN_PROGRESS", "QUEUED", ""})
            && (r.value <==>
                  && last.reply.checks != []
                  && forall c | c in last.reply.checks :: run.upper(c.state) in {"SUCCESS", "SKIPPED", "NEUTRAL"}))
    ensures out.trace[|out.trace| - 1].TimedOut? ==> out.now > old(out.now) + 900
  {
    hide Legal, Opened, NoMerge;
    var deadline := out.now + CHECKS_TIMEOUT;
    while true
      invariant Settled(run, out.trace) && NoMerge(out.trace) && Opened(run, out.trace, pr)
      invariant deadline == old(out.now) + CHECKS_TIMEOUT
      decreases deadline - out.now
    {
      ghost var past := out.trace;
      var reply := out.GhChecks(pr);
      Polled(run, past, pr, QueryChecks(pr, reply));
      if reply.NoChecksError? { return Some(false); }
      if reply.QueryFailed? || reply.Unparseable? { return None; }
      if reply.checks == [] { return Some(false); }
      var allDone, allGreen := SummariseChecks(run.upper, reply.checks);
      if allDone { return Some(allGreen); }
      if out.now > deadline {
        ghost var past' := out.trace;
        out.GiveUp(pr);
        Polled(run, past', pr, TimedOut(pr));
        return None;
      }
      out.Sleep();
    }
  }

  lemma MergedRow(run: Run, es: seq<Entry>, k: nat)
    requires k < |es| && Matches(es[k], run.head, run.base) && IsMerged(es[k])
    ensures SawMerge(run, Lookup(Some(es)))
  {
  }

  lemma NoMergeSeen(run: Run, rows: Option<seq<Entry>>)
    requires rows.Some? ==>
      || (exists i | 0 <= i < |rows.value| :: IsOpen(rows.value[i]))
      || forall i | 0 <= i < |rows.value| :: !IsMerged(rows.value[i])
    ensures !SawMerge(run, Reconcile(rows))
  {
  }

  lemma ReconciledMerge(run: Run, es: seq<Entry>, k: nat)
    requires k < |es| && IsMerged(es[k]) && forall i | 0 <= i < |es| :: !IsOpen(es[i])
    ensures SawMerge(run, Reconcile(Some(es)))
  {
  }

  lemma ReconcileNext(run: Run, past: seq<Event>, rows: Option<seq<Entry>>)
    requires Legal(run, past) && past != [] && Failed(past[|past| - 1]) && run.cfg.autoOpen
    ensures Settled(run, past + [Reconcile(rows)])
  {
    LegalNext(run, past, Reconcile(rows));
    hide Legal;
  }

  lemma RefreshNext(run: Run, past: seq<Event>, rows: Option<seq<Entry>>, ok: bool)
    requires Legal(run, past) && past != [] && past[|past| - 1] == Reconcile(rows) && run.cfg.autoOpen
    requires SawMerge(run, Reconcile(rows))
    ensures Settled(run, past + [Refresh(ok)])
  {
    LegalNext(run, past, Refresh(ok));
    hide Legal;
  }

  /** After any failed leg: one query, and a refresh if it shows the merge happened. */
  method DegradeAndReconcile(run: Run, out: Outside)
    requires Legal(run, out.trace) && out.trace != [] && Failed(out.trace[|out.trace| - 1]) && run.cfg.autoOpen
    modifies out
    ensures Settled(run, out.trace) && MayEnd(run, out.trace)
    ensures old(out.trace) < out.trace && out.trace[|old(out.trace)|].Reconcile?
    ensures forall i | |old(out.trace)| < i < |out.trace| :: out.trace[i].Refresh?
  {
    hide Legal, SawMerge, AllGreen, EndsAtLookup, Running, Failed;
    ghost var past := out.trace;
    var rows := out.GhReconcile();
    ReconcileNext(run, past, rows);
    assert out.trace == past + [Reconcile(rows)] + [];
    if rows == None {
      NoMergeSeen(run, rows);
      return;
    }
    var k := PickReconcileEntry(rows.value);
    if k == None || IsOpen(rows.value[k.value]) {
      NoMergeSeen(run, rows);
    } else {
      ReconciledMerge(run, rows.value, k.value);
      ghost var past' := out.trace;
      var ok := out.FetchMain();
      RefreshNext(run, past', rows, ok);
      assert out.trace == past + [Reconcile(rows)] + [Refresh(ok)];
    }
  }

  /** R1: the PR this run may go on with, if any. */
  method OpenOrAdopt(run: Run, out: Outside) returns (pr: Option<Url>)
    requires out.trace == [] && run.cfg.autoOpen
    modifies out
    ensures Settled(run, out.trace) && NoMerge(out.trace)
    ensures pr.Some? ==> Opened(run, out.trace, pr.value)
    ensures pr.None? || !run.cfg.autoMerge ==> MayEnd(run, out.trace)
  {
    var available := out.Available();
    LegalNext(run, [], Probe(available));
    assert out.trace == [] + [Probe(available)];
    if !available { return None; }
    var entries := out.GhLookup();
    LegalNext(run, [Probe(true)], Lookup(entries));
    assert out.trace == [Probe(true)] + [Lookup(entries)];
    if entries == None {
      DegradeAndReconcile(run, out);
      return None;
    }
    pr := ChoosePr(run, out, entries.value);
  }

  /** Adopt the open candidate, refresh for a merged one, create otherwise. */
  method ChoosePr(run: Run, out: Outside, entries: seq<Entry>) returns (pr: Option<Url>)
    requires out.trace == [Probe(true), Lookup(Some(entries))] && Legal(run, out.trace) && run.cfg.autoOpen
    modifies out
    ensures Settled(run, out.trace) && NoMerge(out.trace)
    ensures pr.Some? ==> Opened(run, out.trace, pr.value)
    ensures pr.None? || !run.cfg.autoMerge ==> MayEnd(run, out.trace)
  {
    hide Legal, IsOpen, IsMerged;
    ghost var seen := out.trace;
    var sameHeadBase, otherBase := ClassifyFinalizePREntries(entries, run.head, run.base);
    if sameHeadBase == None && otherBase.Some? { return None; }
    if sameHeadBase.Some? && IsOpen(entries[sameHeadBase.value]) {
      assert AdoptsOpen(run, entries, entries[sameHeadBase.value].url);
      assert OpenedBy(run, seen[1], entries[sameHeadBase.value].url);
      return Some(entries[sameHeadBase.value].url);
    }
    if sameHeadBase.Some? && IsMerged(entries[sameHeadBase.value]) {
      MergedRow(run, entries, sameHeadBase.value);
      var ok := out.FetchMain();
      LegalNext(run, seen, Refresh(ok));
      return None;
    }
    assert MayCreate(run, entries);
    pr := out.GhCreate();
    LegalNext(run, seen, Create(pr));
    if pr == None {
      DegradeAndReconcile(run, out);
    } else {
      assert OpenedBy(run, out.trace[2], pr.value);
    }
  }

  /** R2: the opt-in merge. */
  method MergeWhenGreen(run: Run, out: Outside, pr: Url)
    requires run.cfg.autoOpen && run.cfg.autoMerge
    requires Settled(run, out.trace) && NoMerge(out.trace) && Opened(run, out.trace, pr)
    modifies out
    ensures Settled(run, out.trace) && MayEnd(run, out.trace)
  {
    hide Legal, AllGreen, Opened;
    var green := WaitForGreenChecks(run, out, pr);
    if green == None {
      DegradeAndReconcile(run, out);
      return;
    }
    if !green.value { return; }
    assert green == Some(true);
    ghost var past := out.trace;
    var ok := out.GhMerge(pr);
    LegalNext(run, past, Merge(pr, ok));
    if !ok {
      DegradeAndReconcile(run, out);
      return;
    }
    ghost var past' := out.trace;
    var fetched := out.FetchMain();
    LegalNext(run, past', Refresh(fetched));
  }

  /** One invocation, after the finalize mutations are durable: its trace is legal, and it
      does not stop before it may. */
  method RunAutomation(run: Run, out: Outside)
    requires out.trace == []
    modifies out
    ensures Legal(run, out.trace) && MayEnd(run, out.trace)
  {
    if !run.cfg.autoOpen { return; }
    var pr := OpenOrAdopt(run, out);
    if pr == None || !run.cfg.autoMerge { return; }
    MergeWhenGreen(run, out, pr.value);
  }

  // ----- What every run keeps -----

  /** A merge is tried at most once, only with both flags on, on a PR this run created or
      found open from head to base, right after a non-empty all-green checks reply. */
  lemma MergeIsJustified(run: Run, trace: seq<Event>, k: nat)
    requires Legal(run, trace) && k < |trace| && trace[k].Merge?
    ensures run.cfg.autoOpen && run.cfg.autoMerge
    ensures forall i | 0 <= i < |trace| && i != k :: !trace[i].Merge?
    ensures k > 0 && trace[k - 1].QueryChecks? && trace[k - 1].pr == trace[k].pr
    ensures trace[k - 1].reply.Checks? && trace[k - 1].reply.checks != []
    ensures forall c | c in trace[k - 1].reply.checks :: run.upper(c.state) in {"SUCCESS", "SKIPPED", "NEUTRAL"}
    ensures exists e | e in trace[..k] ::
      || e == Create(Some(trace[k].pr))
      || (e.Lookup? && e.entries.Some? && exists row | row in e.entries.value ::
            row.head == run.head && row.base == run.base && EqualFold(row.state, "OPEN") && row.url == trace[k].pr)
  {
    MergeAllowed(run, trace, k);
    OnlyMerge(run, trace, k);
    OpenedExactly(run, trace[..k], trace[k].pr);
    hide Legal, Opened;
  }

  lemma MergeAllowed(run: Run, trace: seq<Event>, k: nat)
    requires Legal(run, trace) && k < |trace| && trace[k].Merge?
    ensures run.cfg.autoOpen && run.cfg.autoMerge && Opened(run, trace[..k], trace[k].pr)
    ensures k > 0 && trace[k - 1].QueryChecks? && trace[k - 1].pr == trace[k].pr
    ensures trace[k - 1].reply.Checks? && trace[k - 1].reply.checks != []
    ensures forall c | c in trace[k - 1].reply.checks :: run.upper(c.state) in {"SUCCESS", "SKIPPED", "NEUTRAL"}
  {
    hide Opened, MayCreate, SawMerge;
    assert Allowed(run, trace[..k], trace[k]);
  }

  lemma OnlyMerge(run: Run, trace: seq<Event>, k: nat)
    requires Legal(run, trace) && k < |trace| && trace[k].Merge?
    ensures forall i | 0 <= i < |trace| && i != k :: !trace[i].Merge?
  {
    hide Opened, MayCreate, SawMerge, AllGreen;
    assert Allowed(run, trace[..k], trace[k]);
    forall i | 0 <= i < |trace| && i != k ensures !trace[i].Merge? {
      assert Allowed(run, trace[..i], trace[i]);
      if i < k { assert trace[..k][i] == trace[i]; } else { assert trace[..i][k] == trace[k]; }
    }
  }

  lemma OpenedExactly(run: Run, past: seq<Event>, pr: Url)
    requires Opened(run, past, pr)
    ensures exists e | e in past ::
      || e == Create(Some(pr))
      || (e.Lookup? && e.entries.Some? && exists row | row in e.entries.value ::
            row.head == run.head && row.base == run.base && EqualFold(row.state, "OPEN") && row.url == pr)
  {
    var i :| 0 <= i < |past| && OpenedBy(run, past[i], pr);
    hide EqualFold;
    assert past[i] in past;
    if past[i].Lookup? {
      var es := past[i].entries.value;
      var j: nat :| Candidate(es, run.head, run.base, Some(j)) && IsOpen(es[j]) && es[j].url == pr;
      assert es[j] in es;
    }
  }

  /** A PR is created at most once, and only after a lookup in which every row from head
      to base is neither open nor, if it is the first of them, merged, and in which a head
      without such a row has no PR against another base. */
  lemma CreateIsJustified(run: Run, trace: seq<Event>, k: nat)
    requires Legal(run, trace) && k < |trace| && trace[k].Create?
    ensures k == 2 && trace[1].Lookup? && trace[1].entries.Some?
    ensures forall row | row in trace[1].entries.value && row.head == run.head && row.base == run.base ::
      !EqualFold(row.state, "OPEN")
    ensures forall i | 0 <= i < |trace[1].entries.value| ::
      var es := trace[1].entries.value;
      es[i].head == run.head && es[i].base == run.base && EqualFold(es[i].state, "MERGED") ==>
        exists j | 0 <= j < i :: es[j].head == run.head && es[j].base == run.base
    ensures (exists row | row in trace[1].entries.value :: row.head == run.head && row.base != run.base) ==>
      exists row | row in trace[1].entries.value :: row.head == run.head && row.base == run.base
  {
    assert Allowed(run, trace[..k], trace[k]);
    assert trace[..k][1] == trace[1];
    var es := trace[1].entries.value;
    var c: Option<nat> :| Candidate(es, run.head, run.base, c)
      && (if c.Some? then !IsOpen(es[c.value]) && !IsMerged(es[c.value]) else OtherBase(es, run.head, run.base, None));
    assert forall i | 0 <= i < |es| :: es[i] in es;
    if c.Some? { assert es[c.value] in es && Matches(es[c.value], run.head, run.base); }
  }

  /** The main branch is fetched again only after a merge was seen: by this run's own, by a
      merged row from head to base, or by a reconcile query with a merged row and no open one. */
  lemma RefreshIsJustified(run: Run, trace: seq<Event>, k: nat)
    requires Legal(run, trace) && k < |trace| && trace[k].Refresh?
    ensures k > 0
    ensures match trace[k - 1]
      case Merge(_, ok) => ok
      case Lookup(entries) => entries.Some? && exists row | row in entries.value ::
        row.head == run.head && row.base == run.base && EqualFold(row.state, "MERGED")
      case Reconcile(rows) =>
        && rows.Some? && (exists row | row in rows.value :: EqualFold(row.state, "MERGED"))
        && forall row | row in rows.value :: !EqualFold(row.state, "OPEN")
      case _ => false
  {
    assert Allowed(run, trace[..k], trace[k]);
    var e := trace[k - 1];
    assert trace[..k][k - 1] == e && SawMerge(run, e);
    if e.Lookup? {
      var es := e.entries.value;
      var i :| 0 <= i < |es| && Matches(es[i], run.head, run.base) && IsMerged(es[i]);
      assert es[i] in es;
    }
    if e.Reconcile? {
      var i :| 0 <= i < |e.rows.value| && IsMerged(e.rows.value[i]);
      assert e.rows.value[i] in e.rows.value;
    }
  }

  function Count(trace: seq<Event>, p: Event -> bool): nat {
    if trace == [] then 0 else Count(trace[..|trace| - 1], p) + if p(trace[|trace| - 1]) then 1 else 0
  }

  /** Each failed leg is followed by exactly one reconcile query, and no query is made
      for any other reason. */
  lemma {:induction false} EveryFailureReconciled(run: Run, trace: seq<Event>)
    requires Legal(run, trace)
    ensures Count(trace, e => Failed(e)) ==
      Count(trace, (e: Event) => e.Reconcile?) + if trace != [] && Failed(trace[|trace| - 1]) then 1 else 0
    decreases |trace|
  {
    if trace != [] {
      hide Allowed, Legal, Failed;
      var n := |trace| - 1;
      LegalPrefix(run, trace);
      EveryFailureReconciled(run, trace[..n]);
    }
  }

  /** The last event of a legal trace, and the trace before it. */
  lemma LegalPrefix(run: Run, trace: seq<Event>)
    requires Legal(run, trace) && trace != []
    ensures var n := |trace| - 1;
      && Legal(run, trace[..n])
      && (trace[n].Reconcile? <==> n > 0 && Failed(trace[..n][n - 1]))
      && (trace[n].Reconcile? ==> !Failed(trace[n]))
  {
    hide Opened, MayCreate, AllGreen, SawMerge;
    var n := |trace| - 1;
    forall k | 0 <= k < n ensures Allowed(run, trace[..n][..k], trace[..n][k]) {
      assert trace[..n][..k] == trace[..k] && Allowed(run, trace[..k], trace[k]);
    }
    assert Allowed(run, trace[..n], trace[n]);
  }

  /** With auto-open off nothing is done at all. */
  lemma InertWithoutAutoOpen(run: Run, trace: seq<Event>)
    requires Legal(run, trace)
    ensures trace == [] || run.cfg.autoOpen
  {
    if trace != [] { assert Allowed(run, trace[..0], trace[0]); }
  }
}
