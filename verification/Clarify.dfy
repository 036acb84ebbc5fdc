/** The readiness-attempt record of a bead: one clarification for each cited reason,
    written once (internal/bead/clarify.go). */
module Clarify {
  import opened Common
  import opened Metadata

  datatype ReportEntry = ReportEntry(ordinal: int, signal: string, reason: string)

  datatype Clarification = Clarification(ordinal: int, reason: string, answer: string, span: string)

  datatype AttemptRecord = AttemptRecord(report: seq<ReportEntry>, clarifications: seq<Clarification>)

  datatype Verdict =
    | Accepted
    | EmptyReport | BadOrdinal | DuplicateOrdinal | BadSignal | BlankReason
    | UnknownOrdinal | AnsweredTwice | ReasonDiffers | BlankAnswer | BlankSpan
    | Unanswered

  const SIGNALS := {"SR-1", "SR-2", "SR-3", "SR-4", "SR-5"}

  type Spaces = char -> bool

  predicate Blank(isSpace: Spaces, s: string) {
    forall i | 0 <= i < |s| :: isSpace(s[i])
  }

  // ----- What an acceptable record is -----

  /** The reasons cited by a report, and the reasons a clarification list answers. */
  function Cited(report: seq<ReportEntry>): seq<(int, string)> {
    seq(|report|, i requires 0 <= i < |report| => (report[i].ordinal, report[i].reason))
  }

  function Answered(clarifications: seq<Clarification>): seq<(int, string)> {
    seq(|clarifications|, i requires 0 <= i < |clarifications| => (clarifications[i].ordinal, clarifications[i].reason))
  }

  predicate EntryOk(isSpace: Spaces, e: ReportEntry) {
    e.ordinal > 0 && e.signal in SIGNALS && !Blank(isSpace, e.reason)
  }

  predicate AnswerOk(isSpace: Spaces, c: Clarification) {
    !Blank(isSpace, c.answer) && !Blank(isSpace, c.span)
  }

  predicate DistinctOrdinals(report: seq<ReportEntry>) {
    forall i, j | 0 <= i < j < |report| :: report[i].ordinal != report[j].ordinal
  }

  /** A well-formed report and exactly one verbatim answer for each cited reason. */
  ghost predicate Acceptable(isSpace: Spaces, r: AttemptRecord) {
    && r.report != []
    && (forall i | 0 <= i < |r.report| :: EntryOk(isSpace, r.report[i]))
    && DistinctOrdinals(r.report)
    && multiset(Answered(r.clarifications)) == multiset(Cited(r.report))
    && (forall i | 0 <= i < |r.clarifications| :: AnswerOk(isSpace, r.clarifications[i]))
  }

  // ----- One-to-one correspondences -----

  predicate Distinct<T(==)>(s: seq<T>) {
    forall i, j | 0 <= i < j < |s| :: s[i] != s[j]
  }

  lemma {:induction false} CountOf<T>(s: seq<T>, x: T)
    requires Distinct(s)
    ensures multiset(s)[x] == if x in s then 1 else 0
  {
    if s != [] {
      var n := |s| - 1;
      assert s == s[..n] + [s[n]];
      CountOf(s[..n], x);
    }
  }

  lemma SameElements<T>(s: seq<T>, t: seq<T>)
    requires Distinct(s) && Distinct(t) && forall x :: x in s <==> x in t
    ensures multiset(s) == multiset(t)
  {
    forall x ensures multiset(s)[x] == multiset(t)[x] {
      CountOf(s, x);
      CountOf(t, x);
    }
  }

  lemma CountTwice<T>(s: seq<T>, i: nat, j: nat)
    requires i < j < |s| && s[i] == s[j]
    ensures multiset(s)[s[i]] >= 2
  {
    assert s == s[..j] + [s[j]] + s[j + 1..];
    assert s[..j][i] == s[i];
    assert s[i] in multiset(s[..j]);
  }

  lemma MemberCounts<T>(s: seq<T>, t: seq<T>, i: nat)
    requires multiset(s) == multiset(t) && i < |s|
    ensures s[i] in t
  {
    assert s[i] in multiset(s);
  }

  /** The reason a clarification must repeat is the one its ordinal cites. */
  lemma AnswersMatch(report: seq<ReportEntry>, cs: seq<Clarification>, i: nat)
    requires multiset(Answered(cs)) == multiset(Cited(report)) && i < |cs|
    ensures Repeats(report, cs[i])
  {
    MemberCounts(Answered(cs), Cited(report), i);
    assert Answered(cs)[i] == (cs[i].ordinal, cs[i].reason);
    var k :| 0 <= k < |report| && Cited(report)[k] == Answered(cs)[i];
  }

  lemma NoOrdinalTwice(report: seq<ReportEntry>, cs: seq<Clarification>, i: nat, j: nat)
    requires DistinctOrdinals(report) && multiset(Answered(cs)) == multiset(Cited(report)) && i < j < |cs|
    ensures cs[i].ordinal != cs[j].ordinal
  {
    AnswersMatch(report, cs, i);
    AnswersMatch(report, cs, j);
    if cs[i].ordinal == cs[j].ordinal {
      assert Answered(cs)[i] == Answered(cs)[j];
      CountTwice(Answered(cs), i, j);
      CountOf(Cited(report), Answered(cs)[i]);
    }
  }

  lemma EveryReasonAnswered(report: seq<ReportEntry>, cs: seq<Clarification>, k: nat)
    requires multiset(Answered(cs)) == multiset(Cited(report)) && k < |report|
    ensures HasAnswer(cs, report[k].ordinal)
  {
    MemberCounts(Cited(report), Answered(cs), k);
    assert Cited(report)[k] == (report[k].ordinal, report[k].reason);
    var i :| 0 <= i < |cs| && Answered(cs)[i] == Cited(report)[k];
  }

  /** Some entry of the report cites the reason this clarification repeats. */
  predicate Repeats(report: seq<ReportEntry>, c: Clarification) {
    exists k :: 0 <= k < |report| && report[k].ordinal == c.ordinal && report[k].reason == c.reason
  }

  predicate HasAnswer(cs: seq<Clarification>, ordinal: int) {
    exists i :: 0 <= i < |cs| && cs[i].ordinal == ordinal
  }

  lemma AnsweredIsCited(report: seq<ReportEntry>, cs: seq<Clarification>, x: (int, string))
    requires forall i | 0 <= i < |cs| :: Repeats(report, cs[i])
    requires x in Answered(cs)
    ensures x in Cited(report)
  {
    var i :| 0 <= i < |cs| && Answered(cs)[i] == x;
    assert Repeats(report, cs[i]);
    var k :| 0 <= k < |report| && report[k].ordinal == cs[i].ordinal && report[k].reason == cs[i].reason;
    assert Cited(report)[k] == x;
  }

  lemma CitedIsAnswered(report: seq<ReportEntry>, cs: seq<Clarification>, x: (int, string))
    requires DistinctOrdinals(report)
    requires forall i | 0 <= i < |cs| :: Repeats(report, cs[i])
    requires forall k | 0 <= k < |report| :: HasAnswer(cs, report[k].ordinal)
    requires x in Cited(report)
    ensures x in Answered(cs)
  {
    var k :| 0 <= k < |report| && Cited(report)[k] == x;
    assert HasAnswer(cs, report[k].ordinal);
    var i :| 0 <= i < |cs| && cs[i].ordinal == report[k].ordinal;
    assert Repeats(report, cs[i]);
    var k' :| 0 <= k' < |report| && report[k'].ordinal == cs[i].ordinal && report[k'].reason == cs[i].reason;
    assert k' == k;
    assert Answered(cs)[i] == x;
  }

  /** Distinct ordinals on both sides, every answer verbatim, every ordinal answered. */
  lemma PairingIsBijective(report: seq<ReportEntry>, cs: seq<Clarification>)
    requires DistinctOrdinals(report)
    requires forall i, j | 0 <= i < j < |cs| :: cs[i].ordinal != cs[j].ordinal
    requires forall i | 0 <= i < |cs| :: Repeats(report, cs[i])
    requires forall k | 0 <= k < |report| :: HasAnswer(cs, report[k].ordinal)
    ensures multiset(Answered(cs)) == multiset(Cited(report))
  {
    forall x ensures x in Answered(cs) <==> x in Cited(report) {
      if x in Answered(cs) { AnsweredIsCited(report, cs, x); }
      if x in Cited(report) { CitedIsAnswered(report, cs, x); }
    }
    SameElements(Answered(cs), Cited(report));
  }

  // ----- The validation -----

  /** What a refusal of the report says about one of its entries. */
  ghost predicate ReportBlamed(isSpace: Spaces, v: Verdict, report: seq<ReportEntry>) {
    match v
    case EmptyReport => report == []
    case BadOrdinal => exists e | e in report :: e.ordinal <= 0
    case DuplicateOrdinal => exists i, j | 0 <= i < j < |report| :: report[i].ordinal == report[j].ordinal
    case BadSignal => exists e | e in report :: e.signal !in {"SR-1", "SR-2", "SR-3", "SR-4", "SR-5"}
    case BlankReason => exists e | e in report :: Blank(isSpace, e.reason)
    case _ => v == Accepted
  }

  /** What a refusal of the clarifications says about one of them. */
  ghost predicate AnswerBlamed(isSpace: Spaces, v: Verdict, report: seq<ReportEntry>, cs: seq<Clarification>) {
    match v
    case UnknownOrdinal => exists c | c in cs :: forall e | e in report :: e.ordinal != c.ordinal
    case AnsweredTwice => exists i, j | 0 <= i < j < |cs| :: cs[i].ordinal == cs[j].ordinal
    case ReasonDiffers => exists c, e | c in cs && e in report :: e.ordinal == c.ordinal && e.reason != c.reason
    case BlankAnswer => exists c | c in cs :: Blank(isSpace, c.answer)
    case BlankSpan => exists c | c in cs :: Blank(isSpace, c.span)
    case _ => v == Accepted
  }

  method ValidateReport(isSpace: Spaces, report: seq<ReportEntry>)
    returns (v: Verdict, reportByOrdinal: map<int, ReportEntry>)
    ensures v == Accepted <==>
      report != [] && (forall i | 0 <= i < |report| :: EntryOk(isSpace, report[i])) && DistinctOrdinals(report)
    ensures v == Accepted ==> Indexes(report, reportByOrdinal)
    ensures v != Unanswered && ReportBlamed(isSpace, v, report)
  {
    reportByOrdinal := map[];
    if |report| == 0 { return EmptyReport, reportByOrdinal; }
    assert Indexes(report[..0], reportByOrdinal) && DistinctOrdinals(report[..0]);
    ghost var all := DistinctOrdinals(report);
    assert forall n | 0 <= n <= |report| :: all ==> DistinctOrdinals(report[..n]);
    hide Indexes, DistinctOrdinals;
    for i := 0 to |report|
      invariant forall j | 0 <= j < i :: EntryOk(isSpace, report[j])
      invariant DistinctOrdinals(report[..i]) && Indexes(report[..i], reportByOrdinal)
    {
      var e := report[i];
      assert report[..i + 1] == report[..i] + [e];
      IndexNext(report[..i], reportByOrdinal, e);
      assert e in report;
      if e.ordinal in reportByOrdinal { OrdinalTwice(report, reportByOrdinal, i); }
      if e.ordinal <= 0 { return BadOrdinal, reportByOrdinal; }
      if e.ordinal in reportByOrdinal { return DuplicateOrdinal, reportByOrdinal; }
      if e.signal !in SIGNALS { return BadSignal, reportByOrdinal; }
      if Blank(isSpace, e.reason) { return BlankReason, reportByOrdinal; }
      reportByOrdinal := reportByOrdinal[e.ordinal := e];
    }
    assert report[..|report|] == report;
    v := Accepted;
  }

  predicate DistinctAnswers(cs: seq<Clarification>) {
    forall i, j | 0 <= i < j < |cs| :: cs[i].ordinal != cs[j].ordinal
  }

  /** The map of a report by ordinal. */
  ghost predicate Indexes(report: seq<ReportEntry>, byOrdinal: map<int, ReportEntry>) {
    && (forall i | 0 <= i < |report| :: report[i].ordinal in byOrdinal && byOrdinal[report[i].ordinal] == report[i])
    && (forall o | o in byOrdinal :: exists i :: 0 <= i < |report| && report[i].ordinal == o)
  }

  lemma OrdinalTwice(report: seq<ReportEntry>, byOrdinal: map<int, ReportEntry>, i: nat)
    requires i < |report| && Indexes(report[..i], byOrdinal) && report[i].ordinal in byOrdinal
    ensures exists j | 0 <= j < i :: report[j].ordinal == report[i].ordinal
  {
    var j :| 0 <= j < i && report[..i][j].ordinal == report[i].ordinal;
    assert report[j].ordinal == report[i].ordinal;
  }

  lemma IndexNext(report: seq<ReportEntry>, byOrdinal: map<int, ReportEntry>, e: ReportEntry)
    requires Indexes(report, byOrdinal) && DistinctOrdinals(report)
    ensures DistinctOrdinals(report + [e]) <==> e.ordinal !in byOrdinal
    ensures e.ordinal !in byOrdinal ==> Indexes(report + [e], byOrdinal[e.ordinal := e])
  {
    var all, longer := report + [e], byOrdinal[e.ordinal := e];
    if e.ordinal in byOrdinal {
      var j :| 0 <= j < |report| && report[j].ordinal == e.ordinal;
      assert all[j].ordinal == all[|report|].ordinal;
    } else {
      forall o | o in longer ensures exists j :: 0 <= j < |all| && all[j].ordinal == o {
        if o == e.ordinal {
          assert all[|report|].ordinal == o;
        } else {
          var j :| 0 <= j < |report| && report[j].ordinal == o;
          assert all[j].ordinal == o;
        }
      }
    }
  }

  lemma CitedEntry(report: seq<ReportEntry>, byOrdinal: map<int, ReportEntry>, o: int)
    requires Indexes(report, byOrdinal)
    ensures o in byOrdinal ==> byOrdinal[o] in report && byOrdinal[o].ordinal == o
    ensures o !in byOrdinal ==> forall e | e in report :: e.ordinal != o
  {
  }

  lemma CitedReason(report: seq<ReportEntry>, byOrdinal: map<int, ReportEntry>, c: Clarification)
    requires Indexes(report, byOrdinal)
    ensures Repeats(report, c) <==> c.ordinal in byOrdinal && c.reason == byOrdinal[c.ordinal].reason
  {
  }

  /** The ordinals answered by the first n clarifications. */
  ghost predicate AnsweredBy(clarified: set<int>, cs: seq<Clarification>, n: nat)
    requires n <= |cs|
  {
    && (forall i | 0 <= i < n :: cs[i].ordinal in clarified)
    && (forall o | o in clarified :: exists i :: 0 <= i < n && cs[i].ordinal == o)
  }

  /** The first n clarifications repeat cited reasons, are answered, and cite none twice. */
  ghost predicate Paired(isSpace: Spaces, report: seq<ReportEntry>, cs: seq<Clarification>, n: nat)
    requires n <= |cs|
  {
    && (forall i | 0 <= i < n :: Repeats(report, cs[i]) && AnswerOk(isSpace, cs[i]))
    && (forall i, j | 0 <= i < j < n :: cs[i].ordinal != cs[j].ordinal)
  }

  lemma PairedNext(isSpace: Spaces, report: seq<ReportEntry>, cs: seq<Clarification>, n: nat)
    requires n < |cs|
    ensures Paired(isSpace, report, cs, n + 1) <==>
      && Paired(isSpace, report, cs, n) && Repeats(report, cs[n]) && AnswerOk(isSpace, cs[n])
      && forall i | 0 <= i < n :: cs[i].ordinal != cs[n].ordinal
    ensures Paired(isSpace, report, cs, |cs|) ==> Paired(isSpace, report, cs, n + 1)
  {
    hide Repeats, AnswerOk;
  }

  /** One clarification against the report and the ordinals answered before it. */
  method PairOne(isSpace: Spaces, report: seq<ReportEntry>, byOrdinal: map<int, ReportEntry>, c: Clarification,
                 clarified: set<int>)
    returns (v: Verdict)
    requires Indexes(report, byOrdinal)
    ensures v != Unanswered
    ensures v == Accepted <==> Repeats(report, c) && AnswerOk(isSpace, c) && c.ordinal !in clarified
    ensures v == AnsweredTwice ==> c.ordinal in clarified
    ensures v == AnsweredTwice || AnswerBlamed(isSpace, v, report, [c])
  {
    CitedReason(report, byOrdinal, c);
    CitedEntry(report, byOrdinal, c.ordinal);
    assert c in [c];
    hide Repeats, Indexes;
    if c.ordinal !in byOrdinal { return UnknownOrdinal; }
    if c.ordinal in clarified { return AnsweredTwice; }
    if c.reason != byOrdinal[c.ordinal].reason { return ReasonDiffers; }
    if Blank(isSpace, c.answer) { return BlankAnswer; }
    if Blank(isSpace, c.span) { return BlankSpan; }
    v := Accepted;
  }

  lemma AnsweredNext(clarified: set<int>, cs: seq<Clarification>, n: nat)
    requires n < |cs| && AnsweredBy(clarified, cs, n)
    ensures AnsweredBy(clarified + {cs[n].ordinal}, cs, n + 1)
    ensures cs[n].ordinal in clarified <==> exists i | 0 <= i < n :: cs[i].ordinal == cs[n].ordinal
  {
  }

  method PairClarifications(isSpace: Spaces, report: seq<ReportEntry>, byOrdinal: map<int, ReportEntry>,
                            cs: seq<Clarification>)
    returns (v: Verdict, clarified: set<int>)
    requires Indexes(report, byOrdinal)
    ensures v != Unanswered && AnswerBlamed(isSpace, v, report, cs)
    ensures v == Accepted <==> Paired(isSpace, report, cs, |cs|)
    ensures v == Accepted ==> AnsweredBy(clarified, cs, |cs|)
  {
    clarified := {};
    assert AnsweredBy(clarified, cs, 0);
    assert Paired(isSpace, report, cs, 0);
    hide Repeats, Indexes, AnswerOk, AnsweredBy, Paired;
    for i := 0 to |cs|
      invariant Paired(isSpace, report, cs, i) && AnsweredBy(clarified, cs, i)
    {
      AnsweredNext(clarified, cs, i);
      PairedNext(isSpace, report, cs, i);
      v := PairOne(isSpace, report, byOrdinal, cs[i], clarified);
      assert forall c | c in [cs[i]] :: c in cs;
      if v != Accepted { return v, clarified; }
      clarified := clarified + {cs[i].ordinal};
    }
    v := Accepted;
  }

  lemma AcceptablePairs(isSpace: Spaces, r: AttemptRecord)
    requires Acceptable(isSpace, r)
    ensures forall i | 0 <= i < |r.clarifications| :: Repeats(r.report, r.clarifications[i])
    ensures DistinctAnswers(r.clarifications)
    ensures forall k | 0 <= k < |r.report| :: HasAnswer(r.clarifications, r.report[k].ordinal)
  {
    forall i | 0 <= i < |r.clarifications| ensures Repeats(r.report, r.clarifications[i]) {
      AnswersMatch(r.report, r.clarifications, i);
    }
    forall i, j | 0 <= i < j < |r.clarifications| ensures r.clarifications[i].ordinal != r.clarifications[j].ordinal {
      NoOrdinalTwice(r.report, r.clarifications, i, j);
    }
    forall k | 0 <= k < |r.report| ensures HasAnswer(r.clarifications, r.report[k].ordinal) {
      EveryReasonAnswered(r.report, r.clarifications, k);
    }
  }

  lemma Member(s: set<int>)
    ensures s == {} || exists o :: o in s
  {
    if forall o :: o !in s { assert s == {}; }
  }

  lemma NoneLeft(s: set<int>, t: set<int>)
    ensures s - t == {} ==> s <= t
  {
    forall o: int | o in s ensures o in s - t || o in t {}
  }

  /** The last check walks the report's map in whatever order. */
  method AllAnswered(byOrdinal: map<int, ReportEntry>, clarified: set<int>) returns (ok: bool)
    ensures ok <==> byOrdinal.Keys <= clarified
  {
    var todo: set<int> := byOrdinal.Keys;
    while todo != {}
      invariant todo <= byOrdinal.Keys && byOrdinal.Keys - todo <= clarified
      decreases |todo|
    {
      Member(todo);
      var o :| o in todo;
      if o !in clarified { return false; }
      todo := todo - {o};
    }
    ok := true;
  }

  lemma AnsweredOrdinals(report: seq<ReportEntry>, byOrdinal: map<int, ReportEntry>, cs: seq<Clarification>,
                         clarified: set<int>)
    requires Indexes(report, byOrdinal) && AnsweredBy(clarified, cs, |cs|)
    ensures byOrdinal.Keys <= clarified <==> forall k | 0 <= k < |report| :: HasAnswer(cs, report[k].ordinal)
  {
    var left := byOrdinal.Keys - clarified;
    if left == {} {
      forall k | 0 <= k < |report| ensures HasAnswer(cs, report[k].ordinal) {
        assert report[k].ordinal in byOrdinal.Keys && report[k].ordinal !in left;
      }
      NoneLeft(byOrdinal.Keys, clarified);
    } else {
      Member(left);
      var o :| o in left;
      var k :| 0 <= k < |report| && report[k].ordinal == o;
      assert !HasAnswer(cs, report[k].ordinal);
    }
  }

  predicate Visible(isSpace: Spaces, s: string) { exists c | c in s :: !isSpace(c) }

  lemma VisibleExactly(isSpace: Spaces, s: string)
    ensures Visible(isSpace, s) <==> !Blank(isSpace, s)
  {
    if c :| c in s && !isSpace(c) { var i :| 0 <= i < |s| && s[i] == c; }
    if i :| 0 <= i < |s| && !isSpace(s[i]) { assert s[i] in s; }
  }

  /** In terms of the entries: each reason of the report has a positive ordinal of its own,
      one of the five signals and a text, and is answered by exactly one clarification that
      repeats it and carries an answer and a span. */
  ghost predicate WellAnswered(isSpace: Spaces, r: AttemptRecord) {
    && r.report != []
    && (forall e | e in r.report ::
          e.ordinal >= 1 && e.signal in {"SR-1", "SR-2", "SR-3", "SR-4", "SR-5"} && Visible(isSpace, e.reason))
    && (forall i, j | 0 <= i < j < |r.report| :: r.report[i].ordinal != r.report[j].ordinal)
    && (forall i, j | 0 <= i < j < |r.clarifications| :: r.clarifications[i].ordinal != r.clarifications[j].ordinal)
    && (forall e | e in r.report :: exists c | c in r.clarifications :: c.ordinal == e.ordinal)
    && (forall c | c in r.clarifications ::
          && (exists e | e in r.report :: e.ordinal == c.ordinal && e.reason == c.reason)
          && Visible(isSpace, c.answer) && Visible(isSpace, c.span))
  }

  lemma EntriesExactly(isSpace: Spaces, r: AttemptRecord)
    ensures (forall i | 0 <= i < |r.report| :: EntryOk(isSpace, r.report[i])) <==>
      forall e | e in r.report ::
        e.ordinal >= 1 && e.signal in {"SR-1", "SR-2", "SR-3", "SR-4", "SR-5"} && Visible(isSpace, e.reason)
    ensures (forall i | 0 <= i < |r.clarifications| :: AnswerOk(isSpace, r.clarifications[i])) <==>
      forall c | c in r.clarifications :: Visible(isSpace, c.answer) && Visible(isSpace, c.span)
  {
    forall s ensures Visible(isSpace, s) <==> !Blank(isSpace, s) { VisibleExactly(isSpace, s); }
    hide Visible, Blank;
    assert forall i | 0 <= i < |r.report| :: r.report[i] in r.report;
    assert forall i | 0 <= i < |r.clarifications| :: r.clarifications[i] in r.clarifications;
  }

  lemma RepeatsExactly(report: seq<ReportEntry>, c: Clarification)
    ensures Repeats(report, c) <==> exists e | e in report :: e.ordinal == c.ordinal && e.reason == c.reason
  {
    if k :| 0 <= k < |report| && report[k].ordinal == c.ordinal && report[k].reason == c.reason {
      assert report[k] in report;
    }
    if e :| e in report && e.ordinal == c.ordinal && e.reason == c.reason {
      var k :| 0 <= k < |report| && report[k] == e;
    }
  }

  lemma AnswerExactly(cs: seq<Clarification>, ordinal: int)
    ensures HasAnswer(cs, ordinal) <==> exists c | c in cs :: c.ordinal == ordinal
  {
    if i :| 0 <= i < |cs| && cs[i].ordinal == ordinal { assert cs[i] in cs; }
    if c :| c in cs && c.ordinal == ordinal { var i :| 0 <= i < |cs| && cs[i] == c; }
  }

  /** The same by positions. */
  predicate PairedUp(report: seq<ReportEntry>, cs: seq<Clarification>) {
    && DistinctOrdinals(report) && DistinctAnswers(cs)
    && (forall i | 0 <= i < |cs| :: Repeats(report, cs[i]))
    && (forall k | 0 <= k < |report| :: HasAnswer(cs, report[k].ordinal))
  }

  lemma AcceptableByPosition(isSpace: Spaces, r: AttemptRecord)
    ensures Acceptable(isSpace, r) <==>
      && r.report != [] && PairedUp(r.report, r.clarifications)
      && (forall i | 0 <= i < |r.report| :: EntryOk(isSpace, r.report[i]))
      && (forall i | 0 <= i < |r.clarifications| :: AnswerOk(isSpace, r.clarifications[i]))
  {
    hide EntryOk, AnswerOk, Repeats, HasAnswer, Cited, Answered;
    if Acceptable(isSpace, r) { AcceptablePairs(isSpace, r); }
    if PairedUp(r.report, r.clarifications) { PairingIsBijective(r.report, r.clarifications); }
  }

  lemma PairedExactly(report: seq<ReportEntry>, cs: seq<Clarification>)
    ensures (forall i | 0 <= i < |cs| :: Repeats(report, cs[i])) <==>
      forall c | c in cs :: exists e | e in report :: e.ordinal == c.ordinal && e.reason == c.reason
    ensures (forall k | 0 <= k < |report| :: HasAnswer(cs, report[k].ordinal)) <==>
      forall e | e in report :: exists c | c in cs :: c.ordinal == e.ordinal
  {
    forall c | c in cs
      ensures Repeats(report, c) <==> exists e | e in report :: e.ordinal == c.ordinal && e.reason == c.reason
    {
      RepeatsExactly(report, c);
    }
    forall e | e in report ensures HasAnswer(cs, e.ordinal) <==> exists c | c in cs :: c.ordinal == e.ordinal {
      AnswerExactly(cs, e.ordinal);
    }
    hide Repeats, HasAnswer;
    assert forall i | 0 <= i < |report| :: report[i] in report;
    assert forall i | 0 <= i < |cs| :: cs[i] in cs;
  }

  /** Which is what the one-to-one correspondence comes to. */
  lemma AcceptableExactly(isSpace: Spaces, r: AttemptRecord)
    ensures Acceptable(isSpace, r) <==> WellAnswered(isSpace, r)
  {
    AcceptableByPosition(isSpace, r);
    EntriesExactly(isSpace, r);
    PairedExactly(r.report, r.clarifications);
    hide Acceptable, EntryOk, AnswerOk, Visible, Repeats, HasAnswer;
  }

  /** validateAttemptRecord: accepted exactly when the record is Acceptable. */
  method ValidateAttemptRecord(isSpace: Spaces, r: AttemptRecord) returns (v: Verdict)
    ensures v == Accepted <==> Acceptable(isSpace, r)
    ensures v == Accepted <==> WellAnswered(isSpace, r)
    ensures v != Unanswered ==>
      ReportBlamed(isSpace, v, r.report) || AnswerBlamed(isSpace, v, r.report, r.clarifications)
    ensures v == Unanswered ==> exists k | 0 <= k < |r.report| :: !HasAnswer(r.clarifications, r.report[k].ordinal)
  {
    AcceptableExactly(isSpace, r);
    hide WellAnswered;
    if Acceptable(isSpace, r) { AcceptablePairs(isSpace, r); }
    var byOrdinal, clarified;
    v, byOrdinal := ValidateReport(isSpace, r.report);
    if v != Accepted { return; }
    v, clarified := PairClarifications(isSpace, r.report, byOrdinal, r.clarifications);
    if v != Accepted { return; }
    AnsweredOrdinals(r.report, byOrdinal, r.clarifications, clarified);
    var all := AllAnswered(byOrdinal, clarified);
    if !all { return Unanswered; }
    PairingIsBijective(r.report, r.clarifications);
    v := Accepted;
  }

  /** Hence as many answers as reasons. */
  lemma EqualCounts(isSpace: Spaces, r: AttemptRecord)
    requires Acceptable(isSpace, r)
    ensures |r.clarifications| == |r.report|
  {
    assert |multiset(Answered(r.clarifications))| == |r.clarifications|;
    assert |multiset(Cited(r.report))| == |r.report|;
  }

  // ----- Written once -----

  datatype Value = Attempt(record: AttemptRecord) | Other(text: string)

  const READINESS_ATTEMPT: Key := "mindspec_readiness_attempt"

  /** One call: what it is given and how its reads and its write go. */
  datatype Call = Call(record: AttemptRecord, readFails: bool, mergeReadFails: bool,
                       marshalFails: bool, step: StepResult)

  ghost predicate Stores(isSpace: Spaces, m: map<Key, Value>, validId: bool, c: Call) {
    && validId && Acceptable(isSpace, c.record) && !c.readFails && READINESS_ATTEMPT !in m
    && !c.mergeReadFails && !c.marshalFails && c.step.Durable()
  }

  ghost function AfterCall(isSpace: Spaces, m: map<Key, Value>, validId: bool, c: Call): map<Key, Value> {
    if Stores(isSpace, m, validId, c) then m[READINESS_ATTEMPT := Attempt(c.record)] else m
  }

  method WriteAttemptRecord(isSpace: Spaces, s: IssueStore<Value>, c: Call) returns (ok: bool)
    modifies s`record, s`writes
    ensures s.Contents() == AfterCall(isSpace, old(s.Contents()), s.validId, c)
    ensures s.writes == old(s.writes) + if Stores(isSpace, old(s.Contents()), s.validId, c) then 1 else 0
    ensures ok == (Stores(isSpace, old(s.Contents()), s.validId, c) && c.step.Succeeded?)
    ensures ok <==>
      && s.validId && WellAnswered(isSpace, c.record) && !c.readFails && !c.mergeReadFails && !c.marshalFails
      && "mindspec_readiness_attempt" !in old(s.Contents()) && c.step == Succeeded
    ensures ok ==> s.Contents() == old(s.Contents())["mindspec_readiness_attempt" := Attempt(c.record)]
    ensures "mindspec_readiness_attempt" in old(s.Contents()) ==>
      s.Contents() == old(s.Contents()) && s.writes == old(s.writes)
  {
    AcceptableExactly(isSpace, c.record);
    hide WellAnswered, Acceptable;
    if !s.validId { return false; }
    var v := ValidateAttemptRecord(isSpace, c.record);
    if v != Accepted { return false; }
    var existing := s.GetMetadata(c.readFails);
    if existing.None? { return false; }
    if READINESS_ATTEMPT in existing.value { return false; }
    ok := s.MergeMetadata(map[READINESS_ATTEMPT := Attempt(c.record)], c.mergeReadFails, c.marshalFails, c.step);
    assert existing.value + map[READINESS_ATTEMPT := Attempt(c.record)]
        == existing.value[READINESS_ATTEMPT := Attempt(c.record)];
  }

  ghost function AfterCalls(isSpace: Spaces, m: map<Key, Value>, validId: bool, cs: seq<Call>): map<Key, Value>
    decreases |cs|
  {
    if cs == [] then m else AfterCalls(isSpace, AfterCall(isSpace, m, validId, cs[0]), validId, cs[1..])
  }

  /** Over any calls of a single writer, whatever fails: a record once there is the one
      that stays, whoever calls with whatever record. */
  lemma {:induction false} RecordStays(isSpace: Spaces, m: map<Key, Value>, validId: bool, cs: seq<Call>)
    requires READINESS_ATTEMPT in m
    ensures AfterCalls(isSpace, m, validId, cs) == m
    decreases |cs|
  {
    if cs != [] { RecordStays(isSpace, m, validId, cs[1..]); }
  }

  /** The record kept is that of the first call that stored, and nothing else changes. */
  lemma {:induction false} FirstRecordKept(isSpace: Spaces, m: map<Key, Value>, validId: bool, cs: seq<Call>)
    requires READINESS_ATTEMPT !in m
    ensures var r := AfterCalls(isSpace, m, validId, cs);
      if exists i :: 0 <= i < |cs| && Stores(isSpace, m, validId, cs[i])
      then exists i :: 0 <= i < |cs| && Stores(isSpace, m, validId, cs[i])
                  && (forall j | 0 <= j < i :: !Stores(isSpace, m, validId, cs[j]))
                  && r == m[READINESS_ATTEMPT := Attempt(cs[i].record)]
      else r == m
    decreases |cs|
  {
    hide Stores;
    if cs != [] {
      if Stores(isSpace, m, validId, cs[0]) {
        RecordStays(isSpace, AfterCall(isSpace, m, validId, cs[0]), validId, cs[1..]);
      } else {
        FirstRecordKept(isSpace, m, validId, cs[1..]);
        if i :| 0 <= i < |cs| && Stores(isSpace, m, validId, cs[i]) {
          assert cs[1..][i - 1] == cs[i];
          var k :| 0 <= k < |cs| - 1 && Stores(isSpace, m, validId, cs[1..][k])
            && (forall j | 0 <= j < k :: !Stores(isSpace, m, validId, cs[1..][j]))
            && AfterCalls(isSpace, m, validId, cs) == m[READINESS_ATTEMPT := Attempt(cs[1..][k].record)];
          assert cs[k + 1] == cs[1..][k];
          forall j | 0 <= j < k + 1 ensures !Stores(isSpace, m, validId, cs[j]) {
            if j > 0 { assert cs[j] == cs[1..][j - 1]; }
          }
        }
      }
    }
  }
}
