/** The append-only ledger of one review panel (internal/panel/ledger.go): what its
    records say about the attempts of a slot, and what each append keeps. */
module PanelLedger {
  import opened Common

  datatype SlotKey = SlotKey(slot: string, round: nat)

  datatype Status = Started | Dispatched | Submitted | QuotaWall | LaunchFailed | Malformed {
    /** The first record of an attempt, as opposed to an outcome. */
    predicate Opens() { Started? || Dispatched? }
  }

  /** One ledger line. Digests, times and process groups are not modelled. */
  datatype Record =
    | Launch(key: SlotKey, attempt: nat, status: Status)
    | Verdict(key: SlotKey, seqno: nat, file: nat)   // file stands for the digest of the verdict bytes
    | Substitution(key: SlotKey, toFamily: string)
    | OtherRecord

  type Ledger = seq<Record>

  /** ledgerRecordKey: two records with one key may not both be in a ledger. */
  predicate SameRecordKey(r: Record, other: Record) {
    match (r, other)
    case (Launch(k, a, st), Launch(k', a', st')) => k == k' && a == a' && st == st'
    case (Verdict(k, n, _), Verdict(k', n', _)) => k == k' && n == n'
    case (Substitution(k, _), Substitution(k', _)) => k == k'
    case _ => false
  }

  predicate Conflicts(l: Ledger, r: Record) {
    exists i | 0 <= i < |l| :: SameRecordKey(r, l[i]) && r != l[i]
  }

  /** appendRecordsLocked: a repeated record is skipped, a conflicting one refuses
      the whole batch. */
  function AppendLocked(l: Ledger, batch: seq<Record>): Option<Ledger>
    decreases |batch|
  {
    if batch == [] then Some(l)
    else if Conflicts(l, batch[0]) then None
    else if batch[0] in l && !batch[0].OtherRecord? then AppendLocked(l, batch[1..])
    else AppendLocked(l + [batch[0]], batch[1..])
  }

  lemma AppendOne(l: Ledger, r: Record)
    ensures AppendLocked(l, [r]) ==
      if Conflicts(l, r) then None else if r in l && !r.OtherRecord? then Some(l) else Some(l + [r])
  {
  }

  /** Refused is only a verdict with a sequence number that other bytes have, and a second
      substitute of one slot and round. */
  lemma ConflictsExactly(l: Ledger, r: Record)
    ensures AppendLocked(l, [r]) == None <==>
      match r
      case Verdict(key, seqno, file) => exists other: nat | other != file :: Verdict(key, seqno, other) in l
      case Substitution(key, toFamily) => exists other | other != toFamily :: Substitution(key, other) in l
      case _ => false
  {
    AppendOne(l, r);
    if i :| 0 <= i < |l| && SameRecordKey(r, l[i]) && r != l[i] {
      match r
      case Verdict(key, seqno, file) => assert l[i] == Verdict(key, seqno, l[i].file) && l[i] in l;
      case Substitution(key, _) => assert l[i] == Substitution(key, l[i].toFamily) && l[i] in l;
      case _ =>
    }
    match r
    case Verdict(key, seqno, file) =>
      if other: nat :| other != file && Verdict(key, seqno, other) in l {
        var i :| 0 <= i < |l| && l[i] == Verdict(key, seqno, other);
        assert SameRecordKey(r, l[i]);
      }
    case Substitution(key, toFamily) =>
      if other :| other != toFamily && Substitution(key, other) in l {
        var i :| 0 <= i < |l| && l[i] == Substitution(key, other);
        assert SameRecordKey(r, l[i]);
      }
    case _ =>
  }

  // ----- What a ledger says about attempts -----

  predicate HasStatus(l: Ledger, key: SlotKey, a: nat, st: Status) {
    Launch(key, a, st) in l
  }

  predicate HasEnd(l: Ledger, key: SlotKey, a: nat) {
    HasStatus(l, key, a, Submitted) || HasStatus(l, key, a, QuotaWall)
    || HasStatus(l, key, a, LaunchFailed) || HasStatus(l, key, a, Malformed)
  }

  predicate HasStart(l: Ledger, key: SlotKey, a: nat) {
    HasStatus(l, key, a, Started) || HasStatus(l, key, a, Dispatched)
  }

  /** A process attempt that was registered and has no outcome. */
  predicate OpenStarted(l: Ledger, key: SlotKey, a: nat) {
    HasStatus(l, key, a, Started) && !HasEnd(l, key, a)
  }

  predicate OpenDispatched(l: Ledger, key: SlotKey, a: nat) {
    HasStatus(l, key, a, Dispatched) && !HasEnd(l, key, a)
  }

  ghost predicate NoOpenStarted(l: Ledger, key: SlotKey) {
    forall a: nat :: !OpenStarted(l, key, a)
  }

  /** The status of the last record of an attempt, in ledger order. */
  function LastStatus(l: Ledger, key: SlotKey, a: nat): Option<Status> {
    if l == [] then None
    else
      var r := l[|l| - 1];
      if r.Launch? && r.key == key && r.attempt == a then Some(r.status)
      else LastStatus(l[..|l| - 1], key, a)
  }

  /** One more than every attempt number in the ledger. */
  function LedgerNext(l: Ledger, key: SlotKey): (n: nat)
    ensures forall a: nat, st {:trigger HasStatus(l, key, a, st)} :: HasStatus(l, key, a, st) ==> a < n
  {
    if l == [] then 1
    else
      var n := LedgerNext(l[..|l| - 1], key);
      var r := l[|l| - 1];
      assert l == l[..|l| - 1] + [r];
      assert forall a: nat, st {:trigger HasStatus(l, key, a, st)} :: HasStatus(l, key, a, st) ==>
        HasStatus(l[..|l| - 1], key, a, st) || r == Launch(key, a, st);
      if r.Launch? && r.key == key && r.attempt >= n then r.attempt + 1 else n
  }

  /** The attempts below n whose last status is dispatched, in increasing order. */
  function DispatchedBelow(l: Ledger, key: SlotKey, n: nat): (s: seq<nat>)
    ensures forall a: nat :: a in s <==> a < n && LastStatus(l, key, a) == Some(Dispatched)
    ensures forall i, j | 0 <= i < j < |s| :: s[i] < s[j]
  {
    if n == 0 then []
    else
      var s := DispatchedBelow(l, key, n - 1);
      assert forall i | 0 <= i < |s| :: s[i] in s;
      if LastStatus(l, key, n - 1) == Some(Dispatched) then s + [n - 1] else s
  }

  function Closings(key: SlotKey, attempts: seq<nat>): (rs: seq<Record>)
    ensures |rs| == |attempts|
    ensures forall i | 0 <= i < |rs| :: rs[i] == Launch(key, attempts[i], LaunchFailed)
  {
    seq(|attempts|, i requires 0 <= i < |attempts| => Launch(key, attempts[i], LaunchFailed))
  }

  /** dispatchSlot's batch: close what is still dispatched, then open attempt k. */
  function DispatchBatch(l: Ledger, key: SlotKey, k: nat): seq<Record> {
    Closings(key, DispatchedBelow(l, key, LedgerNext(l, key))) + [Launch(key, k, Dispatched)]
  }

  /** LatestSubmissions: the verdict record of a slot with the highest sequence number. */
  function LatestSubmission(l: Ledger, key: SlotKey): (r: Option<Record>)
    ensures r.Some? ==> r.value in l && r.value.Verdict? && r.value.key == key && r.value.seqno > 0
    ensures forall i | 0 <= i < |l| && l[i].Verdict? && l[i].key == key && l[i].seqno > 0 ::
              r.Some? && l[i].seqno <= r.value.seqno
  {
    if l == [] then None
    else
      var best := LatestSubmission(l[..|l| - 1], key);
      var r := l[|l| - 1];
      if r.Verdict? && r.key == key && r.seqno > (if best.Some? then best.value.seqno else 0) then Some(r) else best
  }

  // ----- The ledger invariant -----

  /** No attempt number opens twice. */
  ghost predicate StartsUnique(l: Ledger) {
    forall i, j | 0 <= i < j < |l| ::
      !(l[i].Launch? && l[j].Launch? && l[i].key == l[j].key && l[i].attempt == l[j].attempt
        && l[i].status.Opens() && l[j].status.Opens())
  }

  /** Every outcome follows the record that opened its attempt. */
  ghost predicate EndsFollowStarts(l: Ledger) {
    forall i | 0 <= i < |l| && l[i].Launch? && !l[i].status.Opens() ::
      HasStart(l[..i], l[i].key, l[i].attempt)
  }

  /** When a process attempt starts, every earlier one of its slot has ended. */
  ghost predicate StartsSerialized(l: Ledger) {
    forall i, j | 0 <= i < j < |l| && l[i].Launch? && l[j].Launch?
                  && l[i].key == l[j].key && l[i].status.Started? && l[j].status.Started? ::
      HasEnd(l[..j], l[i].key, l[i].attempt)
  }

  ghost predicate OneDispatched(l: Ledger) {
    forall key, a: nat, b: nat :: OpenDispatched(l, key, a) && OpenDispatched(l, key, b) ==> a == b
  }

  ghost predicate OneSubstitution(l: Ledger) {
    forall i, j | 0 <= i < j < |l| && l[i].Substitution? && l[j].Substitution? :: l[i].key != l[j].key
  }

  ghost predicate LedgerInv(l: Ledger) {
    StartsUnique(l) && EndsFollowStarts(l) && StartsSerialized(l) && OneDispatched(l) && OneSubstitution(l)
  }

  // ----- What one append does -----

  predicate EndsAttempt(r: Record, key: SlotKey, a: nat) {
    r.Launch? && r.key == key && r.attempt == a && !r.status.Opens()
  }

  /** Appending r changes only the statuses r names. */
  lemma AppendFrame(l: Ledger, r: Record)
    ensures forall key, a: nat, st ::
      HasStatus(l + [r], key, a, st) <==> HasStatus(l, key, a, st) || r == Launch(key, a, st)
    ensures forall key, a: nat :: HasEnd(l + [r], key, a) <==> HasEnd(l, key, a) || EndsAttempt(r, key, a)
    ensures forall key, a: nat :: OpenStarted(l + [r], key, a) <==>
      (HasStatus(l, key, a, Started) || r == Launch(key, a, Started)) && !HasEnd(l, key, a) && !EndsAttempt(r, key, a)
    ensures forall key, a: nat :: OpenDispatched(l + [r], key, a) <==>
      (HasStatus(l, key, a, Dispatched) || r == Launch(key, a, Dispatched))
      && !HasEnd(l, key, a) && !EndsAttempt(r, key, a)
  {
  }

  /** A record that opens no harness attempt leaves at most one dispatched. */
  lemma KeepsOneDispatched(l: Ledger, r: Record)
    requires OneDispatched(l)
    requires r.Launch? && r.status.Dispatched? ==> forall a: nat :: !OpenDispatched(l, r.key, a)
    ensures OneDispatched(l + [r])
  {
    AppendFrame(l, r);
    forall key, a: nat, b: nat | OpenDispatched(l + [r], key, a) && OpenDispatched(l + [r], key, b)
      ensures a == b
    {
      assert OpenDispatched(l, key, a) || r == Launch(key, a, Dispatched);
      assert OpenDispatched(l, key, b) || r == Launch(key, b, Dispatched);
    }
  }

  lemma PrefixStatuses(l: Ledger, i: nat)
    requires i <= |l|
    ensures forall key, a, st :: HasStatus(l[..i], key, a, st) ==> HasStatus(l, key, a, st)
  {
  }

  /** Records that are not launch events touch no attempt. */
  lemma AppendNeutral(l: Ledger, r: Record)
    requires LedgerInv(l) && !r.Launch?
    requires r.Substitution? ==> forall i | 0 <= i < |l| && l[i].Substitution? :: l[i].key != r.key
    ensures LedgerInv(l + [r])
    ensures forall key, a, st :: HasStatus(l + [r], key, a, st) <==> HasStatus(l, key, a, st)
  {
    AppendFrame(l, r);
    KeepsOneDispatched(l, r);
    PrefixesOfAppend(l, r);
  }

  lemma PrefixesOfAppend(l: Ledger, r: Record)
    ensures (l + [r])[..|l|] == l && (l + [r])[|l|] == r
    ensures forall i | 0 <= i <= |l| :: (l + [r])[..i] == l[..i]
  {
  }

  /** An outcome for an attempt that has been opened. */
  lemma AppendEnd(l: Ledger, key: SlotKey, a: nat, st: Status)
    requires LedgerInv(l) && HasStart(l, key, a) && !st.Opens()
    ensures LedgerInv(l + [Launch(key, a, st)])
    ensures HasEnd(l + [Launch(key, a, st)], key, a)
  {
    var r := Launch(key, a, st);
    AppendFrame(l, r);
    KeepsOneDispatched(l, r);
    PrefixesOfAppend(l, r);
    assert HasStatus(l + [r], key, a, st);
  }

  /** A new process attempt, when no earlier one of the slot is open. */
  lemma AppendStarted(l: Ledger, key: SlotKey, k: nat)
    requires LedgerInv(l) && LedgerNext(l, key) <= k && NoOpenStarted(l, key)
    ensures LedgerInv(l + [Launch(key, k, Started)])
    ensures forall a: nat :: OpenStarted(l + [Launch(key, k, Started)], key, a) <==> a == k
  {
    var r := Launch(key, k, Started);
    AppendFrame(l, r);
    KeepsOneDispatched(l, r);
    PrefixesOfAppend(l, r);
    FreshNumber(l, key, k);
    forall a: nat ensures OpenStarted(l + [r], key, a) <==> a == k {
      assert !OpenStarted(l, key, a);
      if a == k { NoEndYet(l, key, k); }
    }
    forall i | 0 <= i < |l| && l[i].Launch? && l[i].key == key && l[i].status.Started?
      ensures HasEnd(l, key, l[i].attempt)
    {
      assert HasStatus(l, key, l[i].attempt, Started);
      assert !OpenStarted(l, key, l[i].attempt);
    }
  }

  lemma NoEndYet(l: Ledger, key: SlotKey, k: nat)
    requires forall st :: !HasStatus(l, key, k, st)
    ensures !HasEnd(l, key, k) && !HasStart(l, key, k)
  {
  }

  lemma FreshNumber(l: Ledger, key: SlotKey, k: nat)
    requires LedgerNext(l, key) <= k
    ensures forall st :: !HasStatus(l, key, k, st)
    ensures forall i | 0 <= i < |l| && l[i].Launch? && l[i].key == key :: l[i].attempt != k
  {
  }

  /** A new harness attempt, when no other one is still dispatched. */
  lemma AppendDispatched(l: Ledger, key: SlotKey, k: nat)
    requires LedgerInv(l) && LedgerNext(l, key) <= k
    requires forall a: nat :: !OpenDispatched(l, key, a)
    ensures LedgerInv(l + [Launch(key, k, Dispatched)])
    ensures forall a: nat :: OpenDispatched(l + [Launch(key, k, Dispatched)], key, a) <==> a == k
  {
    var r := Launch(key, k, Dispatched);
    AppendFrame(l, r);
    KeepsOneDispatched(l, r);
    PrefixesOfAppend(l, r);
    FreshNumber(l, key, k);
    NoEndYet(l, key, k);
    forall a: nat ensures OpenDispatched(l + [r], key, a) <==> a == k {
      assert !OpenDispatched(l, key, a);
    }
  }

  /** In a ledger that keeps the invariant, the last status of an attempt is
      dispatched exactly when it was dispatched and has no outcome. */
  lemma {:induction false} LastDispatched(l: Ledger, key: SlotKey, a: nat)
    requires StartsUnique(l) && EndsFollowStarts(l)
    ensures LastStatus(l, key, a) == Some(Dispatched) <==> OpenDispatched(l, key, a)
    ensures LastStatus(l, key, a) == None <==> forall st :: !HasStatus(l, key, a, st)
  {
    if l != [] {
      var n := |l| - 1;
      var l', r := l[..n], l[n];
      assert l == l' + [r];
      AppendFrame(l', r);
      forall i | 0 <= i < n ensures l'[..i] == l[..i] { }
      LastDispatched(l', key, a);
      if r.Launch? && r.key == key && r.attempt == a && r.status.Dispatched? {
        // Dispatched last: nothing before it can have ended this attempt.
        FirstStart(l, key, a);
        if HasEnd(l', key, a) { EndHasStart(l', key, a); }
      }
    }
  }

  /** An attempt that the last record opens was not open before. */
  lemma FirstStart(l: Ledger, key: SlotKey, a: nat)
    requires StartsUnique(l) && l != []
    requires var r := l[|l| - 1]; r.Launch? && r.key == key && r.attempt == a && r.status.Opens()
    ensures !HasStart(l[..|l| - 1], key, a)
  {
    var l' := l[..|l| - 1];
    assert forall i | 0 <= i < |l'| :: l'[i] == l[i];
  }

  lemma EndHasStart(l: Ledger, key: SlotKey, a: nat)
    requires EndsFollowStarts(l) && HasEnd(l, key, a)
    ensures HasStart(l, key, a)
  {
  }

  lemma NotBothStarts(l: Ledger, key: SlotKey, a: nat)
    requires StartsUnique(l)
    ensures !(HasStatus(l, key, a, Started) && HasStatus(l, key, a, Dispatched))
  {
  }

  // ----- The dispatch batch -----

  /** Appending outcomes one by one, all for attempts already opened. */
  lemma {:induction false} AppendClosings(l: Ledger, key: SlotKey, attempts: seq<nat>)
    requires LedgerInv(l)
    requires forall a | a in attempts :: HasStart(l, key, a)
    ensures LedgerInv(l + Closings(key, attempts))
  {
    if attempts == [] {
      assert l + Closings(key, attempts) == l;
    } else {
      var n := |attempts| - 1;
      var init, a := attempts[..n], attempts[n];
      assert a in attempts;
      AppendClosings(l, key, init);
      var m := l + Closings(key, init);
      assert HasStart(m, key, a);
      AppendEnd(m, key, a, LaunchFailed);
      assert l + Closings(key, attempts) == m + [Launch(key, a, LaunchFailed)];
    }
  }

  lemma ClosingsFrame(l: Ledger, key: SlotKey, attempts: seq<nat>)
    ensures forall k, a: nat, st :: HasStatus(l + Closings(key, attempts), k, a, st) <==>
              HasStatus(l, k, a, st) || (k == key && a in attempts && st == LaunchFailed)
  {
  }

  /** dispatchSlot's batch keeps the ledger invariant, leaves exactly the new
      attempt dispatched, and changes no process attempt and no other slot. */
  lemma DispatchBatchKeeps(l: Ledger, key: SlotKey, k: nat)
    requires LedgerInv(l) && LedgerNext(l, key) <= k
    ensures var l' := l + DispatchBatch(l, key, k);
      && LedgerInv(l')
      && (forall a :: OpenDispatched(l', key, a) <==> a == k)
      && (forall key', a :: OpenStarted(l', key', a) <==> OpenStarted(l, key', a))
      && (forall key', a | key' != key :: OpenDispatched(l', key', a) <==> OpenDispatched(l, key', a))
  {
    var n := LedgerNext(l, key);
    var open := DispatchedBelow(l, key, n);
    forall a ensures a in open <==> OpenDispatched(l, key, a) { LastDispatched(l, key, a); }
    AppendClosings(l, key, open);
    ClosingsFrame(l, key, open);
    var m := l + Closings(key, open);
    forall a ensures !OpenDispatched(m, key, a) { }
    SameNumbers(l, m, key, k);
    AppendDispatched(m, key, k);
    var l' := l + DispatchBatch(l, key, k);
    assert l' == m + [Launch(key, k, Dispatched)];
    AppendFrame(m, Launch(key, k, Dispatched));
    forall key', a ensures OpenStarted(l', key', a) <==> OpenStarted(l, key', a) {
      if key' == key && a in open { NotBothStarts(l, key, a); }
    }
  }

  /** A bound on the attempt numbers carries over to a ledger with no new numbers. */
  lemma SameNumbers(l: Ledger, m: Ledger, key: SlotKey, k: nat)
    requires LedgerNext(l, key) <= k
    requires forall a, st :: HasStatus(m, key, a, st) ==> exists st' :: HasStatus(l, key, a, st')
    ensures LedgerNext(m, key) <= k
  {
    LedgerNextPositive(l, key);
    LedgerNextLeast(m, key, k);
  }

  lemma {:induction false} LedgerNextPositive(l: Ledger, key: SlotKey)
    ensures LedgerNext(l, key) >= 1
  {
    if l != [] { LedgerNextPositive(l[..|l| - 1], key); }
  }

  lemma {:induction false} LedgerNextLeast(l: Ledger, key: SlotKey, k: nat)
    requires 1 <= k && forall a: nat, st :: HasStatus(l, key, a, st) ==> a < k
    ensures LedgerNext(l, key) <= k
  {
    if l != [] {
      var n := |l| - 1;
      assert l == l[..n] + [l[n]];
      PrefixStatuses(l, n);
      if l[n].Launch? { assert HasStatus(l, l[n].key, l[n].attempt, l[n].status); }
      LedgerNextLeast(l[..n], key, k);
    }
  }

  /** Distinct launch records that are not in the ledger are appended as they are. */
  lemma {:induction false} AppendAllFresh(l: Ledger, batch: seq<Record>)
    requires forall i | 0 <= i < |batch| :: batch[i].Launch? && batch[i] !in l
    requires forall i, j | 0 <= i < j < |batch| :: batch[i] != batch[j]
    ensures AppendLocked(l, batch) == Some(l + batch)
    decreases |batch|
  {
    if batch == [] {
      assert l + batch == l;
    } else {
      var r, rest := batch[0], batch[1..];
      assert !Conflicts(l, r);
      forall i | 0 <= i < |rest| ensures rest[i] !in l + [r] { assert rest[i] == batch[i + 1]; }
      AppendAllFresh(l + [r], rest);
      assert l + [r] + rest == l + batch;
    }
  }

  /** The dispatch batch never meets a record key already in the ledger. */
  lemma DispatchBatchFresh(l: Ledger, key: SlotKey, k: nat)
    requires LedgerInv(l) && LedgerNext(l, key) <= k
    ensures AppendLocked(l, DispatchBatch(l, key, k)) == Some(l + DispatchBatch(l, key, k))
  {
    var open := DispatchedBelow(l, key, LedgerNext(l, key));
    var batch := DispatchBatch(l, key, k);
    FreshNumber(l, key, k);
    forall i | 0 <= i < |batch| ensures batch[i] !in l {
      if i < |open| {
        assert open[i] in open;
        LastDispatched(l, key, open[i]);
        assert !HasStatus(l, key, open[i], LaunchFailed);
      } else {
        assert !HasStatus(l, key, k, Dispatched);
      }
    }
    AppendAllFresh(l, batch);
  }

  /** Between two process starts of one slot there is an outcome of the first. */
  lemma EndIsBetween(l: Ledger, i: nat, j: nat)
    requires LedgerInv(l) && i < j < |l| && l[i].Launch? && l[j].Launch? && l[i].key == l[j].key
    requires l[i].status.Started? && l[j].status.Started?
    ensures l[i].attempt != l[j].attempt
    ensures exists m :: i < m < j && EndsAttempt(l[m], l[i].key, l[i].attempt)
  {
  }
}

