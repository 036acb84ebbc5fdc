/** The metadata map of one issue and the read-merge-write verbs every protocol of the
    repository rests on (internal/bead/bdcli.go). */
module Metadata {
  import opened Common

  type Key = string

  /** Keys DeleteMetadataKeys refuses before it talks to the store. */
  predicate ValidKey(k: Key) {
    k != "" && k[0] != '-' && forall i | 0 <= i < |k| :: k[i] != ' ' && k[i] != '\t' && k[i] != '\r' && k[i] != '\n'
  }

  lemma ValidKeys(keys: seq<Key>)
    ensures (forall i | 0 <= i < |keys| :: ValidKey(keys[i])) <==>
      forall k | k in keys :: k != "" && k[0] != '-' && forall c | c in {' ', '\t', '\r', '\n'} :: c !in k
  {
    forall k: Key
      ensures ValidKey(k) <==> k != "" && k[0] != '-' && forall c | c in {' ', '\t', '\r', '\n'} :: c !in k
    {
      if c :| c in {' ', '\t', '\r', '\n'} && c in k { var i :| 0 <= i < |k| && k[i] == c; }
      assert forall i | 0 <= i < |k| :: k[i] in k;
    }
    hide ValidKey;
    assert forall i | 0 <= i < |keys| :: keys[i] in keys;
  }

  function Without<V>(m: map<Key, V>, keys: set<Key>): (r: map<Key, V>)
    ensures r.Keys == m.Keys - keys
    ensures forall k | k in r :: r[k] == m[k]
  {
    map k | k in m && k !in keys :: m[k]
  }

  function KeySet(keys: seq<Key>): (s: set<Key>)
    ensures forall k :: k in s <==> k in keys
  {
    set k | k in keys
  }

  class IssueStore<V(==)> {
    /** The stored metadata; None for an issue that carries no metadata field. */
    var record: Option<map<Key, V>>
    /** Writes that reached the store. */
    var writes: nat
    const validId: bool
    /** The update command either overwrites the stored map by its payload or merges the
        payload into it; both readings occur in the repository. */
    const overwrites: bool

    constructor (record: Option<map<Key, V>>, validId: bool, overwrites: bool)
      ensures this.record == record && writes == 0 && this.validId == validId && this.overwrites == overwrites
    {
      this.record, writes, this.validId, this.overwrites := record, 0, validId, overwrites;
    }

    /** An absent map reads as the empty one. */
    function Contents(): map<Key, V>
      reads this
    {
      if record.Some? then record.value else map[]
    }

    /** A failed or unparseable read is an error, never an empty map. */
    method GetMetadata(readFails: bool) returns (r: Option<map<Key, V>>)
      ensures r == if validId && !readFails then Some(Contents()) else None
    {
      if !validId || readFails { return None; }
      var merged: map<Key, V> := map[];
      if record.Some? {
        var todo := record.value.Keys;
        while todo != {}
          invariant todo <= record.value.Keys
          invariant merged.Keys == record.value.Keys - todo
          invariant forall k | k in merged :: merged[k] == record.value[k]
          decreases |todo|
        {
          var k :| k in todo;
          merged := merged[k := record.value[k]];
          todo := todo - {k};
        }
        assert merged == record.value;
      }
      return Some(merged);
    }

    /** The update command applied to a payload. */
    method Update(payload: map<Key, V>, step: StepResult) returns (ok: bool)
      modifies this`record, this`writes
      ensures ok == step.Succeeded?
      ensures Contents() ==
        if !step.Durable() then old(Contents()) else if overwrites then payload else old(Contents()) + payload
      ensures writes == old(writes) + if step.Durable() then 1 else 0
      ensures !step.Durable() ==> record == old(record)
    {
      if step.Durable() {
        record := Some(if overwrites then payload else Contents() + payload);
        writes := writes + 1;
      }
      ok := step.Succeeded?;
    }

    /** Every unrelated key survives; a failed read writes nothing at all. */
    method MergeMetadata(updates: map<Key, V>, readFails: bool, marshalFails: bool, step: StepResult) returns (ok: bool)
      modifies this`record, this`writes
      ensures ok == (validId && !readFails && !marshalFails && step.Succeeded?)
      ensures !validId || readFails || marshalFails || !step.Durable() ==>
        record == old(record) && writes == old(writes)
      ensures validId && !readFails && !marshalFails && step.Durable() ==>
        && Contents() == old(Contents()) + updates
        && writes == old(writes) + 1
    {
      if !validId { return false; }
      var existing := GetMetadata(readFails);
      if existing.None? { return false; }
      var merged := CopyInto(existing.value, map[]);
      merged := CopyInto(updates, merged);
      if marshalFails { return false; }
      assert Contents() + (Contents() + updates) == Contents() + updates;
      ok := Update(merged, step);
    }

    /** Removes exactly the named keys. When none of them is there nothing is written,
        and a name the command line could misread refuses the whole call. */
    method DeleteMetadataKeys(keys: seq<Key>, readFails: bool, step: StepResult) returns (ok: bool)
      modifies this`record, this`writes
      ensures var allowed := validId && (forall i | 0 <= i < |keys| :: ValidKey(keys[i])) && !readFails;
        var needed := exists i | 0 <= i < |keys| :: keys[i] in old(Contents());
        && ok == (allowed && (needed ==> step.Succeeded?))
        && (if allowed && needed && step.Durable()
            then Contents() == Without(old(Contents()), KeySet(keys)) && writes == old(writes) + 1
            else record == old(record) && writes == old(writes))
      ensures ok || writes != old(writes) ==> forall k | k in keys ::
        k != "" && k[0] != '-' && forall c | c in {' ', '\t', '\r', '\n'} :: c !in k
      ensures validId && !readFails && step == Succeeded ==> (ok <==> forall k | k in keys ::
        k != "" && k[0] != '-' && forall c | c in {' ', '\t', '\r', '\n'} :: c !in k)
    {
      ValidKeys(keys);
      hide ValidKey;
      if !validId { return false; }
      for i := 0 to |keys|
        invariant forall j | 0 <= j < i :: ValidKey(keys[j])
      {
        if !ValidKey(keys[i]) { return false; }
      }
      var existing := GetMetadata(readFails);
      if existing.None? { return false; }
      var unset: seq<Key>, present := [], false;
      for i := 0 to |keys|
        invariant present <==> exists j | 0 <= j < i :: keys[j] in existing.value
        invariant forall k :: k in unset <==> k in existing.value && k in keys[..i]
      {
        assert forall k :: k in keys[..i + 1] <==> k in keys[..i] || k == keys[i];
        if keys[i] in existing.value {
          unset, present := unset + [keys[i]], true;
        }
      }
      assert keys[..|keys|] == keys;
      if !present { return true; }
      if step.Durable() {
        assert Without(existing.value, KeySet(unset)) == Without(existing.value, KeySet(keys));
        record := Some(Without(existing.value, KeySet(unset)));
        writes := writes + 1;
      }
      return step.Succeeded?;
    }
  }

  /** A Go map copied into another, in whatever order the map is walked. */
  method CopyInto<V>(from: map<Key, V>, into: map<Key, V>) returns (r: map<Key, V>)
    ensures r == into + from
  {
    r := into;
    var todo := from.Keys;
    while todo != {}
      invariant todo <= from.Keys
      invariant r.Keys == into.Keys + (from.Keys - todo)
      invariant forall k | k in r :: r[k] == if k in from && k !in todo then from[k] else into[k]
      decreases |todo|
    {
      var k :| k in todo;
      r := r[k := from[k]];
      todo := todo - {k};
    }
  }

  // ----- Laws across calls -----

  /** Deleting the keys a merge wrote undoes the merge exactly when none of them was
      there before: the rollback of the readiness marker restores the issue. */
  lemma {:induction false} DeleteUndoesMerge<V>(before: map<Key, V>, updates: map<Key, V>)
    ensures Without(before + updates, updates.Keys) == before <==> before.Keys !! updates.Keys
  {
  }

  /** What an unlocked writer leaves when another call wrote between its read and its
      write: the map it read, with its updates, overwrites or is merged into the newer one. */
  function Raced<V>(read: map<Key, V>, newer: map<Key, V>, updates: map<Key, V>, overwrites: bool): map<Key, V> {
    if overwrites then read + updates else newer + (read + updates)
  }

  /** The other call's value of a key survives the race exactly when this call neither
      read an older value of the key nor updates it to another one, and the store merges
      or the key was already that way. This is why the phase writers hold a lock. */
  lemma RacedWriteSurvives<V>(read: map<Key, V>, other: map<Key, V>, updates: map<Key, V>, overwrites: bool, k: Key)
    requires k in other
    ensures var r := Raced(read, read + other, updates, overwrites);
      (k in r && r[k] == other[k])
      <==> if k in updates then updates[k] == other[k]
           else if k in read then read[k] == other[k]
           else !overwrites
  {
  }

  /** Without a race both readings of the update command give the same map. */
  lemma SequentialMergesAgree<V>(read: map<Key, V>, updates: map<Key, V>)
    ensures Raced(read, read, updates, true) == Raced(read, read, updates, false) == read + updates
  {
  }
}
