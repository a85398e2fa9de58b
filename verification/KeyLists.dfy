/** The key list that a replay leaves (internal/store/store.go:271-292, 299-362): setIndex appends to
    it, deleteIndex removes one occurrence. */
module KeyLists {
  import opened Bytes
  import opened Prelude
  import opened Record
  import opened Log
  import opened Sorting
  import opened Snapshot
  import opened StoreState
  import opened StoreLaws

  // ---- deleteIndex ----

  /** Only the first occurrence goes. */
  lemma RemoveAt(keys: seq<Id>, id: Id, i: nat)
    requires i < |keys| && keys[i] == id && id !in keys[..i]
    ensures RemoveFirst(keys, id) == keys[..i] + keys[i + 1..]
    decreases i
  {
    if i > 0 {
      assert keys[1..][..i - 1] == keys[..i][1..];
      assert keys[0] in keys[..i];
      RemoveAt(keys[1..], id, i - 1);
      assert [keys[0]] + keys[1..][..i - 1] == keys[..i];
    }
  }

  lemma {:induction false} RemoveAbsent(keys: seq<Id>, id: Id)
    requires id !in keys
    ensures RemoveFirst(keys, id) == keys
    decreases |keys|
  {
    if |keys| > 0 {
      assert forall k :: k in keys[1..] ==> k in keys;
      RemoveAbsent(keys[1..], id);
    }
  }

  lemma {:induction false} RemoveFirstDistinct(keys: seq<Id>, id: Id)
    requires Distinct(keys)
    ensures Distinct(RemoveFirst(keys, id))
    ensures forall k :: k in RemoveFirst(keys, id) <==> k in keys && k != id
    decreases |keys|
  {
    if |keys| > 0 {
      var tail := keys[1..];
      assert keys == [keys[0]] + tail;
      RemoveFirstDistinct(tail, id);
      if keys[0] != id {
        var r := RemoveFirst(tail, id);
        assert RemoveFirst(keys, id) == [keys[0]] + r;
        assert keys[0] !in r;
      }
    }
  }

  lemma {:induction false} RemoveFirstCount(keys: seq<Id>, id: Id)
    ensures multiset(RemoveFirst(keys, id)) == multiset(keys) - multiset{id}
    decreases |keys|
  {
    if |keys| > 0 {
      assert keys == [keys[0]] + keys[1..];
      if keys[0] != id {
        RemoveFirstCount(keys[1..], id);
        assert multiset(RemoveFirst(keys, id)) == multiset{keys[0]} + multiset(RemoveFirst(keys[1..], id));
      }
    }
  }

  // ---- Replays that put an id at most once ----

  /** No Active record names an id that is live when it is replayed. */
  predicate FirstPuts(index: Index, rs: seq<Record>, segment: nat) {
    |rs| == 0 ||
    var front, last := rs[..|rs| - 1], rs[|rs| - 1];
    FirstPuts(index, front, segment) && (last.status == ACTIVE ==> last.id !in FoldIndex(index, front, segment))
  }

  /** Every Deleted record names an id that is live when it is replayed. */
  predicate LiveDeletes(index: Index, rs: seq<Record>, segment: nat) {
    |rs| == 0 ||
    var front, last := rs[..|rs| - 1], rs[|rs| - 1];
    LiveDeletes(index, front, segment) && (last.status == DELETED ==> last.id in FoldIndex(index, front, segment))
  }

  lemma {:induction false} FirstPutsKeys(t: Table, rs: seq<Record>, segment: nat)
    requires TableOk(t) && FirstPuts(t.index, rs, segment)
    ensures TableOk(Table(FoldIndex(t.index, rs, segment), FoldKeys(t.keys, rs)))
    decreases |rs|
  {
    if |rs| > 0 {
      var front, last := rs[..|rs| - 1], rs[|rs| - 1];
      FirstPutsKeys(t, front, segment);
      var index, keys := FoldIndex(t.index, front, segment), FoldKeys(t.keys, front);
      StepKeys(index, keys, last, segment, TotalSize(front));
    }
  }

  lemma StepKeys(index: Index, keys: seq<Id>, r: Record, segment: nat, offset: nat)
    requires TableOk(Table(index, keys)) && (r.status == ACTIVE ==> r.id !in index)
    ensures TableOk(Table(IndexStep(index, r, segment, offset), KeysStep(keys, r)))
  {
    if r.status == DELETED { RemoveFirstDistinct(keys, r.id); }
  }

  // ---- And those that put one twice ----

  /** How many entries of an id the key list has too many. */
  function Extra(keys: seq<Id>, index: Index, id: Id): int {
    var n: int := multiset(keys)[id];
    if id in index then n - 1 else n
  }

  /** Every live id is listed. */
  ghost predicate Covered(keys: seq<Id>, index: Index) {
    forall id :: Extra(keys, index, id) >= 0
  }

  lemma StepExtra(index: Index, keys: seq<Id>, r: Record, segment: nat, offset: nat)
    requires Covered(keys, index)
    ensures var index', keys' := IndexStep(index, r, segment, offset), KeysStep(keys, r);
      && Covered(keys', index')
      && (r.status == ACTIVE && r.id in index ==> Extra(keys', index', r.id) > 0)
      && ((r.status == DELETED ==> r.id in index) ==>
            forall id :: Extra(keys', index', id) >= Extra(keys, index, id))
  {
    assert Extra(keys, index, r.id) >= 0;
    if r.status == DELETED { RemoveFirstCount(keys, r.id); }
    var index', keys' := IndexStep(index, r, segment, offset), KeysStep(keys, r);
    forall id
      ensures Extra(keys', index', id) >= 0
      ensures (r.status == DELETED ==> r.id in index) ==> Extra(keys', index', id) >= Extra(keys, index, id)
    {
      assert Extra(keys, index, id) >= 0;
    }
  }

  lemma TableCovered(t: Table)
    requires TableOk(t)
    ensures Covered(t.keys, t.index) && forall id :: Extra(t.keys, t.index, id) == 0
  {
    forall id ensures Extra(t.keys, t.index, id) == 0 {
      DistinctOnce(t.keys, id);
      assert id in t.keys <==> multiset(t.keys)[id] > 0;
    }
  }

  /** A replay lists every live id; and where deletions name live ids, an id once listed too often
      stays so. */
  lemma {:induction false} FoldExtra(t: Table, rs: seq<Record>, segment: nat)
    requires TableOk(t)
    ensures Covered(FoldKeys(t.keys, rs), FoldIndex(t.index, rs, segment))
    ensures LiveDeletes(t.index, rs, segment) && !FirstPuts(t.index, rs, segment) ==>
      exists id :: Extra(FoldKeys(t.keys, rs), FoldIndex(t.index, rs, segment), id) > 0
    decreases |rs|
  {
    hide Covered, TableOk, Extra;
    if |rs| == 0 {
      TableCovered(t);
    } else {
      var front, last := rs[..|rs| - 1], rs[|rs| - 1];
      FoldExtra(t, front, segment);
      var index, keys := FoldIndex(t.index, front, segment), FoldKeys(t.keys, front);
      StepExtra(index, keys, last, segment, TotalSize(front));
      if LiveDeletes(t.index, rs, segment) && !FirstPuts(t.index, rs, segment) && !FirstPuts(t.index, front, segment) {
        var id :| Extra(keys, index, id) > 0;
        assert Extra(FoldKeys(t.keys, rs), FoldIndex(t.index, rs, segment), id) > 0;
      }
    }
  }

  /** A key list as long as the index that lists every live id lists nothing else. */
  lemma CoveredFits(keys: seq<Id>, index: Index)
    requires Covered(keys, index) && |keys| == |index|
    ensures Enumerates(keys, index.Keys)
  {
    var live := multiset(index.Keys);
    forall id ensures live[id] <= multiset(keys)[id] { assert Extra(keys, index, id) >= 0; }
    assert |live| == |index.Keys| == |index|;
    assert |multiset(keys) - live| == |multiset(keys)| - |live| == 0;
    assert multiset(keys) == live;
    forall i, j | 0 <= i < j < |keys| ensures keys[i] != keys[j] {
      if keys[i] == keys[j] { TwiceCounted(keys, i, j); }
    }
    forall id ensures id in keys <==> id in index.Keys { assert id in keys <==> id in multiset(keys); }
  }

  lemma EmptyTable(t: Table)
    requires TableOk(t) && |t.index| == 0
    ensures t == Table(map[], [])
  {
    SomeMember(t.keys);
    assert t.index.Keys == {};
  }

  /** The key list after rebuilding from a segment, over a table whose key list was right, whatever
      the bytes are: if it is as long as the index it lists exactly the live ids; it does so, each
      once, if no Active record names an id that is live when it is replayed; and only then, if the
      Deleted ones name live ids. */
  lemma RebuildKeysExact(t: Table, file: Bytes, segment: nat)
    requires TableOk(t)
    ensures var t', rs := RebuildSegment(t, file, segment), Scan(file);
      && (forall id :: id in t'.index ==> id in t'.keys)
      && (|t'.keys| == |t'.index| ==> TableOk(t'))
      && (FirstPuts(t.index, rs, segment) ==> TableOk(t'))
      && (LiveDeletes(t.index, rs, segment) ==> (TableOk(t') <==> FirstPuts(t.index, rs, segment)))
  {
    hide Scan, FoldIndex, FoldKeys, FirstPuts, LiveDeletes;
    var t', rs := RebuildSegment(t, file, segment), Scan(file);
    if |t.index| == 0 { EmptyTable(t); }
    assert t' == Table(FoldIndex(t.index, rs, segment), FoldKeys(t.keys, rs));
    FoldExtra(t, rs, segment);
    hide TableOk;
    if |t'.keys| == |t'.index| { CoveredFits(t'.keys, t'.index); assert TableOk(t') by { TableIs(t'); } }
    if FirstPuts(t.index, rs, segment) { FirstPutsKeys(t, rs, segment); }
    if LiveDeletes(t.index, rs, segment) && TableOk(t') { TableCovered(t'); }
    forall id | id in t'.index ensures id in t'.keys { assert Extra(t'.keys, t'.index, id) >= 0; }
  }

  lemma TableIs(t: Table)
    requires Enumerates(t.keys, t.index.Keys)
    ensures TableOk(t)
  {
  }
}
