/** Runs on which the store does not keep what one would expect of it: deleted ids that come back,
    a payload that is lost, a Put that is forgotten. The exact conditions are in StoreLaws.dfy and
    CompactLaws.dfy. */
module FailingRuns {
  import opened Bytes
  import opened Prelude
  import opened Record
  import opened Log
  import opened Sorting
  import opened Directory
  import opened Snapshot
  import opened StoreState
  import opened StoreLaws
  import opened CompactLaws
  import opened StoreRuns

  // ---- A stale snapshot ----

  /** After a Compact the snapshot still names ids that have since been deleted, and a reopened
      store has them back. */
  lemma StaleRevives(s: State, id: Id)
    requires Inv(s) && s.snapshot.Some?
    requires id in SnapshotIndex(s.snapshot) && id !in s.index
    ensures Reopen(Compact(s)).Ok?
    ensures id !in Compact(s).index
    ensures id in Reopen(Compact(s)).value.index
  {
    hide Inv, Meaning, FoldIndex, Scan, SnapshotIndex, RecordCount, SortedEnumeration, OnlyLive, Touched, Rewritten,
         Compact, Reopen, Written, Loaded;
    CompactLaw(s);
    IndexKeys(s);
    IndexKeys(Compact(s));
    CompactKeepsSnapshot(s);
    var s' := Compact(s);
    InvFiles(s');
    ReopenIndex(s');
    LoadedFrom(s'.files);
    var n := |s'.files| - 1;
    var last := Loaded(Written(s'.files))[n];
    NotTouched(s'.files, Rewritten(Meaning(s.files)), last, id);
    FoldLookupAbsent(SnapshotIndex(s.snapshot), Scan(last), n, id);
  }

  lemma NotTouched(files: seq<Bytes>, m: Contents, file: Bytes, id: Id)
    requires OnlyLive(files, m) && file in files && id !in m
    ensures !Touched(Scan(file), id)
  {
    hide Scan;
  }

  lemma CompactKeepsSnapshot(s: State)
    ensures Compact(s).snapshot == s.snapshot
  {
    hide PackAll, SortedSet;
  }

  lemma FoldLookupAbsent(base: Index, rs: seq<Record>, segment: nat, id: Id)
    requires !Touched(rs, id)
    ensures id in FoldIndex(base, rs, segment) <==> id in base
  {
    FoldLookup(base, rs, segment, id);
  }

  lemma PutOnFresh(max: nat, id: Id, data: Bytes, order: seq<Id>)
    requires Encodable(id, data) && Enumerates(order, {})
    ensures var s1 := Put(Fresh(max), id, data, order).0;
      && 1 <= |s1.files| <= 2
      && |s1.files[|s1.files| - 1]| == Size(Record(id, data, ACTIVE))
      && s1.index.Keys == {id}
      && s1.maxSegment == max
  {
    hide Encode, EncodeSnapshot;
  }

  /** A Delete that does not fit the last segment snapshots the index it finds. */
  lemma DeleteRotates(s: State, id: Id, order: seq<Id>)
    requires Inv(s) && Bounded(s) && WalkOrder(s, order) && id in s.index
    requires |s.files[|s.files| - 1]| + FIXED_HEADER_SIZE + |id| > s.maxSegment
    ensures var s' := Delete(s, id, order).0;
      s'.snapshot.Some? && SnapshotIndex(s'.snapshot) == s.index
  {
    hide Decode, EncodeSnapshot, ReplayIndex, Meaning, AllClean, Packed, Encode, RemoveFirst;
    IndexFits(s);
    var r := Record(id, [], DELETED);
    var s0 := s.(tombStones := s.tombStones + 1);
    var sized := s0.(size := s0.size + Size(r));
    assert Inv(sized);
    RotateSnapshot(sized, order);
  }

  /** A reachable failure of recovery, for every segment size: Put one id with a payload large
      enough that the next record rotates, Delete it, Compact, and open again. The map is empty,
      but the reopened store lists the deleted id. */
  lemma DeletedIdReturns(max: nat, id: Id, data: Bytes, o1: seq<Id>, o2: seq<Id>)
    requires max < TWO_TO_THE_63 && Encodable(id, data) && 2 * |id| + |data| + 22 > max
    requires Enumerates(o1, {}) && Enumerates(o2, {id})
    ensures var ops := [OpPut(id, data, o1), OpDelete(id, o2), OpCompact];
      && LegalRun(Fresh(max), ops)
      && MapRun(map[], ops) == map[]
      && var s := Run(Fresh(max), ops);
      && s.index == map[]
      && Reopen(s).Ok?
      && id in Reopen(s).value.index
  {
    hide Inv, Meaning, Put, Delete, Compact, Reopen, SnapshotIndex, LegalRun, Run, PayloadsSurvive, MapRun;
    var put, del := OpPut(id, data, o1), OpDelete(id, o2);
    assert [] + [put] == [put] && [put] + [del] == [put, del] && [put, del] + [OpCompact] == [put, del, OpCompact];
    var s0 := Fresh(max);
    FreshInv(max);
    IndexKeys(s0);
    PutLaw(s0, id, data, o1);
    PutOnFresh(max, id, data, o1);
    RunStart(s0);
    RunStep(s0, [], put);
    var s1 := Apply(s0, put).0;
    IndexKeys(s1);
    DeleteLaw(s1, id, o2);
    DeleteRotates(s1, id, o2);
    RunStep(s0, [put], del);
    var s2 := Apply(s1, del).0;
    IndexKeys(s2);
    assert Meaning(s2.files) == map[];
    EmptySurvives(s2);
    RunStep(s0, [put, del], OpCompact);
    StaleRevives(s2, id);
    CompactLaw(s2);
    MapRunStep(map[], [], put);
    MapRunStep(map[], [put], del);
    MapRunStep(map[], [put, del], OpCompact);
  }

  lemma EmptySurvives(s: State)
    requires Meaning(s.files) == map[]
    ensures PayloadsSurvive(s)
  {
  }

  // ---- A long id ----

  /** A reachable failure of Compact: the payload of an id of 65525 bytes. Whatever the payload is,
      as long as it does not start with a zero byte, which no JSON text does, and is shorter than
      2^24 bytes: put it, and Get finds it; compact, and Get finds other bytes, the first of them
      zero. */
  lemma CompactLosesLongId(max: nat, id: Id, data: Bytes, order: seq<Id>)
    requires max < TWO_TO_THE_63 && |id| == 65525
    requires 0 < |data| < 0x100_0000 && data[0] != 0 && Enumerates(order, {})
    ensures LegalRun(Fresh(max), [OpPut(id, data, order)])
    ensures var s := Run(Fresh(max), [OpPut(id, data, order)]);
      && Inv(s) && Inv(Compact(s))
      && Get(s, id) == Some(Ok(data))
      && Get(Compact(s), id) == Some(Ok(Wrapped(id, data)))
      && Wrapped(id, data)[0] == 0 && Wrapped(id, data) != data
  {
    hide Inv, Meaning, Put, Compact, Get, LegalRun, Run, Enumerates, Encodable;
    var put := OpPut(id, data, order);
    assert [] + [put] == [put];
    FreshInv(max);
    IndexKeys(Fresh(max));
    RunStart(Fresh(max));
    RunStep(Fresh(max), [], put);
    LongEncodable(id, data);
    PutLaw(Fresh(max), id, data, order);
    CompactLoses(Run(Fresh(max), [put]), id, data);
  }

  lemma LongEncodable(id: Id, data: Bytes)
    requires |id| == 65525 && 0 < |data| < 0x100_0000
    ensures Encodable(id, data)
  {
  }

  lemma CompactLoses(s: State, id: Id, data: Bytes)
    requires Inv(s) && id in Meaning(s.files) && Meaning(s.files)[id] == data
    requires |id| == 65525 && 0 < |data| < 0x100_0000 && data[0] != 0
    ensures Inv(Compact(s))
    ensures Get(s, id) == Some(Ok(data))
    ensures Get(Compact(s), id) == Some(Ok(Wrapped(id, data)))
    ensures Wrapped(id, data)[0] == 0 && Wrapped(id, data) != data
  {
    hide Inv, Meaning, Compact, Get, Wrapped, OnlyLive, RecordCount, SortedEnumeration;
    CompactLaw(s);
    GetLaw(s, id);
    GetLaw(Compact(s), id);
    WrappedLong(id, data);
    assert Rewritten(Meaning(s.files))[id] == Wrapped(id, data);
  }

  // ---- The millionth segment ----

  /** A Put of a record larger than a segment always opens one, and snapshots the index. */
  lemma PutOpens(s: State, id: Id, data: Bytes, order: seq<Id>)
    requires Inv(s) && Bounded(s) && WalkOrder(s, order) && Encodable(id, data)
    requires Size(Record(id, data, ACTIVE)) > s.maxSegment
    ensures var s' := Put(s, id, data, order).0;
      && s'.files == s.files + [Encode(Record(id, data, ACTIVE))]
      && s'.index.Keys == s.index.Keys + {id}
      && s'.maxSegment == s.maxSegment
      && !s'.stale
      && s'.snapshot.Some? && SnapshotIndex(s'.snapshot) == s.index
  {
    hide Decode, EncodeSnapshot, ReplayIndex, Meaning, AllClean, Packed, Encode, SnapshotOk;
    IndexFits(s);
    var r := Record(id, data, ACTIVE);
    var sized := s.(size := s.size + Size(r));
    InvSized(s, sized.size);
    RotateSnapshot(sized, order);
    assert WriteLast(s.files + [[]], Encode(r)) == s.files + [Encode(r)] by {
      assert (s.files + [[]])[..|s.files|] == s.files;
      assert [] + Encode(r) == Encode(r);
    }
  }

  lemma InvSized(s: State, size: nat)
    requires Inv(s)
    ensures Inv(s.(size := size))
  {
    hide Decode;
  }

  function Puts(id: Id, data: Bytes, k: nat): seq<Op> {
    if k == 0 then [] else Puts(id, data, k - 1) + [OpPut(id, data, if k == 1 then [] else [id])]
  }

  lemma {:induction false} PutsState(max: nat, id: Id, data: Bytes, k: nat)
    requires max < TWO_TO_THE_63 && Encodable(id, data) && Size(Record(id, data, ACTIVE)) > max
    requires k < MAX_SEGMENTS
    ensures LegalRun(Fresh(max), Puts(id, data, k))
    ensures var s := Run(Fresh(max), Puts(id, data, k));
      && Inv(s) && Bounded(s) && s.maxSegment == max && |s.files| == k + 1
      && s.index.Keys == (if k == 0 then {} else {id})
      && (k > 0 ==> s.files[k] == Encode(Record(id, data, ACTIVE)))
    decreases k
  {
    hide Inv, Meaning, Encode, LegalRun, Run, Put, SnapshotIndex;
    var s0 := Fresh(max);
    if k == 0 {
      RunStart(s0);
      FreshInv(max);
    } else {
      PutsState(max, id, data, k - 1);
      var s := Run(s0, Puts(id, data, k - 1));
      var order := if k == 1 then [] else [id];
      RunStep(s0, Puts(id, data, k - 1), OpPut(id, data, order));
      PutLaw(s, id, data, order);
      PutOpens(s, id, data, order);
      var s' := Run(s0, Puts(id, data, k));
      assert |s'.index| == |s'.index.Keys|;
      assert s'.index.Keys == {id};
    }
  }

  /** A reachable failure of the load order: with segments so small that every Put opens one, put
      one id 999998 times and then another one. Opening replays the last but one segment in place
      of the last, and the id just put is not there. */
  lemma MillionthPutLost(max: nat, id: Id, data: Bytes, id': Id, data': Bytes)
    requires max < TWO_TO_THE_63 && Encodable(id, data) && Encodable(id', data') && id != id'
    requires Size(Record(id, data, ACTIVE)) > max && Size(Record(id', data', ACTIVE)) > max
    ensures var ops := Puts(id, data, 999_998) + [OpPut(id', data', [id])];
      && LegalRun(Fresh(max), ops)
      && var s := Run(Fresh(max), ops);
      && |s.files| == 1_000_000
      && !s.stale
      && Get(s, id') == Some(Ok(data'))
      && Reopen(s).Ok?
      && Get(Reopen(s).value, id') == None
  {
    PutsThenLost(max, id, data, id', data', 999_998);
  }

  lemma PutsThenLost(max: nat, id: Id, data: Bytes, id': Id, data': Bytes, k: nat)
    requires max < TWO_TO_THE_63 && Encodable(id, data) && Encodable(id', data') && id != id'
    requires Size(Record(id, data, ACTIVE)) > max && Size(Record(id', data', ACTIVE)) > max
    requires k == 999_998
    ensures var ops := Puts(id, data, k) + [OpPut(id', data', [id])];
      && LegalRun(Fresh(max), ops)
      && var s := Run(Fresh(max), ops);
      && |s.files| == 1_000_000
      && !s.stale
      && Get(s, id') == Some(Ok(data'))
      && Reopen(s).Ok?
      && Get(Reopen(s).value, id') == None
  {
    hide Inv, Meaning, Encode, LegalRun, Run, Put, SnapshotIndex, Puts, Reopen, Loaded, Written, Scan,
         FoldIndex, Bounded;
    PutsState(max, id, data, k);
    var s := Run(Fresh(max), Puts(id, data, k));
    RunStep(Fresh(max), Puts(id, data, k), OpPut(id', data', [id]));
    PutLaw(s, id', data', [id]);
    PutOpens(s, id', data', [id]);
    var s' := Put(s, id', data', [id]).0;
    GetLaw(s', id');
    hide Get;
    MillionthLoaded(s'.files);
    ReopenIndex(s');
    var r := Record(id, data, ACTIVE);
    assert Loaded(Written(s'.files))[999_999] == Encode(r);
    ScanOne(r);
    assert !Touched([r], id');
    FoldLookupAbsent(SnapshotIndex(s'.snapshot), [r], 999_999, id');
    GetAbsent(Reopen(s').value, id');
  }

  lemma ScanOne(r: Record)
    requires Valid(r)
    ensures Scan(Encode(r)) == [r]
  {
    hide Encode, Parse;
    ScanFirst(r, []);
    EmptyClean();
    assert Encode(r) + [] == Encode(r);
  }

  lemma GetAbsent(s: State, id: Id)
    requires id !in s.index
    ensures Get(s, id) == None
  {
  }
}
