/** Compaction (internal/store/compact.go:16-132) and pruning (internal/store/store.go:727-739). */
module CompactLaws {
  import opened Bytes
  import opened Prelude
  import opened Record
  import opened Log
  import opened Sorting
  import opened Snapshot
  import opened StoreState
  import opened StoreLaws

  // ---- What Compact reads ----

  /** The payload Compact carries over for a record: the bytes at the wrapped offset. */
  function Wrapped(id: Id, data: Bytes): (b: Bytes)
    ensures |b| == |data|
  {
    var off := HeaderLength16(|id|);
    Encode(Record(id, data, ACTIVE))[off..off + |data|]
  }

  /** Up to 65524 bytes of id the offset does not wrap, and the payload is carried over as is. */
  lemma WrappedShort(id: Id, data: Bytes)
    requires |id| <= 65524
    ensures Wrapped(id, data) == data
  {
    hide Header, HeaderLength16;
    var h := Header(Record(id, data, ACTIVE));
    assert (h + data)[|h|..|h| + |data|] == data;
  }

  lemma CompactReadLaw(files: seq<Bytes>, ref: Ref, id: Id, data: Bytes)
    requires Encodable(id, data) && Points(files, ref, Record(id, data, ACTIVE))
    ensures CompactRead(files, ref) == Some((|id|, Wrapped(id, data)))
  {
    hide FromBigEndian, Encode, HeaderLength16, Checksum;
    var r := Record(id, data, ACTIVE);
    var file, off := files[ref.segment], ref.offset;
    FieldsAt(file, off, r);
    var w := HeaderLength16(|id|);
    SliceSlice(file, off, off + Size(r), w, w + |data|);
  }

  // ---- The rewrite ----

  /** The contents Compact leaves, as a function of the contents it finds. */
  function Rewritten(m: Contents): Contents {
    map id | id in m :: Wrapped(id, m[id])
  }

  function Selected(m: Contents, keys: seq<Id>): Contents
    requires forall id :: id in keys ==> id in m
  {
    map id | id in keys :: Wrapped(id, m[id])
  }

  /** How many records the segments hold. */
  function RecordCount(files: seq<Bytes>): nat {
    if |files| == 0 then 0 else RecordCount(files[..|files| - 1]) + |Scan(files[|files| - 1])|
  }

  lemma RecordCountWrite(files: seq<Bytes>, r: Record)
    requires |files| > 0 && Clean(files[|files| - 1]) && Valid(r)
    ensures RecordCount(WriteLast(files, Encode(r))) == RecordCount(files) + 1
  {
    hide Scan, Encode;
    var n := |files| - 1;
    ScanAppend(files[n], r);
    assert WriteLast(files, Encode(r))[..n] == files[..n];
  }

  lemma RecordCountRoom(files: seq<Bytes>, size: nat, max: nat)
    requires |files| > 0
    ensures RecordCount(Room(files, size, max)) == RecordCount(files)
  {
    EmptyClean();
    assert (files + [[]])[..|files|] == files;
  }

  /** Every record of the segments is the live one of its id. */
  ghost predicate OnlyLive(files: seq<Bytes>, m: Contents) {
    forall i, r :: 0 <= i < |files| && r in Scan(files[i]) ==>
      r.status == ACTIVE && r.id in m && r.data == m[r.id]
  }

  lemma OnlyLiveWrite(room: seq<Bytes>, r: Record, m: Contents, m': Contents)
    requires |room| > 0 && Clean(room[|room| - 1]) && Valid(r)
    requires OnlyLive(room, m) && forall id :: id in m ==> id in m' && m'[id] == m[id]
    requires r.status == ACTIVE && r.id in m' && r.data == m'[r.id]
    ensures OnlyLive(WriteLast(room, Encode(r)), m')
  {
    hide Scan, Encode;
    ScanAppend(room[|room| - 1], r);
  }

  /** No segment was closed early: the first record of the next one did not fit it. */
  ghost predicate Tight(files: seq<Bytes>, max: nat) {
    forall i :: 0 < i < |files| ==>
      |Scan(files[i])| > 0 && |files[i - 1]| + Size(Scan(files[i])[0]) > max
  }

  /** The state of the rewrite after the given ids. */
  ghost predicate PackOk(p: Pack, m: Contents, keys: seq<Id>, max: nat)
    requires forall id :: id in keys ==> id in m
  {
    && |p.files| > 0
    && AllClean(p.files)
    && Packed(p.files, max)
    && Tight(p.files, max)
    && p.index == ReplayIndex(p.files)
    && Meaning(p.files) == Selected(m, keys)
    && RecordCount(p.files) == |keys|
    && OnlyLive(p.files, Selected(m, keys))
  }

  lemma PackStart(m: Contents, max: nat)
    ensures PackOk(Pack([[]], map[]), m, [], max)
  {
    FreshLog();
  }

  lemma PackStep(p: Pack, m: Contents, keys: seq<Id>, id: Id, max: nat)
    requires (forall id :: id in keys ==> id in m) && PackOk(p, m, keys, max)
    requires id in m && Encodable(id, m[id])
    ensures forall x :: x in keys + [id] ==> x in m
    ensures var r := Record(id, Wrapped(id, m[id]), ACTIVE);
      PackOk(PackRecord(p, r, Room(p.files, Size(r), max)), m, keys + [id], max)
  {
    hide ReplayIndex, Meaning, Scan, Clean, Wrapped, RecordCount, Encode;
    var r := Record(id, Wrapped(id, m[id]), ACTIVE);
    var room := Room(p.files, Size(r), max);
    EmptyClean();
    RoomReplay(p.files, Size(r), max);
    RecordCountRoom(p.files, Size(r), max);
    RecordCountWrite(room, r);
    WriteClean(room, r);
    WriteReplay(room, r);
    ScanAppend(room[|room| - 1], r);
    PackedWrite(room, r, max);
    TightWrite(p.files, r, max);
    assert Meaning(WriteLast(room, Encode(r))) == Selected(m, keys + [id]);
    OnlyLiveWrite(room, r, Selected(m, keys), Selected(m, keys + [id]));
  }

  /** A record that opens a segment does not fit the one before; any other leaves the first
      records alone. */
  lemma TightWrite(files: seq<Bytes>, r: Record, max: nat)
    requires |files| > 0 && AllClean(files) && Tight(files, max) && Valid(r)
    ensures Tight(WriteLast(Room(files, Size(r), max), Encode(r)), max)
  {
    hide Scan, Encode, Clean;
    EmptyClean();
    var n := |files| - 1;
    if |files[n]| + Size(r) > max {
      ScanAppend([], r);
      TightOpen(files, [] + Encode(r), max);
    } else {
      ScanAppend(files[n], r);
      TightGrow(files, files[n] + Encode(r), max);
    }
  }

  lemma TightOpen(files: seq<Bytes>, file: Bytes, max: nat)
    requires |files| > 0 && Tight(files, max)
    requires |Scan(file)| > 0 && |files[|files| - 1]| + Size(Scan(file)[0]) > max
    ensures Tight(files + [file], max)
  {
    hide Scan;
  }

  lemma TightGrow(files: seq<Bytes>, file: Bytes, max: nat)
    requires |files| > 0 && Tight(files, max)
    requires var n := |files| - 1;
      |Scan(file)| > 0 && (|Scan(files[n])| > 0 ==> Scan(file)[0] == Scan(files[n])[0])
    ensures Tight(files[..|files| - 1] + [file], max)
  {
    hide Scan;
  }

  lemma PackedWrite(room: seq<Bytes>, r: Record, max: nat)
    requires |room| > 0 && Packed(room, max) && Clean(room[|room| - 1]) && Valid(r)
    requires room[|room| - 1] == [] || |room[|room| - 1]| + Size(r) <= max
    ensures Packed(WriteLast(room, Encode(r)), max)
  {
    hide Scan, Encode, Clean;
    ScanAppend(room[|room| - 1], r);
    EmptyClean();
  }

  /** The rewrite of any live ids of a store never fails; it leaves one record for each, whose
      replay is the new index. */
  lemma {:induction false} PackLaw(s: State, keys: seq<Id>)
    requires Inv(s) && forall id :: id in keys ==> id in s.index
    ensures forall id :: id in keys ==> id in Meaning(s.files)
    ensures var p := PackAll(s.files, s.index, keys, s.maxSegment);
      p.Some? && PackOk(p.value, Meaning(s.files), keys, s.maxSegment)
    decreases |keys|
  {
    hide ReplayIndex, Meaning, PackOk, Points, Packed, AllClean, CompactRead, Wrapped, PackRecord, Room, SnapshotOk;
    var m := Meaning(s.files);
    ReplayAgrees(s.files);
    if |keys| == 0 {
      PackStart(m, s.maxSegment);
    } else {
      var front, id := keys[..|keys| - 1], keys[|keys| - 1];
      assert keys == front + [id];
      PackLaw(s, front);
      CompactReadLaw(s.files, s.index[id], id, m[id]);
      PackStep(PackAll(s.files, s.index, front, s.maxSegment).value, m, front, id, s.maxSegment);
    }
  }

  // ---- The live records of one segment are no larger than the segment ----

  function SumSizes(keys: seq<Id>, m: Contents): nat
    requires forall id :: id in keys ==> id in m
  {
    if |keys| == 0 then 0
    else
      var front, id := keys[..|keys| - 1], keys[|keys| - 1];
      SumSizes(front, m) + Size(Record(id, m[id], ACTIVE))
  }

  lemma {:induction false} SumSame(keys: seq<Id>, m: Contents, m': Contents)
    requires forall id :: id in keys ==> id in m && id in m' && |m[id]| == |m'[id]|
    ensures SumSizes(keys, m) == SumSizes(keys, m')
  {
    if |keys| > 0 { SumSame(keys[..|keys| - 1], m, m'); }
  }

  lemma {:induction false} SumWithout(a: seq<Id>, id: Id, b: seq<Id>, m: Contents)
    requires forall x :: x in a + [id] + b ==> x in m
    ensures forall x :: x in a + b ==> x in a + [id] + b
    ensures SumSizes(a + [id] + b, m) == SumSizes(a + b, m) + Size(Record(id, m[id], ACTIVE))
    decreases |b|
  {
    if |b| == 0 {
      assert a + [id] + b == a + [id] && a + b == a;
      assert (a + [id])[..|a|] == a;
    } else {
      var front, last := b[..|b| - 1], b[|b| - 1];
      assert (a + [id] + b)[..|a| + |b|] == a + [id] + front;
      assert (a + b)[..|a| + |b| - 1] == a + front;
      SumWithout(a, id, front, m);
    }
  }

  /** Distinct live ids have their last records in the log, so their sizes add up to no more. */
  lemma {:induction false} LiveSize(rs: seq<Record>, keys: seq<Id>)
    requires Distinct(keys) && forall id :: id in keys ==> id in FoldMeaning(map[], rs)
    ensures SumSizes(keys, FoldMeaning(map[], rs)) <= TotalSize(rs)
    decreases |rs|
  {
    var m := FoldMeaning(map[], rs);
    if |rs| == 0 {
      SomeMember(keys);
    } else {
      var front, last := rs[..|rs| - 1], rs[|rs| - 1];
      var m' := FoldMeaning(map[], front);
      if last.status == ACTIVE && last.id in keys {
        var i :| 0 <= i < |keys| && keys[i] == last.id;
        var rest := keys[..i] + keys[i + 1..];
        SumPut(m', last, keys, i);
        LiveSize(front, rest);
      } else {
        LiveSize(front, keys);
        SumSame(keys, m, m');
      }
    }
  }

  /** Putting an id adds its record's size to the sum over the others. */
  lemma SumPut(m: Contents, r: Record, keys: seq<Id>, i: nat)
    requires Distinct(keys) && i < |keys| && keys[i] == r.id
    requires forall id :: id in keys ==> id in m[r.id := r.data]
    ensures var rest := keys[..i] + keys[i + 1..];
      && Distinct(rest)
      && (forall x :: x in rest ==> x in m)
      && SumSizes(keys, m[r.id := r.data]) == SumSizes(rest, m) + Size(r)
  {
    var a, b := keys[..i], keys[i + 1..];
    var m' := m[r.id := r.data];
    assert keys == a + [r.id] + b;
    DistinctWithout(keys, i);
    hide Distinct;
    SumWithout(a, r.id, b, m');
    SumSame(a + b, m, m');
  }

  /** As long as everything fits in one segment, the rewrite leaves one segment. */
  lemma {:induction false} PackSmall(s: State, keys: seq<Id>)
    requires Inv(s) && forall id :: id in keys ==> id in s.index
    requires forall id :: id in keys ==> id in Meaning(s.files)
    requires SumSizes(keys, Meaning(s.files)) <= s.maxSegment
    ensures var p := PackAll(s.files, s.index, keys, s.maxSegment);
      p.Some? && |p.value.files| == 1 && |p.value.files[0]| == SumSizes(keys, Meaning(s.files))
    decreases |keys|
  {
    hide ReplayIndex, Meaning, PackOk, Points, Packed, AllClean, CompactRead, Wrapped, SnapshotOk, Encode;
    var m := Meaning(s.files);
    ReplayAgrees(s.files);
    if |keys| > 0 {
      var front, id := keys[..|keys| - 1], keys[|keys| - 1];
      assert keys == front + [id];
      PackSmall(s, front);
      CompactReadLaw(s.files, s.index[id], id, m[id]);
    }
  }

  // ---- Compact ----

  lemma CompactPack(s: State)
    requires Inv(s)
    ensures var keys, m := SortedSet(s.index.Keys), Meaning(s.files);
      && s.index.Keys == m.Keys
      && |keys| == |m|
      && (forall id :: id in keys ==> id in m)
      && var p := PackAll(s.files, s.index, keys, s.maxSegment);
      && p.Some?
      && PackOk(p.value, m, keys, s.maxSegment)
      && (s.snapshot.None? ==> |p.value.files| == 1 && |p.value.files[0]| <= s.maxSegment)
      && Compact(s) == s.(files := p.value.files, index := p.value.index, keys := keys, tombStones := 0,
                          stale := s.snapshot.Some?)
  {
    hide ReplayIndex, Meaning, PackOk, Decode, PackAll, AllClean, Packed;
    IndexKeys(s);
    var keys := SortedSet(s.index.Keys);
    SortedIsDistinct(keys);
    EnumerationLength(keys, s.index.Keys);
    PackLaw(s, keys);
    if s.snapshot.None? { CompactSmall(s, keys); }
    assert |Meaning(s.files)| == |Meaning(s.files).Keys|;
  }

  /** Compact keeps the invariant, writes one record for each live id and nothing else, into
      segments none of which was closed early, leaves the keys sorted, and carries every payload
      over as read at the wrapped offset; it zeroes the tombstones, and the snapshot file and the
      other counters stay as they were. */
  lemma CompactLaw(s: State)
    requires Inv(s)
    ensures Inv(Compact(s))
    ensures Meaning(Compact(s).files) == Rewritten(Meaning(s.files))
    ensures RecordCount(Compact(s).files) == |Meaning(s.files)|
    ensures OnlyLive(Compact(s).files, Rewritten(Meaning(s.files)))
    ensures SortedEnumeration(Compact(s).keys, Compact(s).index.Keys)
    ensures Compact(s).index.Keys == s.index.Keys
    ensures Tight(Compact(s).files, s.maxSegment)
    ensures var s' := Compact(s);
      && s'.tombStones == 0 && s'.wal == s.wal && s'.size == s.size
      && s'.maxSegment == s.maxSegment && s'.snapshot == s.snapshot
  {
    hide ReplayIndex, Meaning, Packed, AllClean, Decode, RecordCount, Wrapped, PackAll, Compact, StrictlySorted,
         OnlyLive, Tight;
    CompactPack(s);
    var m, keys := Meaning(s.files), SortedSet(s.index.Keys);
    assert Selected(m, keys) == Rewritten(m);
    var s' := Compact(s);
    assert Inv(s');
    IndexKeys(s');
    assert s'.index.Keys == Rewritten(m).Keys == s.index.Keys;
  }

  lemma CompactSmall(s: State, keys: seq<Id>)
    requires Inv(s) && s.snapshot.None? && Distinct(keys) && forall id :: id in keys ==> id in s.index
    ensures var p := PackAll(s.files, s.index, keys, s.maxSegment);
      p.Some? && |p.value.files| == 1 && |p.value.files[0]| <= s.maxSegment
  {
    hide ReplayIndex, Points, Packed, Decode, PackAll, Scan, EncodeAll;
    IndexKeys(s);
    var rs := Scan(s.files[0]);
    EncodeAllSize(rs);
    assert Meaning(s.files) == FoldMeaning(map[], rs) by { EmptyMeaning(s.files[..0]); }
    LiveSize(rs, keys);
    PackSmall(s, keys);
  }

  lemma EmptyMeaning(files: seq<Bytes>)
    requires |files| == 0
    ensures Meaning(files) == map[]
  {
  }

  /** Compaction preserves meaning, and exactly when: for every live id the bytes at the wrapped
      offset of its record have to be its payload. Ids of at most 65524 bytes always qualify. */
  lemma CompactExact(s: State)
    requires Inv(s)
    ensures Meaning(Compact(s).files) == Meaning(s.files)
      <==> forall id :: id in Meaning(s.files) ==> Wrapped(id, Meaning(s.files)[id]) == Meaning(s.files)[id]
    ensures (forall id :: id in s.index ==> |id| <= 65524) ==> Meaning(Compact(s).files) == Meaning(s.files)
  {
    hide Inv, Meaning, Compact, Wrapped, Rewritten;
    CompactLaw(s);
    IndexKeys(s);
    var m := Meaning(s.files);
    if forall id :: id in s.index ==> |id| <= 65524 {
      forall id | id in m ensures Wrapped(id, m[id]) == m[id] { WrappedShort(id, m[id]); }
    }
    RewrittenSame(m);
  }

  lemma RewrittenSame(m: Contents)
    ensures Rewritten(m) == m <==> forall id :: id in m ==> Wrapped(id, m[id]) == m[id]
  {
    hide Wrapped;
    assert forall id :: id in m ==> id in Rewritten(m) && Rewritten(m)[id] == Wrapped(id, m[id]);
    if forall id :: id in m ==> Wrapped(id, m[id]) == m[id] { assert Rewritten(m) == m; }
  }

  /** With an id of 65525 bytes the uint16 header length is zero, so Compact copies the start of
      the header, which is zero for payloads below 2^24 bytes. */
  lemma WrappedLong(id: Id, data: Bytes)
    requires |id| == 65525 && 0 < |data| < 0x100_0000
    ensures Wrapped(id, data)[0] == 0
  {
    hide Checksum, BigEndian, Header;
    BigEndianFour(|data|);
    HeaderStart(Record(id, data, ACTIVE));
    assert HeaderLength16(65525) == 0;
  }

  lemma HeaderStart(r: Record)
    ensures Header(r)[0] == BigEndian(4, |r.data|)[0]
  {
    hide Checksum, BigEndian;
  }

  // ---- Rebuilding and Prune ----

  /** rebuildIndexes builds the replayed index, whatever keys it starts from. */
  lemma {:induction false} RebuildIndexLaw(files: seq<Bytes>, keys: seq<Id>)
    ensures RebuildAll(files, keys).index == ReplayIndex(files)
    decreases |files|
  {
    hide FoldIndex, FoldKeys, Scan;
    if |files| > 0 {
      var n := |files| - 1;
      RebuildIndexLaw(files[..n], keys);
      assert |ReplayIndex(files[..n])| == 0 ==> ReplayIndex(files[..n]) == map[];
    }
  }

  lemma RebuildWrite(files: seq<Bytes>, r: Record, keys: seq<Id>)
    requires |files| > 0 && Clean(files[|files| - 1]) && Valid(r)
    ensures RebuildAll(WriteLast(files, Encode(r)), keys).keys == KeysStep(RebuildAll(files, keys).keys, r)
  {
    hide Scan, Encode, FoldIndex;
    var n := |files| - 1;
    ScanAppend(files[n], r);
    var rs := Scan(files[n]);
    assert (rs + [r])[..|rs|] == rs;
    assert WriteLast(files, Encode(r))[..n] == files[..n];
  }

  lemma RebuildRoom(files: seq<Bytes>, size: nat, max: nat, keys: seq<Id>)
    requires |files| > 0
    ensures var t := RebuildAll(files, keys);
      RebuildAll(Room(files, size, max), keys).keys ==
        if Room(files, size, max) != files && |t.index| == 0 then [] else t.keys
  {
    hide FoldIndex;
    EmptyClean();
    assert (files + [[]])[..|files|] == files;
  }

  /** Replaying a rewrite lists its ids in the order they were written. */
  lemma {:induction false} RebuildPackKeys(s: State, keys: seq<Id>, before: seq<Id>)
    requires Inv(s) && forall id :: id in keys ==> id in s.index
    ensures var p := PackAll(s.files, s.index, keys, s.maxSegment);
      p.Some? && RebuildAll(p.value.files, before).keys == keys
    decreases |keys|
  {
    hide ReplayIndex, Meaning, PackOk, Packed, AllClean, CompactRead, SnapshotOk, RebuildAll, PackRecord, Room;
    PackLaw(s, keys);
    if |keys| == 0 {
      RebuildFresh(before);
    } else {
      var front, id := keys[..|keys| - 1], keys[|keys| - 1];
      assert keys == front + [id];
      PackLaw(s, front);
      RebuildPackKeys(s, front, before);
      RebuildPackStep(s, front, id, before);
    }
  }

  lemma RebuildFresh(keys: seq<Id>)
    ensures RebuildAll([[]], keys).keys == []
  {
    EmptyClean();
  }

  lemma RebuildPackStep(s: State, front: seq<Id>, id: Id, before: seq<Id>)
    requires Inv(s) && (forall x :: x in front + [id] ==> x in s.index)
    requires var p := PackAll(s.files, s.index, front, s.maxSegment);
      p.Some? && RebuildAll(p.value.files, before).keys == front
    ensures var p := PackAll(s.files, s.index, front + [id], s.maxSegment);
      p.Some? && RebuildAll(p.value.files, before).keys == front + [id]
  {
    hide ReplayIndex, Meaning, Points, Packed, CompactRead, Wrapped, SnapshotOk, Encode, Scan, RebuildAll, Clean, Room,
         Tight, OnlyLive, RecordCount;
    assert (front + [id])[..|front|] == front;
    PackLaw(s, front);
    ReplayAgrees(s.files);
    var m := Meaning(s.files);
    var p := PackAll(s.files, s.index, front, s.maxSegment).value;
    var r := Record(id, Wrapped(id, m[id]), ACTIVE);
    CompactReadLaw(s.files, s.index[id], id, m[id]);
    RebuildAppend(p.files, r, s.maxSegment, m, front, before);
  }

  lemma RebuildAppend(files: seq<Bytes>, r: Record, max: nat, m: Contents, front: seq<Id>, before: seq<Id>)
    requires |files| > 0 && AllClean(files) && Valid(r) && r.status == ACTIVE
    requires (forall x :: x in front ==> x in m) && Meaning(files) == Selected(m, front)
    requires RebuildAll(files, before).keys == front
    ensures RebuildAll(WriteLast(Room(files, Size(r), max), Encode(r)), before).keys == front + [r.id]
  {
    hide ReplayIndex, Meaning, Points, Encode, Scan, RebuildAll, Clean;
    var room := Room(files, Size(r), max);
    EmptyClean();
    RebuildWrite(room, r, before);
    RebuildRoom(files, Size(r), max, before);
    RebuildIndexLaw(files, before);
    ReplayAgrees(files);
    if |ReplayIndex(files)| == 0 {
      assert forall x :: x in front ==> x in Selected(m, front);
      assert Selected(m, front).Keys == {};
      SomeMember(front);
    }
  }

  /** Prune is Compact: it does not fail, and rebuilding from the rewritten segments changes
      nothing. */
  lemma PruneLaw(s: State)
    requires Inv(s)
    ensures !CompactFails(s)
    ensures Prune(s) == Compact(s)
  {
    hide ReplayIndex, RebuildAll, Meaning, Scan, Decode, PackAll;
    var keys := SortedSet(s.index.Keys);
    CompactPack(s);
    var s' := Compact(s);
    RebuildIndexLaw(s'.files, s'.keys);
    RebuildPackKeys(s, keys, s'.keys);
    assert s'.index == ReplayIndex(s'.files);
  }
}
