/** What each operation of the store keeps and what it means for the plain map behind it. */
module StoreLaws {
  import opened Bytes
  import opened Prelude
  import opened Record
  import opened Log
  import opened Sorting
  import opened Snapshot
  import opened StoreState
  import opened Directory

  // ---- The invariant ----

  /** Every segment is at most `max` bytes long or holds exactly one record. */
  ghost predicate Packed(files: seq<Bytes>, max: nat) {
    forall i :: 0 <= i < |files| ==> |files[i]| <= max || |Scan(files[i])| == 1
  }

  /** A key list that lists the ids of its index, each once. */
  ghost predicate TableOk(t: Table) {
    Enumerates(t.keys, t.index.Keys)
  }

  /** The snapshot file decodes to an index and its ids; unless a Compact has run since it was written, it holds the
      index of all segments but the last. Before the first rotation there is one segment. */
  ghost predicate SnapshotOk(s: State)
    requires |s.files| > 0
  {
    && (s.snapshot.None? ==> |s.files| == 1 && |s.files[0]| <= s.maxSegment && !s.stale)
    && (s.snapshot.Some? ==>
          && Decode(s.snapshot.value).Ok?
          && TableOk(Decode(s.snapshot.value).value)
          && (!s.stale ==> Decode(s.snapshot.value).value.index == ReplayIndex(s.files[..|s.files| - 1])))
  }

  ghost predicate Inv(s: State) {
    && |s.files| > 0
    && AllClean(s.files)
    && s.index == ReplayIndex(s.files)
    && Packed(s.files, s.maxSegment)
    && s.maxSegment < TWO_TO_THE_63
    && SnapshotOk(s)
  }

  /** Up to here segment names have six digits and sort like their numbers; the snapshot counts
      its entries in 64 bits. */
  const MAX_SEGMENTS := 999_999

  ghost predicate Bounded(s: State) {
    |s.files| <= MAX_SEGMENTS && |s.index| < TWO_TO_THE_64
  }

  lemma FreshInv(max: nat)
    requires max < TWO_TO_THE_63
    ensures Inv(Fresh(max)) && Meaning(Fresh(max).files) == map[] && Bounded(Fresh(max))
  {
    FreshLog();
  }

  lemma SingleRecordSize(file: Bytes)
    requires Clean(file) && |Scan(file)| == 1
    ensures |file| < TWO_TO_THE_63
  {
    hide Scan, Encode;
    var rs := Scan(file);
    EncodeAllSize(rs);
    assert rs[0] in rs;
    assert TotalSize(rs) == Size(rs[0]);
  }

  lemma RefBounds(files: seq<Bytes>, max: nat, ref: Ref, r: Record)
    requires AllClean(files) && Packed(files, max) && max < TWO_TO_THE_63 && |files| <= MAX_SEGMENTS
    requires Points(files, ref, r) && Encodable(r.id, r.data)
    ensures RefFits(r.id, ref) && ref.segment < |files|
  {
    hide Clean, Scan, Encode;
    var file := files[ref.segment];
    if |file| > max { SingleRecordSize(file); }
  }

  /** Every ref of the index fits the widths of the snapshot format. */
  lemma IndexFits(s: State)
    requires Inv(s) && Bounded(s)
    ensures Fits(s.index)
    ensures forall id :: id in s.index ==> s.index[id].segment < |s.files|
  {
    hide Clean, Scan, ReplayIndex, Meaning, Decode, Points, AllClean, Packed, SnapshotOk;
    ReplayAgrees(s.files);
    var m := Meaning(s.files);
    forall id | id in s.index
      ensures RefFits(id, s.index[id])
      ensures s.index[id].segment < |s.files|
    {
      RefBounds(s.files, s.maxSegment, s.index[id], Record(id, m[id], ACTIVE));
    }
  }

  // ---- Rotation and append ----

  /** A rotation writes a snapshot that holds the whole index, in the order of the walk: nothing
      points into the segment just opened, so the entry count is exact. */
  lemma RotateSnapshot(s: State, order: seq<Id>)
    requires Inv(s) && Bounded(s) && WalkOrder(s, order)
    ensures var b := EncodeSnapshot(s.index, order, |s.files|);
      Decode(b) == Ok(Table(s.index, order)) && TableOk(Table(s.index, order))
  {
    hide Decode, EncodeSnapshot, ReplayIndex;
    IndexFits(s);
    SnapshotRoundTrip(s.index, order, |s.files|);
  }

  lemma RotateLaw(s: State, order: seq<Id>)
    requires Inv(s) && Bounded(s) && WalkOrder(s, order)
    ensures Inv(Rotate(s, order)) && Meaning(Rotate(s, order).files) == Meaning(s.files)
  {
    hide Decode, EncodeSnapshot, ReplayIndex, Meaning;
    RotateSnapshot(s, order);
    EmptyClean();
    ReplayLast(s.files, []);
    assert FoldIndex(ReplayIndex(s.files), [], |s.files|) == ReplayIndex(s.files);
    assert FoldMeaning(Meaning(s.files), []) == Meaning(s.files);
    assert (s.files + [[]])[..|s.files|] == s.files;
  }

  lemma RoomLaw(s: State, size: nat, order: seq<Id>)
    requires Inv(s) && Bounded(s) && WalkOrder(s, order)
    ensures var s' := MakeRoom(s, size, order);
      var last := s'.files[|s'.files| - 1];
      && Inv(s')
      && Meaning(s'.files) == Meaning(s.files)
      && s' == s.(files := s'.files, snapshot := s'.snapshot, stale := s'.stale, size := s.size + size)
      && (|last| + size <= s.maxSegment || (last == [] && s'.snapshot.Some?))
  {
    hide Decode, EncodeSnapshot, ReplayIndex, Meaning, Scan, Clean, AllClean, Packed;
    IndexFits(s);
    var sized := s.(size := s.size + size);
    assert Inv(sized);
    RotateLaw(sized, order);
  }

  /** Writing at the end of the last segment, when there is room for the record or nothing else. */
  lemma WriteKeeps(s: State, r: Record)
    requires Inv(s) && Valid(r)
    requires var last := s.files[|s.files| - 1];
      |last| + Size(r) <= s.maxSegment || (last == [] && s.snapshot.Some?)
    ensures var s1 := s.(files := WriteLast(s.files, Encode(r)));
      var ref := EndRef(s.files, r);
      && AllClean(s1.files)
      && Packed(s1.files, s1.maxSegment)
      && SnapshotOk(s1)
      && ReplayIndex(s1.files) == IndexStep(s.index, r, ref.segment, ref.offset)
      && Meaning(s1.files) == MeaningStep(Meaning(s.files), r)
  {
    hide Decode, ReplayIndex, Meaning, Scan, Clean;
    WriteClean(s.files, r);
    WriteReplay(s.files, r);
    var n := |s.files| - 1;
    ScanAppend(s.files[n], r);
    EmptyClean();
    assert WriteLast(s.files, Encode(r))[..n] == s.files[..n];
  }

  /** What an append leaves: the record is written behind the last segment if it fits there, and
      otherwise alone into a new one, with a snapshot of the index as it was; the ref says where.
      The packing bound and the snapshot still hold, and nothing else has changed but Size. */
  lemma AppendLaw(s: State, r: Record, order: seq<Id>)
    requires Inv(s) && Bounded(s) && WalkOrder(s, order) && Valid(r)
    ensures var (s1, ref) := AppendRecord(s, r, order);
      var n := |s.files| - 1;
      var fits := |s.files[n]| + Size(r) <= s.maxSegment;
      && s1.files == (if fits then s.files[..n] + [s.files[n] + Encode(r)] else s.files + [Encode(r)])
      && ref == Ok(if fits then Ref(n, |s.files[n]|, |r.data|) else Ref(n + 1, 0, |r.data|))
      && (fits ==> s1.snapshot == s.snapshot && s1.stale == s.stale)
      && (!fits ==> s1.snapshot.Some? && Decode(s1.snapshot.value) == Ok(Table(s.index, order)) && !s1.stale)
      && AllClean(s1.files)
      && Packed(s1.files, s1.maxSegment)
      && SnapshotOk(s1)
      && ReplayIndex(s1.files) == IndexStep(s.index, r, ref.value.segment, ref.value.offset)
      && Meaning(s1.files) == MeaningStep(Meaning(s.files), r)
      && s1 == s.(files := s1.files, snapshot := s1.snapshot, stale := s1.stale, size := s.size + Size(r))
  {
    hide Inv, Decode, ReplayIndex, Meaning, AllClean, Packed, SnapshotOk, Encode, IndexStep, MeaningStep, AppendRecord;
    SomeFile(s);
    AppendPlace(s, r, order);
    if |s.files[|s.files| - 1]| + Size(r) > s.maxSegment { AppendSnapshot(s, r, order); }
    AppendKeeps(s, r, order);
  }

  lemma SomeFile(s: State)
    requires Inv(s)
    ensures |s.files| > 0
  {
  }

  /** What an append keeps. */
  lemma AppendKeeps(s: State, r: Record, order: seq<Id>)
    requires Inv(s) && Bounded(s) && WalkOrder(s, order) && Valid(r)
    ensures var (s1, ref) := AppendRecord(s, r, order);
      && ref.Ok? && ref.value.length == |r.data|
      && |s1.files| > 0
      && AllClean(s1.files)
      && Packed(s1.files, s1.maxSegment)
      && SnapshotOk(s1)
      && ReplayIndex(s1.files) == IndexStep(s.index, r, ref.value.segment, ref.value.offset)
      && Meaning(s1.files) == MeaningStep(Meaning(s.files), r)
      && s1 == s.(files := s1.files, snapshot := s1.snapshot, stale := s1.stale, size := s.size + Size(r))
  {
    hide Decode, ReplayIndex, Meaning, AllClean, Packed, SnapshotOk, MakeRoom, WriteLast, Encode, IndexStep,
         MeaningStep;
    RoomLaw(s, Size(r), order);
    WriteKeeps(MakeRoom(s, Size(r), order), r);
  }

  /** Where an append writes. */
  lemma AppendPlace(s: State, r: Record, order: seq<Id>)
    requires |s.files| > 0 && WalkOrder(s, order) && Encodable(r.id, r.data)
    ensures var (s1, ref) := AppendRecord(s, r, order);
      var n := |s.files| - 1;
      var fits := |s.files[n]| + Size(r) <= s.maxSegment;
      && s1.files == (if fits then s.files[..n] + [s.files[n] + Encode(r)] else s.files + [Encode(r)])
      && ref == Ok(if fits then Ref(n, |s.files[n]|, |r.data|) else Ref(n + 1, 0, |r.data|))
      && (fits ==> s1.snapshot == s.snapshot && s1.stale == s.stale)
  {
    hide Encode, EncodeSnapshot, Enumerates;
    assert (s.files + [[]])[..|s.files|] == s.files;
    assert [] + Encode(r) == Encode(r);
  }

  lemma AppendSnapshot(s: State, r: Record, order: seq<Id>)
    requires Inv(s) && Bounded(s) && WalkOrder(s, order) && Encodable(r.id, r.data)
    requires |s.files[|s.files| - 1]| + Size(r) > s.maxSegment
    ensures var s1 := AppendRecord(s, r, order).0;
      s1.snapshot.Some? && Decode(s1.snapshot.value) == Ok(Table(s.index, order)) && !s1.stale
  {
    hide Encode, EncodeSnapshot, Enumerates, Decode, Inv;
    RotateSnapshot(s, order);
  }

  /** A record the header refuses leaves the log's meaning, the index and the keys alone; but the
      room was made for it all the same, and Size counts it. */
  lemma RefusedLaw(s: State, r: Record, order: seq<Id>)
    requires Inv(s) && Bounded(s) && WalkOrder(s, order) && !Encodable(r.id, r.data)
    ensures var (s1, ref) := AppendRecord(s, r, order);
      && ref == Err(if 1 <= |r.id| <= 65535 then DataTooLarge else InvalidIdLength)
      && Inv(s1)
      && Meaning(s1.files) == Meaning(s.files)
      && var fits := |s.files[|s.files| - 1]| + Size(r) <= s.maxSegment;
      && s1.files == (if fits then s.files else s.files + [[]])
      && (fits ==> s1.snapshot == s.snapshot && s1.stale == s.stale)
      && s1 == s.(files := s1.files, snapshot := s1.snapshot, stale := s1.stale, size := s.size + Size(r))
  {
    RefusedPlace(s, r, order);
    hide Inv, Meaning, MakeRoom;
    RoomLaw(s, Size(r), order);
  }

  lemma RefusedPlace(s: State, r: Record, order: seq<Id>)
    requires |s.files| > 0 && WalkOrder(s, order) && !Encodable(r.id, r.data)
    ensures var s1, fits := AppendRecord(s, r, order).0, |s.files[|s.files| - 1]| + Size(r) <= s.maxSegment;
      && s1.files == (if fits then s.files else s.files + [[]])
      && (fits ==> s1.snapshot == s.snapshot && s1.stale == s.stale)
  {
    hide Encode, EncodeSnapshot, Enumerates;
  }

  // ---- Put, Delete, Get ----

  /** Put succeeds exactly on encodable records, and then sets one id of the map. */
  lemma PutLaw(s: State, id: Id, data: Bytes, order: seq<Id>)
    requires Inv(s) && Bounded(s) && WalkOrder(s, order)
    ensures var (s', err) := Put(s, id, data, order);
      && Inv(s')
      && (err.None? <==> Encodable(id, data))
      && Meaning(s'.files) == (if err.None? then Meaning(s.files)[id := data] else Meaning(s.files))
  {
    hide Decode, EncodeSnapshot, ReplayIndex, Meaning, Scan, Clean, AppendRecord;
    IndexFits(s);
    var r := Record(id, data, ACTIVE);
    if id == [] {
    } else if Encodable(id, data) {
      AppendKeeps(s, r, order);
    } else {
      RefusedLaw(s, r, order);
    }
  }

  /** The rest of what Put does: the error says what is wrong with the arguments; the key list is
      never touched, the index and the counters only by a success, and an empty id changes nothing
      at all. */
  lemma PutEffect(s: State, id: Id, data: Bytes, order: seq<Id>)
    requires |s.files| > 0 && WalkOrder(s, order)
    ensures var (s', err) := Put(s, id, data, order);
      && (err == None <==> Encodable(id, data))
      && (err == Some(IdIsRequired) <==> id == [])
      && (err == Some(InvalidIdLength) <==> |id| > 65535)
      && (err == Some(DataTooLarge) <==> 1 <= |id| <= 65535 && |data| > 0xFFFF_FFFF)
      && (id == [] ==> s' == s)
      && s'.keys == s.keys && s'.maxSegment == s.maxSegment
      && (err.Some? ==> s'.index == s.index && s'.wal == s.wal && s'.tombStones == s.tombStones)
      && (err.None? ==>
            && s'.index.Keys == s.index.Keys + {id} && s'.index - {id} == s.index - {id}
            && s'.wal == s.wal + (if id in s.index then 0 else 1)
            && s'.tombStones == s.tombStones + (if id in s.index then 1 else 0))
  {
    AppendOnly(s, Record(id, data, ACTIVE), order);
    hide AppendRecord;
  }

  /** An append changes the log, the snapshot and Size only. */
  lemma AppendOnly(s: State, r: Record, order: seq<Id>)
    requires |s.files| > 0 && WalkOrder(s, order)
    ensures var (s1, ref) := AppendRecord(s, r, order);
      && s1 == s.(files := s1.files, snapshot := s1.snapshot, stale := s1.stale, size := s.size + Size(r))
      && (ref.Ok? <==> Encodable(r.id, r.data))
      && (ref.Err? ==> ref.error == HeaderError(r.id))
  {
    hide Encode, EncodeSnapshot;
  }

  lemma DeleteLive(s: State, id: Id, order: seq<Id>)
    requires Inv(s) && Bounded(s) && WalkOrder(s, order) && id in s.index
    ensures var (s', res) := Delete(s, id, order);
      && Inv(s') && res == Ok(true) && Meaning(s'.files) == Meaning(s.files) - {id}
      && s'.wal == s.wal && s'.tombStones == s.tombStones + 1 && s'.maxSegment == s.maxSegment
  {
    hide Decode, ReplayIndex, Meaning, AppendRecord, Points, Packed, AllClean, RemoveFirst;
    ReplayAgrees(s.files);
    var s0 := s.(tombStones := s.tombStones + 1);
    assert Inv(s0);
    AppendKeeps(s0, Record(id, [], DELETED), order);
  }

  /** Delete never fails, answers whether the id was there, and removes it from the map; of an
      absent id it changes nothing at all. */
  lemma DeleteLaw(s: State, id: Id, order: seq<Id>)
    requires Inv(s) && Bounded(s) && WalkOrder(s, order)
    ensures var (s', res) := Delete(s, id, order);
      && Inv(s')
      && res == Ok(id in Meaning(s.files))
      && Meaning(s'.files) == Meaning(s.files) - {id}
      && (id !in s.index ==> s' == s)
      && (id in s.index ==> s'.wal == s.wal && s'.tombStones == s.tombStones + 1 && s'.maxSegment == s.maxSegment)
  {
    hide Inv, Meaning, AppendRecord, Points;
    IndexFits(s);
    IndexKeys(s);
    if id in s.index {
      DeleteLive(s, id, order);
    } else {
      assert Meaning(s.files) - {id} == Meaning(s.files);
    }
  }

  lemma IndexKeys(s: State)
    requires Inv(s)
    ensures s.index.Keys == Meaning(s.files).Keys
  {
    hide ReplayIndex, Meaning, Points;
    ReplayAgrees(s.files);
  }

  /** Reading where a record was written gives the record back. */
  lemma ReadBack(files: seq<Bytes>, ref: Ref, r: Record)
    requires Valid(r) && Points(files, ref, r)
    ensures ReadRecord(files[ref.segment], ref.offset) == Ok(r)
  {
    hide Checksum, FromBigEndian, Encode;
    FieldsAt(files[ref.segment], ref.offset, r);
  }

  /** segment.read, exactly: whatever the file holds, it returns the record that the bytes at the
      offset describe if its payload has the stored checksum, empty or not; a record cut short is
      the end of the file, and a wrong checksum is a corrupted record. */
  lemma ReadExact(file: Bytes, off: nat, r: Record)
    requires off <= |file| && Describes(file[off..], r)
    ensures ReadRecord(file, off)
         == if Checksum(r.data) == FromBigEndian(file[off..][4..8]) then Ok(r) else Err(CorruptedRecord)
  {
    hide Checksum, FromBigEndian;
    FixedFields(file, off);
    SubSlice(file, off, 10, 10 + |r.id|);
    SubSlice(file, off, 11 + |r.id|, 11 + |r.id| + |r.data|);
  }

  /** What segment.read returns is what the bytes describe. */
  lemma ReadSound(file: Bytes, off: int)
    ensures ReadRecord(file, off).Ok? ==>
      && 0 <= off <= |file|
      && Describes(file[off..], ReadRecord(file, off).value)
      && Checksum(ReadRecord(file, off).value.data) == FromBigEndian(file[off..][4..8])
    ensures ReadRecord(file, off) == Err(CorruptedRecord) ==>
      && 0 <= off <= |file|
      && exists r :: Describes(file[off..], r) && Checksum(r.data) != FromBigEndian(file[off..][4..8])
    ensures ReadRecord(file, off).Err? ==> ReadRecord(file, off).error in {Eof, CorruptedRecord}
  {
    hide Checksum, FromBigEndian, Describes;
    if HeaderAt(file, off).Ok? {
      var h := HeaderAt(file, off).value;
      if off + FIXED_HEADER_SIZE + h.idLen + h.dataLen <= |file| {
        HeaderDescribes(file, off);
      }
    }
  }

  lemma FixedFields(file: Bytes, off: nat)
    requires off + 11 <= |file|
    ensures var b, fixed := file[off..], file[off..off + 11];
      fixed[0..4] == b[0..4] && fixed[4..8] == b[4..8] && fixed[8..10] == b[8..10]
  {
    var b, fixed := file[off..], file[off..off + 11];
    SubSlice(file, off, 0, 11);
    assert fixed[0..4] == b[0..4];
    assert fixed[4..8] == b[4..8];
    assert fixed[8..10] == b[8..10];
  }

  lemma HeaderDescribes(file: Bytes, off: int)
    requires HeaderAt(file, off).Ok?
    requires var h := HeaderAt(file, off).value; off + FIXED_HEADER_SIZE + h.idLen + h.dataLen <= |file|
    ensures 0 <= off <= |file|
    ensures var h := HeaderAt(file, off).value;
      var start := off + FIXED_HEADER_SIZE + h.idLen;
      && |h.id| == h.idLen
      && Describes(file[off..], Record(h.id, file[start..start + h.dataLen], h.status))
      && h.crc == FromBigEndian(file[off..][4..8])
  {
    hide FromBigEndian;
    var h := HeaderAt(file, off).value;
    FixedFields(file, off);
    SubSlice(file, off, 10, 10 + h.idLen);
    SubSlice(file, off, 11 + h.idLen, 11 + h.idLen + h.dataLen);
  }

  /** Get reads the last value put under an id, and finds nothing else. */
  lemma GetLaw(s: State, id: Id)
    requires Inv(s)
    ensures var m := Meaning(s.files);
      Get(s, id) == if id in m then Some(Ok(m[id])) else None
  {
    hide ReplayIndex, Meaning, Scan, Clean, ReadRecord;
    ReplayAgrees(s.files);
    if id in s.index {
      var r := Record(id, Meaning(s.files)[id], ACTIVE);
      assert Points(s.files, s.index[id], r);
      ReadBack(s.files, s.index[id], r);
    }
  }

  // ---- Reopen ----

  /** open on an empty directory: one empty segment, and the store is empty. */
  lemma OpenEmpty(max: nat)
    ensures Open(map[], None, max) == Ok(Fresh(max))
  {
    hide SortedSet;
    LoadedEmpty(map[]);
    EmptyClean();
    var one: seq<Bytes> := [[]];
    assert one[..0] == [];
    assert TotalBytes(one) == 0;
  }

  /** open fails exactly on a snapshot file that is there and too short, has a wrong checksum or
      does not start with the magic, and with that error; without one the table starts empty. */
  lemma OpenExact(disk: Disk, snapshot: Option<Bytes>, max: nat)
    ensures Open(disk, snapshot, max).Ok? <==> snapshot.None? || Decode(snapshot.value).Ok?
    ensures Open(disk, snapshot, max).Err? ==> Open(disk, snapshot, max).error == Decode(snapshot.value).error
    ensures Open(disk, snapshot, max).Ok? ==>
      var s := Open(disk, snapshot, max).value;
      && s.files == (if disk == map[] then [[]] else Loaded(disk))
      && s.wal == 0 && s.tombStones == 0 && s.size == TotalBytes(s.files)
      && s.maxSegment == max && s.snapshot == snapshot && !s.stale
  {
    hide RebuildSegment, SortedSet, Decode;
    LoadedEmpty(disk);
  }

  lemma LoadedEmpty(disk: Disk)
    ensures |Loaded(disk)| == 0 <==> disk == map[]
  {
    hide SortedSet;
    var names := FileNames(disk);
    if |names| > 0 { assert names[0] in disk.Keys; }
    if disk != map[] {
      var name :| name in disk.Keys;
      assert name in names;
    }
  }

  /** The index the snapshot file holds. */
  ghost function SnapshotIndex(snapshot: Option<Bytes>): Index {
    if snapshot.Some? && Decode(snapshot.value).Ok? then Decode(snapshot.value).value.index else map[]
  }

  function Lookup(index: Index, id: Id): Option<Ref> {
    if id in index then Some(index[id]) else None
  }

  /** Some record of the segment sets or removes the id. */
  predicate Touched(rs: seq<Record>, id: Id) {
    exists r :: r in rs && r.id == id && (r.status == ACTIVE || r.status == DELETED)
  }

  lemma {:induction false} FoldLookup(base: Index, rs: seq<Record>, segment: nat, id: Id)
    ensures Lookup(FoldIndex(base, rs, segment), id)
         == if Touched(rs, id) then Lookup(FoldIndex(map[], rs, segment), id) else Lookup(base, id)
  {
    if |rs| > 0 {
      var front, last := rs[..|rs| - 1], rs[|rs| - 1];
      FoldLookup(base, front, segment, id);
      TouchedLast(rs, id);
      hide Touched;
    }
  }

  lemma TouchedLast(rs: seq<Record>, id: Id)
    requires |rs| > 0
    ensures var last := rs[|rs| - 1];
      Touched(rs, id) <==>
        || Touched(rs[..|rs| - 1], id)
        || (last.id == id && (last.status == ACTIVE || last.status == DELETED))
  {
    var front, last := rs[..|rs| - 1], rs[|rs| - 1];
    assert rs == front + [last];
    assert forall r :: r in rs <==> r in front || r == last;
  }

  lemma LookupEqual(a: Index, b: Index)
    requires forall id :: Lookup(a, id) == Lookup(b, id)
    ensures a == b
  {
    forall id ensures id in a <==> id in b { assert Lookup(a, id) == Lookup(b, id); }
    forall id | id in a ensures a[id] == b[id] { assert Lookup(a, id) == Lookup(b, id); }
  }

  /** The ids for which the snapshot is of use: the last segment does not settle them. */
  ghost predicate SnapshotSettles(s: State)
    requires |s.files| > 0
  {
    var n := |s.files| - 1;
    forall id :: !Touched(Scan(s.files[n]), id) ==>
      Lookup(SnapshotIndex(s.snapshot), id) == Lookup(ReplayIndex(s.files[..n]), id)
  }

  /** Opening the directories of a store always succeeds and finds every segment, up to 999999
      of them in the order they were written; the index is the snapshot's with the last segment
      replayed over it. */
  lemma ReopenIndex(s: State)
    requires Inv(s)
    ensures Reopen(s).Ok?
    ensures |Loaded(Written(s.files))| == |s.files|
    ensures |s.files| <= MAX_SEGMENTS ==> Loaded(Written(s.files)) == s.files
    ensures var s', n := Reopen(s).value, |s.files| - 1;
      && s'.files == Loaded(Written(s.files))
      && s'.snapshot == s.snapshot && s'.maxSegment == s.maxSegment && s'.stale == s.stale
      && s'.wal == 0 && s'.tombStones == 0 && s'.size == TotalBytes(s'.files)
      && s'.index == FoldIndex(SnapshotIndex(s.snapshot), Scan(s'.files[n]), n)
  {
    hide Decode, ReplayIndex, Scan, Clean, FoldIndex, FoldKeys, AllClean, Packed, Written, Loaded, Names, FileNames;
    LoadedFrom(s.files);
    LoadOrder(s.files);
    var base := SnapshotIndex(s.snapshot);
    assert |base| == 0 ==> base == map[];
  }

  /** Opening finds the segments in the order they were written and rebuilds the live index. */
  ghost predicate Recovers(s: State) {
    && FileNames(Written(s.files)) == Names(|s.files|)
    && Reopen(s).Ok?
    && Reopen(s).value.index == s.index
  }

  /** Reopening recovers the store if and only if it has at most 999999 segments, and the
      snapshot and the sealed segments agree on every id that the last segment does not touch. */
  lemma RecoveryExact(s: State)
    requires Inv(s)
    ensures Recovers(s) <==> |s.files| <= MAX_SEGMENTS && SnapshotSettles(s)
  {
    hide Decode, ReplayIndex, Scan, AllClean, Packed, FoldIndex, Touched, Lookup, Reopen, SnapshotIndex, SnapshotOk,
         Written, Loaded, Names, FileNames;
    LoadOrder(s.files);
    if |s.files| <= MAX_SEGMENTS {
      var n := |s.files| - 1;
      ReopenIndex(s);
      ReplayLast(s.files[..n], s.files[n]);
      assert s.files[..n] + [s.files[n]] == s.files;
      FoldsEqual(SnapshotIndex(s.snapshot), ReplayIndex(s.files[..n]), Scan(s.files[n]), n);
    }
  }

  /** A segment replayed over two indexes gives one result exactly if they differ at most on the
      ids it touches. */
  lemma FoldsEqual(a: Index, b: Index, rs: seq<Record>, n: nat)
    ensures FoldIndex(a, rs, n) == FoldIndex(b, rs, n)
      <==> forall id :: !Touched(rs, id) ==> Lookup(a, id) == Lookup(b, id)
  {
    hide FoldIndex, Touched;
    forall id
      ensures Lookup(FoldIndex(a, rs, n), id) == Lookup(FoldIndex(b, rs, n), id)
        <==> Touched(rs, id) || Lookup(a, id) == Lookup(b, id)
    {
      FoldLookup(a, rs, n, id);
      FoldLookup(b, rs, n, id);
    }
    if forall id :: !Touched(rs, id) ==> Lookup(a, id) == Lookup(b, id) {
      LookupEqual(FoldIndex(a, rs, n), FoldIndex(b, rs, n));
    }
  }

  /** As long as no Compact has run since the last rotation, or there has been no rotation, the
      snapshot settles what the last segment leaves open. */
  lemma FreshSnapshotSettles(s: State)
    requires Inv(s) && !s.stale
    ensures SnapshotSettles(s)
  {
    hide ReplayIndex, Scan, Clean, Decode;
    assert SnapshotIndex(s.snapshot) == ReplayIndex(s.files[..|s.files| - 1]) by {
      if s.snapshot.None? { EmptyReplay(s.files[..0]); }
    }
  }

  /** Recovery: a store reopened when its snapshot settles is the store that was closed, up to
      keys and counters. */
  lemma RecoveryLaw(s: State)
    requires Inv(s) && |s.files| <= MAX_SEGMENTS && SnapshotSettles(s)
    ensures Reopen(s).Ok?
    ensures var s' := Reopen(s).value;
      Inv(s') && s'.files == s.files && s'.index == s.index && s'.snapshot == s.snapshot && s'.stale == s.stale
  {
    hide ReplayIndex, Scan, Clean, Reopen, Decode, SnapshotSettles, Written, Loaded, Names, FileNames;
    ReopenIndex(s);
    RecoveryExact(s);
  }

  lemma EmptyReplay(files: seq<Bytes>)
    requires |files| == 0
    ensures ReplayIndex(files) == map[]
  {
  }
}
