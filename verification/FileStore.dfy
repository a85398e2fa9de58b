/** The store as the program runs it: an object over segment objects, each operation to
    completion (internal/store/store.go, compact.go, snapshot.go). Every method is proved to
    do what the function of the same name in StoreState.dfy says; StoreLaws.dfy and
    StoreRuns.dfy are about those functions. */
module FileStore {
  import opened Bytes
  import opened Prelude
  import opened Record
  import opened Log
  import opened Sorting
  import opened Snapshot
  import opened Directory
  import opened Segment
  import Spec = StoreState
  import opened KeyLists
  import Paging

  /** Distinct segment objects with these files, all written out. */
  ghost predicate ValidSegments(segments: seq<Segment>, files: seq<Bytes>)
    reads segments
  {
    && |segments| == |files| > 0
    && (forall i :: 0 <= i < |segments| ==> segments[i].file == files[i] && segments[i].size == |files[i]|)
    && forall i, j :: 0 <= i < j < |segments| ==> segments[i] != segments[j]
  }

  // ---- What the loops below rely on ----

  lemma {:induction false} EntriesLast(index: Index, order: seq<Id>, id: Id, current: int)
    requires (forall k :: k in order ==> k in index) && id in index
    ensures forall k :: k in order + [id] ==> k in index
    ensures Entries(index, order + [id], current)
         == Entries(index, order, current) + if index[id].segment == current then [] else Entry(id, index[id])
    decreases |order|
  {
    hide Entry;
    if |order| == 0 {
      assert order + [id] == [id];
      assert [id][1..] == [];
    } else {
      assert forall k :: k in order[1..] ==> k in order;
      EntriesLast(index, order[1..], id, current);
      assert (order + [id])[1..] == order[1..] + [id];
    }
  }

  lemma ScanStep(b: Bytes, r: Record)
    requires Parse(b) == Some(r)
    ensures Scan(b) == [r] + Scan(b[Size(r)..])
  {
    hide Parse;
  }

  lemma FoldStep(t: Table, rs: seq<Record>, r: Record, segment: nat)
    ensures FoldIndex(t.index, rs + [r], segment)
         == IndexStep(FoldIndex(t.index, rs, segment), r, segment, TotalSize(rs))
    ensures Spec.FoldKeys(t.keys, rs + [r]) == Spec.KeysStep(Spec.FoldKeys(t.keys, rs), r)
    ensures TotalSize(rs + [r]) == TotalSize(rs) + Size(r)
  {
    assert (rs + [r])[..|rs|] == rs;
  }

  class FileStore {
    var segments: seq<Segment>
    var active: Segment
    var index: Index
    var keys: seq<Id>
    var wal: nat
    var tombStones: nat
    var size: nat
    const maxSegment: nat
    var snapshot: Option<Bytes>  // the snapshot file, if there is one
    ghost var stale: bool        // a Compact has run since it was written
    ghost var files: seq<Bytes>  // the bytes of the segments

    ghost predicate Valid()
      reads this, segments
    {
      ValidSegments(segments, files) && active == segments[|segments| - 1]
    }

    /** The abstract state. */
    ghost function View(): Spec.State
      reads this
    {
      Spec.State(files, index, keys, wal, tombStones, size, maxSegment, snapshot, stale)
    }

    // ---- Opening ----

    /** The members of a set in the order a map walk or a directory listing gives them. */
    static method Walk(S: set<Bytes>) returns (xs: seq<Bytes>)
      ensures Enumerates(xs, S)
    {
      xs := [];
      var todo := S;
      while todo != {}
        invariant todo <= S
        invariant Enumerates(xs, S - todo)
        decreases |todo|
      {
        var x :| x in todo;
        todo := todo - {x};
        xs := xs + [x];
      }
    }

    /** The files of a directory in the order of their names. */
    static method SortedNames(disk: Disk) returns (names: seq<Bytes>)
      ensures names == FileNames(disk)
    {
      hide Distinct, StrictlySorted, Enumerates;
      names := Walk(disk.Keys);
      SortIsSortedSet(names, disk.Keys);
      names := Sort(names);
    }

    /** The loop of loadSegments over the files, in the order of their names. */
    static method LoadSegments(disk: Disk) returns (segs: seq<Segment>, total: nat)
      ensures |segs| == |Loaded(disk)| && fresh(segs)
      ensures forall j :: 0 <= j < |segs| ==> segs[j].Valid() && segs[j].file == Loaded(disk)[j]
      ensures forall j, k :: 0 <= j < k < |segs| ==> segs[j] != segs[k]
      ensures total == Spec.TotalBytes(Loaded(disk))
    {
      hide StrictlySorted, SortedSet, Less;
      var names := SortedNames(disk);
      ghost var files := Loaded(disk);
      segs := [];
      total := 0;
      for i := 0 to |names|
        invariant |segs| == i && fresh(segs)
        invariant forall j :: 0 <= j < i ==> segs[j].Valid() && segs[j].file == files[j]
        invariant forall j, k :: 0 <= j < k < i ==> segs[j] != segs[k]
        invariant total == Spec.TotalBytes(files[..i])
      {
        assert names[i] in names;
        var file := disk[names[i]];
        var seg := new Segment(file);
        segs := segs + [seg];
        total := total + |file|;
        assert files[..i + 1][..i] == files[..i];
      }
      assert files[..|files|] == files;
    }

    /** open's allocation and loadSegments. */
    constructor (disk: Disk, snapshotFile: Option<Bytes>, maxSegment: nat)
      ensures Valid() && fresh(segments)
      ensures files == if |Loaded(disk)| == 0 then [[]] else Loaded(disk)
      ensures index == map[] && keys == [] && wal == 0 && tombStones == 0 && size == Spec.TotalBytes(Loaded(disk))
      ensures this.maxSegment == maxSegment && snapshot == snapshotFile && !stale
    {
      hide Loaded;
      var segs, total := LoadSegments(disk);
      if |segs| == 0 {
        var seg := new Segment([]);
        segs := [seg];
      }
      segments := segs;
      active := segs[|segs| - 1];
      index := map[];
      keys := [];
      wal, tombStones, size := 0, 0, total;
      this.maxSegment := maxSegment;
      snapshot := snapshotFile;
      stale := false;
      files := if |Loaded(disk)| == 0 then [[]] else Loaded(disk);
    }

    method SetIndex(id: Id, ref: Ref)
      modifies this`index, this`keys
      ensures Table(index, keys) == Snapshot.SetIndex(old(Table(index, keys)), id, ref)
    {
      index := index[id := ref];
      keys := keys + [id];
    }

    method DeleteIndex(id: Id)
      modifies this`index, this`keys
      ensures index == old(index) - {id} && keys == Spec.RemoveFirst(old(keys), id)
    {
      index := index - {id};
      for i := 0 to |keys|
        invariant id !in keys[..i]
        invariant index == old(index) - {id} && keys == old(keys)
      {
        if keys[i] == id {
          RemoveAt(keys, id, i);
          keys := keys[..i] + keys[i + 1..];
          return;
        }
        assert keys[..i + 1] == keys[..i] + [keys[i]];
      }
      assert keys[..|keys|] == keys;
      RemoveAbsent(keys, id);
    }

    /** tryLoadSnapshot: the file is optional; reading past its end is not noticed. */
    method TryLoadSnapshot() returns (err: Option<Error>)
      requires keys == []
      modifies this`index, this`keys
      ensures snapshot.None? ==> err == None && index == old(index) && keys == old(keys)
      ensures snapshot.Some? && Decode(snapshot.value).Ok? ==>
        err == None && Table(index, keys) == Decode(snapshot.value).value
      ensures snapshot.Some? && Decode(snapshot.value).Err? ==> err == Some(Decode(snapshot.value).error)
    {
      hide Checksum, FromBigEndian, ReadEntry;
      if snapshot.None? {
        return None;
      }
      var data := snapshot.value;
      if |data| < 10 {
        return Some(InvalidSnapshot);
      }
      var payload := data[..|data| - 4];
      var storedCRC := FromBigEndian(data[|data| - 4..]);
      if Checksum(payload) != storedCRC {
        return Some(SnapshotCorrupted);
      }
      var (magic, b1) := TakeBytes(payload, 4);
      if magic != MAGIC {
        return Some(InvalidSnapshotMagic);
      }
      var (version, b2) := TakeInt(b1, 2);
      var (count, b3) := TakeInt(b2, 8);
      index := map[];
      var rest := b3;
      for i := 0 to count
        invariant ReadEntries(rest, count - i, Table(index, keys)) == ReadEntries(b3, count, Table(map[], []))
      {
        var (id, ref, rest') := ReadEntry(rest);
        SetIndex(id, ref);
        rest := rest';
      }
      return None;
    }

    /** rebuildIndex: replays one segment, whatever its bytes are, up to the first record that
        does not parse. */
    method RebuildIndex(segIndex: nat)
      requires Valid() && segIndex < |segments|
      modifies this`index, this`keys
      ensures Table(index, keys) == Spec.RebuildSegment(old(Table(index, keys)), files[segIndex], segIndex)
    {
      hide Parse, Scan, FoldIndex, TotalSize, Spec.FoldKeys, Spec.RemoveFirst, Spec.RebuildSegment;
      ghost var before := Table(index, keys);
      if |index| == 0 {
        index := map[];
        keys := [];
      }
      ghost var t := Table(index, keys);
      var seg := segments[segIndex];
      var offset := 0;
      ghost var done: seq<Record> := [];
      FoldsEmpty(t, segIndex);
      assert seg.file[0..] == seg.file;
      while true
        invariant offset <= |seg.file| && offset == TotalSize(done)
        invariant Scan(seg.file) == done + Scan(seg.file[offset..])
        invariant index == FoldIndex(t.index, done, segIndex) && keys == Spec.FoldKeys(t.keys, done)
        decreases |seg.file| - offset
      {
        var next := seg.ReadNext(offset);
        if next.None? {
          ScanEnd(seg.file[offset..]);
          assert done + [] == done;
          break;
        }
        var r := next.value;
        ScanStep(seg.file[offset..], r);
        FoldStep(t, done, r, segIndex);
        if r.status == ACTIVE {
          SetIndex(r.id, Ref(segIndex, offset, |r.data|));
        } else if r.status == DELETED {
          DeleteIndex(r.id);
        }
        assert seg.file[offset..][Size(r)..] == seg.file[offset + Size(r)..];
        assert done + ([r] + Scan(seg.file[offset + Size(r)..])) == (done + [r]) + Scan(seg.file[offset + Size(r)..]);
        done := done + [r];
        offset := offset + 11 + |r.id| + |r.data|;
      }
      RebuildSegmentFolds(before, seg.file, segIndex);
    }

    /** open after loadSegments: the snapshot, then the last segment only. */
    method Load() returns (err: Option<Error>)
      requires Valid() && index == map[] && keys == []
      modifies this`index, this`keys
      ensures Valid()
      ensures err.None? <==> snapshot.None? || Decode(snapshot.value).Ok?
      ensures err.Some? ==> err.value == Decode(snapshot.value).error
      ensures err.None? ==>
        var t := if snapshot.None? then Table(map[], []) else Decode(snapshot.value).value;
        Table(index, keys) == Spec.RebuildSegment(t, files[|segments| - 1], |segments| - 1)
    {
      hide Decode, Spec.RebuildSegment;
      err := TryLoadSnapshot();
      if err.Some? {
        return;
      }
      RebuildIndex(|segments| - 1);
    }

    /** open: an error of the snapshot file is the error of open. */
    static method Open(disk: Disk, snapshotFile: Option<Bytes>, maxSegment: nat)
      returns (err: Option<Error>, fs: FileStore)
      ensures fresh(fs) && fs.Valid()
      ensures match Spec.Open(disk, snapshotFile, maxSegment)
              case Err(e) => err == Some(e)
              case Ok(s) => err == None && fs.View() == s
    {
      hide Decode, Spec.RebuildSegment, Loaded;
      fs := new FileStore(disk, snapshotFile, maxSegment);
      err := fs.Load();
      EmptyTotal();
    }

    // ---- Appending ----

    method NewSegment()
      requires Valid()
      modifies this`segments, this`active, this`files
      ensures Valid() && fresh(active) && segments == old(segments) + [active]
      ensures files == old(files) + [[]]
    {
      var seg := new Segment([]);
      segments := segments + [seg];
      active := seg;
      files := files + [[]];
    }

    /** CreateSnapshot: the map is walked in an arbitrary order, which `order` records. */
    method CreateSnapshot() returns (ghost order: seq<Id>)
      modifies this`snapshot, this`stale
      ensures Enumerates(order, index.Keys)
      ensures snapshot == Some(EncodeSnapshot(index, order, |segments| - 1)) && !stale
    {
      hide Checksum, BigEndian, Entry, Entries;
      var buf := MAGIC + BigEndian(2, 1) + BigEndian(8, |index|);
      ghost var head := buf;
      var currentSegment := |segments| - 1;
      var todo := index.Keys;
      order := [];
      EntriesNone(index, currentSegment);
      while todo != {}
        invariant todo <= index.Keys
        invariant Enumerates(order, index.Keys - todo)
        invariant forall k :: k in order ==> k in index
        invariant buf == head + Entries(index, order, currentSegment)
        decreases |todo|
      {
        var id :| id in todo;
        todo := todo - {id};
        EntriesLast(index, order, id, currentSegment);
        if index[id].segment != currentSegment {
          buf := buf + Entry(id, index[id]);
        }
        order := order + [id];
      }
      var crc := BigEndian(4, Checksum(buf));
      snapshot := Some(buf + crc);
      stale := false;
    }

    /** appendRecord up to the write. */
    method MakeRoom(recordSize: nat) returns (ghost order: seq<Id>)
      requires Valid()
      modifies this`size, this`segments, this`active, this`snapshot, this`stale, this`files
      ensures Valid() && old(segments) <= segments && (active == old(active) || fresh(active))
      ensures Enumerates(order, old(index).Keys)
      ensures View() == Spec.MakeRoom(old(View()), recordSize, order)
    {
      hide EncodeSnapshot;
      var totalSize := active.size + recordSize;
      ghost var s0 := View();
      assert totalSize == |s0.files[|s0.files| - 1]| + recordSize;
      size := size + recordSize;
      order := Listing(index.Keys);
      if totalSize > maxSegment {
        NewSegment();
        order := CreateSnapshot();
        assert View() == Spec.Rotate(s0.(size := size), order);
      } else {
        assert View() == s0.(size := size);
      }
    }

    /** The write at the end of appendRecord. */
    method WriteActive(id: Id, data: Bytes, status: byte) returns (r: Result<Ref>)
      requires Valid()
      modifies this`files, active
      ensures Valid()
      ensures r.Ok? <==> Encodable(id, data)
      ensures r.Ok? ==> files == WriteLast(old(files), Encode(Record(id, data, status)))
      ensures r.Ok? ==> r.value == EndRef(old(files), Record(id, data, status))
      ensures r.Err? ==> files == old(files) && r.error == Spec.HeaderError(id)
    {
      hide Encode, WriteLast;
      var res := active.WriteRecord(id, data, status);
      if res.Err? {
        return Err(res.error);
      }
      WriteLastAt(files, Encode(Record(id, data, status)));
      files := WriteLast(files, Encode(Record(id, data, status)));
      return Ok(res.value.(segment := |segments| - 1));
    }

    /** appendRecord: `order` is the walk of the snapshot, if the append rotates. */
    method AppendRecord(id: Id, data: Bytes, status: byte) returns (r: Result<Ref>, ghost order: seq<Id>)
      requires Valid()
      modifies this`size, this`segments, this`active, this`snapshot, this`stale, this`files, active
      ensures Valid() && old(segments) <= segments && (active == old(active) || fresh(active))
      ensures Enumerates(order, old(index).Keys)
      ensures View() == Spec.AppendRecord(old(View()), Record(id, data, status), order).0
      ensures r == Spec.AppendRecord(old(View()), Record(id, data, status), order).1
    {
      hide Encode, Spec.MakeRoom, Distinct, WriteLast, ValidSegments;
      order := MakeRoom(|id| + |data| + 11);
      r := WriteActive(id, data, status);
    }

    // ---- The operations ----

    /** Put of a value whose JSON is `data`. */
    method Put(id: Id, data: Bytes) returns (err: Option<Error>, ghost order: seq<Id>)
      requires Valid()
      modifies this, active
      ensures Valid() && old(segments) <= segments && (active == old(active) || fresh(active))
      ensures Enumerates(order, old(index).Keys)
      ensures View() == Spec.Put(old(View()), id, data, order).0
      ensures err == Spec.Put(old(View()), id, data, order).1
    {
      hide Spec.AppendRecord, Distinct, Listing;
      if id == [] {
        return Some(IdIsRequired), Listing(index.Keys);
      }
      var ref, o := AppendRecord(id, data, ACTIVE);
      order := o;
      if ref.Err? {
        return Some(ref.error), order;
      }
      if id in index {
        tombStones := tombStones + 1;
      } else {
        wal := wal + 1;
      }
      index := index[id := ref.value];
      return None, order;
    }

    method Delete(id: Id) returns (res: Result<bool>, ghost order: seq<Id>)
      requires Valid()
      modifies this, active
      ensures Valid() && old(segments) <= segments && (active == old(active) || fresh(active))
      ensures Enumerates(order, old(index).Keys)
      ensures View() == Spec.Delete(old(View()), id, order).0
      ensures res == Spec.Delete(old(View()), id, order).1
    {
      hide Spec.AppendRecord, Distinct, Listing, Spec.RemoveFirst;
      order := Listing(index.Keys);
      if id !in index {
        return Ok(false), order;
      }
      ghost var s0 := View();
      tombStones := tombStones + 1;
      assert View() == s0.(tombStones := s0.tombStones + 1);
      var ref, o := AppendRecord(id, [], DELETED);
      order := o;
      if ref.Err? {
        return Err(ref.error), order;
      }
      DeleteIndex(id);
      return Ok(true), order;
    }

    method Get(id: Id) returns (r: Option<Result<Bytes>>)
      requires Valid()
      ensures r == Spec.Get(View(), id)
    {
      hide Spec.ReadRecord;
      if id !in index {
        return None;
      }
      var ref := index[id];
      if ref.segment >= |segments| {
        return Some(Err(IndexOutOfRange));
      }
      var rec := segments[ref.segment].Read(ref.offset);
      match rec
      case Err(e) => return Some(Err(e));
      case Ok(rec) => return Some(Ok(rec.data));
    }

    /** What Compact reads behind one ref. */
    method CompactRead(ref: Ref) returns (r: Option<(nat, Bytes)>)
      requires Valid()
      ensures r == Spec.CompactRead(files, ref)
    {
      hide FromBigEndian;
      if ref.segment >= |segments| {
        return None;
      }
      var oldSeg := segments[ref.segment];
      var fixed := oldSeg.ReadAt(FIXED_HEADER_SIZE, ref.offset);
      if fixed.None? {
        return None;
      }
      var idLen := FromBigEndian(fixed.value[8..10]);
      var payloadOffset := ref.offset + Spec.HeaderLength16(idLen);
      if ref.length > 0 {
        var data := oldSeg.ReadAt(ref.length, payloadOffset);
        if data.None? {
          return None;
        }
        return Some((idLen, data.value));
      }
      return Some((idLen, []));
    }

    /** One record of the rewrite: a new segment if it does not fit, then the write. */
    static method PackRecord(segs: seq<Segment>, ghost packed: Spec.Pack, id: Id, data: Bytes, idLen: nat, max: nat)
      returns (segs': seq<Segment>, res: Result<Ref>, ghost packed': Spec.Pack)
      requires ValidSegments(segs, packed.files)
      modifies segs
      ensures segs <= segs' && forall i :: |segs| <= i < |segs'| ==> fresh(segs'[i])
      ensures res.Ok? <==> Encodable(id, data)
      ensures res.Ok? ==> |segs'| > 0 && ValidSegments(segs', packed'.files)
      ensures res.Ok? ==>
        var room := Room(packed.files, FIXED_HEADER_SIZE + idLen + |data|, max);
        var r := Record(id, data, ACTIVE);
        packed' == Spec.PackRecord(packed, r, room) && res.value == EndRef(room, r)
    {
      hide Encode, WriteLast;
      ghost var room := packed.files;
      segs', packed' := segs, packed;
      var recordSize := FIXED_HEADER_SIZE + idLen + |data|;
      if segs[|segs| - 1].size + recordSize > max {
        var current := new Segment([]);
        segs' := segs' + [current];
        room := room + [[]];
      }
      res := segs'[|segs'| - 1].WriteRecord(id, data, ACTIVE);
      if res.Ok? {
        WriteLastAt(room, Encode(Record(id, data, ACTIVE)));
        res := Ok(res.value.(segment := |segs'| - 1));
        packed' := Spec.PackRecord(packed, Record(id, data, ACTIVE), room);
      }
    }

    /** The live ids in id order. */
    method SortedKeys() returns (ids: seq<Id>)
      ensures ids == SortedSet(index.Keys)
      ensures forall id :: id in ids ==> id in index
    {
      hide Distinct, StrictlySorted;
      ids := Walk(index.Keys);
      SortIsSortedSet(ids, index.Keys);
      ids := Sort(ids);
    }

    /** The rewrite: only new segments are written. */
    method Rewrite(ids: seq<Id>) returns (newSegments: seq<Segment>, newIndex: Index, ok: bool, ghost packed: Spec.Pack)
      requires Valid() && forall id :: id in ids ==> id in index
      ensures ok <==> Spec.PackAll(files, index, ids, maxSegment).Some?
      ensures ok ==> |newSegments| > 0 && fresh(newSegments) && ValidSegments(newSegments, packed.files)
      ensures ok ==> Spec.PackAll(files, index, ids, maxSegment) == Some(packed) && newIndex == packed.index
    {
      hide Encode, Spec.PackAll, Spec.PackRecord, Spec.CompactRead, ValidSegments;
      var first := new Segment([]);
      newSegments := [first];
      newIndex := map[];
      packed := Spec.Pack([[]], map[]);
      OneSegment(newSegments);
      PackNone(files, index, maxSegment);
      for i := 0 to |ids|
        invariant |newSegments| > 0 && fresh(newSegments) && ValidSegments(newSegments, packed.files)
        invariant newIndex == packed.index
        invariant Spec.PackAll(files, index, ids[..i], maxSegment) == Some(packed)
      {
        var id := ids[i];
        var read := CompactRead(index[id]);
        PackNext(files, index, ids, i, maxSegment);
        if read.None? {
          PackFails(files, index, ids, i + 1, maxSegment);
          return newSegments, newIndex, false, packed;
        }
        var (idLen, data) := read.value;
        var segs, ref, next := PackRecord(newSegments, packed, id, data, idLen, maxSegment);
        if ref.Err? {
          PackFails(files, index, ids, i + 1, maxSegment);
          return newSegments, newIndex, false, packed;
        }
        ghost var room := Room(packed.files, FIXED_HEADER_SIZE + idLen + |data|, maxSegment);
        PackRecordIndex(packed, Record(id, data, ACTIVE), room);
        newSegments, packed := segs, next;
        newIndex := newIndex[id := ref.value];
      }
      assert ids[..|ids|] == ids;
      ok := true;
    }

    /** The swap at the end of Compact. */
    method Swap(newSegments: seq<Segment>, newIndex: Index, newKeys: seq<Id>, ghost newFiles: seq<Bytes>)
      requires |newSegments| > 0 && ValidSegments(newSegments, newFiles)
      modifies this
      ensures Valid() && segments == newSegments
      ensures View() == old(View()).(files := newFiles, index := newIndex, keys := newKeys, tombStones := 0,
                                     stale := snapshot.Some?)
    {
      segments := newSegments;
      active := newSegments[|newSegments| - 1];
      files := newFiles;
      index := newIndex;
      keys := newKeys;
      tombStones := 0;
      stale := snapshot.Some?;
    }

    /** Compact, as one step: the live records are rewritten in id order, then the segments, the
        index and the keys are replaced together. An error leaves everything as it was. */
    method Compact() returns (ok: bool)
      requires Valid()
      modifies this
      ensures Valid() && (segments == old(segments) || fresh(segments))
      ensures ok <==> !Spec.CompactFails(old(View()))
      ensures View() == Spec.Compact(old(View()))
      ensures !ok ==> View() == old(View()) && segments == old(segments)
    {
      hide Spec.PackAll, SortedSet, SortedEnumeration, ValidSegments;
      var ids := SortedKeys();
      var newSegments, newIndex, done, packed := Rewrite(ids);
      if !done {
        return false;
      }
      Swap(newSegments, newIndex, ids, packed.files);
      return true;
    }

    /** rebuildIndexes: the keys are reset only by the first segment, while the index is empty. */
    method RebuildIndexes()
      requires Valid()
      modifies this`index, this`keys
      ensures Table(index, keys) == Spec.RebuildAll(files, old(keys))
    {
      hide Spec.RebuildSegment;
      index := map[];
      for i := 0 to |segments|
        invariant Table(index, keys) == Spec.RebuildAll(files[..i], old(keys))
      {
        RebuildIndex(i);
        assert files[..i + 1][..i] == files[..i];
      }
      assert files[..|segments|] == files;
    }

    method Prune() returns (ok: bool)
      requires Valid()
      modifies this
      ensures Valid()
      ensures ok <==> !Spec.CompactFails(old(View()))
      ensures View() == Spec.Prune(old(View()))
      ensures !ok ==> View() == old(View())
    {
      hide Spec.Compact, Spec.CompactFails, Spec.RebuildAll;
      ok := Compact();
      if !ok {
        return;
      }
      RebuildIndexes();
    }

    /** The page loop of getRecords. */
    method CutPage(offset: int, count: nat) returns (page: Result<Paging.Page>)
      ensures page == Paging.Cut(keys, offset, count, index)
    {
      if offset < 0 || offset + count > |keys| {
        return Err(IndexOutOfRange);
      }
      var pageKeys: seq<Id> := [];
      var refs: map<Id, Option<Ref>> := map[];
      for i := 0 to count
        invariant pageKeys == keys[offset..offset + i]
        invariant Paging.Page(pageKeys, refs) == Paging.PageOf(pageKeys, index)
      {
        var k := keys[offset + i];
        assert keys[offset..offset + i + 1] == keys[offset..offset + i] + [k];
        PageOfLast(pageKeys, k, index);
        refs := refs[k := if k in index then Some(index[k]) else None];
        pageKeys := pageKeys + [k];
      }
      return Ok(Paging.Page(pageKeys, refs));
    }

    /** The part of getRecords that rebuilds and sorts the key list. */
    method SortKeys(asc: bool) returns (ghost order: seq<Id>)
      modifies this`keys
      ensures Enumerates(order, index.Keys)
      ensures keys == Paging.PageKeys(old(View()), asc, order)
    {
      hide Distinct, Listing, Sort;
      order := Listing(index.Keys);
      if |index| != |keys| {
        keys := Walk(index.Keys);
        order := keys;
      }
      keys := if asc then Sort(keys) else Paging.Reverse(Sort(keys));
    }

    /** getRecords: selects a page, rebuilding and sorting the key list on the way. */
    method GetRecords(asc: bool, offset: int, limit: int) returns (page: Result<Paging.Page>, ghost order: seq<Id>)
      requires Valid()
      modifies this`keys
      ensures Valid()
      ensures Enumerates(order, index.Keys)
      ensures View() == Paging.GetRecords(old(View()), asc, offset, limit, order).0
      ensures page == Paging.GetRecords(old(View()), asc, offset, limit, order).1
    {
      hide Distinct, Listing, Paging.Cut, Paging.PageKeys;
      if offset >= |index| {
        return Ok(Paging.Page([], map[])), Listing(index.Keys);
      }
      order := SortKeys(asc);
      page := CutPage(offset, if limit <= 0 then |index| else limit);
    }
  }

  lemma PageOfLast(keys: seq<Id>, k: Id, index: Index)
    ensures Paging.PageOf(keys + [k], index).refs
         == Paging.PageOf(keys, index).refs[k := if k in index then Some(index[k]) else None]
  {
  }

  lemma WriteLastAt(files: seq<Bytes>, b: Bytes)
    requires |files| > 0
    ensures var files', n := WriteLast(files, b), |files| - 1;
      files'[n] == files[n] + b && forall i :: 0 <= i < n ==> files'[i] == files[i]
  {
  }

  lemma EmptyTotal()
    ensures Spec.TotalBytes([]) == 0 && Spec.TotalBytes([[]]) == 0
  {
    var one: seq<Bytes> := [[]];
    assert one[..0] == [];
  }

  lemma OneSegment(segments: seq<Segment>)
    requires |segments| == 1 && segments[0].Valid() && segments[0].file == []
    ensures ValidSegments(segments, [[]])
  {
  }

  lemma PackNone(files: seq<Bytes>, index: Index, max: nat)
    ensures Spec.PackAll(files, index, [], max) == Some(Spec.Pack([[]], map[]))
  {
  }

  lemma PackNext(files: seq<Bytes>, index: Index, keys: seq<Id>, i: nat, max: nat)
    requires (forall id :: id in keys ==> id in index) && i < |keys|
    requires Spec.PackAll(files, index, keys[..i], max).Some?
    ensures var p := Spec.PackAll(files, index, keys[..i], max).value;
      Spec.PackAll(files, index, keys[..i + 1], max) ==
        match Spec.CompactRead(files, index[keys[i]])
        case None => None
        case Some((idLen, data)) =>
          var room := Room(p.files, FIXED_HEADER_SIZE + idLen + |data|, max);
          if Encodable(keys[i], data) then Some(Spec.PackRecord(p, Record(keys[i], data, ACTIVE), room)) else None
  {
    hide Spec.CompactRead, Spec.PackRecord;
    assert keys[..i + 1][..i] == keys[..i];
  }

  lemma {:induction false} PackFails(files: seq<Bytes>, index: Index, keys: seq<Id>, i: nat, max: nat)
    requires (forall id :: id in keys ==> id in index) && i <= |keys|
    requires Spec.PackAll(files, index, keys[..i], max).None?
    ensures Spec.PackAll(files, index, keys, max).None?
    decreases |keys| - i
  {
    hide Spec.CompactRead, Spec.PackRecord;
    if i == |keys| {
      assert keys[..i] == keys;
    } else {
      assert keys[..i + 1][..i] == keys[..i];
      PackFails(files, index, keys, i + 1, max);
    }
  }

  lemma PackRecordIndex(p: Spec.Pack, r: Record, room: seq<Bytes>)
    requires |room| > 0
    ensures Spec.PackRecord(p, r, room).index == p.index[r.id := EndRef(room, r)]
  {
  }

  lemma FoldsEmpty(t: Table, segment: nat)
    ensures FoldIndex(t.index, [], segment) == t.index && Spec.FoldKeys(t.keys, []) == t.keys && TotalSize([]) == 0
  {
  }

  lemma ScanEnd(b: Bytes)
    requires Parse(b) == None
    ensures Scan(b) == []
  {
  }

  lemma RebuildSegmentFolds(t: Table, file: Bytes, segment: nat)
    ensures var t0 := if |t.index| == 0 then Table(map[], []) else t;
      Spec.RebuildSegment(t, file, segment)
      == Table(FoldIndex(t0.index, Scan(file), segment), Spec.FoldKeys(t0.keys, Scan(file)))
  {
  }

  lemma EntriesNone(index: Index, current: int)
    ensures Entries(index, [], current) == []
  {
  }
}
