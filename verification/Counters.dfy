/** The counters of the store (internal/store/store.go:226-233, 528-573). */
module Counters {
  import opened Bytes
  import opened Prelude
  import opened Record
  import opened Log
  import opened Sorting
  import opened StoreState
  import opened StoreLaws
  import opened CompactLaws
  import opened Paging
  import opened StoreRuns
  import opened Snapshot

  function DeletionsIn(rs: seq<Record>): nat {
    if |rs| == 0 then 0
    else DeletionsIn(rs[..|rs| - 1]) + if rs[|rs| - 1].status == DELETED then 1 else 0
  }

  /** How many deletion records the segments hold. */
  function Deletions(files: seq<Bytes>): nat {
    if |files| == 0 then 0 else Deletions(files[..|files| - 1]) + DeletionsIn(Scan(files[|files| - 1]))
  }

  /** Every record in the log was counted once, as a new id or as one superseding another; every
      new id is still live or has a deletion record; every byte was counted. */
  ghost predicate Counted(s: State) {
    && RecordCount(s.files) == s.wal + s.tombStones
    && |s.index| + Deletions(s.files) == s.wal
    && s.size == TotalBytes(s.files)
  }

  lemma RoomCounts(files: seq<Bytes>)
    ensures RecordCount(files + [[]]) == RecordCount(files)
    ensures Deletions(files + [[]]) == Deletions(files)
    ensures TotalBytes(files + [[]]) == TotalBytes(files)
  {
    EmptyClean();
    assert (files + [[]])[..|files|] == files;
  }

  lemma WriteCounts(files: seq<Bytes>, r: Record)
    requires |files| > 0 && Clean(files[|files| - 1]) && Valid(r)
    ensures var files' := WriteLast(files, Encode(r));
      && RecordCount(files') == RecordCount(files) + 1
      && Deletions(files') == Deletions(files) + (if r.status == DELETED then 1 else 0)
      && TotalBytes(files') == TotalBytes(files) + Size(r)
  {
    hide Scan, Encode;
    var n := |files| - 1;
    ScanAppend(files[n], r);
    RecordCountWrite(files, r);
    var rs := Scan(files[n]);
    assert (rs + [r])[..|rs|] == rs;
    assert WriteLast(files, Encode(r))[..n] == files[..n];
  }

  lemma AppendCounts(s: State, r: Record, order: seq<Id>)
    requires Inv(s) && Bounded(s) && WalkOrder(s, order) && Valid(r)
    ensures var s1 := AppendRecord(s, r, order).0;
      && RecordCount(s1.files) == RecordCount(s.files) + 1
      && Deletions(s1.files) == Deletions(s.files) + (if r.status == DELETED then 1 else 0)
      && TotalBytes(s1.files) == TotalBytes(s.files) + Size(r)
      && s1.size == s.size + Size(r) && s1.wal == s.wal && s1.tombStones == s.tombStones && s1.index == s.index
  {
    hide Inv, Clean, RecordCount, Deletions, TotalBytes, Encode, Meaning, Rotate;
    InvFiles(s);
    RoomLaw(s, Size(r), order);
    RoomCounts(s.files);
    var room := MakeRoom(s, Size(r), order);
    LastClean(room);
    RotateFiles(s, Size(r), order);
    WriteCounts(room.files, r);
  }

  lemma RotateFiles(s: State, size: nat, order: seq<Id>)
    requires |s.files| > 0 && WalkOrder(s, order)
    ensures var files := MakeRoom(s, size, order).files;
      files == s.files || files == s.files + [[]]
  {
  }

  lemma LastClean(s: State)
    requires Inv(s)
    ensures |s.files| > 0 && Clean(s.files[|s.files| - 1])
  {
    hide Clean;
  }

  lemma PutCounts(s: State, id: Id, data: Bytes, order: seq<Id>)
    requires Inv(s) && Bounded(s) && WalkOrder(s, order) && Encodable(id, data) && Counted(s)
    ensures Counted(Put(s, id, data, order).0)
  {
    hide Inv, RecordCount, Deletions, TotalBytes, AppendRecord, Enumerates, Bounded, Meaning, ReplayIndex, AllClean,
         Packed, SnapshotOk;
    InvFiles(s);
    IndexFits(s);
    AppendCounts(s, Record(id, data, ACTIVE), order);
    var ref := AppendRecord(s, Record(id, data, ACTIVE), order).1;
    AppendLaw(s, Record(id, data, ACTIVE), order);
    UpdateSize(s.index, id, ref.value);
  }

  lemma UpdateSize(index: Index, id: Id, ref: Ref)
    ensures |index[id := ref]| == |index| + (if id in index then 0 else 1)
    ensures id in index ==> |index - {id}| == |index| - 1
  {
    assert index[id := ref].Keys == index.Keys + {id};
    assert (index - {id}).Keys == index.Keys - {id};
  }

  lemma DeleteCounts(s: State, id: Id, order: seq<Id>)
    requires Inv(s) && Bounded(s) && WalkOrder(s, order) && Counted(s) && id in s.index
    ensures Counted(Delete(s, id, order).0)
  {
    hide RecordCount, Deletions, TotalBytes, AppendRecord, AllClean, Packed, Decode, ReplayIndex, Points, Meaning,
         RemoveFirst;
    IndexFits(s);
    var r := Record(id, [], DELETED);
    var s0 := s.(tombStones := s.tombStones + 1);
    assert Inv(s0);
    ReplayAgrees(s.files);
    AppendCounts(s0, r, order);
    AppendLaw(s0, r, order);
    UpdateSize(s.index, id, s.index[id]);
  }

  /** Record conservation: in every run of reads, pages, deletions and successful writes from an empty
      store, the log holds WAL plus TombStones records, and the live ids are WAL less the
      deletion records; Size is the number of bytes. */
  lemma {:induction false} RunCounts(max: nat, ops: seq<Op>)
    requires max < TWO_TO_THE_63 && LegalRun(Fresh(max), ops)
    requires forall op :: op in ops ==>
      op.OpGet? || op.OpPage? || op.OpDelete? || (op.OpPut? && Encodable(op.id, op.data))
    ensures Counted(Run(Fresh(max), ops))
    decreases |ops|
  {
    hide Inv, RecordCount, Deletions, TotalBytes, Put, WalkOrder, Bounded, Meaning, Enumerates;
    if |ops| == 0 {
      FreshCounts(max);
    } else {
      var front, op := ops[..|ops| - 1], ops[|ops| - 1];
      assert ops == front + [op];
      RunCounts(max, front);
      RunRefinesMap(max, front);
      StepCounts(Run(Fresh(max), front), op);
    }
  }

  lemma StepCounts(s: State, op: Op)
    requires Inv(s) && Legal(s, op) && Counted(s)
    requires op.OpGet? || op.OpPage? || op.OpDelete? || (op.OpPut? && Encodable(op.id, op.data))
    ensures Counted(Apply(s, op).0)
  {
    hide Inv, Counted, Put, Get, PageKeys, Cut, Bounded, AppendRecord;
    match op
    case OpPut(id, data, order) => PutCounts(s, id, data, order);
    case OpDelete(id, order) => if id in s.index { DeleteCounts(s, id, order); }
    case OpGet(_) =>
    case OpPage(asc, offset, limit, order) => CountedKeys(s, GetRecords(s, asc, offset, limit, order).0.keys);
  }

  lemma CountedKeys(s: State, keys: seq<Id>)
    requires Counted(s)
    ensures Counted(s.(keys := keys))
  {
    hide RecordCount, Deletions, TotalBytes;
  }

  lemma FreshCounts(max: nat)
    ensures Counted(Fresh(max))
  {
    var none: seq<Bytes> := [];
    RoomCounts(none);
    assert none + [[]] == [[]];
  }
}
