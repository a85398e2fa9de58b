/** What every operation of the store does to its state, as functions on values
    (internal/store/store.go, internal/store/compact.go). The class in FileStore.dfy is proved
    against these; StoreLaws.dfy and StoreRuns.dfy say what they mean. */
module StoreState {
  import opened Bytes
  import opened Prelude
  import opened Record
  import opened Log
  import opened Sorting
  import opened Snapshot
  import opened Directory

  /** `files` are the bytes of the segments and `snapshot` the snapshot file; `stale` is
      bookkeeping of the model: a `Compact` has run since the snapshot was last written. */
  datatype State = State(
    files: seq<Bytes>,
    index: Index,
    keys: seq<Id>,
    wal: nat,
    tombStones: nat,
    size: nat,
    maxSegment: nat,
    snapshot: Option<Bytes>,
    stale: bool
  )

  /** os.File.ReadAt of n bytes: a short read is an error. */
  function ReadAt(file: Bytes, n: nat, off: int): Option<Bytes> {
    if 0 <= off && off + n <= |file| then Some(file[off..off + n]) else None
  }

  // ---- Append ----

  /** A map walk visits each live id once, in some order. */
  ghost predicate WalkOrder(s: State, order: seq<Id>) {
    Enumerates(order, s.index.Keys)
  }

  /** newSegment followed by CreateSnapshot. */
  ghost function Rotate(s: State, order: seq<Id>): State
    requires WalkOrder(s, order)
  {
    s.(files := s.files + [[]],
       snapshot := Some(EncodeSnapshot(s.index, order, |s.files|)),
       stale := false)
  }

  /** The part of appendRecord before the write. */
  ghost function MakeRoom(s: State, size: nat, order: seq<Id>): (s': State)
    requires |s.files| > 0 && WalkOrder(s, order)
    ensures |s'.files| > 0
  {
    var s1 := s.(size := s.size + size);
    if |s.files[|s.files| - 1]| + size > s.maxSegment then Rotate(s1, order) else s1
  }

  function HeaderError(id: Id): Error {
    if 1 <= |id| <= MAX_ID_LEN then DataTooLarge else InvalidIdLength
  }

  /** appendRecord: the rotation happens before the header is checked, so a record the header
      refuses may still have opened a segment and written a snapshot. */
  ghost function AppendRecord(s: State, r: Record, order: seq<Id>): (State, Result<Ref>)
    requires |s.files| > 0 && WalkOrder(s, order)
  {
    var s2 := MakeRoom(s, Size(r), order);
    if !Encodable(r.id, r.data) then (s2, Err(HeaderError(r.id)))
    else
      (s2.(files := WriteLast(s2.files, Encode(r))), Ok(EndRef(s2.files, r)))
  }

  // ---- Put and Delete ----

  ghost function Put(s: State, id: Id, data: Bytes, order: seq<Id>): (State, Option<Error>)
    requires |s.files| > 0 && WalkOrder(s, order)
  {
    if id == [] then (s, Some(IdIsRequired))
    else
      var (s1, ref) := AppendRecord(s, Record(id, data, ACTIVE), order);
      match ref
      case Err(e) => (s1, Some(e))
      case Ok(ref) =>
        var s2 := if id in s1.index then s1.(tombStones := s1.tombStones + 1) else s1.(wal := s1.wal + 1);
        (s2.(index := s2.index[id := ref]), None)
  }

  /** slices.Index and the removal of that one element. */
  function RemoveFirst(keys: seq<Id>, id: Id): seq<Id>
    decreases |keys|
  {
    if |keys| == 0 then []
    else if keys[0] == id then keys[1..]
    else [keys[0]] + RemoveFirst(keys[1..], id)
  }

  ghost function Delete(s: State, id: Id, order: seq<Id>): (State, Result<bool>)
    requires |s.files| > 0 && WalkOrder(s, order)
  {
    if id !in s.index then (s, Ok(false))
    else
      var (s1, ref) := AppendRecord(s.(tombStones := s.tombStones + 1), Record(id, [], DELETED), order);
      match ref
      case Err(e) => (s1, Err(e))
      case Ok(_) => (s1.(index := s1.index - {id}, keys := RemoveFirst(s1.keys, id)), Ok(true))
  }

  // ---- Compact ----

  /** `fixedHeaderSize+idLen` computed in uint16: it wraps for ids longer than 65524 bytes. */
  function HeaderLength16(idLen: nat): (n: nat)
    ensures n <= FIXED_HEADER_SIZE + idLen
    ensures idLen <= 65524 ==> n == FIXED_HEADER_SIZE + idLen
  {
    (FIXED_HEADER_SIZE + idLen) % 0x1_0000
  }

  /** What Compact reads behind a ref: the id length of the header and the payload. */
  function CompactRead(files: seq<Bytes>, ref: Ref): Option<(nat, Bytes)> {
    if ref.segment >= |files| then None
    else
      var file := files[ref.segment];
      match ReadAt(file, FIXED_HEADER_SIZE, ref.offset)
      case None => None
      case Some(fixed) =>
        var idLen := FromBigEndian(fixed[8..10]);
        var payloadOffset := ref.offset + HeaderLength16(idLen);
        if ref.length == 0 then Some((idLen, []))
        else
          match ReadAt(file, ref.length, payloadOffset)
          case None => None
          case Some(data) => Some((idLen, data))
  }

  /** Compact's rewrite in progress: the new segments and the new index. */
  datatype Pack = Pack(files: seq<Bytes>, index: Index)

  function PackRecord(p: Pack, r: Record, room: seq<Bytes>): Pack
    requires |room| > 0
  {
    Pack(WriteLast(room, Encode(r)), p.index[r.id := EndRef(room, r)])
  }

  /** The rewrite of the live ids in the given order, from one empty segment; None is any of
      the error returns of the loop. */
  function PackAll(files: seq<Bytes>, index: Index, keys: seq<Id>, max: nat): (p: Option<Pack>)
    requires forall id :: id in keys ==> id in index
    ensures p.Some? ==> |p.value.files| > 0
    decreases |keys|
  {
    if |keys| == 0 then Some(Pack([[]], map[]))
    else
      var front, id := keys[..|keys| - 1], keys[|keys| - 1];
      match PackAll(files, index, front, max)
      case None => None
      case Some(p) =>
        match CompactRead(files, index[id])
        case None => None
        case Some((idLen, data)) =>
          var room := Room(p.files, FIXED_HEADER_SIZE + idLen + |data|, max);
          if Encodable(id, data) then Some(PackRecord(p, Record(id, data, ACTIVE), room)) else None
  }

  /** Whether the rewrite returns an error. */
  ghost predicate CompactFails(s: State) {
    PackAll(s.files, s.index, SortedSet(s.index.Keys), s.maxSegment).None?
  }

  /** Compact: an error leaves the state alone; the snapshot file is not rewritten. */
  ghost function Compact(s: State): State {
    var keys := SortedSet(s.index.Keys);
    match PackAll(s.files, s.index, keys, s.maxSegment)
    case None => s
    case Some(p) =>
      s.(files := p.files, index := p.index, keys := keys, tombStones := 0, stale := s.snapshot.Some?)
  }

  // ---- Rebuilding ----

  function KeysStep(keys: seq<Id>, r: Record): seq<Id> {
    if r.status == ACTIVE then keys + [r.id]
    else if r.status == DELETED then RemoveFirst(keys, r.id)
    else keys
  }

  function FoldKeys(keys: seq<Id>, rs: seq<Record>): seq<Id> {
    if |rs| == 0 then keys else KeysStep(FoldKeys(keys, rs[..|rs| - 1]), rs[|rs| - 1])
  }

  /** rebuildIndex on one segment: an empty index also resets the key list. */
  function RebuildSegment(t: Table, file: Bytes, segment: nat): Table {
    var t0 := if |t.index| == 0 then Table(map[], []) else t;
    Table(FoldIndex(t0.index, Scan(file), segment), FoldKeys(t0.keys, Scan(file)))
  }

  function RebuildAll(files: seq<Bytes>, keys: seq<Id>): Table {
    if |files| == 0 then Table(map[], keys)
    else RebuildSegment(RebuildAll(files[..|files| - 1], keys), files[|files| - 1], |files| - 1)
  }

  /** Prune: the error of a Compact that failed is returned at once. */
  ghost function Prune(s: State): State {
    if CompactFails(s) then s
    else
      var s1 := Compact(s);
      var t := RebuildAll(s1.files, s1.keys);
      s1.(index := t.index, keys := t.keys)
  }

  // ---- Open ----

  function TotalBytes(files: seq<Bytes>): nat {
    if |files| == 0 then 0 else TotalBytes(files[..|files| - 1]) + |files[|files| - 1]|
  }

  /** loadSegments, tryLoadSnapshot and buildIndex: the segments come in the order of their
      names, and only the last one is replayed. */
  ghost function Open(disk: Disk, snapshot: Option<Bytes>, maxSegment: nat): Result<State> {
    var files := if |Loaded(disk)| == 0 then [[]] else Loaded(disk);
    var loaded := match snapshot
      case None => Ok(Table(map[], []))
      case Some(b) => Decode(b);
    match loaded
    case Err(e) => Err(e)
    case Ok(t) =>
      var n := |files| - 1;
      var t' := RebuildSegment(t, files[n], n);
      Ok(State(files, t'.index, t'.keys, 0, 0, TotalBytes(files), maxSegment, snapshot, false))
  }

  /** Closing the store and opening it again from the same directories. */
  ghost function Reopen(s: State): Result<State> {
    match Open(Written(s.files), s.snapshot, s.maxSegment)
    case Err(e) => Err(e)
    case Ok(s') => Ok(s'.(stale := s.stale))
  }

  /** A store opened on empty directories. */
  function Fresh(maxSegment: nat): State {
    State([[]], map[], [], 0, 0, 0, maxSegment, None, false)
  }

  // ---- Reading ----

  /** recordHeader. */
  datatype RecordHeader = RecordHeader(dataLen: nat, crc: nat, idLen: nat, id: Id, status: byte)

  /** segment.ReadHeader. */
  function HeaderAt(file: Bytes, offset: int): Result<RecordHeader> {
    match ReadAt(file, FIXED_HEADER_SIZE, offset)
    case None => Err(Eof)
    case Some(fixed) =>
      var idLen := FromBigEndian(fixed[8..10]);
      var id := ReadAt(file, idLen, offset + 10);
      var status := ReadAt(file, 1, offset + 10 + idLen);
      if id.None? || status.None? then Err(Eof)
      else
        Ok(RecordHeader(FromBigEndian(fixed[0..4]), FromBigEndian(fixed[4..8]), idLen, id.value, status.value[0]))
  }

  /** segment.read: the payload length comes from the header, not from the ref, and the checksum
      is verified even for an empty payload. */
  function ReadRecord(file: Bytes, offset: int): Result<Record> {
    match HeaderAt(file, offset)
    case Err(e) => Err(e)
    case Ok(h) =>
      match ReadAt(file, h.dataLen, offset + FIXED_HEADER_SIZE + h.idLen)
      case None => Err(Eof)
      case Some(data) =>
        if Checksum(data) != h.crc then Err(CorruptedRecord) else Ok(Record(h.id, data, h.status))
  }

  /** Get: None when the id is not in the index; a segment number out of range panics. */
  function Get(s: State, id: Id): Option<Result<Bytes>> {
    if id !in s.index then None
    else if s.index[id].segment >= |s.files| then Some(Err(IndexOutOfRange))
    else
      match ReadRecord(s.files[s.index[id].segment], s.index[id].offset)
      case Err(e) => Some(Err(e))
      case Ok(r) => Some(Ok(r.data))
  }
}
