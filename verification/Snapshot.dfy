/** The snapshot file: its encoder and its decoder (internal/store/snapshot.go). */
module Snapshot {
  import opened Bytes
  import opened Prelude
  import opened Record
  import opened Log
  import opened Sorting

  const MAGIC: Bytes := [83, 78, 65, 80] // "SNAP"

  /** What `setIndex` updates. */
  datatype Table = Table(index: Index, keys: seq<Id>)

  function SetIndex(t: Table, id: Id, ref: Ref): Table {
    Table(t.index[id := ref], t.keys + [id])
  }

  // ---- Encoder ----

  /** An int64 as eight bytes of two's complement. */
  function Int64Bytes(v: int): Bytes {
    BigEndian(8, v % TWO_TO_THE_64)
  }

  /** The entry of one id; the id length and the segment number are truncated to two and four
      bytes, as the source's conversions do. */
  function Entry(id: Id, ref: Ref): Bytes {
    BigEndian(2, |id|) + id + BigEndian(4, ref.segment) + Int64Bytes(ref.offset) + BigEndian(4, ref.length)
  }

  /** The entries written when the map is walked in the given order: refs into the current
      segment are skipped. */
  function Entries(index: Index, order: seq<Id>, current: int): Bytes
    requires forall id :: id in order ==> id in index
    decreases |order|
  {
    if |order| == 0 then []
    else
      var id := order[0];
      assert forall x :: x in order[1..] ==> x in order;
      var rest := Entries(index, order[1..], current);
      if index[id].segment == current then rest else Entry(id, index[id]) + rest
  }

  function Body(index: Index, order: seq<Id>, current: int): Bytes
    requires forall id :: id in order ==> id in index
  {
    MAGIC + BigEndian(2, 1) + BigEndian(8, |index|) + Entries(index, order, current)
  }

  function EncodeSnapshot(index: Index, order: seq<Id>, current: int): Bytes
    requires forall id :: id in order ==> id in index
  {
    var body := Body(index, order, current);
    body + BigEndian(4, Checksum(body))
  }

  // ---- Decoder ----

  /** binary.Read of an n-byte unsigned integer: its errors are ignored, so a short buffer
      leaves zero in the variable and nothing to read. */
  function TakeInt(b: Bytes, n: nat): (nat, Bytes) {
    if |b| >= n then (FromBigEndian(b[..n]), b[n..]) else (0, [])
  }

  /** buf.Read into n zeroed bytes. */
  function TakeBytes(b: Bytes, n: nat): (Bytes, Bytes) {
    if |b| >= n then (b[..n], b[n..]) else (b + seq(n - |b|, _ => 0), [])
  }

  function AsInt64(v: nat): int {
    if v < TWO_TO_THE_63 then v else v - TWO_TO_THE_64
  }

  function ReadEntry(b: Bytes): (Id, Ref, Bytes) {
    var (idLen, b1) := TakeInt(b, 2);
    var (id, b2) := TakeBytes(b1, idLen);
    var (segment, b3) := TakeInt(b2, 4);
    var (offset, b4) := TakeInt(b3, 8);
    var (length, b5) := TakeInt(b4, 4);
    (id, Ref(segment, AsInt64(offset), length), b5)
  }

  function ReadEntries(b: Bytes, count: nat, t: Table): Table
    decreases count
  {
    if count == 0 then t
    else
      var (id, ref, rest) := ReadEntry(b);
      ReadEntries(rest, count - 1, SetIndex(t, id, ref))
  }

  /** tryLoadSnapshot on the bytes of the file. */
  function Decode(data: Bytes): Result<Table> {
    if |data| < 10 then Err(InvalidSnapshot)
    else
      var payload := data[..|data| - 4];
      if Checksum(payload) != FromBigEndian(data[|data| - 4..]) then Err(SnapshotCorrupted)
      else
        var (magic, b1) := TakeBytes(payload, 4);
        if magic != MAGIC then Err(InvalidSnapshotMagic)
        else
          var (version, b2) := TakeInt(b1, 2);
          var (count, b3) := TakeInt(b2, 8);
          Ok(ReadEntries(b3, count, Table(map[], [])))
  }

  /** The decoder accepts exactly what is long enough, has the stored checksum and begins with the
      magic, and names the first of these that fails. */
  lemma DecodeExact(b: Bytes)
    ensures Decode(b).Ok? <==>
      |b| >= 10 && Checksum(b[..|b| - 4]) == FromBigEndian(b[|b| - 4..]) && b[..4] == [83, 78, 65, 80]
    ensures Decode(b) == Err(InvalidSnapshot) <==> |b| < 10
    ensures Decode(b) == Err(SnapshotCorrupted) <==>
      |b| >= 10 && Checksum(b[..|b| - 4]) != FromBigEndian(b[|b| - 4..])
    ensures Decode(b).Err? ==> Decode(b).error in {InvalidSnapshot, SnapshotCorrupted, InvalidSnapshotMagic}
  {
    hide Checksum, FromBigEndian, ReadEntries, TakeInt;
    if |b| >= 10 { assert b[..|b| - 4][..4] == b[..4]; }
  }

  // ---- Round trip ----

  /** The id, ref and count widths of the format hold what is stored. */
  ghost predicate RefFits(id: Id, ref: Ref) {
    && 1 <= |id| <= MAX_UINT16
    && ref.segment <= MAX_UINT32
    && -TWO_TO_THE_63 <= ref.offset < TWO_TO_THE_63
    && ref.length <= MAX_UINT32
  }

  ghost predicate Fits(index: Index) {
    |index| < TWO_TO_THE_64 && forall id :: id in index ==> RefFits(id, index[id])
  }

  lemma TakeIntBack(n: nat, v: nat, rest: Bytes)
    requires v < Pow256(n)
    ensures TakeInt(BigEndian(n, v) + rest, n) == (v, rest)
  {
    hide BigEndian, FromBigEndian;
    BigEndianRoundTrip(n, v);
    assert (BigEndian(n, v) + rest)[..n] == BigEndian(n, v);
  }

  lemma ReadEntryBack(id: Id, ref: Ref, rest: Bytes)
    requires RefFits(id, ref)
    ensures ReadEntry(Entry(id, ref) + rest) == (id, ref, rest)
  {
    hide TakeInt, BigEndian, FromBigEndian, Pow256;
    var offset := ref.offset % TWO_TO_THE_64;
    assert AsInt64(offset) == ref.offset;
    Pow256Widths();
    var r4 := BigEndian(4, ref.length) + rest;
    var r3 := BigEndian(8, offset) + r4;
    var r2 := BigEndian(4, ref.segment) + r3;
    var r1 := id + r2;
    assert Entry(id, ref) + rest == BigEndian(2, |id|) + r1;
    TakeIntBack(2, |id|, r1);
    TakeIntBack(4, ref.segment, r3);
    TakeIntBack(8, offset, r4);
    TakeIntBack(4, ref.length, rest);
  }

  /** The table after setIndex on every ref of a walk that is not skipped. */
  ghost function Walk(index: Index, order: seq<Id>, current: int, t: Table): Table
    requires forall id :: id in order ==> id in index
    decreases |order|
  {
    if |order| == 0 then t
    else
      var id := order[0];
      assert forall x :: x in order[1..] ==> x in order;
      Walk(index, order[1..], current, if index[id].segment == current then t else SetIndex(t, id, index[id]))
  }

  /** How many refs a walk does not skip. */
  ghost function Kept(index: Index, order: seq<Id>, current: int): nat
    requires forall id :: id in order ==> id in index
    decreases |order|
  {
    if |order| == 0 then 0
    else
      assert forall x :: x in order[1..] ==> x in order;
      Kept(index, order[1..], current) + if index[order[0]].segment == current then 0 else 1
  }

  lemma {:induction false} WalkIndex(index: Index, order: seq<Id>, current: int, t: Table)
    requires forall id :: id in order ==> id in index
    requires forall id :: id in t.index ==> id in index && t.index[id] == index[id]
    ensures var w := Walk(index, order, current, t);
      && (forall id :: id in w.index <==> id in t.index || (id in order && index[id].segment != current))
      && (forall id :: id in w.index ==> id in index && w.index[id] == index[id])
      && (Kept(index, order, current) == |order| ==> w.keys == t.keys + order)
    ensures Kept(index, order, current) <= |order|
    ensures Kept(index, order, current) == |order| <==> forall id :: id in order ==> index[id].segment != current
    decreases |order|
  {
    if |order| > 0 {
      var id, tail := order[0], order[1..];
      assert forall x :: x in order <==> x == id || x in tail by { assert order == [id] + tail; }
      WalkIndex(index, tail, current, if index[id].segment == current then t else SetIndex(t, id, index[id]));
      assert (t.keys + [id]) + tail == t.keys + order;
    }
  }

  lemma ReadOne(id: Id, ref: Ref, rest: Bytes, count: nat, t: Table)
    requires RefFits(id, ref) && count > 0
    ensures ReadEntries(Entry(id, ref) + rest, count, t) == ReadEntries(rest, count - 1, SetIndex(t, id, ref))
  {
    hide ReadEntry, Entry;
    ReadEntryBack(id, ref, rest);
  }

  /** Reading back the entries of a walk restores the refs that were not skipped; whatever
      count is left over is read from an empty buffer. */
  lemma {:induction false} ReadEntriesBack(index: Index, order: seq<Id>, current: int, count: nat, t: Table)
    requires (forall id :: id in index ==> RefFits(id, index[id])) && (forall id :: id in order ==> id in index)
    requires count >= Kept(index, order, current)
    ensures ReadEntries(Entries(index, order, current), count, t)
         == ReadEntries([], count - Kept(index, order, current), Walk(index, order, current, t))
    decreases |order|
  {
    hide ReadEntry, Entry, ReadEntries;
    if |order| > 0 {
      var id, tail := order[0], order[1..];
      assert forall x :: x in tail ==> x in order;
      var ref := index[id];
      if ref.segment == current {
        ReadEntriesBack(index, tail, current, count, t);
      } else {
        ReadOne(id, ref, Entries(index, tail, current), count, t);
        ReadEntriesBack(index, tail, current, count - 1, SetIndex(t, id, ref));
      }
    }
  }

  /** Past the last entry every further one reads as the empty id. */
  lemma {:induction false} ReadPastEnd(count: nat, t: Table)
    ensures count > 0 ==> [] in ReadEntries([], count, t).index
    ensures count == 0 ==> ReadEntries([], count, t) == t
    decreases count
  {
    if count > 0 {
      var (id, ref, rest) := ReadEntry([]);
      assert id == [] && rest == [];
      var t' := SetIndex(t, [], ref);
      if count == 1 {
        assert ReadEntries([], 0, t') == t';
      } else {
        ReadPastEnd(count - 1, t');
      }
    }
  }

  lemma DecodeBody(index: Index, order: seq<Id>, current: int)
    requires Fits(index) && forall id :: id in order ==> id in index
    ensures Decode(EncodeSnapshot(index, order, current))
         == Ok(ReadEntries(Entries(index, order, current), |index|, Table(map[], [])))
  {
    hide Checksum, BigEndian, FromBigEndian, Entries, ReadEntries, TakeInt;
    var entries := Entries(index, order, current);
    var body := Body(index, order, current);
    var data := EncodeSnapshot(index, order, current);
    Pow256Widths();
    BigEndianRoundTrip(4, Checksum(body));
    assert data[..|data| - 4] == body;
    assert data[|data| - 4..] == BigEndian(4, Checksum(body));
    var counted := BigEndian(8, |index|) + entries;
    var versioned := BigEndian(2, 1) + counted;
    assert body == MAGIC + versioned;
    assert TakeBytes(body, 4) == (MAGIC, versioned);
    TakeIntBack(2, 1, counted);
    TakeIntBack(8, |index|, entries);
  }

  /** The round trip, and exactly when it holds: whatever order the map is walked in, decoding
      an encoded index succeeds, and gives the index back if and only if no ref points into the
      current segment; otherwise the entry count is too large and the decoder invents an entry
      for the empty id. */
  lemma SnapshotRoundTrip(index: Index, order: seq<Id>, current: int)
    requires Fits(index) && Enumerates(order, index.Keys)
    ensures var r := Decode(EncodeSnapshot(index, order, current));
      && r.Ok?
      && (r.value.index == index <==> forall id :: id in index ==> index[id].segment != current)
      && (r.value.index == index ==> r.value.keys == order)
  {
    hide Decode, ReadEntries, Entries, EncodeSnapshot, Kept, Walk;
    DecodeBody(index, order, current);
    EnumerationLength(order, index.Keys);
    var t0 := Table(map[], []);
    WalkIndex(index, order, current, t0);
    ReadEntriesBack(index, order, current, |index|, t0);
    var kept, t := Kept(index, order, current), Walk(index, order, current, t0);
    ReadPastEnd(|index| - kept, t);
    if kept == |index| {
      assert t.index == index;
    } else {
      assert [] !in index;
    }
  }
}
