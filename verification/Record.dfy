/** The record codec (internal/store/store.go:35-64, internal/store/segment.go:197-274) and
    the record parser that `rebuildIndex` runs over raw bytes (store.go:306-359). */
module Record {
  import opened Bytes
  import opened Prelude

  type Id = Bytes

  const ACTIVE: byte := 1
  const DELETED: byte := 2
  const MAX_ID_LEN := 65535
  const FIXED_HEADER_SIZE := 11

  datatype Record = Record(id: Id, data: Bytes, status: byte)

  /** The lengths `newRecordHeaderAt` accepts. */
  predicate Encodable(id: Id, data: Bytes) {
    1 <= |id| <= MAX_ID_LEN && |data| <= MAX_UINT32
  }

  /** A record the store itself can have written. */
  predicate Valid(r: Record) {
    Encodable(r.id, r.data) && (r.status == ACTIVE || r.status == DELETED)
  }

  function Size(r: Record): nat {
    FIXED_HEADER_SIZE + |r.id| + |r.data|
  }

  function Header(r: Record): (h: Bytes)
    ensures |h| == FIXED_HEADER_SIZE + |r.id|
  {
    BigEndian(4, |r.data|) + BigEndian(4, Checksum(r.data)) + BigEndian(2, |r.id|) + r.id + [r.status]
  }

  function Encode(r: Record): (b: Bytes)
    ensures |b| == Size(r)
  {
    Header(r) + r.data
  }

  /** Where the fields of an encoded record lie. */
  lemma HeaderFields(r: Record, b: Bytes)
    requires Valid(r) && Encode(r) <= b
    ensures FromBigEndian(b[0..4]) == |r.data|
    ensures FromBigEndian(b[4..8]) == Checksum(r.data)
    ensures FromBigEndian(b[8..10]) == |r.id|
    ensures b[10..10 + |r.id|] == r.id
    ensures b[10 + |r.id|] == r.status
    ensures b[11 + |r.id|..][..|r.data|] == r.data
  {
    hide Checksum, BigEndian, FromBigEndian;
    var lenBytes, crcBytes, idBytes := BigEndian(4, |r.data|), BigEndian(4, Checksum(r.data)), BigEndian(2, |r.id|);
    var h := Encode(r);
    assert h == lenBytes + (crcBytes + (idBytes + (r.id + ([r.status] + r.data))));
    assert b[0..4] == h[0..4] == lenBytes;
    assert b[4..8] == h[4..8] == crcBytes;
    assert b[8..10] == h[8..10] == idBytes;
    assert b[10..10 + |r.id|] == h[10..10 + |r.id|] == r.id;
    assert b[11 + |r.id|..][..|r.data|] == h[11 + |r.id|..] == r.data;
    Pow256Widths();
    BigEndianRoundTrip(4, |r.data|);
    BigEndianRoundTrip(4, Checksum(r.data));
    BigEndianRoundTrip(2, |r.id|);
  }

  /** The same fields, for a record that lies at some offset of a file. */
  lemma FieldsAt(file: Bytes, off: nat, r: Record)
    requires Valid(r) && off + Size(r) <= |file| && file[off..off + Size(r)] == Encode(r)
    ensures var fixed := file[off..off + 11];
      && FromBigEndian(fixed[0..4]) == |r.data|
      && FromBigEndian(fixed[4..8]) == Checksum(r.data)
      && FromBigEndian(fixed[8..10]) == |r.id|
    ensures file[off + 10..off + 10 + |r.id|] == r.id
    ensures file[off + 10 + |r.id|] == r.status
    ensures file[off + 11 + |r.id|..off + 11 + |r.id| + |r.data|] == r.data
  {
    hide Checksum, FromBigEndian, Header;
    var b := file[off..];
    SubSlice(file, off, 0, Size(r));
    assert Encode(r) == b[0..Size(r)];
    HeaderFields(r, b);
    SubSlice(file, off, 0, 11);
    var fixed := b[0..11];
    assert fixed[0..4] == b[0..4];
    assert fixed[4..8] == b[4..8];
    assert fixed[8..10] == b[8..10];
    SubSlice(file, off, 10, 10 + |r.id|);
    SubSlice(file, off, 11 + |r.id|, 11 + |r.id| + |r.data|);
    assert b[11 + |r.id|..][..|r.data|] == b[11 + |r.id|..11 + |r.id| + |r.data|];
  }

  lemma SubSlice(b: Bytes, off: nat, lo: nat, hi: nat)
    requires lo <= hi && off + hi <= |b|
    ensures b[off..][lo..hi] == b[off + lo..off + hi]
  {
  }

  lemma SliceSlice(b: Bytes, lo: nat, hi: nat, x: nat, y: nat)
    requires lo <= hi <= |b| && x <= y <= hi - lo
    ensures b[lo..hi][x..y] == b[lo + x..lo + y]
  {
    var left, right := b[lo..hi][x..y], b[lo + x..lo + y];
    assert |left| == |right|;
    forall i | 0 <= i < |left| ensures left[i] == right[i] {
      assert left[i] == b[lo..hi][x + i];
    }
  }

  /** newRecordHeaderAt: the header is filled in place, field by field. */
  method NewRecordHeaderAt(id: Id, data: Bytes, status: byte) returns (r: Result<Bytes>)
    ensures r.Ok? <==> Encodable(id, data)
    ensures r.Ok? ==> r.value == Header(Record(id, data, status))
    ensures r.Err? ==> r.error == if 1 <= |id| <= MAX_ID_LEN then DataTooLarge else InvalidIdLength
  {
    hide Checksum;
    if |id| == 0 || |id| > MAX_ID_LEN {
      return Err(InvalidIdLength);
    }
    if |data| > MAX_UINT32 {
      return Err(DataTooLarge);
    }
    hide BigEndian;
    var header := new byte[FIXED_HEADER_SIZE + |id|](_ => 0);
    PutUint32(header, 0, |data|);
    assert header[..4] == BigEndian(4, |data|);
    PutUint32(header, 4, Checksum(data));
    PutUint16(header, 8, |id|);
    ghost var fixed := BigEndian(4, |data|) + BigEndian(4, Checksum(data)) + BigEndian(2, |id|);
    forall i | 0 <= i < |id| {
      header[10 + i] := id[i];
    }
    header[10 + |id|] := status;
    assert header[..10] == fixed;
    assert header[10..10 + |id|] == id;
    assert header[..] == header[..10] + header[10..10 + |id|] + [header[10 + |id|]];
    return Ok(header[..]);
  }

  /** The record at the front of b, read the way `rebuildIndex` reads it; None is each of its
      `break`s: a short read, an id length of zero, or a payload whose checksum differs. A
      payload of length zero is not checked. */
  function Parse(b: Bytes): (r: Option<Record>)
    ensures r.Some? ==> 1 <= |r.value.id| && Size(r.value) <= |b|
  {
    if |b| < 11 then None
    else
      var dataLen := FromBigEndian(b[0..4]);
      var crcStored := FromBigEndian(b[4..8]);
      var idLen := FromBigEndian(b[8..10]);
      if idLen == 0 || idLen > MAX_ID_LEN then None
      else if |b| < 10 + idLen + 1 then None
      else if |b| < 11 + idLen + dataLen then None
      else
        var data := b[11 + idLen..11 + idLen + dataLen];
        if dataLen > 0 && Checksum(data) != crcStored then None
        else Some(Record(b[10..10 + idLen], data, b[10 + idLen]))
  }

  /** The parser reads back what the writer wrote, whatever follows it. */
  lemma ParseEncoded(r: Record, rest: Bytes)
    requires Valid(r)
    ensures Parse(Encode(r) + rest) == Some(r)
  {
    hide Checksum;
    var b := Encode(r) + rest;
    HeaderFields(r, b);
    assert b[11 + |r.id|..11 + |r.id| + |r.data|] == b[11 + |r.id|..][..|r.data|];
  }

  /** A proper prefix of a record, a torn write, never parses. */
  lemma ParseTorn(r: Record, n: nat)
    requires Valid(r) && n < Size(r)
    ensures Parse(Encode(r)[..n]) == None
  {
    hide Checksum;
    var b := Encode(r)[..n];
    if n >= 11 {
      HeaderFields(r, Encode(r));
      assert b[0..4] == Encode(r)[0..4];
      assert b[8..10] == Encode(r)[8..10];
    }
  }

  /** What a successful parse guarantees about arbitrary bytes: the record lies inside them, its
      fields are the stored ones, and a non-empty payload has the stored checksum. */
  lemma ParseSound(b: Bytes)
    requires Parse(b).Some?
    ensures var r := Parse(b).value;
      && Size(r) <= |b|
      && FromBigEndian(b[0..4]) == |r.data| <= MAX_UINT32
      && FromBigEndian(b[8..10]) == |r.id| <= MAX_ID_LEN
      && b[10..10 + |r.id|] == r.id
      && b[11 + |r.id|..Size(r)] == r.data
      && (|r.data| > 0 ==> Checksum(r.data) == FromBigEndian(b[4..8]))
  {
    Pow256Widths();
  }

  /** The bytes begin with these fields, of these lengths. */
  predicate Describes(b: Bytes, r: Record) {
    && Size(r) <= |b|
    && FromBigEndian(b[0..4]) == |r.data|
    && FromBigEndian(b[8..10]) == |r.id|
    && b[10..10 + |r.id|] == r.id
    && b[10 + |r.id|] == r.status
    && b[11 + |r.id|..11 + |r.id| + |r.data|] == r.data
  }

  /** The parser, exactly: whatever the bytes, it returns the record they describe if that has an
      id and, unless it is empty, a payload with the stored checksum; otherwise it stops. */
  lemma ParseExact(b: Bytes, r: Record)
    ensures Parse(b) == Some(r) <==>
      && Describes(b, r)
      && |r.id| >= 1
      && (|r.data| > 0 ==> Checksum(r.data) == FromBigEndian(b[4..8]))
  {
    Pow256Widths();
    hide Checksum, FromBigEndian;
    if |b| >= 11 { assert |b[8..10]| == 2; }
  }
}
