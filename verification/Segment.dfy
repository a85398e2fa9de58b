/** A segment file that is written at its end and read anywhere (internal/store/segment.go).
    Here the writer goroutine has always drained its channel; WriterQueue.dfy is about the
    moments when it has not. */
module Segment {
  import opened Bytes
  import opened Prelude
  import opened Record
  import opened Log
  import StoreState

  class Segment {
    var file: Bytes
    var size: nat

    ghost predicate Valid()
      reads this
    {
      size == |file|
    }

    /** newSegment on a file with these contents. */
    constructor (contents: Bytes)
      ensures Valid() && file == contents
    {
      file := contents;
      size := |contents|;
    }

    method ReadAt(n: nat, off: int) returns (r: Option<Bytes>)
      ensures r == StoreState.ReadAt(file, n, off)
    {
      if off < 0 || off + n > |file| {
        return None;
      }
      return Some(file[off..off + n]);
    }

    method Write(b: Bytes)
      modifies this`file
      ensures file == old(file) + b
    {
      file := file + b;
    }

    /** The record goes to the end of the file; the ref says where, without the segment number. */
    method WriteRecord(id: Id, data: Bytes, status: byte) returns (r: Result<Ref>)
      requires Valid()
      modifies this
      ensures Valid()
      ensures r.Ok? <==> Encodable(id, data)
      ensures r.Ok? ==> file == old(file) + Encode(Record(id, data, status))
      ensures r.Ok? ==> r.value == Ref(0, |old(file)|, |data|)
      ensures r.Err? ==> file == old(file) && r.error == StoreState.HeaderError(id)
    {
      hide Header;
      var header := NewRecordHeaderAt(id, data, status);
      match header
      case Err(e) => return Err(e);
      case Ok(h) =>
        var offset := size;
        Write(h);
        if |data| > 0 {
          Write(data);
        }
        size := size + (FIXED_HEADER_SIZE + |id|) + |data|;
        assert file == old(file) + (h + data);
        return Ok(Ref(0, offset, |data|));
    }

    method ReadHeader(offset: int) returns (r: Result<StoreState.RecordHeader>)
      ensures r == StoreState.HeaderAt(file, offset)
    {
      hide FromBigEndian;
      var buf := ReadAt(FIXED_HEADER_SIZE, offset);
      if buf.None? {
        return Err(Eof);
      }
      var dataLen := FromBigEndian(buf.value[0..4]);
      var crc := FromBigEndian(buf.value[4..8]);
      var idLen := FromBigEndian(buf.value[8..10]);
      var id := ReadAt(idLen, offset + 10);
      if id.None? {
        return Err(Eof);
      }
      var status := ReadAt(1, offset + 10 + idLen);
      if status.None? {
        return Err(Eof);
      }
      return Ok(StoreState.RecordHeader(dataLen, crc, idLen, id.value, status.value[0]));
    }

    method Read(offset: int) returns (r: Result<Record>)
      ensures r == StoreState.ReadRecord(file, offset)
    {
      hide FromBigEndian, Checksum;
      var h := ReadHeader(offset);
      if h.Err? {
        return Err(h.error);
      }
      var data := ReadAt(h.value.dataLen, offset + FIXED_HEADER_SIZE + h.value.idLen);
      if data.None? {
        return Err(Eof);
      }
      if Checksum(data.value) != h.value.crc {
        return Err(CorruptedRecord);
      }
      return Ok(Record(h.value.id, data.value, h.value.status));
    }

    /** One step of rebuildIndex: the record at `offset`, or None for any of its breaks. */
    method ReadNext(offset: nat) returns (r: Option<Record>)
      requires offset <= |file|
      ensures r == Parse(file[offset..])
    {
      hide FromBigEndian, Checksum;
      var b := file[offset..];
      var fixed := ReadAt(11, offset);
      if fixed.None? {
        return None;
      }
      assert fixed.value == b[0..11];
      var dataLen := FromBigEndian(fixed.value[0..4]);
      var crcStored := FromBigEndian(fixed.value[4..8]);
      var idLen := FromBigEndian(fixed.value[8..10]);
      assert fixed.value[0..4] == b[0..4] && fixed.value[4..8] == b[4..8] && fixed.value[8..10] == b[8..10];
      if idLen == 0 || idLen > MAX_ID_LEN {
        return None;
      }
      var id := ReadAt(idLen, offset + 10);
      if id.None? {
        return None;
      }
      var status := ReadAt(1, offset + 10 + idLen);
      if status.None? {
        return None;
      }
      SubSlice(file, offset, 10, 10 + idLen);
      var data := [];
      if dataLen > 0 {
        var payload := ReadAt(dataLen, offset + 10 + idLen + 1);
        if payload.None? {
          return None;
        }
        data := payload.value;
        SubSlice(file, offset, 11 + idLen, 11 + idLen + dataLen);
        if Checksum(data) != crcStored {
          return None;
        }
      }
      return Some(Record(id.value, data, status.value[0]));
    }
  }
}
