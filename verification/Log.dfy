/** Segments as byte logs: the records a scan finds in them, the index a replay of those
    records builds, and the key/value map they mean. */
module Log {
  import opened Bytes
  import opened Prelude
  import opened Record

  /** RecordRef: `offset` is an int64 in the source, so a decoded one may be negative. */
  datatype Ref = Ref(segment: nat, offset: int, length: nat)

  type Index = map<Id, Ref>
  type Contents = map<Id, Bytes>

  /** The records a left-to-right scan of a segment finds before it stops. */
  function Scan(b: Bytes): (rs: seq<Record>)
    decreases |b|
  {
    match Parse(b)
    case None => []
    case Some(r) => [r] + Scan(b[Size(r)..])
  }

  function EncodeAll(rs: seq<Record>): Bytes {
    if |rs| == 0 then [] else EncodeAll(rs[..|rs| - 1]) + Encode(rs[|rs| - 1])
  }

  function TotalSize(rs: seq<Record>): nat {
    if |rs| == 0 then 0 else TotalSize(rs[..|rs| - 1]) + Size(rs[|rs| - 1])
  }

  ghost predicate AllValid(rs: seq<Record>) {
    forall r :: r in rs ==> Valid(r)
  }

  /** A segment made of complete records the store wrote, and nothing else. */
  ghost predicate Clean(file: Bytes) {
    AllValid(Scan(file)) && EncodeAll(Scan(file)) == file
  }

  lemma {:induction false} EncodeAllSize(rs: seq<Record>)
    ensures |EncodeAll(rs)| == TotalSize(rs)
  {
    if |rs| > 0 { EncodeAllSize(rs[..|rs| - 1]); }
  }

  lemma ScanFirst(r: Record, rest: Bytes)
    requires Valid(r)
    ensures Scan(Encode(r) + rest) == [r] + Scan(rest)
  {
    ParseEncoded(r, rest);
    assert (Encode(r) + rest)[Size(r)..] == rest;
  }

  lemma {:induction false} ScanAfter(rs: seq<Record>, rest: Bytes)
    requires AllValid(rs)
    ensures Scan(EncodeAll(rs) + rest) == rs + Scan(rest)
  {
    hide Parse, Encode, Scan;
    if |rs| == 0 {
      assert EncodeAll(rs) + rest == rest;
    } else {
      var front, last := rs[..|rs| - 1], rs[|rs| - 1];
      calc {
        Scan(EncodeAll(rs) + rest);
        { assert EncodeAll(rs) + rest == EncodeAll(front) + (Encode(last) + rest); }
        Scan(EncodeAll(front) + (Encode(last) + rest));
        { ScanAfter(front, Encode(last) + rest); }
        front + Scan(Encode(last) + rest);
        { ScanFirst(last, rest); }
        front + ([last] + Scan(rest));
        { assert front + ([last] + Scan(rest)) == (front + [last]) + Scan(rest); assert front + [last] == rs; }
        rs + Scan(rest);
      }
    }
  }

  /** Scanning a segment of complete records gives exactly those records, in order; a torn
      record behind them is not applied and does not hide any of them. */
  lemma ScanTorn(rs: seq<Record>, r: Record, n: nat)
    requires AllValid(rs) && Valid(r) && n < Size(r)
    ensures Scan(EncodeAll(rs) + Encode(r)[..n]) == rs
  {
    ScanAfter(rs, Encode(r)[..n]);
    ParseTorn(r, n);
  }

  lemma ScanEncodeAll(rs: seq<Record>)
    requires AllValid(rs)
    ensures Scan(EncodeAll(rs)) == rs && Clean(EncodeAll(rs))
  {
    ScanAfter(rs, []);
    assert EncodeAll(rs) + [] == EncodeAll(rs);
  }

  /** Writing one more record at the end of a clean segment. */
  lemma ScanAppend(file: Bytes, r: Record)
    requires Clean(file) && Valid(r)
    ensures Scan(file + Encode(r)) == Scan(file) + [r]
    ensures Clean(file + Encode(r))
    ensures |file| == TotalSize(Scan(file))
  {
    var rs := Scan(file);
    EncodeAllSize(rs);
    assert (rs + [r])[..|rs|] == rs;
    ScanEncodeAll(rs + [r]);
  }

  // ---- Replay: setIndex and deleteIndex folded over a segment ----

  function IndexStep(index: Index, r: Record, segment: nat, offset: nat): Index {
    if r.status == ACTIVE then index[r.id := Ref(segment, offset, |r.data|)]
    else if r.status == DELETED then index - {r.id}
    else index
  }

  function FoldIndex(index: Index, rs: seq<Record>, segment: nat): Index {
    if |rs| == 0 then index
    else
      var front, last := rs[..|rs| - 1], rs[|rs| - 1];
      IndexStep(FoldIndex(index, front, segment), last, segment, TotalSize(front))
  }

  /** The index that replaying every segment from the first to the last builds. */
  function ReplayIndex(files: seq<Bytes>): Index {
    if |files| == 0 then map[]
    else
      var n := |files| - 1;
      FoldIndex(ReplayIndex(files[..n]), Scan(files[n]), n)
  }

  // ---- Meaning: the plain map a log stands for ----

  function MeaningStep(m: Contents, r: Record): Contents {
    if r.status == ACTIVE then m[r.id := r.data]
    else if r.status == DELETED then m - {r.id}
    else m
  }

  function FoldMeaning(m: Contents, rs: seq<Record>): Contents {
    if |rs| == 0 then m else MeaningStep(FoldMeaning(m, rs[..|rs| - 1]), rs[|rs| - 1])
  }

  function Meaning(files: seq<Bytes>): Contents {
    if |files| == 0 then map[]
    else FoldMeaning(Meaning(files[..|files| - 1]), Scan(files[|files| - 1]))
  }

  // ---- Appending ----

  /** A new segment when the last one would grow past `max`. */
  function Room(files: seq<Bytes>, size: nat, max: nat): (files': seq<Bytes>)
    requires |files| > 0
    ensures |files'| > 0
  {
    if |files[|files| - 1]| + size > max then files + [[]] else files
  }

  function WriteLast(files: seq<Bytes>, b: Bytes): (files': seq<Bytes>)
    requires |files| > 0
    ensures |files'| == |files|
  {
    files[..|files| - 1] + [files[|files| - 1] + b]
  }

  /** The ref of a record about to be written at the end of the last segment. */
  function EndRef(files: seq<Bytes>, r: Record): Ref
    requires |files| > 0
  {
    Ref(|files| - 1, |files[|files| - 1]|, |r.data|)
  }

  /** The segments after one more record, and where it went. */
  function AppendBytes(files: seq<Bytes>, max: nat, r: Record): (files': seq<Bytes>)
    requires |files| > 0
    ensures |files'| > 0
  {
    WriteLast(Room(files, Size(r), max), Encode(r))
  }

  function AppendRef(files: seq<Bytes>, max: nat, r: Record): Ref
    requires |files| > 0
  {
    EndRef(Room(files, Size(r), max), r)
  }

  ghost predicate AllClean(files: seq<Bytes>) {
    forall i :: 0 <= i < |files| ==> Clean(files[i])
  }

  lemma ReplayLast(sealed: seq<Bytes>, last: Bytes)
    ensures ReplayIndex(sealed + [last]) == FoldIndex(ReplayIndex(sealed), Scan(last), |sealed|)
    ensures Meaning(sealed + [last]) == FoldMeaning(Meaning(sealed), Scan(last))
  {
    assert (sealed + [last])[..|sealed|] == sealed;
  }

  /** Replay and meaning, when a record is written at the end of the last segment. */
  lemma GrowLast(sealed: seq<Bytes>, last: Bytes, r: Record)
    requires Clean(last) && Valid(r)
    ensures ReplayIndex(sealed + [last + Encode(r)])
         == IndexStep(ReplayIndex(sealed + [last]), r, |sealed|, |last|)
    ensures Meaning(sealed + [last + Encode(r)]) == MeaningStep(Meaning(sealed + [last]), r)
  {
    ScanAppend(last, r);
    ReplayLast(sealed, last);
    ReplayLast(sealed, last + Encode(r));
    FoldsAppend(ReplayIndex(sealed), Meaning(sealed), Scan(last), r, |sealed|);
  }

  /** One record written changes the replayed index and the meaning by exactly one step. */
  lemma WriteReplay(files: seq<Bytes>, r: Record)
    requires |files| > 0 && Clean(files[|files| - 1]) && Valid(r)
    ensures var ref := EndRef(files, r);
      && ReplayIndex(WriteLast(files, Encode(r))) == IndexStep(ReplayIndex(files), r, ref.segment, ref.offset)
      && Meaning(WriteLast(files, Encode(r))) == MeaningStep(Meaning(files), r)
  {
    hide Clean, Scan, Encode, ReplayIndex, Meaning;
    var n := |files| - 1;
    GrowLast(files[..n], files[n], r);
    assert files[..n] + [files[n]] == files;
  }

  lemma WriteClean(files: seq<Bytes>, r: Record)
    requires |files| > 0 && AllClean(files) && Valid(r)
    ensures AllClean(WriteLast(files, Encode(r)))
  {
    hide Scan, Encode, EncodeAll;
    ScanAppend(files[|files| - 1], r);
  }

  /** A segment just opened holds nothing yet: replay and meaning do not see it. */
  lemma RoomReplay(files: seq<Bytes>, size: nat, max: nat)
    requires |files| > 0 && AllClean(files)
    ensures AllClean(Room(files, size, max))
    ensures ReplayIndex(Room(files, size, max)) == ReplayIndex(files)
    ensures Meaning(Room(files, size, max)) == Meaning(files)
  {
    hide Clean;
    EmptyClean();
    ReplayLast(files, []);
  }

  lemma AppendReplay(files: seq<Bytes>, max: nat, r: Record)
    requires |files| > 0 && AllClean(files) && Valid(r)
    ensures var ref := AppendRef(files, max, r);
      && AllClean(AppendBytes(files, max, r))
      && ReplayIndex(AppendBytes(files, max, r)) == IndexStep(ReplayIndex(files), r, ref.segment, ref.offset)
      && Meaning(AppendBytes(files, max, r)) == MeaningStep(Meaning(files), r)
  {
    hide Clean, ReplayIndex, Meaning, Encode;
    RoomReplay(files, Size(r), max);
    var room := Room(files, Size(r), max);
    WriteClean(room, r);
    WriteReplay(room, r);
  }

  lemma FoldsAppend(index: Index, m: Contents, rs: seq<Record>, r: Record, segment: nat)
    ensures FoldIndex(index, rs + [r], segment)
         == IndexStep(FoldIndex(index, rs, segment), r, segment, TotalSize(rs))
    ensures FoldMeaning(m, rs + [r]) == MeaningStep(FoldMeaning(m, rs), r)
    ensures TotalSize(rs + [r]) == TotalSize(rs) + Size(r)
  {
    assert (rs + [r])[..|rs|] == rs;
  }

  lemma EmptyClean()
    ensures Scan([]) == [] && Clean([])
  {
  }

  /** The log of a new store: one empty segment. */
  lemma FreshLog()
    ensures AllClean([[]]) && ReplayIndex([[]]) == map[] && Meaning([[]]) == map[]
  {
    var none: seq<Bytes> := [];
    EmptyClean();
    ReplayLast(none, []);
    assert none + [[]] == [[]];
  }

  // ---- Index equals log ----

  /** The bytes at `ref` are the encoding of `r`. */
  ghost predicate Points(files: seq<Bytes>, ref: Ref, r: Record) {
    && ref.segment < |files|
    && 0 <= ref.offset
    && ref.offset + Size(r) <= |files[ref.segment]|
    && files[ref.segment][ref.offset..ref.offset + Size(r)] == Encode(r)
    && ref.length == |r.data|
  }

  /** The index and the meaning have the same ids, and each ref leads to an Active record with
      that id and the last value put. */
  ghost predicate Agrees(files: seq<Bytes>, index: Index, m: Contents) {
    && index.Keys == m.Keys
    && forall id :: id in index ==>
         Encodable(id, m[id]) && Points(files, index[id], Record(id, m[id], ACTIVE))
  }

  /** Growing files never moves what a ref points at. */
  ghost predicate Extends(files: seq<Bytes>, files': seq<Bytes>) {
    |files| <= |files'| && forall i :: 0 <= i < |files| ==> files[i] <= files'[i]
  }

  lemma PointsStable(files: seq<Bytes>, files': seq<Bytes>, ref: Ref, r: Record)
    requires Extends(files, files') && Points(files, ref, r)
    ensures Points(files', ref, r)
  {
    var f, f' := files[ref.segment], files'[ref.segment];
    assert f'[ref.offset..ref.offset + Size(r)] == f[ref.offset..ref.offset + Size(r)];
  }

  lemma AgreesStep(files: seq<Bytes>, files': seq<Bytes>, index: Index, m: Contents, r: Record,
                   segment: nat, offset: nat)
    requires Extends(files, files') && Agrees(files, index, m) && Valid(r)
    requires Points(files', Ref(segment, offset, |r.data|), r)
    ensures Agrees(files', IndexStep(index, r, segment, offset), MeaningStep(m, r))
  {
    hide Encode;
    var index', m' := IndexStep(index, r, segment, offset), MeaningStep(m, r);
    forall id | id in index'
      ensures Encodable(id, m'[id]) && Points(files', index'[id], Record(id, m'[id], ACTIVE))
    {
      if id != r.id || r.status != ACTIVE {
        PointsStable(files, files', index[id], Record(id, m[id], ACTIVE));
      }
    }
  }

  lemma {:induction false} AgreesSegment(files: seq<Bytes>, rs: seq<Record>)
    requires AllClean(files) && AllValid(rs)
    requires Agrees(files, ReplayIndex(files), Meaning(files))
    ensures Agrees(files + [EncodeAll(rs)],
                   FoldIndex(ReplayIndex(files), rs, |files|), FoldMeaning(Meaning(files), rs))
  {
    hide Clean, Scan, Encode, ReplayIndex, Meaning;
    var n := |files|;
    var base, m := ReplayIndex(files), Meaning(files);
    var files' := files + [EncodeAll(rs)];
    if |rs| == 0 {
      forall id | id in base ensures Points(files', base[id], Record(id, m[id], ACTIVE)) {
        PointsStable(files, files', base[id], Record(id, m[id], ACTIVE));
      }
    } else {
      var front, last := rs[..|rs| - 1], rs[|rs| - 1];
      AgreesSegment(files, front);
      EncodeAllSize(front);
      AgreesStep(files + [EncodeAll(front)], files', FoldIndex(base, front, n), FoldMeaning(m, front),
                 last, n, TotalSize(front));
    }
  }

  /** Index equals log: the index replayed from the bytes of clean segments names exactly the
      ids the log leaves alive, and each ref decodes to the last record put under its id. */
  lemma {:induction false} ReplayAgrees(files: seq<Bytes>)
    requires AllClean(files)
    ensures Agrees(files, ReplayIndex(files), Meaning(files))
  {
    if |files| > 0 {
      var n := |files| - 1;
      ReplayAgrees(files[..n]);
      AgreesSegment(files[..n], Scan(files[n]));
      assert files[..n] + [files[n]] == files;
    }
  }
}
