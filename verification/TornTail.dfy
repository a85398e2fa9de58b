/** Replaying a segment whatever its bytes are (internal/store/store.go:299-362). */
module TornTail {
  import opened Bytes
  import opened Prelude
  import opened Record
  import opened Log
  import opened StoreState
  import opened StoreLaws
  import opened Directory
  import opened Snapshot

  lemma {:induction false} TotalSizeFirst(rs: seq<Record>)
    requires |rs| > 0
    ensures TotalSize(rs) == Size(rs[0]) + TotalSize(rs[1..])
  {
    if |rs| == 1 {
      assert rs[..0] == [] && rs[1..] == [];
    } else {
      TotalSizeFirst(rs[..|rs| - 1]);
      assert rs[..|rs| - 1][1..] == rs[1..][..|rs| - 2];
    }
  }

  /** Each scanned record parses at the sum of the sizes before it. */
  lemma {:induction false} ScanAt(b: Bytes, k: nat)
    requires k < |Scan(b)|
    ensures TotalSize(Scan(b)[..k]) <= |b|
    ensures Parse(b[TotalSize(Scan(b)[..k])..]) == Some(Scan(b)[k])
    decreases k
  {
    hide Parse;
    var rs := Scan(b);
    if k == 0 {
      assert b[0..] == b;
    } else {
      var r := rs[0];
      var tail := b[Size(r)..];
      assert rs[1..] == Scan(tail);
      ScanAt(tail, k - 1);
      assert rs[..k][1..] == Scan(tail)[..k - 1];
      TotalSizeFirst(rs[..k]);
      var off := TotalSize(Scan(tail)[..k - 1]);
      assert tail[off..] == b[Size(r) + off..];
    }
  }

  /** The ref leads to an Active record of that id that lies inside the segment, and a payload
      that is not empty has the checksum stored beside it. */
  ghost predicate Sound(file: Bytes, id: Id, ref: Ref) {
    && 0 <= ref.offset
    && ref.offset + FIXED_HEADER_SIZE + |id| + ref.length <= |file|
    && FromBigEndian(file[ref.offset..][0..4]) == ref.length
    && FromBigEndian(file[ref.offset..][8..10]) == |id|
    && file[ref.offset..][10..10 + |id|] == id
    && file[ref.offset..][10 + |id|] == ACTIVE
    && (ref.length > 0 ==>
          Checksum(file[ref.offset..][11 + |id|..11 + |id| + ref.length]) == FromBigEndian(file[ref.offset..][4..8]))
  }

  ghost predicate AllSound(file: Bytes, index: Index, segment: nat) {
    forall id :: id in index ==> index[id].segment == segment && Sound(file, id, index[id])
  }

  lemma SoundStep(file: Bytes, index: Index, off: nat, r: Record, segment: nat)
    requires AllSound(file, index, segment)
    requires off <= |file| && Parse(file[off..]) == Some(r)
    ensures AllSound(file, IndexStep(index, r, segment, off), segment)
  {
    hide Checksum, FromBigEndian;
    ParseSound(file[off..]);
    hide Parse;
    if r.status == ACTIVE { assert Sound(file, r.id, Ref(segment, off, |r.data|)); }
    hide Sound;
  }

  lemma {:induction false} FoldSound(file: Bytes, k: nat, segment: nat)
    requires k <= |Scan(file)|
    ensures AllSound(file, FoldIndex(map[], Scan(file)[..k], segment), segment)
    decreases k
  {
    hide Scan, Sound, AllSound, IndexStep, Parse;
    var rs := Scan(file);
    if k > 0 {
      assert rs[..k][..k - 1] == rs[..k - 1];
      FoldSound(file, k - 1, segment);
      ScanAt(file, k - 1);
      SoundStep(file, FoldIndex(map[], rs[..k - 1], segment), TotalSize(rs[..k - 1]), rs[k - 1], segment);
    } else {
      NoneSound(file, segment);
      assert rs[..0] == [];
    }
  }

  lemma NoneSound(file: Bytes, segment: nat)
    ensures AllSound(file, map[], segment)
  {
  }

  /** What a replay leaves of one id: a sound ref or none if the segment touches it, and otherwise
      what was there before. */
  ghost predicate Rebuilt(before: Index, after: Index, file: Bytes, segment: nat, id: Id) {
    if Touched(Scan(file), id) then id in after ==> after[id].segment == segment && Sound(file, id, after[id])
    else Lookup(after, id) == Lookup(before, id)
  }

  /** Rebuilding from a segment of arbitrary bytes, over any table: each id that the segment's
      records touch ends up with a sound ref into it or none, and every other id keeps the ref it
      had. */
  lemma RebuildSound(t: Table, file: Bytes, segment: nat)
    ensures forall id :: Rebuilt(t.index, RebuildSegment(t, file, segment).index, file, segment, id)
  {
    hide Scan, FoldIndex, FoldKeys, Sound, Touched;
    var x := RebuildSegment(t, file, segment).index;
    var rs := Scan(file);
    assert |t.index| == 0 ==> t.index == map[];
    FoldSound(file, |rs|, segment);
    assert rs[..|rs|] == rs;
    forall id ensures Rebuilt(t.index, x, file, segment, id) {
      FoldLookup(t.index, rs, segment, id);
    }
  }

  /** open on any directory and any snapshot file that decodes: what the last segment touches is
      sound, and the rest is as the snapshot has it. */
  lemma OpenSound(disk: Disk, snapshot: Option<Bytes>, maxSegment: nat)
    requires Open(disk, snapshot, maxSegment).Ok?
    ensures var s := Open(disk, snapshot, maxSegment).value;
      var n := |s.files| - 1;
      forall id :: Rebuilt(SnapshotIndex(snapshot), s.index, s.files[n], n, id)
  {
    hide RebuildSegment, Decode, Rebuilt, Loaded;
    var s := Open(disk, snapshot, maxSegment).value;
    var t := if snapshot.None? then Table(map[], []) else Decode(snapshot.value).value;
    RebuildSound(t, s.files[|s.files| - 1], |s.files| - 1);
  }

  /** Every ref is sound in the segment it names. */
  ghost predicate SoundIndex(files: seq<Bytes>, index: Index) {
    forall id :: id in index ==> SoundRef(files, id, index[id])
  }

  ghost predicate SoundRef(files: seq<Bytes>, id: Id, ref: Ref) {
    ref.segment < |files| && Sound(files[ref.segment], id, ref)
  }

  /** rebuildIndexes on segments of arbitrary bytes installs only sound refs. */
  lemma {:induction false} RebuildAllSound(files: seq<Bytes>, keys: seq<Id>)
    ensures SoundIndex(files, RebuildAll(files, keys).index)
    decreases |files|
  {
    hide RebuildSegment, Scan, Touched, Sound;
    if |files| > 0 {
      var n := |files| - 1;
      var x, t := RebuildAll(files, keys).index, RebuildAll(files[..n], keys);
      RebuildAllSound(files[..n], keys);
      RebuildSound(t, files[n], n);
      forall id | id in x ensures SoundRef(files, id, x[id]) {
        assert Rebuilt(t.index, x, files[n], n, id);
        if !Touched(Scan(files[n]), id) {
          assert Lookup(x, id) == Lookup(t.index, id);
          assert SoundRef(files[..n], id, t.index[id]);
        }
      }
    }
  }

  /** On complete records followed by a torn one, rebuilding applies exactly the complete ones,
      in order. */
  lemma RebuildTorn(rs: seq<Record>, r: Record, n: nat, t: Table, segment: nat)
    requires AllValid(rs) && Valid(r) && n < Size(r)
    ensures RebuildSegment(t, EncodeAll(rs) + Encode(r)[..n], segment) == RebuildSegment(t, EncodeAll(rs), segment)
    ensures RebuildSegment(t, EncodeAll(rs), segment).index == FoldIndex(t.index, rs, segment)
  {
    hide Scan, EncodeAll, Encode;
    ScanTorn(rs, r, n);
    ScanEncodeAll(rs);
    assert |t.index| == 0 ==> t.index == map[];
  }
}
