/** The key list along runs: what every call keeps of it, and what a reopening makes of it
    (internal/store/store.go:271-292, 758-801). */
module KeyRuns {
  import opened Bytes
  import opened Prelude
  import opened Record
  import opened Log
  import opened Sorting
  import opened Directory
  import opened Snapshot
  import opened StoreState
  import opened StoreLaws
  import opened CompactLaws
  import opened KeyLists
  import opened Paging
  import opened StoreRuns

  // ---- Single calls ----

  /** Put, Delete, Get, Compact, Prune and a page call keep the key list duplicate-free and within
      the live ids; only a reopening can break it. */
  lemma ApplyKeysOk(s: State, op: Op)
    requires Inv(s) && Legal(s, op) && KeysOk(s) && !op.OpReopen?
    ensures KeysOk(Apply(s, op).0)
  {
    hide Inv, Meaning, AppendRecord, Get, GetRecords, Compact, Prune, Distinct, RemoveFirst, Decode, PayloadsSurvive,
         Bounded;
    match op
    case OpPut(id, data, order) => AppendOnly(s, Record(id, data, ACTIVE), order);
    case OpDelete(id, order) =>
      if id in s.index {
        AppendOnly(s.(tombStones := s.tombStones + 1), Record(id, [], DELETED), order);
        RemoveFirstDistinct(s.keys, id);
      }
    case OpGet(_) =>
    case OpPage(asc, offset, limit, order) => PageLaw(s, asc, offset, limit, order);
    case OpCompact =>
      CompactLaw(s);
      SortedIsDistinct(Compact(s).keys);
    case OpPrune =>
      PruneLaw(s);
      CompactLaw(s);
      SortedIsDistinct(Compact(s).keys);
  }

  // ---- Reopening ----

  /** The replay of a reopening: the segment loaded last, over the table of the snapshot. */
  ghost function LastLoaded(s: State): Bytes
    requires |Loaded(Written(s.files))| > 0
  {
    Loaded(Written(s.files))[|Loaded(Written(s.files))| - 1]
  }

  ghost function SnapshotTable(snapshot: Option<Bytes>): Table {
    if snapshot.Some? && Decode(snapshot.value).Ok? then Decode(snapshot.value).value else Table(map[], [])
  }

  lemma ReopenTable(s: State)
    requires Inv(s)
    ensures Reopen(s).Ok? && |Loaded(Written(s.files))| == |s.files| > 0
    ensures TableOk(SnapshotTable(s.snapshot))
    ensures SnapshotTable(s.snapshot).index == SnapshotIndex(s.snapshot)
    ensures var s' := Reopen(s).value;
      Table(s'.index, s'.keys) == RebuildSegment(SnapshotTable(s.snapshot), LastLoaded(s), |s.files| - 1)
  {
    hide Decode, ReplayIndex, RebuildSegment, AllClean, Packed, Written, Loaded, Names, FileNames;
    LoadedFrom(s.files);
  }

  /** No id was put that the replay of the reopening finds live already. */
  ghost predicate PutOnce(s: State) {
    |Loaded(Written(s.files))| == |s.files| > 0 &&
    FirstPuts(SnapshotIndex(s.snapshot), Scan(LastLoaded(s)), |s.files| - 1)
  }

  /** Right after a reopening every page is right, whatever was put before. The key list is good for
      later as well if no id was put that the replay finds live already; and only then, if the
      deletions in the last segment name live ids. */
  lemma ReopenKeys(s: State)
    requires Inv(s)
    ensures Reopen(s).Ok? && |Loaded(Written(s.files))| == |s.files| > 0
    ensures KeysFit(Reopen(s).value)
    ensures PutOnce(s) ==> KeysOk(Reopen(s).value)
    ensures LiveDeletes(SnapshotIndex(s.snapshot), Scan(LastLoaded(s)), |s.files| - 1) ==>
      (KeysOk(Reopen(s).value) <==> PutOnce(s))
  {
    hide Inv, Reopen, SnapshotTable, SnapshotIndex, RebuildSegment, Written, Loaded, LastLoaded, Scan, FirstPuts,
         LiveDeletes;
    ReopenTable(s);
    RebuildKeysExact(SnapshotTable(s.snapshot), LastLoaded(s), |s.files| - 1);
    ListedKeys(Reopen(s).value);
  }

  /** A list of all live ids that is good lists nothing else. */
  lemma ListedKeys(s: State)
    requires forall id :: id in s.index ==> id in s.keys
    ensures TableOk(Table(s.index, s.keys)) <==> KeysOk(s)
    ensures (|s.keys| == |s.index| ==> TableOk(Table(s.index, s.keys))) ==> KeysFit(s)
  {
  }

  // ---- The key list along runs ----

  /** A reopening is good for the key list if no id was put twice in what it replays. */
  ghost predicate GoodReopens(s: State, ops: seq<Op>)
    requires LegalRun(s, ops)
    decreases |ops|
  {
    |ops| > 0 ==>
      var front := ops[..|ops| - 1];
      GoodReopens(s, front) && (ops[|ops| - 1].OpReopen? ==> PutOnce(Run(s, front)))
  }

  /** From an empty store, with such reopenings only, the key list is always a duplicate-free list
      of live ids. */
  lemma {:induction false} RunKeysOk(max: nat, ops: seq<Op>)
    requires max < TWO_TO_THE_63 && LegalRun(Fresh(max), ops) && GoodReopens(Fresh(max), ops)
    ensures KeysOk(Run(Fresh(max), ops))
    ensures Run(Fresh(max), ops).index.Keys == MapRun(map[], ops).Keys
    decreases |ops|
  {
    hide Inv, Meaning, Apply, Legal, MapApply, PutOnce;
    RunRefinesMap(max, ops);
    IndexKeys(Run(Fresh(max), ops));
    if |ops| > 0 {
      var front, op := ops[..|ops| - 1], ops[|ops| - 1];
      assert ops == front + [op];
      RunRefinesMap(max, front);
      RunKeysOk(max, front);
      if op.OpReopen? { ReopenStep(Run(Fresh(max), front)); } else { ApplyKeysOk(Run(Fresh(max), front), op); }
    }
  }

  lemma ReopenStep(s: State)
    requires Inv(s) && Legal(s, OpReopen) && PutOnce(s)
    ensures KeysOk(Apply(s, OpReopen).0)
  {
    hide Inv, PutOnce, Bounded, SnapshotSettles, Reopen;
    ReopenKeys(s);
  }

  /** Without reopening there is nothing to ask. */
  lemma {:induction false} NoReopens(s: State, ops: seq<Op>)
    requires LegalRun(s, ops) && forall op :: op in ops ==> !op.OpReopen?
    ensures GoodReopens(s, ops)
    decreases |ops|
  {
    hide PutOnce, Legal, Apply;
    if |ops| > 0 {
      assert ops == ops[..|ops| - 1] + [ops[|ops| - 1]];
      NoReopens(s, ops[..|ops| - 1]);
    }
  }

  // ---- Runs that put no live id ----

  /** Of the last segment, unless a compaction has outdated the snapshot: the deletions name live
      ids; with `once`, no Active record does. */
  ghost predicate LastOk(s: State, once: bool) {
    && |s.files| > 0
    && var n := |s.files| - 1;
    var base := ReplayIndex(s.files[..n]);
    !s.stale ==> LiveDeletes(base, Scan(s.files[n]), n) && (once ==> FirstPuts(base, Scan(s.files[n]), n))
  }

  lemma LastEmpty(s: State, once: bool)
    requires |s.files| > 0 && s.files[|s.files| - 1] == []
    ensures LastOk(s, once)
  {
    EmptyClean();
  }

  /** What one record adds to the last segment, or to a new one. */
  lemma LastGrows(sealed: seq<Bytes>, last: Bytes, r: Record)
    requires Clean(last) && Valid(r)
    ensures var n, base, index := |sealed|, ReplayIndex(sealed), ReplayIndex(sealed + [last]);
      && (FirstPuts(base, Scan(last + Encode(r)), n) <==>
            FirstPuts(base, Scan(last), n) && (r.status == ACTIVE ==> r.id !in index))
      && (LiveDeletes(base, Scan(last + Encode(r)), n) <==>
            LiveDeletes(base, Scan(last), n) && (r.status == DELETED ==> r.id in index))
  {
    hide ReplayIndex, Scan, Encode, FirstPuts, LiveDeletes, Clean, FoldIndex;
    ReplayLast(sealed, last);
    ScanAppend(last, r);
    OneMoreRecord(ReplayIndex(sealed), Scan(last), r, |sealed|);
  }

  /** An append keeps this if its own record does it. */
  lemma AppendLast(s: State, r: Record, order: seq<Id>, once: bool)
    requires Inv(s) && Bounded(s) && WalkOrder(s, order) && Valid(r) && LastOk(s, once)
    requires r.status == DELETED ==> r.id in s.index
    requires once && r.status == ACTIVE ==> r.id !in s.index
    ensures LastOk(AppendRecord(s, r, order).0, once)
  {
    hide Inv, AppendRecord, Encode, LastOk, Bounded, WalkOrder, Enumerates;
    LastFile(s);
    AppendPlace(s, r, order);
    var s1 := AppendRecord(s, r, order).0;
    if |s.files[|s.files| - 1]| + Size(r) <= s.maxSegment {
      LastFits(s, s1, r, once);
    } else {
      LastOpens(s, s1, r, once);
    }
  }

  lemma LastFits(s: State, s1: State, r: Record, once: bool)
    requires |s.files| > 0 && Clean(s.files[|s.files| - 1]) && s.index == ReplayIndex(s.files)
    requires Valid(r) && LastOk(s, once)
    requires r.status == DELETED ==> r.id in s.index
    requires once && r.status == ACTIVE ==> r.id !in s.index
    requires var n := |s.files| - 1; s1.files == s.files[..n] + [s.files[n] + Encode(r)] && s1.stale == s.stale
    ensures LastOk(s1, once)
  {
    hide ReplayIndex, Scan, Encode, Clean, FirstPuts, LiveDeletes;
    var n := |s.files| - 1;
    assert s.files[..n] + [s.files[n]] == s.files;
    LastGrows(s.files[..n], s.files[n], r);
    assert s1.files[..n] == s.files[..n];
  }

  lemma LastOpens(s: State, s1: State, r: Record, once: bool)
    requires s.index == ReplayIndex(s.files) && s1.files == s.files + [Encode(r)] && Valid(r)
    requires r.status == DELETED ==> r.id in s.index
    requires once && r.status == ACTIVE ==> r.id !in s.index
    ensures LastOk(s1, once)
  {
    hide ReplayIndex, Scan, Encode, Clean, FirstPuts, LiveDeletes, FoldIndex;
    var n := |s.files|;
    assert [] + Encode(r) == Encode(r) && s1.files[..n] == s.files;
    EmptyClean();
    ReplayLast(s.files, []);
    FoldNothing(ReplayIndex(s.files), n);
    LastGrows(s.files, [], r);
  }

  lemma LastFile(s: State)
    requires Inv(s)
    ensures |s.files| > 0 && Clean(s.files[|s.files| - 1]) && s.index == ReplayIndex(s.files)
  {
    hide Clean, ReplayIndex;
  }

  lemma FoldNothing(index: Index, segment: nat)
    ensures FoldIndex(index, [], segment) == index
    ensures FirstPuts(index, [], segment) && LiveDeletes(index, [], segment)
  {
  }

  lemma OneMoreRecord(base: Index, rs: seq<Record>, r: Record, n: nat)
    ensures FirstPuts(base, rs + [r], n) <==>
      FirstPuts(base, rs, n) && (r.status == ACTIVE ==> r.id !in FoldIndex(base, rs, n))
    ensures LiveDeletes(base, rs + [r], n) <==>
      LiveDeletes(base, rs, n) && (r.status == DELETED ==> r.id in FoldIndex(base, rs, n))
  {
    hide FoldIndex;
    assert (rs + [r])[..|rs|] == rs;
  }

  lemma PutLast(s: State, id: Id, data: Bytes, order: seq<Id>, once: bool)
    requires Inv(s) && Bounded(s) && WalkOrder(s, order) && |s.files| > 0 && LastOk(s, once)
    requires once ==> id !in s.index
    ensures LastOk(Put(s, id, data, order).0, once)
  {
    hide Inv, AppendRecord, LastOk, Bounded, WalkOrder, Enumerates;
    var r := Record(id, data, ACTIVE);
    if Encodable(id, data) {
      AppendPlace(s, r, order);
      AppendLast(s, r, order, once);
      LastSame(AppendRecord(s, r, order).0, Put(s, id, data, order).0, once);
    } else if id != [] {
      RefusedPlace(s, r, order);
      RefusedResult(s, r, order);
      var s1 := Put(s, id, data, order).0;
      if s1.files == s.files + [[]] { LastEmpty(s1, once); } else { LastSame(s, s1, once); }
    }
  }

  lemma RefusedResult(s: State, r: Record, order: seq<Id>)
    requires |s.files| > 0 && WalkOrder(s, order) && !Encodable(r.id, r.data)
    ensures AppendRecord(s, r, order).1.Err?
  {
    hide MakeRoom;
  }

  lemma DeleteLast(s: State, id: Id, order: seq<Id>, once: bool)
    requires Inv(s) && Bounded(s) && WalkOrder(s, order) && |s.files| > 0 && LastOk(s, once)
    ensures LastOk(Delete(s, id, order).0, once)
  {
    hide AppendRecord, LastOk, RemoveFirst, Decode, ReplayIndex, AllClean, Packed, Enumerates;
    if id in s.index {
      var s0, r := s.(tombStones := s.tombStones + 1), Record(id, [], DELETED);
      assert Encodable(id, []) by { LiveEncodable(s, id); }
      LastSame(s, s0, once);
      AppendPlace(s0, r, order);
      AppendLast(s0, r, order, once);
      LastSame(AppendRecord(s0, r, order).0, Delete(s, id, order).0, once);
    }
  }

  lemma LiveEncodable(s: State, id: Id)
    requires Inv(s) && id in s.index
    ensures Encodable(id, [])
  {
    hide ReplayIndex, Meaning, Points, Decode;
    ReplayAgrees(s.files);
  }

  lemma LastSame(s: State, s': State, once: bool)
    requires LastOk(s, once) && s'.files == s.files && s'.stale == s.stale
    ensures LastOk(s', once)
  {
    hide ReplayIndex, Scan, FirstPuts, LiveDeletes;
  }

  /** Of records that are all Active, at least as many as there are ids; and as many only if no id
      is put twice. */
  lemma {:induction false} ActiveOnce(rs: seq<Record>, segment: nat)
    requires forall r :: r in rs ==> r.status == ACTIVE
    ensures LiveDeletes(map[], rs, segment)
    ensures |FoldIndex(map[], rs, segment).Keys| <= |rs|
    ensures |FoldIndex(map[], rs, segment).Keys| == |rs| ==> FirstPuts(map[], rs, segment)
    decreases |rs|
  {
    if |rs| > 0 {
      var front, last := rs[..|rs| - 1], rs[|rs| - 1];
      ActiveOnce(front, segment);
      var index := FoldIndex(map[], front, segment);
      assert FoldIndex(map[], rs, segment).Keys == index.Keys + {last.id};
      if last.id in index { assert index.Keys + {last.id} == index.Keys; }
    }
  }

  /** A compaction leaves one Active record for each live id. */
  lemma CompactLast(s: State, once: bool)
    requires Inv(s)
    ensures LastOk(Compact(s), once)
  {
    hide Inv, LastOk, Compact, Meaning, RecordCount, OnlyLive, Tight, SortedEnumeration;
    CompactLaw(s);
    if s.snapshot.Some? {
      CompactStale(s);
      StaleOk(Compact(s), once);
    } else {
      IndexKeys(s);
      CompactOne(s, Compact(s).files, Rewritten(Meaning(s.files)), once);
    }
  }

  lemma CompactStale(s: State)
    requires Inv(s)
    ensures Compact(s).stale == s.snapshot.Some?
    ensures |Compact(s).files| > 0
    ensures s.snapshot.None? ==> |Compact(s).files| == 1
  {
    hide Inv, PackAll, PackOk, Meaning, SortedSet;
    CompactPack(s);
    hide Compact;
    assert |Compact(s).files| > 0 by { CompactLaw(s); InvFiles(Compact(s)); }
  }

  lemma StaleOk(s: State, once: bool)
    requires |s.files| > 0 && s.stale
    ensures LastOk(s, once)
  {
  }

  lemma CompactOne(s: State, files: seq<Bytes>, m: Contents, once: bool)
    requires Inv(s) && s.snapshot.None? && files == Compact(s).files && Inv(Compact(s))
    requires RecordCount(files) == |Meaning(s.files)| && OnlyLive(files, m)
    requires Compact(s).index.Keys == s.index.Keys == Meaning(s.files).Keys
    ensures LastOk(Compact(s), once)
  {
    hide Inv, Compact, Meaning, Scan, OnlyLive;
    CompactStale(s);
    var rs := Scan(files[0]);
    assert files[..0] == [];
    EmptyReplay(files[..0]);
    assert RecordCount(files) == |rs|;
    AllActive(files, m);
    ActiveOnce(rs, 0);
    hide FoldIndex, FirstPuts, LiveDeletes, RecordCount;
    InvIndex(Compact(s));
    assert files == files[..0] + [files[0]];
    ReplayLast(files[..0], files[0]);
    assert |Meaning(s.files)| == |Meaning(s.files).Keys|;
  }

  lemma AllActive(files: seq<Bytes>, m: Contents)
    requires OnlyLive(files, m) && |files| > 0
    ensures forall r :: r in Scan(files[0]) ==> r.status == ACTIVE
  {
    hide Scan;
  }

  lemma InvIndex(s: State)
    requires Inv(s)
    ensures s.index == ReplayIndex(s.files)
  {
    hide ReplayIndex, Decode;
  }

  lemma ReopenLast(s: State, once: bool)
    requires Inv(s) && Legal(s, OpReopen) && LastOk(s, once)
    ensures LastOk(Reopen(s).value, once)
  {
    hide LastOk, Reopen, SnapshotSettles;
    RecoveryLaw(s);
    LastSame(s, Reopen(s).value, once);
  }

  lemma ApplyLast(s: State, op: Op, once: bool)
    requires Inv(s) && Legal(s, op) && LastOk(s, once)
    requires once && op.OpPut? ==> op.id !in s.index
    ensures LastOk(Apply(s, op).0, once)
  {
    hide Inv, LastOk, Put, Delete, Get, GetRecords, Compact, Prune, Reopen, PayloadsSurvive, KeysFit, SnapshotSettles;
    match op
    case OpPut(id, data, order) => PutLast(s, id, data, order, once);
    case OpDelete(id, order) => DeleteLast(s, id, order, once);
    case OpGet(_) =>
    case OpPage(asc, offset, limit, order) =>
      PageRefines(s, asc, offset, limit, order);
      LastSame(s, GetRecords(s, asc, offset, limit, order).0, once);
    case OpCompact => CompactLast(s, once);
    case OpPrune =>
      PruneLaw(s);
      CompactLast(s, once);
    case OpReopen => ReopenLast(s, once);
  }

  /** No Put of the run names an id that the map has. */
  ghost predicate NewIds(ops: seq<Op>)
    decreases |ops|
  {
    |ops| > 0 ==>
      var front, op := ops[..|ops| - 1], ops[|ops| - 1];
      NewIds(front) && (op.OpPut? ==> op.id !in MapRun(map[], front))
  }

  lemma {:induction false} RunLast(max: nat, ops: seq<Op>, once: bool)
    requires max < TWO_TO_THE_63 && LegalRun(Fresh(max), ops) && (once ==> NewIds(ops))
    ensures LastOk(Run(Fresh(max), ops), once)
    decreases |ops|
  {
    hide Inv, Meaning, Apply, Legal, MapApply, LastOk;
    if |ops| == 0 {
      LastEmpty(Fresh(max), once);
    } else {
      var front := ops[..|ops| - 1];
      RunLast(max, front, once);
      RunRefinesMap(max, front);
      IndexKeys(Run(Fresh(max), front));
      ApplyLast(Run(Fresh(max), front), ops[|ops| - 1], once);
    }
  }

  /** What the replay of a reopening meets, unless a compaction has outdated the snapshot: the last
      segment over the index of the sealed ones. */
  lemma FreshReplay(s: State)
    requires Inv(s) && !s.stale && |s.files| <= MAX_SEGMENTS
    ensures |Loaded(Written(s.files))| == |s.files| > 0
    ensures LastLoaded(s) == s.files[|s.files| - 1]
    ensures SnapshotIndex(s.snapshot) == ReplayIndex(s.files[..|s.files| - 1])
  {
    hide ReplayIndex, Decode, Packed, AllClean, Written, Loaded, Names, FileNames;
    LoadOrder(s.files);
    if s.snapshot.None? { EmptyReplay(s.files[..0]); }
  }

  lemma LastMeans(s: State, once: bool)
    requires Inv(s) && !s.stale && |s.files| <= MAX_SEGMENTS && LastOk(s, once)
    ensures |Loaded(Written(s.files))| == |s.files| > 0
    ensures LiveDeletes(SnapshotIndex(s.snapshot), Scan(LastLoaded(s)), |s.files| - 1)
    ensures once ==> PutOnce(s)
  {
    FreshReplay(s);
    hide Inv, ReplayIndex, SnapshotIndex, Scan, Written, Loaded, LastLoaded, FirstPuts, LiveDeletes;
  }

  /** Reopening in runs, exactly: at any point of a legal run with a fresh snapshot, the page right
      after a reopening is right; and the key list is good for good if and only if no id was put in
      the last segment that was live already. */
  lemma RunReopenKeys(max: nat, ops: seq<Op>)
    requires max < TWO_TO_THE_63 && LegalRun(Fresh(max), ops)
    requires !Run(Fresh(max), ops).stale && |Run(Fresh(max), ops).files| <= MAX_SEGMENTS
    ensures var s := Run(Fresh(max), ops);
      && Reopen(s).Ok?
      && KeysFit(Reopen(s).value)
      && (KeysOk(Reopen(s).value) <==> PutOnce(s))
  {
    hide Inv, LegalRun, Run, LastOk, Reopen, KeysFit, KeysOk, PutOnce, LiveDeletes, LastLoaded, SnapshotIndex, Written,
         Loaded, Scan;
    RunRefinesMap(max, ops);
    RunLast(max, ops, false);
    var s := Run(Fresh(max), ops);
    LastMeans(s, false);
    ReopenKeys(s);
  }

  /** And in terms of the calls alone: if no Put names an id that the map has, and every reopening
      finds a fresh snapshot, every reopening is good, so RunKeysOk and RunPage apply. */
  lemma {:induction false} NewIdsGood(max: nat, ops: seq<Op>)
    requires max < TWO_TO_THE_63 && LegalRun(Fresh(max), ops) && NewIds(ops)
    requires forall k :: 0 <= k < |ops| && ops[k].OpReopen? ==>
      LegalRun(Fresh(max), ops[..k]) ==> !Run(Fresh(max), ops[..k]).stale
    ensures GoodReopens(Fresh(max), ops)
    decreases |ops|
  {
    hide Inv, Meaning, Apply, MapApply, LastOk, PutOnce, SnapshotSettles, PayloadsSurvive, KeysFit, Reopen;
    if |ops| > 0 {
      var n := |ops| - 1;
      var front := ops[..n];
      forall k | 0 <= k < n && front[k].OpReopen?
        ensures LegalRun(Fresh(max), front[..k]) ==> !Run(Fresh(max), front[..k]).stale
      {
        assert front[..k] == ops[..k] && ops[k].OpReopen?;
      }
      NewIdsGood(max, front);
      if ops[n].OpReopen? {
        RunRefinesMap(max, front);
        RunLast(max, front, true);
        LastMeans(Run(Fresh(max), front), true);
      }
    }
  }
}
