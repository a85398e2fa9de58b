/** Whole runs of the store: it behaves like a plain map, it recovers, and its counters count. */
module StoreRuns {
  import opened Bytes
  import opened Prelude
  import opened Record
  import opened Log
  import opened Sorting
  import opened Snapshot
  import opened Directory
  import opened StoreState
  import opened StoreLaws
  import opened CompactLaws
  import opened Paging

  /** A call of the store. `order` is the order in which the map is walked if the call writes
      a snapshot or rebuilds the key list; OpPage is getRecords. */
  datatype Op =
    | OpPut(id: Id, data: Bytes, order: seq<Id>)
    | OpDelete(id: Id, order: seq<Id>)
    | OpGet(id: Id)
    | OpPage(asc: bool, offset: int, limit: int, order: seq<Id>)
    | OpCompact
    | OpPrune
    | OpReopen

  /** What the caller sees of a call. */
  datatype Answer =
    | Done
    | Refused(error: Error)
    | Deleted(existed: bool)
    | Found(data: Bytes)
    | NotFound
    | Listed(page: Result<seq<Id>>)

  /** What the theorems ask of a call: sizes within the formats' widths; for a compaction, that
      the uint16 payload offset reads the payloads; for a reopening, that the snapshot settles
      what the last segment leaves open; for a page, that the key list is rebuilt or right.
      `Checked` below has conditions that imply the first two. */
  ghost predicate Legal(s: State, op: Op) {
    match op
    case OpPut(_, _, order) => |s.files| > 0 && Bounded(s) && WalkOrder(s, order)
    case OpDelete(_, order) => |s.files| > 0 && Bounded(s) && WalkOrder(s, order)
    case OpGet(_) => true
    case OpPage(_, _, _, order) => WalkOrder(s, order) && KeysFit(s)
    case OpCompact => PayloadsSurvive(s)
    case OpPrune => PayloadsSurvive(s)
    case OpReopen => |s.files| > 0 && Bounded(s) && SnapshotSettles(s) && Reopen(s).Ok?
  }

  ghost predicate PayloadsSurvive(s: State) {
    var m := Meaning(s.files);
    forall id :: id in m ==> Wrapped(id, m[id]) == m[id]
  }

  ghost function Apply(s: State, op: Op): (State, Answer)
    requires Legal(s, op)
  {
    match op
    case OpPut(id, data, order) =>
      var (s', err) := Put(s, id, data, order);
      (s', if err.Some? then Refused(err.value) else Done)
    case OpDelete(id, order) =>
      var (s', res) := Delete(s, id, order);
      (s', if res.Err? then Refused(res.error) else Deleted(res.value))
    case OpGet(id) =>
      (s, match Get(s, id)
          case None => NotFound
          case Some(Ok(data)) => Found(data)
          case Some(Err(e)) => Refused(e))
    case OpPage(asc, offset, limit, order) =>
      var (s', page) := GetRecords(s, asc, offset, limit, order);
      (s', Listed(if page.Ok? then Ok(page.value.keys) else Err(page.error)))
    case OpCompact => (Compact(s), Done)
    case OpPrune => (Prune(s), Done)
    case OpReopen => (Reopen(s).value, Done)
  }

  /** A page of the ids of a plain map: `limit` of the sorted ids from `offset` on, or all of them
      without a limit; a slice that does not lie inside the list panics. */
  ghost function MapPage(m: Contents, asc: bool, offset: int, limit: int): Result<seq<Id>> {
    var ids := if asc then SortedSet(m.Keys) else Reverse(SortedSet(m.Keys));
    if offset >= |ids| then Ok([])
    else if limit > 0 && 0 <= offset && offset + limit <= |ids| then Ok(ids[offset..offset + limit])
    else if limit <= 0 && offset == 0 then Ok(ids)
    else Err(IndexOutOfRange)
  }

  /** The same call on a plain map. */
  ghost function MapApply(m: Contents, op: Op): (Contents, Answer) {
    match op
    case OpPut(id, data, _) =>
      if Encodable(id, data) then (m[id := data], Done)
      else (m, Refused(if id == [] then IdIsRequired else HeaderError(id)))
    case OpDelete(id, _) => (m - {id}, Deleted(id in m))
    case OpGet(id) => (m, if id in m then Found(m[id]) else NotFound)
    case OpPage(asc, offset, limit, _) => (m, Listed(MapPage(m, asc, offset, limit)))
    case _ => (m, Done)
  }

  // ---- Runs ----

  ghost predicate LegalRun(s: State, ops: seq<Op>)
    decreases |ops|, 0
  {
    |ops| > 0 ==> LegalRun(s, ops[..|ops| - 1]) && Legal(Run(s, ops[..|ops| - 1]), ops[|ops| - 1])
  }

  ghost function Run(s: State, ops: seq<Op>): State
    requires LegalRun(s, ops)
    decreases |ops|, 1
  {
    if |ops| == 0 then s else Apply(Run(s, ops[..|ops| - 1]), ops[|ops| - 1]).0
  }

  ghost function Answers(s: State, ops: seq<Op>): seq<Answer>
    requires LegalRun(s, ops)
    decreases |ops|
  {
    if |ops| == 0 then []
    else Answers(s, ops[..|ops| - 1]) + [Apply(Run(s, ops[..|ops| - 1]), ops[|ops| - 1]).1]
  }

  ghost function MapRun(m: Contents, ops: seq<Op>): Contents
    decreases |ops|
  {
    if |ops| == 0 then m else MapApply(MapRun(m, ops[..|ops| - 1]), ops[|ops| - 1]).0
  }

  ghost function MapAnswers(m: Contents, ops: seq<Op>): seq<Answer>
    decreases |ops|
  {
    if |ops| == 0 then []
    else MapAnswers(m, ops[..|ops| - 1]) + [MapApply(MapRun(m, ops[..|ops| - 1]), ops[|ops| - 1]).1]
  }

  lemma PutError(s: State, id: Id, data: Bytes, order: seq<Id>)
    requires |s.files| > 0 && WalkOrder(s, order) && !Encodable(id, data)
    ensures Put(s, id, data, order).1 == Some(if id == [] then IdIsRequired else HeaderError(id))
  {
    hide MakeRoom;
  }

  lemma PageRefines(s: State, asc: bool, offset: int, limit: int, order: seq<Id>)
    requires Inv(s) && WalkOrder(s, order) && KeysFit(s)
    ensures var (s', page) := GetRecords(s, asc, offset, limit, order);
      && Inv(s') && s' == s.(keys := s'.keys)
      && (if page.Ok? then Ok(page.value.keys) else Err(page.error)) == MapPage(Meaning(s.files), asc, offset, limit)
  {
    hide Inv, Meaning, Enumerates, KeysFit, KeysOk, GetRecords, SortedSet, Reverse;
    PageLaw(s, asc, offset, limit, order);
    IndexKeys(s);
    InvKeys(s, GetRecords(s, asc, offset, limit, order).0.keys);
    var ids := SortedSet(Meaning(s.files).Keys);
    assert AllIds(s, asc) == if asc then ids else Reverse(ids);
    hide AllIds;
  }

  lemma InvKeys(s: State, keys: seq<Id>)
    requires Inv(s)
    ensures Inv(s.(keys := keys))
  {
    hide Decode;
  }

  /** One call of the store is one call on the map, with the same answer. */
  lemma ApplyRefines(s: State, op: Op)
    requires Inv(s) && Legal(s, op)
    ensures Inv(Apply(s, op).0)
    ensures var m := Meaning(s.files);
      Meaning(Apply(s, op).0.files) == MapApply(m, op).0 && Apply(s, op).1 == MapApply(m, op).1
  {
    hide Inv, Meaning, Put, Delete, Get, GetRecords, MapPage, Compact, Prune, Reopen, Wrapped, SnapshotSettles, KeysFit;
    match op
    case OpPut(id, data, order) =>
      PutLaw(s, id, data, order);
      if !Encodable(id, data) {
        InvFiles(s);
        PutError(s, id, data, order);
      }
    case OpDelete(id, order) => DeleteLaw(s, id, order);
    case OpGet(id) => GetLaw(s, id);
    case OpPage(asc, offset, limit, order) => PageRefines(s, asc, offset, limit, order);
    case OpCompact =>
      CompactLaw(s);
      CompactExact(s);
    case OpPrune =>
      PruneLaw(s);
      CompactLaw(s);
      CompactExact(s);
    case OpReopen => RecoveryLaw(s);
  }

  lemma InvFiles(s: State)
    requires Inv(s)
    ensures |s.files| > 0
  {
  }

  /** The store refines a plain map: along every legal run from any store that satisfies the
      invariant, an opened one for instance, the invariant holds, the log means what the same calls
      make of the map it meant, and every call answers what the map answers. */
  lemma {:induction false} RunRefines(s: State, ops: seq<Op>)
    requires Inv(s) && LegalRun(s, ops)
    ensures Inv(Run(s, ops))
    ensures Meaning(Run(s, ops).files) == MapRun(Meaning(s.files), ops)
    ensures Answers(s, ops) == MapAnswers(Meaning(s.files), ops)
    decreases |ops|
  {
    hide Inv, Meaning, Apply, Legal;
    if |ops| > 0 {
      RunRefines(s, ops[..|ops| - 1]);
      ApplyRefines(Run(s, ops[..|ops| - 1]), ops[|ops| - 1]);
    }
  }

  /** And so from the store that open makes of an empty directory, with the empty map. */
  lemma RunRefinesMap(max: nat, ops: seq<Op>)
    requires max < TWO_TO_THE_63 && LegalRun(Fresh(max), ops)
    ensures Open(map[], None, max) == Ok(Fresh(max))
    ensures Inv(Run(Fresh(max), ops))
    ensures Meaning(Run(Fresh(max), ops).files) == MapRun(map[], ops)
    ensures Answers(Fresh(max), ops) == MapAnswers(map[], ops)
  {
    hide Inv, Meaning, Apply, Legal;
    OpenEmpty(max);
    FreshInv(max);
    RunRefines(Fresh(max), ops);
  }

  /** Recovery, the packing bound and the read path at the end of every legal run. */
  lemma RunRecovers(max: nat, ops: seq<Op>, id: Id)
    requires max < TWO_TO_THE_63 && LegalRun(Fresh(max), ops)
    ensures var s := Run(Fresh(max), ops);
      var m := MapRun(map[], ops);
      && Get(s, id) == (if id in m then Some(Ok(m[id])) else None)
      && Packed(s.files, s.maxSegment)
      && s.index == ReplayIndex(s.files)
      && (!s.stale && |s.files| <= MAX_SEGMENTS ==>
            && Recovers(s)
            && Reopen(s).value.files == s.files
            && Get(Reopen(s).value, id) == Get(s, id))
  {
    hide Meaning, Get, Reopen, Packed, ReplayIndex, AllClean, SnapshotOk, SnapshotSettles, Recovers;
    RunRefinesMap(max, ops);
    var s := Run(Fresh(max), ops);
    GetLaw(s, id);
    if !s.stale && |s.files| <= MAX_SEGMENTS {
      FreshSnapshotSettles(s);
      RecoveryExact(s);
      RecoveryLaw(s);
      GetLaw(Reopen(s).value, id);
    }
  }

  // ---- Runs a caller can check ----

  /** What a caller can see before a call: no Put of an id over 65524 bytes, and no reopening
      between a compaction and the next rotation. */
  ghost predicate Checked(s: State, op: Op) {
    match op
    case OpPut(id, _, _) => Legal(s, op) && |id| <= 65524
    case OpCompact => true
    case OpPrune => true
    case OpReopen => |s.files| > 0 && Bounded(s) && !s.stale
    case _ => Legal(s, op)
  }

  /** Every call is checked in the state it meets. */
  ghost predicate CheckedRun(s: State, ops: seq<Op>)
    decreases |ops|
  {
    |ops| > 0 ==>
      var front := ops[..|ops| - 1];
      CheckedRun(s, front) && (LegalRun(s, front) ==> Checked(Run(s, front), ops[|ops| - 1]))
  }

  ghost predicate ShortIds(m: Contents) {
    forall id :: id in m ==> |id| <= 65524
  }

  lemma ShortSurvive(s: State)
    requires ShortIds(Meaning(s.files))
    ensures PayloadsSurvive(s)
  {
    hide Wrapped, Meaning;
    var m := Meaning(s.files);
    forall id | id in m ensures Wrapped(id, m[id]) == m[id] { WrappedShort(id, m[id]); }
  }

  lemma CheckedStep(s: State, op: Op)
    requires Inv(s) && ShortIds(Meaning(s.files)) && Checked(s, op)
    ensures Legal(s, op)
    ensures ShortIds(MapApply(Meaning(s.files), op).0)
  {
    hide Inv, Meaning, PayloadsSurvive, SnapshotSettles, Reopen, KeysFit, WalkOrder, Bounded, MapPage;
    match op
    case OpPut(_, _, _) =>
    case OpCompact => ShortSurvive(s);
    case OpPrune => ShortSurvive(s);
    case OpReopen => FreshLegal(s);
    case _ =>
  }

  lemma FreshLegal(s: State)
    requires Inv(s) && !s.stale
    ensures SnapshotSettles(s) && Reopen(s).Ok?
  {
    hide Inv, SnapshotSettles, Reopen, Written, Loaded;
    FreshSnapshotSettles(s);
    ReopenIndex(s);
  }

  /** With such calls alone the store refines a plain map: every run of them is legal, compactions,
      prunings and reopenings included. */
  lemma {:induction false} CheckedRefinesMap(max: nat, ops: seq<Op>)
    requires max < TWO_TO_THE_63 && CheckedRun(Fresh(max), ops)
    ensures Open(map[], None, max) == Ok(Fresh(max))
    ensures LegalRun(Fresh(max), ops)
    ensures ShortIds(MapRun(map[], ops))
    ensures Inv(Run(Fresh(max), ops))
    ensures Meaning(Run(Fresh(max), ops).files) == MapRun(map[], ops)
    ensures Answers(Fresh(max), ops) == MapAnswers(map[], ops)
    decreases |ops|
  {
    hide Inv, Meaning, Apply, Legal, Checked, MapApply;
    if |ops| == 0 {
      hide ShortIds;
      RunRefinesMap(max, ops);
      ShortEmpty();
    } else {
      hide ShortIds;
      var front := ops[..|ops| - 1];
      CheckedRefinesMap(max, front);
      CheckedStep(Run(Fresh(max), front), ops[|ops| - 1]);
      RunRefinesMap(max, ops);
    }
  }

  lemma ShortEmpty()
    ensures ShortIds(map[])
  {
  }

  /** Only a compaction makes the snapshot stale, so without one every point of a run is fit for
      a reopening. */
  lemma {:induction false} StaleNeedsCompact(max: nat, ops: seq<Op>)
    requires max < TWO_TO_THE_63 && LegalRun(Fresh(max), ops)
    requires forall op :: op in ops ==> !op.OpCompact? && !op.OpPrune?
    ensures !Run(Fresh(max), ops).stale
    decreases |ops|
  {
    hide Inv, Meaning, Apply, Legal;
    if |ops| > 0 {
      var front, op := ops[..|ops| - 1], ops[|ops| - 1];
      assert ops == front + [op];
      StaleNeedsCompact(max, front);
      StaleStep(Run(Fresh(max), front), op);
    }
  }

  lemma StaleStep(s: State, op: Op)
    requires Legal(s, op) && !op.OpCompact? && !op.OpPrune? && !s.stale
    ensures !Apply(s, op).0.stale
  {
    hide Encode, EncodeSnapshot, KeysFit, SnapshotSettles, Bounded, Get, WalkOrder, Open, RemoveFirst, Cut, PageKeys;
  }

  // ---- Building runs ----

  lemma RunStart(s: State)
    ensures LegalRun(s, []) && Run(s, []) == s
  {
  }

  lemma RunStep(s: State, ops: seq<Op>, op: Op)
    requires LegalRun(s, ops) && Legal(Run(s, ops), op)
    ensures LegalRun(s, ops + [op]) && Run(s, ops + [op]) == Apply(Run(s, ops), op).0
  {
    hide Legal, Apply;
    assert (ops + [op])[..|ops|] == ops;
  }

  lemma MapRunStep(m: Contents, ops: seq<Op>, op: Op)
    ensures MapRun(m, []) == m
    ensures MapRun(m, ops + [op]) == MapApply(MapRun(m, ops), op).0
  {
    hide MapApply;
    assert (ops + [op])[..|ops|] == ops;
  }
}
