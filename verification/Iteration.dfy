/** `Iterate` (internal/store/store.go:628-721) on a store: the page, the reads of the workers and
    the pool together. */
module Iteration {
  import opened Bytes
  import opened Prelude
  import opened Record
  import opened Log
  import opened Sorting
  import opened StoreState
  import opened StoreLaws
  import opened Paging
  import opened StoreRuns
  import Pool = WorkerPool

  /** A worker's read of an id of the page; a missing ref or segment panics. */
  function WorkerRead(s: State, page: Page, id: Id): Result<Bytes> {
    if id !in page.refs || page.refs[id] == None || page.refs[id].value.segment >= |s.files| then Err(IndexOutOfRange)
    else
      match ReadRecord(s.files[page.refs[id].value.segment], page.refs[id].value.offset)
      case Err(e) => Err(e)
      case Ok(r) => Ok(r.data)
  }

  /** The outcomes of the pool are those of reads of this store: a read fails in the pool exactly
      if it does here. */
  ghost predicate ReadsOf(s: State, page: Page, p: Pool.Pool) {
    forall i :: 0 <= i < |p.handled| ==>
      match p.handled[i].outcome
      case ReadFailed(e) => WorkerRead(s, page, p.handled[i].id) == Err(e)
      case Ran(_, _) => WorkerRead(s, page, p.handled[i].id).Ok?
  }

  datatype Pair = Pair(id: Id, data: Bytes)

  /** The arguments of the callbacks, in the order they finished. */
  function Calls(s: State, page: Page, done: seq<Pool.Done>): seq<Pair> {
    if |done| == 0 then []
    else
      var last := done[|done| - 1];
      var read := WorkerRead(s, page, last.id);
      Calls(s, page, done[..|done| - 1]) + if read.Ok? then [Pair(last.id, read.value)] else []
  }

  /** The entries of a map for a list of its ids. */
  function Entries(m: Contents, ids: seq<Id>): seq<Pair>
    requires forall id :: id in ids ==> id in m
  {
    if |ids| == 0 then [] else Entries(m, ids[..|ids| - 1]) + [Pair(ids[|ids| - 1], m[ids[|ids| - 1]])]
  }

  lemma {:induction false} EntriesConcat(m: Contents, a: seq<Id>, b: seq<Id>)
    requires forall id :: id in a + b ==> id in m
    ensures Entries(m, a + b) == Entries(m, a) + Entries(m, b)
    decreases |b|
  {
    if |b| == 0 {
      assert a + b == a;
    } else {
      var front, last := b[..|b| - 1], b[|b| - 1];
      assert (a + b)[..|a + b| - 1] == a + front;
      EntriesConcat(m, a, front);
    }
  }

  lemma Without(s: seq<Id>, j: nat)
    requires j < |s|
    ensures multiset(s[..j] + s[j + 1..]) == multiset(s) - multiset{s[j]}
  {
    assert s == s[..j] + [s[j]] + s[j + 1..];
  }

  lemma EntriesWithout(m: Contents, s: seq<Id>, j: nat)
    requires j < |s| && forall id :: id in s ==> id in m
    ensures forall id :: id in s[..j] + s[j + 1..] ==> id in m
    ensures multiset(Entries(m, s)) == multiset(Entries(m, s[..j] + s[j + 1..])) + multiset{Pair(s[j], m[s[j]])}
  {
    var s0, s1 := s[..j], s[j + 1..];
    assert s == s0 + ([s[j]] + s1);
    EntriesConcat(m, s0, s1);
    EntriesConcat(m, s0, [s[j]] + s1);
    EntriesConcat(m, [s[j]], s1);
    assert Entries(m, [s[j]]) == [Pair(s[j], m[s[j]])] by { assert Entries(m, []) == []; }
  }

  /** The same ids in another order give the same entries. */
  lemma {:induction false} EntriesPermuted(m: Contents, a: seq<Id>, b: seq<Id>)
    requires multiset(a) == multiset(b) && forall id :: id in a ==> id in m
    ensures forall id :: id in b ==> id in m
    ensures multiset(Entries(m, a)) == multiset(Entries(m, b))
    decreases |a|
  {
    forall id | id in b ensures id in m { assert id in multiset(b); }
    if |a| == 0 {
      assert |multiset(b)| == 0;
    } else {
      hide Entries;
      var i := |a| - 1;
      assert a[i] in multiset(b);
      var j :| 0 <= j < |b| && b[j] == a[i];
      Without(a, i);
      Without(b, j);
      EntriesWithout(m, a, i);
      EntriesWithout(m, b, j);
      EntriesPermuted(m, a[..i] + a[i + 1..], b[..j] + b[j + 1..]);
    }
  }

  /** Every id of a page is read with the last value put under it. */
  lemma PageReads(s: State, page: Page, id: Id)
    requires Inv(s) && id in s.index && id in page.refs && page.refs[id] == Some(s.index[id])
    ensures id in Meaning(s.files) && WorkerRead(s, page, id) == Ok(Meaning(s.files)[id])
  {
    hide ReplayIndex, Meaning, AllClean, Packed, SnapshotOk, ReadRecord, Encode;
    ReplayAgrees(s.files);
    ReadBack(s.files, s.index[id], Record(id, Meaning(s.files)[id], ACTIVE));
  }

  lemma {:induction false} CallsEntries(s: State, page: Page, done: seq<Pool.Done>, m: Contents)
    requires forall i :: 0 <= i < |done| ==> done[i].id in m && WorkerRead(s, page, done[i].id) == Ok(m[done[i].id])
    ensures forall id :: id in Pool.Ids(done) ==> id in m
    ensures Calls(s, page, done) == Entries(m, Pool.Ids(done))
    decreases |done|
  {
    hide WorkerRead;
    if |done| > 0 {
      CallsEntries(s, page, done[..|done| - 1], m);
      assert Pool.Ids(done)[..|done| - 1] == Pool.Ids(done[..|done| - 1]);
    }
  }

  /** Iterate at any point of a legal run, with any number of workers and at any interleaving: no
      read fails; the callbacks are handed entries of the plain map, with the last values put, for
      distinct ids of the page; a single worker hands them over in page order, up to the first
      callback that does not return (true, nil); and if Iterate returns and all of them did, they
      were handed exactly the requested slice of the map and there is no error. */
  lemma IterateLaw(max: nat, ops: seq<Op>, asc: bool, offset: int, limit: int, order: seq<Id>, workers: int,
                   steps: seq<Pool.Step>)
    requires max < TWO_TO_THE_63 && LegalRun(Fresh(max), ops)
    requires Legal(Run(Fresh(max), ops), OpPage(asc, offset, limit, order))
    requires MapPage(MapRun(map[], ops), asc, offset, limit).Ok?
    ensures var s, m := Run(Fresh(max), ops), MapRun(map[], ops);
      var ids := MapPage(m, asc, offset, limit).value;
      var result := GetRecords(s, asc, offset, limit, order).1;
      && result.Ok? && Distinct(ids) && (forall id :: id in ids ==> id in m)
      && (Pool.LegalRun(Pool.Init(ids, workers), steps) ==>
            var p := Pool.Run(Pool.Init(ids, workers), steps);
            ReadsOf(s, result.value, p) ==> Iterated(s, result.value, p, ids, m, workers))
  {
    hide Inv, Meaning, LegalRun, Run, MapRun, MapPage, GetRecords, KeysFit, KeysOk, AllIds, Distinct, Enumerates,
         Pool.LegalRun, Pool.Run, Pool.Init, ReadsOf, Iterated;
    var s, m := Run(Fresh(max), ops), MapRun(map[], ops);
    RunRefinesMap(max, ops);
    PageLaw(s, asc, offset, limit, order);
    PageRefines(s, asc, offset, limit, order);
    var ids := MapPage(m, asc, offset, limit).value;
    var page := GetRecords(s, asc, offset, limit, order).1.value;
    SliceDistinct(s, asc, offset, limit, order);
    forall id | id in ids ensures id in m && WorkerRead(s, page, id) == Ok(m[id]) { PageReads(s, page, id); }
    if Pool.LegalRun(Pool.Init(ids, workers), steps) {
      if ReadsOf(s, page, Pool.Run(Pool.Init(ids, workers), steps)) { Compose(s, page, ids, m, workers, steps); }
    }
  }

  /** What the workers of one Iterate have done. */
  ghost predicate Iterated(s: State, page: Page, p: Pool.Pool, ids: seq<Id>, m: Contents, workers: int)
    requires forall id :: id in ids ==> id in m
  {
    var done := Pool.Ids(p.handled);
    && (forall d :: d in p.handled ==> d.outcome.Ran?)
    && Distinct(done)
    && (forall id :: id in done ==> id in ids)
    && Calls(s, page, p.handled) == Entries(m, done)
    && (workers <= 1 ==> done <= ids)
    && (workers <= 1 ==> forall i :: 0 <= i < |p.handled| - 1 ==> p.handled[i].outcome == Pool.Ran(true, None))
    && (Pool.Final(p) && (forall i :: 0 <= i < |p.handled| ==> p.handled[i].outcome == Pool.Ran(true, None)) ==>
          p.err == None && multiset(Calls(s, page, p.handled)) == multiset(Entries(m, ids)))
  }

  lemma SliceDistinct(s: State, asc: bool, offset: int, limit: int, order: seq<Id>)
    requires KeysFit(s) && Enumerates(order, s.index.Keys) && GetRecords(s, asc, offset, limit, order).1.Ok?
    ensures Distinct(GetRecords(s, asc, offset, limit, order).1.value.keys)
    ensures var page := GetRecords(s, asc, offset, limit, order).1.value;
      forall k :: k in page.keys ==> k in s.index && k in page.refs && page.refs[k] == Some(s.index[k])
  {
    hide KeysFit, GetRecords, AllIds, KeysOk;
    PageLaw(s, asc, offset, limit, order);
    AllIdsListed(s, asc);
  }

  lemma Compose(s: State, page: Page, ids: seq<Id>, m: Contents, workers: int, steps: seq<Pool.Step>)
    requires Distinct(ids) && Pool.LegalRun(Pool.Init(ids, workers), steps)
    requires forall id :: id in ids ==> id in m && WorkerRead(s, page, id) == Ok(m[id])
    requires ReadsOf(s, page, Pool.Run(Pool.Init(ids, workers), steps))
    ensures Iterated(s, page, Pool.Run(Pool.Init(ids, workers), steps), ids, m, workers)
  {
    hide WorkerRead, Pool.LegalRun, Pool.Run, Pool.Init, Pool.Final, Entries, Calls, Distinct;
    var p := Pool.Run(Pool.Init(ids, workers), steps);
    Pool.ExactlyOnce(ids, workers, steps);
    var done := Pool.Ids(p.handled);
    forall i | 0 <= i < |p.handled|
      ensures p.handled[i].id in m && WorkerRead(s, page, p.handled[i].id) == Ok(m[p.handled[i].id])
    {
      assert done[i] in done;
    }
    CallsEntries(s, page, p.handled, m);
    if multiset(done) == multiset(ids) { EntriesPermuted(m, done, ids); }
    if workers <= 1 {
      OneWorker(ids, workers);
      Pool.SingleWorkerOrder(ids, steps);
    }
  }

  /** A worker count that is not positive becomes one. */
  lemma OneWorker(ids: seq<Id>, workers: int)
    requires workers <= 1
    ensures Pool.Init(ids, workers) == Pool.Init(ids, 1)
  {
    assert (if workers <= 0 then 1 else workers) == 1;
  }
}
