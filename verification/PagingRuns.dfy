/** Pages along runs, and a run after which they are wrong. */
module PagingRuns {
  import opened Bytes
  import opened Prelude
  import opened Record
  import opened Log
  import opened Sorting
  import opened Directory
  import opened Snapshot
  import opened StoreState
  import opened StoreLaws
  import opened CompactLaws
  import opened Paging
  import opened StoreRuns
  import opened KeyRuns

  /** Page correctness along runs: on such a run every page call is legal, whatever pages were
      asked for before; it delivers the requested slice of the sorted ids of the map, with the
      ref under which each id's value is, and panics exactly if the slice leaves the list. */
  lemma RunPage(max: nat, ops: seq<Op>, asc: bool, offset: int, limit: int, order: seq<Id>)
    requires max < TWO_TO_THE_63 && LegalRun(Fresh(max), ops) && GoodReopens(Fresh(max), ops)
    requires Enumerates(order, Run(Fresh(max), ops).index.Keys)
    ensures var s := Run(Fresh(max), ops);
      var page := GetRecords(s, asc, offset, limit, order).1;
      && Legal(s, OpPage(asc, offset, limit, order))
      && (if page.Ok? then Ok(page.value.keys) else Err(page.error)) == MapPage(MapRun(map[], ops), asc, offset, limit)
      && (page.Ok? && offset < |s.index| ==> forall k :: k in page.value.keys ==>
            k in s.index && k in page.value.refs && page.value.refs[k] == Some(s.index[k]))
  {
    hide Inv, Meaning, LegalRun, GoodReopens, MapRun, Run, KeysOk, KeysFit, GetRecords, Enumerates, MapPage, AllIds;
    var s := Run(Fresh(max), ops);
    RunRefinesMap(max, ops);
    RunKeysOk(max, ops);
    KeysOkFit(s);
    PageLaw(s, asc, offset, limit, order);
    PageRefines(s, asc, offset, limit, order);
  }

  // ---- A reopening that breaks the pages ----

  lemma ScanTwice(r: Record)
    requires Valid(r)
    ensures Scan(Encode(r) + Encode(r)) == [r, r]
  {
    hide Encode, Parse, Scan;
    assert Encode(r) + Encode(r) == Encode(r) + (Encode(r) + []);
    ScanFirst(r, Encode(r) + []);
    ScanFirst(r, []);
    EmptyClean();
  }

  lemma FoldTwice(r: Record)
    requires r.status == ACTIVE
    ensures FoldKeys([], [r, r]) == [r.id, r.id]
    ensures FoldIndex(map[], [r, r], 0).Keys == {r.id}
  {
    var rs := [r, r];
    assert rs[..1] == [r] && rs[..1][..0] == [];
    assert FoldKeys([], [r]) == [r.id];
    assert FoldIndex(map[], [r], 0).Keys == {r.id};
  }

  /** Replaying two records of one id lists it twice. */
  lemma ReplayTwice(s: State, r: Record)
    requires Valid(r) && r.status == ACTIVE
    requires s.files == [Encode(r) + Encode(r)] && s.snapshot == None
    ensures Reopen(s).Ok? && Reopen(s).value.keys == [r.id, r.id]
    ensures Reopen(s).value.index.Keys == {r.id}
  {
    hide Encode, Scan, FoldIndex, FoldKeys, Written, Loaded, Names, FileNames;
    LoadOrder(s.files);
    ScanTwice(r);
    FoldTwice(r);
  }

  /** Two Puts of one id that fit the first segment leave its record there twice. */
  lemma TwoPuts(max: nat, id: Id, data: Bytes, o0: seq<Id>, o1: seq<Id>)
    requires max < TWO_TO_THE_63 && Encodable(id, data) && 2 * Size(Record(id, data, ACTIVE)) <= max
    requires Enumerates(o0, {}) && Enumerates(o1, {id})
    ensures var ops, b := [OpPut(id, data, o0), OpPut(id, data, o1)], Encode(Record(id, data, ACTIVE));
      && LegalRun(Fresh(max), ops)
      && var s := Run(Fresh(max), ops);
      && Inv(s) && Bounded(s)
      && s.files == [b + b] && s.snapshot == None && !s.stale
  {
    hide Inv, Meaning, Encode, LegalRun, Run;
    var p0, p1 := OpPut(id, data, o0), OpPut(id, data, o1);
    assert [] + [p0] == [p0] && [p0] + [p1] == [p0, p1];
    FreshInv(max);
    RunStart(Fresh(max));
    PutLaw(Fresh(max), id, data, o0);
    FirstPut(max, id, data, o0);
    RunStep(Fresh(max), [], p0);
    var s := Run(Fresh(max), [p0]);
    PutLaw(s, id, data, o1);
    SecondPut(s, id, data, o1);
    RunStep(Fresh(max), [p0], p1);
  }

  lemma FirstPut(max: nat, id: Id, data: Bytes, order: seq<Id>)
    requires Encodable(id, data) && Size(Record(id, data, ACTIVE)) <= max && WalkOrder(Fresh(max), order)
    ensures var s := Put(Fresh(max), id, data, order).0;
      && s.files == [Encode(Record(id, data, ACTIVE))] && s.index.Keys == {id}
      && s.snapshot == None && !s.stale && s.maxSegment == max && Bounded(s)
  {
    hide Encode;
    var s := Put(Fresh(max), id, data, order).0;
    assert [] + Encode(Record(id, data, ACTIVE)) == Encode(Record(id, data, ACTIVE));
    assert s.index.Keys == {id};
    SingleBounded(s, id);
  }

  lemma SecondPut(s: State, id: Id, data: Bytes, order: seq<Id>)
    requires Encodable(id, data) && 2 * Size(Record(id, data, ACTIVE)) <= s.maxSegment && WalkOrder(s, order)
    requires s.files == [Encode(Record(id, data, ACTIVE))] && s.index.Keys == {id} && s.snapshot == None && !s.stale
    ensures var s', b := Put(s, id, data, order).0, Encode(Record(id, data, ACTIVE));
      s'.files == [b + b] && s'.snapshot == None && !s'.stale && Bounded(s')
  {
    hide Encode;
    var s' := Put(s, id, data, order).0;
    assert s'.index.Keys == {id};
    SingleBounded(s', id);
  }

  lemma SingleBounded(s: State, id: Id)
    requires s.index.Keys == {id} && |s.files| == 1
    ensures Bounded(s)
  {
    assert |s.index| == |s.index.Keys|;
  }

  /** A reachable failure of paging: after two Puts of one id, a reopening and a Put of another
      id, the key list is as long as the index but lists the first id twice: in either direction
      the full page omits the second id. */
  lemma PageAfterReopen(max: nat, id: Id, data: Bytes, id': Id, data': Bytes, o0: seq<Id>, o1: seq<Id>, o2: seq<Id>,
                        asc: bool)
    requires max < TWO_TO_THE_63 && Encodable(id, data) && 2 * Size(Record(id, data, ACTIVE)) <= max
    requires Encodable(id', data') && id' != id
    requires Enumerates(o0, {}) && Enumerates(o1, {id}) && Enumerates(o2, {id, id'})
    ensures var ops := [OpPut(id, data, o0), OpPut(id, data, o1), OpReopen, OpPut(id', data', o1)];
      && LegalRun(Fresh(max), ops)
      && var s := Run(Fresh(max), ops);
      && s.index.Keys == {id, id'}
      && s.keys == [id, id]
      && !KeysFit(s)
      && !PageRight(s, asc, 0, 0, o2)
  {
    hide Encode, Inv, Meaning, LegalRun, Run, Put, Reopen, Bounded, PageRight, SnapshotSettles;
    var p0, p1, p2 := OpPut(id, data, o0), OpPut(id, data, o1), OpPut(id', data', o1);
    assert [p0, p1] + [OpReopen] == [p0, p1, OpReopen] && [p0, p1, OpReopen] + [p2] == [p0, p1, OpReopen, p2];
    TwoPuts(max, id, data, o0, o1);
    var s := Run(Fresh(max), [p0, p1]);
    ReopenOnce(s, Record(id, data, ACTIVE));
    RunStep(Fresh(max), [p0, p1], OpReopen);
    var s1 := Run(Fresh(max), [p0, p1, OpReopen]);
    InvFiles(s1);
    RunStep(Fresh(max), [p0, p1, OpReopen], p2);
    OtherPut(s1, id, id', data', o1, o2, asc);
  }

  lemma ReopenOnce(s: State, r: Record)
    requires Inv(s) && Bounded(s) && !s.stale && s.snapshot == None && s.files == [Encode(r) + Encode(r)]
    requires Valid(r) && r.status == ACTIVE
    ensures Legal(s, OpReopen)
    ensures var s1 := Reopen(s).value; Inv(s1) && Bounded(s1) && s1.keys == [r.id, r.id] && s1.index.Keys == {r.id}
  {
    hide Encode, Inv, Reopen, SnapshotSettles;
    ReplayTwice(s, r);
    FreshSnapshotSettles(s);
    RecoveryLaw(s);
  }

  lemma OtherPut(s: State, id: Id, id': Id, data': Bytes, o1: seq<Id>, o2: seq<Id>, asc: bool)
    requires Inv(s) && Bounded(s) && s.keys == [id, id] && s.index.Keys == {id}
    requires Encodable(id', data') && id' != id && Enumerates(o1, {id}) && Enumerates(o2, {id, id'})
    ensures var s' := Put(s, id', data', o1).0;
      s'.index.Keys == {id, id'} && s'.keys == [id, id] && !KeysFit(s') && !PageRight(s', asc, 0, 0, o2)
  {
    hide Encode, Inv, Bounded, AppendRecord, PageRight;
    InvFiles(s);
    PutLaw(s, id', data', o1);
    AppendOnly(s, Record(id', data', ACTIVE), o1);
    var s' := Put(s, id', data', o1).0;
    assert s'.keys == [id, id];
    assert s'.index.Keys == {id, id'};
    assert |s'.index| == |s'.index.Keys| == 2;
    PageExact(s', asc, o2);
  }
}
