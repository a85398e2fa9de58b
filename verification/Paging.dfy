/** The page that `getRecords` selects (internal/store/store.go:378-420), and when the key list
    it is cut from is right. */
module Paging {
  import opened Bytes
  import opened Prelude
  import opened Record
  import opened Log
  import opened Sorting
  import opened Snapshot
  import opened StoreState
  import opened StoreLaws

  function Reverse(s: seq<Id>): (r: seq<Id>)
    ensures |r| == |s| && forall i :: 0 <= i < |s| ==> r[i] == s[|s| - 1 - i]
  {
    seq(|s|, i requires 0 <= i < |s| => s[|s| - 1 - i])
  }

  function Directed(s: seq<Id>, asc: bool): seq<Id> {
    if asc then s else Reverse(s)
  }

  /** The selected ids, in order, with the ref the index has for each. */
  datatype Page = Page(keys: seq<Id>, refs: map<Id, Option<Ref>>)

  function PageOf(keys: seq<Id>, index: Index): Page {
    Page(keys, map k | k in keys :: Lookup(index, k))
  }

  /** The key list is rebuilt by a map walk only when its length differs from the index's. */
  function PageKeys(s: State, asc: bool, order: seq<Id>): seq<Id> {
    Directed(Sort(if |s.index| != |s.keys| then order else s.keys), asc)
  }

  /** The page loop: it stops at `count` only, so a page that reaches past the end panics. */
  function Cut(keys: seq<Id>, offset: int, count: int, index: Index): Result<Page>
    requires count >= 0
  {
    if 0 <= offset && offset + count <= |keys| then Ok(PageOf(keys[offset..offset + count], index))
    else Err(IndexOutOfRange)
  }

  /** A limit that is not positive asks for as many ids as there are. */
  function PageCount(n: nat, limit: int): nat {
    if limit <= 0 then n else limit
  }

  function GetRecords(s: State, asc: bool, offset: int, limit: int, order: seq<Id>): (State, Result<Page>) {
    if offset >= |s.index| then (s, Ok(Page([], map[])))
    else
      var keys := PageKeys(s, asc, order);
      (s.(keys := keys), Cut(keys, offset, PageCount(|s.index|, limit), s.index))
  }

  /** The key list is a duplicate-free list of live ids. */
  ghost predicate KeysOk(s: State) {
    Distinct(s.keys) && forall k :: k in s.keys ==> k in s.index
  }

  /** All live ids in the requested direction. */
  ghost function AllIds(s: State, asc: bool): seq<Id> {
    Directed(SortedSet(s.index.Keys), asc)
  }

  /** What a caller can check: the key list is of another length than the index, and so will be
      rebuilt, or it lists the live ids. */
  ghost predicate KeysFit(s: State) {
    |s.keys| != |s.index| || Enumerates(s.keys, s.index.Keys)
  }

  /** A duplicate-free list of live ids fits: if it is as long as the index it has all of them. */
  lemma KeysOkFit(s: State)
    requires KeysOk(s)
    ensures KeysFit(s)
  {
    assert |s.index| == |s.index.Keys|;
    if |s.keys| == |s.index| { DistinctFull(s.keys, s.index.Keys); }
  }

  /** The listing has each live id once, in strictly increasing or strictly decreasing order. */
  lemma AllIdsListed(s: State, asc: bool)
    ensures |AllIds(s, asc)| == |s.index|
    ensures Enumerates(AllIds(s, asc), s.index.Keys)
    ensures forall i, j :: 0 <= i < j < |s.index| ==>
      if asc then Less(AllIds(s, asc)[i], AllIds(s, asc)[j]) else Less(AllIds(s, asc)[j], AllIds(s, asc)[i])
  {
    var ids := SortedSet(s.index.Keys);
    SortedIsDistinct(ids);
    EnumerationLength(ids, s.index.Keys);
    ReverseEnumerates(ids, s.index.Keys);
    assert |s.index| == |s.index.Keys|;
  }

  lemma PageKeysFit(s: State, asc: bool, order: seq<Id>)
    requires KeysFit(s) && Enumerates(order, s.index.Keys)
    ensures PageKeys(s, asc, order) == AllIds(s, asc)
  {
    SortIsSortedSet(if |s.index| != |s.keys| then order else s.keys, s.index.Keys);
  }

  lemma ReverseEnumerates(s: seq<Id>, S: set<Id>)
    requires Enumerates(s, S)
    ensures Enumerates(Reverse(s), S)
  {
    var r := Reverse(s);
    forall x ensures x in r <==> x in S {
      if x in S {
        assert x in s;
        var i :| 0 <= i < |s| && s[i] == x;
        assert r[|s| - 1 - i] == x;
      }
      if x in r {
        var i :| 0 <= i < |r| && r[i] == x;
        assert s[|s| - 1 - i] in s;
      }
    }
  }

  lemma CutLaw(keys: seq<Id>, offset: int, count: nat, index: Index)
    requires forall k :: k in keys ==> k in index
    ensures var page := Cut(keys, offset, count, index);
      && (page.Ok? <==> 0 <= offset && offset + count <= |keys|)
      && (page.Err? ==> page.error == IndexOutOfRange)
      && (page.Ok? ==>
            && page.value.keys == keys[offset..offset + count]
            && forall k :: k in page.value.keys ==>
                 k in index && k in page.value.refs && page.value.refs[k] == Some(index[k]))
  {
    if 0 <= offset && offset + count <= |keys| {
      assert forall k :: k in keys[offset..offset + count] ==> k in keys;
    }
  }

  /** With a key list that fits, a page is the requested slice of all live ids, sorted in the
      requested direction, with the live ref of each: `limit` ids from `offset` on, or with a limit
      that is not positive as many ids as there are. It is delivered exactly when the slice lies
      inside the list, so without a limit only from offset 0; past the last id it is empty. The key
      list is left as the whole listing, in that direction, unless the page is past the end. */
  lemma PageLaw(s: State, asc: bool, offset: int, limit: int, order: seq<Id>)
    requires KeysFit(s) && Enumerates(order, s.index.Keys)
    ensures |AllIds(s, asc)| == |s.index|
    ensures var (s', page) := GetRecords(s, asc, offset, limit, order);
      var n := |s.index|;
      && s' == s.(keys := s'.keys)
      && KeysFit(s') && (KeysOk(s) ==> KeysOk(s'))
      && (if offset >= n then s' == s else s'.keys == AllIds(s, asc))
      && (offset >= n ==> page == Ok(Page([], map[])))
      && (0 <= offset < n && limit > 0 ==> (page.Ok? <==> offset + limit <= n))
      && (offset < n && limit <= 0 ==> (page.Ok? <==> offset == 0))
      && (offset < 0 ==> page.Err?)
      && (page.Err? ==> page.error == IndexOutOfRange)
      && (page.Ok? && offset < n ==>
            && page.value.keys == (if limit > 0 then AllIds(s, asc)[offset..offset + limit] else AllIds(s, asc))
            && forall k :: k in page.value.keys ==>
                 k in s.index && k in page.value.refs && page.value.refs[k] == Some(s.index[k]))
  {
    hide AllIds, Distinct, Less, Cut, GetRecords, KeysOk, KeysFit, Enumerates;
    AllIdsListed(s, asc);
    PageCut(s, asc, offset, limit, order);
    if offset < |s.index| {
      CutLaw(AllIds(s, asc), offset, if limit > 0 then limit else |s.index|, s.index);
      assert AllIds(s, asc)[0..|s.index|] == AllIds(s, asc);
      AllIdsKept(s, asc);
    }
  }

  lemma PageCut(s: State, asc: bool, offset: int, limit: int, order: seq<Id>)
    requires KeysFit(s) && Enumerates(order, s.index.Keys)
    ensures GetRecords(s, asc, offset, limit, order) ==
      if offset >= |s.index| then (s, Ok(Page([], map[])))
      else
        (s.(keys := AllIds(s, asc)), Cut(AllIds(s, asc), offset, if limit > 0 then limit else |s.index|, s.index))
  {
    PageKeysFit(s, asc, order);
    hide AllIds, Cut, PageKeys;
  }

  lemma AllIdsKept(s: State, asc: bool)
    ensures KeysFit(s.(keys := AllIds(s, asc))) && KeysOk(s.(keys := AllIds(s, asc)))
  {
    hide AllIds, Less;
    AllIdsListed(s, asc);
  }

  // ---- When a page is right ----

  /** The slice lies inside the list of n ids. */
  predicate Inside(n: nat, offset: int, limit: int) {
    if limit > 0 then 0 <= offset && offset + limit <= n else offset == 0
  }

  /** The page holds the ids that the same slice of all live ids holds. */
  ghost predicate PageRight(s: State, asc: bool, offset: int, limit: int, order: seq<Id>)
    requires Inside(|s.index|, offset, limit)
  {
    AllIdsListed(s, asc);
    var page := GetRecords(s, asc, offset, limit, order).1;
    page.Ok? && page.value.keys == if limit > 0 then AllIds(s, asc)[offset..offset + limit] else AllIds(s, asc)
  }

  /** How many entries of the list are smaller than x. */
  function Below(s: seq<Id>, x: Id): (n: nat)
    ensures n <= |s|
    decreases |s|
  {
    if |s| == 0 then 0 else Below(s[1..], x) + if Less(s[0], x) then 1 else 0
  }

  /** x occurs in the list, and sorting would put one of its occurrences at place i. */
  predicate AtRank(s: seq<Id>, x: Id, i: int) {
    Below(s, x) <= i < Below(s, x) + multiset(s)[x]
  }

  lemma {:induction false} BelowInsert(y: Id, s: seq<Id>, x: Id)
    ensures Below(Insert(y, s), x) == Below([y] + s, x)
    decreases |s|
  {
    assert ([y] + s)[1..] == s;
    if |s| > 0 && Less(s[0], y) {
      BelowInsert(y, s[1..], x);
      assert ([y] + s[1..])[1..] == s[1..];
      assert Insert(y, s)[1..] == Insert(y, s[1..]);
    }
  }

  lemma {:induction false} BelowSort(s: seq<Id>, x: Id)
    ensures Below(Sort(s), x) == Below(s, x)
    decreases |s|
  {
    if |s| > 0 {
      BelowSort(s[1..], x);
      BelowInsert(s[0], Sort(s[1..]), x);
      assert ([s[0]] + Sort(s[1..]))[1..] == Sort(s[1..]);
    }
  }

  /** In a sorted list x occupies exactly the places from Below on, one for each occurrence. */
  lemma {:induction false} SortedRank(r: seq<Id>, x: Id, i: nat)
    requires Sorted(r) && i < |r|
    ensures r[i] == x <==> AtRank(r, x, i)
    decreases |r|
  {
    var tail := r[1..];
    assert r == [r[0]] + tail;
    assert multiset(r) == multiset{r[0]} + multiset(tail);
    if |tail| > 0 { SortedRank(tail, x, if i == 0 then 0 else i - 1); }
    LessIrreflexive(x);
    if !Less(r[0], x) {
      NoneBelow(tail, x, r[0]);
      if r[0] != x { NoneEqual(tail, x, r[0]); }
    }
  }

  /** Behind an entry that is not below x no entry of a sorted list is. */
  lemma {:induction false} NoneBelow(s: seq<Id>, x: Id, y: Id)
    requires !Less(y, x) && forall i :: 0 <= i < |s| ==> !Less(s[i], y)
    ensures Below(s, x) == 0
    decreases |s|
  {
    if |s| > 0 {
      NoneBelow(s[1..], x, y);
      LessTotal(s[0], y);
      if Less(s[0], x) { LessTransitiveWeak(y, s[0], x); }
    }
  }

  lemma LessTransitiveWeak(y: Id, z: Id, x: Id)
    requires !Less(z, y) && Less(z, x)
    ensures Less(y, x)
  {
    LessTotal(z, y);
    if Less(y, z) { LessTransitive(y, z, x); }
  }

  lemma NoneEqual(s: seq<Id>, x: Id, y: Id)
    requires !Less(y, x) && y != x && forall i :: 0 <= i < |s| ==> !Less(s[i], y)
    ensures multiset(s)[x] == 0
  {
    LessTotal(x, y);
    assert x !in s;
  }

  /** Where the i-th id of a listing in this direction stands in ascending order. */
  function Place(n: nat, i: nat, asc: bool): int {
    if asc then i else n - 1 - i
  }

  lemma IdExact(s: State, asc: bool, order: seq<Id>, i: nat)
    requires Enumerates(order, s.index.Keys) && i < |s.index|
    ensures |PageKeys(s, asc, order)| == |AllIds(s, asc)| == |s.index|
    ensures PageKeys(s, asc, order)[i] == AllIds(s, asc)[i] <==>
      |s.keys| != |s.index| || AtRank(s.keys, AllIds(s, asc)[i], Place(|s.index|, i, asc))
  {
    hide Enumerates, AllIds, Less, Sort, Sorted, AtRank;
    AllIdsListed(s, asc);
    if |s.index| != |s.keys| {
      PageKeysFit(s, asc, order);
    } else {
      SortLength(s.keys);
      PlaceExact(s.keys, asc, AllIds(s, asc)[i], i);
    }
  }

  lemma PlaceExact(keys: seq<Id>, asc: bool, x: Id, i: nat)
    requires i < |keys|
    ensures |Directed(Sort(keys), asc)| == |keys|
    ensures Directed(Sort(keys), asc)[i] == x <==> AtRank(keys, x, Place(|keys|, i, asc))
  {
    hide Sort, Directed, AtRank, Place;
    SortLength(keys);
    DirectedAt(Sort(keys), asc, i);
    SortRank(keys, x, Place(|keys|, i, asc));
  }

  lemma DirectedAt(s: seq<Id>, asc: bool, i: nat)
    requires i < |s|
    ensures |Directed(s, asc)| == |s| && 0 <= Place(|s|, i, asc) < |s|
    ensures Directed(s, asc)[i] == s[Place(|s|, i, asc)]
  {
  }

  lemma SortRank(keys: seq<Id>, x: Id, j: nat)
    requires j < |keys| == |Sort(keys)|
    ensures Sort(keys)[j] == x <==> AtRank(keys, x, j)
  {
    hide Sort, Sorted, Below;
    SortSorted(keys);
    SortedRank(Sort(keys), x, j);
    BelowSort(keys, x);
  }

  lemma SortLength(s: seq<Id>)
    ensures |Sort(s)| == |s|
  {
    assert |Sort(s)| == |multiset(Sort(s))| == |multiset(s)| == |s|;
  }

  /** Whatever the key list holds, a page inside the list is delivered, and it is right if and
      only if the list is rebuilt or has each id of the page at the place it has among the live
      ids: as many smaller entries as there are smaller ids, give or take its repetitions. */
  lemma SliceExact(s: State, asc: bool, offset: nat, limit: int, order: seq<Id>)
    requires offset < |s.index| && Inside(|s.index|, offset, limit)
    requires Enumerates(order, s.index.Keys)
    ensures |AllIds(s, asc)| == |s.index|
    ensures GetRecords(s, asc, offset, limit, order).1.Ok?
    ensures PageRight(s, asc, offset, limit, order) <==>
      || |s.keys| != |s.index|
      || forall i :: offset <= i < |s.index| && (limit > 0 ==> i < offset + limit) ==>
           AtRank(s.keys, AllIds(s, asc)[i], Place(|s.index|, i, asc))
  {
    hide AllIds, AtRank, Enumerates, PageKeys, Place, Less;
    AllIdsListed(s, asc);
    var end := if limit > 0 then offset + limit else |s.index|;
    IdExact(s, asc, order, 0);
    SlicePage(s, asc, offset, limit, order);
    hide PageRight;
    forall i | offset <= i < end
      ensures PageKeys(s, asc, order)[i] == AllIds(s, asc)[i] <==>
        |s.keys| != |s.index| || AtRank(s.keys, AllIds(s, asc)[i], Place(|s.index|, i, asc))
    {
      IdExact(s, asc, order, i);
    }
    SlicesEqual(PageKeys(s, asc, order), AllIds(s, asc), offset, end);
  }

  lemma SlicePage(s: State, asc: bool, offset: nat, limit: int, order: seq<Id>)
    requires offset < |s.index| && Inside(|s.index|, offset, limit)
    requires |PageKeys(s, asc, order)| == |AllIds(s, asc)| == |s.index|
    ensures GetRecords(s, asc, offset, limit, order).1.Ok?
    ensures var end := if limit > 0 then offset + limit else |s.index|;
      PageRight(s, asc, offset, limit, order) <==> PageKeys(s, asc, order)[offset..end] == AllIds(s, asc)[offset..end]
  {
    hide AllIds, Enumerates, PageKeys, Less, Cut;
    TakeSlice(s, asc, offset, limit, order);
    hide GetRecords;
    assert AllIds(s, asc)[0..|s.index|] == AllIds(s, asc);
  }

  lemma TakeSlice(s: State, asc: bool, offset: nat, limit: int, order: seq<Id>)
    requires offset < |s.index| && Inside(|s.index|, offset, limit) && |PageKeys(s, asc, order)| == |s.index|
    ensures var page := GetRecords(s, asc, offset, limit, order).1;
      page.Ok? &&
      page.value.keys == PageKeys(s, asc, order)[offset..if limit > 0 then offset + limit else |s.index|]
  {
    hide PageKeys;
  }

  lemma SlicesEqual(a: seq<Id>, b: seq<Id>, i: nat, j: nat)
    requires i <= j <= |a| == |b|
    ensures a[i..j] == b[i..j] <==> forall k :: i <= k < j ==> a[k] == b[k]
  {
    if a[i..j] == b[i..j] {
      forall k | i <= k < j ensures a[k] == b[k] { assert a[i..j][k - i] == b[i..j][k - i]; }
    }
  }

  /** In either direction all pages are right if and only if the key list fits, and the full
      listing alone tells. */
  lemma PageExact(s: State, asc: bool, order: seq<Id>)
    requires |s.index| > 0 && Enumerates(order, s.index.Keys)
    ensures PageRight(s, asc, 0, 0, order) <==> KeysFit(s)
    ensures (forall offset: int, limit: int :: Inside(|s.index|, offset, limit) ==>
              PageRight(s, asc, offset, limit, order)) <==> KeysFit(s)
  {
    FullExact(s, asc, order);
    if KeysFit(s) {
      hide PageRight, KeysFit, Enumerates;
      forall offset: int, limit: int | Inside(|s.index|, offset, limit)
        ensures PageRight(s, asc, offset, limit, order)
      {
        FitRight(s, asc, offset, limit, order);
      }
    } else {
      assert Inside(|s.index|, 0, 0);
    }
  }

  lemma FitRight(s: State, asc: bool, offset: int, limit: int, order: seq<Id>)
    requires |s.index| > 0 && Enumerates(order, s.index.Keys) && KeysFit(s)
    requires Inside(|s.index|, offset, limit)
    ensures PageRight(s, asc, offset, limit, order)
  {
    hide KeysFit, Enumerates, GetRecords, AllIds;
    PageLaw(s, asc, offset, limit, order);
  }

  lemma FullExact(s: State, asc: bool, order: seq<Id>)
    requires |s.index| > 0 && Enumerates(order, s.index.Keys)
    ensures PageRight(s, asc, 0, 0, order) <==> KeysFit(s)
  {
    if KeysFit(s) {
      FitRight(s, asc, 0, 0, order);
    } else {
      FullPage(s, asc, order);
      hide PageRight;
      if PageRight(s, asc, 0, 0, order) {
        DirectedOnce(Sort(s.keys), SortedSet(s.index.Keys), asc);
        SortExact(s.keys, s.index.Keys);
        assert false;
      }
    }
  }

  /** The full listing from a key list of the index's length is that list, sorted. */
  lemma FullPage(s: State, asc: bool, order: seq<Id>)
    requires |s.index| > 0 && |s.keys| == |s.index|
    ensures PageRight(s, asc, 0, 0, order) <==> Directed(Sort(s.keys), asc) == AllIds(s, asc)
  {
    hide AllIds, Directed, Sort, Enumerates;
    var keys := Directed(Sort(s.keys), asc);
    DirectedLength(s.keys, asc);
    AllIdsListed(s, asc);
    CutAll(keys, s.index);
    hide Cut;
    assert AllIds(s, asc)[0..|s.index|] == AllIds(s, asc);
  }

  lemma DirectedLength(keys: seq<Id>, asc: bool)
    ensures |Directed(Sort(keys), asc)| == |keys|
  {
    SortLength(keys);
  }

  lemma CutAll(keys: seq<Id>, index: Index)
    ensures Cut(keys, 0, |keys|, index).Ok? && Cut(keys, 0, |keys|, index).value.keys == keys
  {
    assert keys[0..|keys|] == keys;
  }

  lemma DirectedOnce(a: seq<Id>, b: seq<Id>, asc: bool)
    requires Directed(a, asc) == Directed(b, asc)
    ensures a == b
  {
    if !asc {
      assert |a| == |Reverse(a)| == |Reverse(b)| == |b|;
      forall i | 0 <= i < |a| ensures a[i] == b[i] {
        assert Reverse(a)[|a| - 1 - i] == Reverse(b)[|a| - 1 - i];
      }
    }
  }

  /** Sorting gives the sorted enumeration of a set only on its enumerations. */
  lemma SortExact(used: seq<Id>, S: set<Id>)
    ensures Sort(used) == SortedSet(S) <==> Enumerates(used, S)
  {
    if Enumerates(used, S) { SortIsSortedSet(used, S); }
    if Sort(used) == SortedSet(S) {
      SortedIsDistinct(Sort(used));
      DistinctMultiset(Sort(used), used);
      assert forall x :: x in used <==> x in multiset(used);
      assert forall x :: x in Sort(used) <==> x in multiset(Sort(used));
    }
  }
}
