/** Byte-wise string order and `sort.Strings`, as `getRecords`, `Compact` and `loadSegments`
    use them. The library sort is modelled by insertion; what the store relies on is that the
    sorted enumeration of a set is unique, so any correct sort gives it. */
module Sorting {
  import opened Bytes

  /** Go's `<` on strings: lexicographic on bytes. */
  predicate Less(a: Bytes, b: Bytes)
    decreases |a|
  {
    |b| > 0 && (|a| == 0 || a[0] < b[0] || (a[0] == b[0] && Less(a[1..], b[1..])))
  }

  /** Less at the k-th byte: the strings agree before it, and there the first one ends or has the
      smaller byte. */
  predicate LessAt(a: Bytes, b: Bytes, k: nat) {
    k <= |a| && k < |b| && a[..k] == b[..k] && (k == |a| || a[k] < b[k])
  }

  /** The order is decided at the first difference. */
  lemma {:induction false} LessExact(a: Bytes, b: Bytes)
    ensures Less(a, b) <==> exists k: nat :: LessAt(a, b, k)
    decreases |a|
  {
    if |a| == 0 || |b| == 0 || a[0] != b[0] {
      if Less(a, b) { assert LessAt(a, b, 0); }
      if k: nat :| LessAt(a, b, k) {
        if k > 0 { assert a[..k][0] == b[..k][0]; }
      }
    } else {
      LessExact(a[1..], b[1..]);
      assert a == [a[0]] + a[1..] && b == [b[0]] + b[1..];
      if k: nat :| LessAt(a[1..], b[1..], k) {
        assert a[..k + 1] == [a[0]] + a[1..][..k] && b[..k + 1] == [b[0]] + b[1..][..k];
        assert LessAt(a, b, k + 1);
      }
      if k: nat :| LessAt(a, b, k) {
        assert k > 0;
        assert a[1..][..k - 1] == a[..k][1..] && b[1..][..k - 1] == b[..k][1..];
        assert LessAt(a[1..], b[1..], k - 1);
      }
    }
  }

  lemma {:induction false} LessTransitive(a: Bytes, b: Bytes, c: Bytes)
    requires Less(a, b) && Less(b, c)
    ensures Less(a, c)
    decreases |a|
  {
    if |a| > 0 && a[0] == b[0] == c[0] { LessTransitive(a[1..], b[1..], c[1..]); }
  }

  lemma {:induction false} LessIrreflexive(a: Bytes)
    ensures !Less(a, a)
    decreases |a|
  {
    if |a| > 0 { LessIrreflexive(a[1..]); }
  }

  lemma {:induction false} LessTotal(a: Bytes, b: Bytes)
    ensures a == b || Less(a, b) || Less(b, a)
    decreases |a|
  {
    if |a| > 0 && |b| > 0 && a[0] == b[0] {
      LessTotal(a[1..], b[1..]);
      assert a == [a[0]] + a[1..] && b == [b[0]] + b[1..];
    }
  }

  ghost predicate Distinct(s: seq<Bytes>) {
    forall i, j :: 0 <= i < j < |s| ==> s[i] != s[j]
  }

  lemma SomeMember(s: seq<Bytes>)
    ensures s == [] || exists x :: x in s
  {
    if s != [] { assert s[0] in s; }
  }

  lemma DistinctWithout(s: seq<Bytes>, i: nat)
    requires Distinct(s) && i < |s|
    ensures var rest := s[..i] + s[i + 1..];
      Distinct(rest) && forall x :: x in rest <==> x in s && x != s[i]
  {
    var a, b := s[..i], s[i + 1..];
    assert s == a + [s[i]] + b;
    forall x | x in a + b ensures x in s && x != s[i] {
      if x in a { var j :| 0 <= j < |a| && a[j] == x; assert s[j] == x; }
      else { var j :| 0 <= j < |b| && b[j] == x; assert s[i + 1 + j] == x; }
    }
  }

  /** s lists every element of S exactly once. */
  ghost predicate Enumerates(s: seq<Bytes>, S: set<Bytes>) {
    Distinct(s) && forall x :: x in s <==> x in S
  }

  ghost predicate StrictlySorted(s: seq<Bytes>) {
    forall i, j :: 0 <= i < j < |s| ==> Less(s[i], s[j])
  }

  ghost predicate SortedEnumeration(s: seq<Bytes>, S: set<Bytes>) {
    StrictlySorted(s) && forall x :: x in s <==> x in S
  }

  ghost predicate Sorted(s: seq<Bytes>) {
    forall i, j :: 0 <= i < j < |s| ==> !Less(s[j], s[i])
  }

  function Insert(x: Bytes, s: seq<Bytes>): (r: seq<Bytes>)
    ensures multiset(r) == multiset(s) + multiset{x}
    decreases |s|
  {
    if |s| == 0 || !Less(s[0], x) then [x] + s
    else
      assert s == [s[0]] + s[1..];
      [s[0]] + Insert(x, s[1..])
  }

  /** sort.Strings. */
  function Sort(s: seq<Bytes>): (r: seq<Bytes>)
    ensures multiset(r) == multiset(s)
    decreases |s|
  {
    if |s| == 0 then []
    else
      assert s == [s[0]] + s[1..];
      Insert(s[0], Sort(s[1..]))
  }

  lemma {:induction false} InsertSorted(x: Bytes, s: seq<Bytes>)
    requires Sorted(s)
    ensures Sorted(Insert(x, s))
    decreases |s|
  {
    var r := Insert(x, s);
    if |s| == 0 {
    } else if !Less(s[0], x) {
      forall j | 0 < j < |r| ensures !Less(r[j], x) {
        if Less(r[j], x) {
          if j > 1 { LessTotal(s[j - 1], s[0]); }
          if Less(s[0], s[j - 1]) { LessTransitive(s[0], s[j - 1], x); }
          assert false;
        }
      }
    } else {
      InsertSorted(x, s[1..]);
      LessAsym(s[0], x);
      var t := Insert(x, s[1..]);
      forall j | 0 <= j < |t| ensures !Less(t[j], s[0]) {
        assert t[j] in multiset(t);
        if t[j] != x {
          assert t[j] in multiset(s[1..]);
          var k :| 0 <= k < |s[1..]| && s[1..][k] == t[j];
          assert s[k + 1] == t[j];
        }
      }
    }
  }

  lemma LessAsym(a: Bytes, b: Bytes)
    requires Less(a, b)
    ensures !Less(b, a)
  {
    if Less(b, a) {
      LessTransitive(a, b, a);
      LessIrreflexive(a);
    }
  }

  lemma {:induction false} SortSorted(s: seq<Bytes>)
    ensures Sorted(Sort(s))
    decreases |s|
  {
    if |s| > 0 {
      SortSorted(s[1..]);
      InsertSorted(s[0], Sort(s[1..]));
    }
  }

  lemma DistinctMultiset(s: seq<Bytes>, r: seq<Bytes>)
    requires Distinct(s) && multiset(r) == multiset(s)
    ensures Distinct(r)
  {
    forall i, j | 0 <= i < j < |r| ensures r[i] != r[j] {
      if r[i] == r[j] {
        assert r == r[..i] + [r[i]] + r[i + 1..j] + [r[j]] + r[j + 1..];
        assert multiset(s)[r[i]] >= 2;
        DistinctOnce(s, r[i]);
      }
    }
  }

  lemma {:induction false} DistinctOnce(s: seq<Bytes>, x: Bytes)
    requires Distinct(s)
    ensures multiset(s)[x] <= 1
    decreases |s|
  {
    if |s| > 0 {
      assert s == [s[0]] + s[1..];
      DistinctOnce(s[1..], x);
      assert s[0] !in s[1..];
    }
  }

  lemma TwiceCounted(s: seq<Bytes>, i: nat, j: nat)
    requires i < j < |s| && s[i] == s[j]
    ensures multiset(s)[s[i]] >= 2
  {
    assert s == s[..i] + [s[i]] + s[i + 1..j] + [s[j]] + s[j + 1..];
  }

  /** Sorting any enumeration of a set gives the sorted enumeration. */
  lemma SortEnumerates(s: seq<Bytes>, S: set<Bytes>)
    requires Enumerates(s, S)
    ensures SortedEnumeration(Sort(s), S)
  {
    var r := Sort(s);
    SortSorted(s);
    DistinctMultiset(s, r);
    forall i, j | 0 <= i < j < |r| ensures Less(r[i], r[j]) { LessTotal(r[i], r[j]); }
    forall x ensures x in r <==> x in S {
      assert x in r <==> x in multiset(r);
      assert x in s <==> x in multiset(s);
    }
  }

  /** A set has one sorted enumeration. */
  lemma {:induction false} SortedUnique(a: seq<Bytes>, b: seq<Bytes>, S: set<Bytes>)
    requires SortedEnumeration(a, S) && SortedEnumeration(b, S)
    ensures a == b
    decreases |a|
  {
    assert |b| > 0 ==> b[0] in S;
    if |a| > 0 {
      assert a[0] in b;
      FirstLeast(a, b, S);
      FirstLeast(b, a, S);
      LessIrreflexive(a[0]);
      if a[0] != b[0] { LessAsym(a[0], b[0]); }
      TailEnumerates(a, S);
      TailEnumerates(b, S);
      SortedUnique(a[1..], b[1..], S - {a[0]});
      assert a == [a[0]] + a[1..] && b == [b[0]] + b[1..];
    }
  }

  lemma FirstLeast(a: seq<Bytes>, b: seq<Bytes>, S: set<Bytes>)
    requires SortedEnumeration(a, S) && SortedEnumeration(b, S) && |a| > 0 && |b| > 0
    ensures a[0] == b[0] || Less(a[0], b[0])
  {
    assert b[0] in S && b[0] in a;
  }

  lemma TailEnumerates(a: seq<Bytes>, S: set<Bytes>)
    requires SortedEnumeration(a, S) && |a| > 0
    ensures SortedEnumeration(a[1..], S - {a[0]})
  {
    LessIrreflexive(a[0]);
    forall x ensures x in a[1..] <==> x in S - {a[0]} {
      assert x in a <==> x == a[0] || x in a[1..] by { assert a == [a[0]] + a[1..]; }
      if x in a[1..] {
        var k :| 0 <= k < |a[1..]| && a[1..][k] == x;
        assert Less(a[0], a[k + 1]);
      }
    }
  }

  lemma SortedIsDistinct(s: seq<Bytes>)
    requires StrictlySorted(s)
    ensures Distinct(s)
  {
    forall i, j | 0 <= i < j < |s| ensures s[i] != s[j] { LessIrreflexive(s[i]); }
  }

  ghost function Listing(S: set<Bytes>): (s: seq<Bytes>)
    ensures Enumerates(s, S)
  {
    if S == {} then []
    else
      var x :| x in S;
      Listing(S - {x}) + [x]
  }

  /** The sorted enumeration of S. */
  ghost function SortedSet(S: set<Bytes>): (s: seq<Bytes>)
    ensures SortedEnumeration(s, S)
  {
    SortEnumerates(Listing(S), S);
    Sort(Listing(S))
  }

  lemma SortIsSortedSet(s: seq<Bytes>, S: set<Bytes>)
    requires Enumerates(s, S)
    ensures Sort(s) == SortedSet(S)
  {
    SortEnumerates(s, S);
    SortedUnique(Sort(s), SortedSet(S), S);
  }

  /** An enumeration is as long as the set is large; a distinct list of members that long is one. */
  lemma {:induction false} EnumerationLength(s: seq<Bytes>, S: set<Bytes>)
    requires Enumerates(s, S)
    ensures |s| == |S|
    decreases |s|
  {
    if |s| == 0 {
      assert forall x :: x in S ==> x in s;
      assert S == {};
    } else {
      var front, last := s[..|s| - 1], s[|s| - 1];
      assert s == front + [last];
      assert last in S;
      assert Enumerates(front, S - {last});
      EnumerationLength(front, S - {last});
    }
  }

  lemma DistinctFull(s: seq<Bytes>, S: set<Bytes>)
    requires Distinct(s) && (forall x :: x in s ==> x in S) && |s| == |S|
    ensures Enumerates(s, S)
  {
    var T := set x | x in s;
    assert Enumerates(s, T);
    EnumerationLength(s, T);
    assert T <= S;
    SubsetSameSize(T, S);
  }

  lemma SubsetSameSize(T: set<Bytes>, S: set<Bytes>)
    requires T <= S && |T| == |S|
    ensures T == S
  {
    assert |S - T| == |S| - |T|;
  }
}
