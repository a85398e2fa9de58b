/** The names of the segment files, and the order in which `loadSegments` finds them
    (internal/store/store.go:151-190, 196-198). */
module Directory {
  import opened Bytes
  import opened Sorting

  const PREFIX: Bytes := [115, 101, 103, 109, 101, 110, 116, 45] // "segment-"
  const SUFFIX: Bytes := [46, 100, 97, 116] // ".dat"

  /** The w low decimal digits of i. */
  function Decimal(w: nat, i: nat): (d: Bytes)
    ensures |d| == w
  {
    if w == 0 then [] else Decimal(w - 1, i / 10) + [48 + i % 10]
  }

  /** The width of %06d: at least six digits. */
  function Width(i: nat): (w: nat)
    ensures w >= 6
    decreases i
  {
    if i < 1_000_000 then 6 else 1 + Width(i / 10)
  }

  /** The name of the i-th segment, counting from 1. */
  function SegmentName(i: nat): Bytes {
    PREFIX + (Decimal(Width(i), i) + SUFFIX)
  }

  function Pow10(w: nat): nat {
    if w == 0 then 1 else 10 * Pow10(w - 1)
  }

  lemma {:induction false} LessAppend(a: Bytes, b: Bytes, x: Bytes, y: Bytes)
    requires |a| == |b| && (Less(a, b) || (a == b && Less(x, y)))
    ensures Less(a + x, b + y)
    decreases |a|
  {
    if |a| == 0 {
      assert a + x == x && b + y == y;
    } else {
      assert (a + x)[1..] == a[1..] + x && (b + y)[1..] == b[1..] + y;
      if a[0] == b[0] {
        LessAppend(a[1..], b[1..], x, y);
      }
    }
  }

  lemma {:induction false} DecimalOrder(w: nat, i: nat, j: nat)
    requires i < j < Pow10(w)
    ensures Less(Decimal(w, i), Decimal(w, j))
  {
    if i / 10 < j / 10 { DecimalOrder(w - 1, i / 10, j / 10); }
    LessAppend(Decimal(w - 1, i / 10), Decimal(w - 1, j / 10), [48 + i % 10], [48 + j % 10]);
  }

  /** The first segment is segment-000001.dat. */
  lemma FirstName()
    ensures SegmentName(1)
         == [115, 101, 103, 109, 101, 110, 116, 45, 48, 48, 48, 48, 48, 49, 46, 100, 97, 116]
  {
    assert Decimal(3, 0) == [48, 48, 48];
    assert Decimal(5, 0) == Decimal(3, 0) + [48, 48] by { assert Decimal(4, 0) == Decimal(3, 0) + [48]; }
    assert Decimal(6, 1) == Decimal(5, 0) + [49];
  }

  /** Up to 999999 segments, names sort like numbers. */
  lemma NameOrder(i: nat, j: nat)
    requires i < j <= 999_999
    ensures Less(SegmentName(i), SegmentName(j))
  {
    assert Pow10(3) == 1000;
    assert Pow10(6) == 1_000_000;
    DecimalOrder(6, i, j);
    LessAppend(Decimal(6, i), Decimal(6, j), SUFFIX, SUFFIX);
    LessAppend(PREFIX, PREFIX, Decimal(6, i) + SUFFIX, Decimal(6, j) + SUFFIX);
  }

  /** The millionth name sorts before the one that precedes it. */
  lemma MillionthName()
    ensures Less(SegmentName(1_000_000), SegmentName(999_999))
  {
    assert Pow10(3) == 1000;
    assert Pow10(5) == 100_000;
    FirstDigit(6, 999_999, 9);
    FirstDigit(7, 1_000_000, 1);
    assert Width(1_000_000) == 7 by { assert Width(100_000) == 6; }
    var x, y := Decimal(7, 1_000_000) + SUFFIX, Decimal(6, 999_999) + SUFFIX;
    assert x[0] == 49 && y[0] == 57;
    LessAppend(PREFIX, PREFIX, x, y);
  }

  lemma {:induction false} FirstDigit(w: nat, i: nat, d: nat)
    requires w > 0 && d < 10 && d * Pow10(w - 1) <= i < (d + 1) * Pow10(w - 1)
    ensures Decimal(w, i)[0] == 48 + d
  {
    if w == 1 {
      assert Pow10(0) == 1;
      assert Decimal(0, i / 10) == [];
    } else {
      var p := Pow10(w - 2);
      assert d * (10 * p) == 10 * (d * p) && (d + 1) * (10 * p) == 10 * ((d + 1) * p);
      FirstDigit(w - 1, i / 10, d);
    }
  }

  ghost function Names(n: nat): (s: seq<Bytes>)
    ensures |s| == n && forall i :: 0 <= i < n ==> s[i] == SegmentName(i + 1)
  {
    seq(n, (i: nat) => SegmentName(i + 1))
  }

  // ---- Different segments have different names ----

  lemma {:induction false} WidthBound(i: nat)
    ensures i < Pow10(Width(i))
    decreases i
  {
    if i < 1_000_000 {
      assert Pow10(3) == 1000;
      assert Pow10(6) == 1_000_000;
    } else {
      WidthBound(i / 10);
    }
  }

  lemma NamesDiffer(i: nat, j: nat)
    requires i < j
    ensures SegmentName(i) != SegmentName(j)
  {
    hide Width, Decimal;
    var a, b := Decimal(Width(i), i) + SUFFIX, Decimal(Width(j), j) + SUFFIX;
    if SegmentName(i) == SegmentName(j) {
      assert a == SegmentName(i)[|PREFIX|..] == SegmentName(j)[|PREFIX|..] == b;
      assert Decimal(Width(i), i) == a[..|a| - 4] && Decimal(Width(j), j) == b[..|b| - 4];
      WidthBound(i);
      WidthBound(j);
      DecimalOrder(Width(i), i, j);
      LessIrreflexive(Decimal(Width(i), i));
    }
  }

  lemma NamesDistinct(n: nat)
    ensures Distinct(Names(n))
  {
    hide SegmentName;
    forall i, j | 0 <= i < j < n ensures Names(n)[i] != Names(n)[j] { NamesDiffer(i + 1, j + 1); }
  }

  // ---- The directory ----

  /** The files of a directory by name. */
  type Disk = map<Bytes, Bytes>

  /** os.ReadDir, sorted by name. */
  ghost function FileNames(disk: Disk): seq<Bytes> {
    SortedSet(disk.Keys)
  }

  /** The contents in the order in which loadSegments opens the files. */
  ghost function Loaded(disk: Disk): seq<Bytes> {
    var names := FileNames(disk);
    seq(|names|, i requires 0 <= i < |names| => assert names[i] in names; disk[names[i]])
  }

  /** The directory that newSegment leaves, one file for each segment written. */
  function Written(files: seq<Bytes>): Disk {
    if |files| == 0 then map[] else Written(files[..|files| - 1])[SegmentName(|files|) := files[|files| - 1]]
  }

  lemma {:induction false} WrittenNames(files: seq<Bytes>)
    ensures Written(files).Keys == set name | name in Names(|files|)
    decreases |files|
  {
    hide SegmentName;
    if |files| > 0 {
      var n := |files| - 1;
      WrittenNames(files[..n]);
      assert Names(|files|) == Names(n) + [SegmentName(|files|)];
    }
  }

  /** Each segment is found under its own name. */
  lemma {:induction false} WrittenAt(files: seq<Bytes>, i: nat)
    requires i < |files|
    ensures SegmentName(i + 1) in Written(files) && Written(files)[SegmentName(i + 1)] == files[i]
    decreases |files|
  {
    hide SegmentName;
    if i < |files| - 1 {
      WrittenAt(files[..|files| - 1], i);
      NamesDiffer(i + 1, |files|);
    }
  }

  lemma WrittenCount(files: seq<Bytes>)
    ensures |FileNames(Written(files))| == |files|
  {
    hide Names, SegmentName, Written, SortedSet;
    WrittenNames(files);
    NamesDistinct(|files|);
    var names := FileNames(Written(files));
    SortedIsDistinct(names);
    hide Distinct, StrictlySorted;
    EnumerationLength(names, Written(files).Keys);
    EnumerationLength(Names(|files|), Written(files).Keys);
  }

  /** Loading finds the contents of every segment and of nothing else. */
  lemma LoadedFrom(files: seq<Bytes>)
    ensures |Loaded(Written(files))| == |files|
    ensures forall i :: 0 <= i < |files| ==> Loaded(Written(files))[i] in files
  {
    hide SegmentName, Written, SortedSet, StrictlySorted;
    WrittenCount(files);
    WrittenNames(files);
    forall i | 0 <= i < |files| ensures Loaded(Written(files))[i] in files {
      var name := FileNames(Written(files))[i];
      assert name in FileNames(Written(files));
      assert name in Names(|files|);
      var j :| 0 <= j < |files| && Names(|files|)[j] == name;
      WrittenAt(files, j);
    }
  }

  /** loadSegments reads the segments in the order they were written if and only if there are
      at most 999999 of them. */
  lemma LoadOrder(files: seq<Bytes>)
    ensures FileNames(Written(files)) == Names(|files|) <==> |files| <= 999_999
    ensures |files| <= 999_999 ==> Loaded(Written(files)) == files
  {
    hide SegmentName, Written, StrictlySorted, SortedSet, Less;
    WrittenNames(files);
    SortedNames(|files|);
    var names := Names(|files|);
    if |files| <= 999_999 {
      SortedUnique(FileNames(Written(files)), names, Written(files).Keys);
      forall i | 0 <= i < |files| ensures Loaded(Written(files))[i] == files[i] { WrittenAt(files, i); }
    } else {
      assert StrictlySorted(FileNames(Written(files)));
    }
  }

  lemma SortedNames(n: nat)
    ensures StrictlySorted(Names(n)) <==> n <= 999_999
  {
    hide SegmentName;
    var names := Names(n);
    if n <= 999_999 {
      forall i, j | 0 <= i < j < n ensures Less(names[i], names[j]) { NameOrder(i + 1, j + 1); }
    } else {
      MillionthName();
      LessAsym(SegmentName(1_000_000), SegmentName(999_999));
      assert names[999_998] == SegmentName(999_999) && names[999_999] == SegmentName(1_000_000);
    }
  }

  /** Of a million segments the last one loaded is the last but one written. */
  lemma MillionthLoaded(files: seq<Bytes>)
    requires |files| == 1_000_000
    ensures |Loaded(Written(files))| == |files|
    ensures Loaded(Written(files))[|files| - 1] == files[|files| - 2]
  {
    hide SegmentName, Written, SortedSet, StrictlySorted, Less;
    WrittenNames(files);
    WrittenCount(files);
    WrittenAt(files, 999_998);
    MillionthName();
    var S := Written(files).Keys;
    forall name | name in S ensures name == SegmentName(999_999) || Less(name, SegmentName(999_999)) {
      var j :| 0 <= j < |files| && Names(|files|)[j] == name;
      if j < 999_998 { NameOrder(j + 1, 999_999); }
    }
    LastSorted(FileNames(Written(files)), S, SegmentName(999_999));
  }

  lemma LastSorted(s: seq<Bytes>, S: set<Bytes>, x: Bytes)
    requires SortedEnumeration(s, S) && x in S
    requires forall y :: y in S ==> y == x || Less(y, x)
    ensures |s| > 0 && s[|s| - 1] == x
  {
    assert x in s;
    var i :| 0 <= i < |s| && s[i] == x;
    var last := s[|s| - 1];
    assert last in S;
    if i < |s| - 1 { LessAsym(x, last); }
  }
}
