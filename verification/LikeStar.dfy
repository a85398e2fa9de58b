/** The star pattern of the `like` operator (internal/dbs/helppers.go:95-128). */
module LikeStar {

  /** What a pattern means: a star stands for any string, any other character for itself. */
  predicate Glob(p: string, v: string)
    decreases |p| + |v|
  {
    if |p| == 0 then |v| == 0
    else if p[0] == '*' then Glob(p[1..], v) || (|v| > 0 && Glob(p, v[1..]))
    else |v| > 0 && v[0] == p[0] && Glob(p[1..], v[1..])
  }

  // ---- The library functions it is made of ----

  predicate HasPrefix(s: string, p: string) {
    |p| <= |s| && s[..|p|] == p
  }

  predicate HasSuffix(s: string, p: string) {
    |p| <= |s| && s[|s| - |p|..] == p
  }

  predicate Contains(s: string, p: string) {
    exists i :: 0 <= i <= |s| && HasPrefix(s[i..], p)
  }

  function TrimLeft(s: string): string {
    if |s| > 0 && s[0] == '*' then TrimLeft(s[1..]) else s
  }

  function TrimRight(s: string): string {
    if |s| > 0 && s[|s| - 1] == '*' then TrimRight(s[..|s| - 1]) else s
  }

  /** strings.Trim(s, "*"). */
  function Trim(s: string): string {
    TrimRight(TrimLeft(s))
  }

  predicate MatchLikeStar(value: string, pattern: string) {
    if pattern == "*" then true
    else
      var starts := HasPrefix(pattern, "*");
      var ends := HasSuffix(pattern, "*");
      var core := Trim(pattern);
      if core == "" then true
      else if starts && ends then Contains(value, core)
      else if starts then HasSuffix(value, core)
      else if ends then HasPrefix(value, core)
      else value == pattern
  }

  // ---- Patterns as stars, core, stars ----

  predicate AllStars(s: string) {
    forall i :: 0 <= i < |s| ==> s[i] == '*'
  }

  predicate NoStars(s: string) {
    '*' !in s
  }

  /** No star strictly between characters that are not stars. */
  predicate NoInnerStar(p: string) {
    forall i, j, k :: 0 <= i < j < k < |p| && p[i] != '*' && p[k] != '*' ==> p[j] != '*'
  }

  lemma {:induction false} TrimLeftSplit(s: string) returns (n: nat)
    ensures n <= |s| && AllStars(s[..n]) && TrimLeft(s) == s[n..]
    ensures n < |s| ==> s[n] != '*'
    ensures n > 0 <==> HasPrefix(s, "*")
  {
    if |s| > 0 && s[0] == '*' {
      var m := TrimLeftSplit(s[1..]);
      n := m + 1;
      assert s[..n] == [s[0]] + s[1..][..m];
    } else {
      n := 0;
    }
  }

  lemma {:induction false} TrimRightSplit(s: string) returns (n: nat)
    ensures n <= |s| && AllStars(s[n..]) && TrimRight(s) == s[..n]
    ensures n > 0 ==> s[n - 1] != '*'
    ensures n < |s| <==> HasSuffix(s, "*")
  {
    if |s| > 0 && s[|s| - 1] == '*' {
      n := TrimRightSplit(s[..|s| - 1]);
      assert s[n..] == s[..|s| - 1][n..] + [s[|s| - 1]];
      assert s[|s| - 1..] == "*";
    } else {
      n := |s|;
      assert s[..n] == s;
    }
  }

  /** A pattern is stars, its core, stars; the core does not begin or end with a star. */
  lemma Parts(p: string) returns (a: string, b: string)
    ensures p == a + Trim(p) + b && AllStars(a) && AllStars(b)
    ensures var core := Trim(p);
      core != "" ==>
        && core[0] != '*' && core[|core| - 1] != '*'
        && (a != "" <==> HasPrefix(p, "*")) && (b != "" <==> HasSuffix(p, "*"))
  {
    var n := TrimLeftSplit(p);
    var rest := p[n..];
    var m := TrimRightSplit(rest);
    a, b := p[..n], rest[m..];
    assert p == p[..n] + p[n..] && rest == rest[..m] + rest[m..];
    StarSuffix(p);
    StarSuffix(rest);
    if m > 0 {
      assert Trim(p)[0] == p[n];
      assert p[|p| - 1] == rest[|rest| - 1];
    }
  }

  lemma StarSuffix(s: string)
    ensures HasSuffix(s, "*") <==> |s| > 0 && s[|s| - 1] == '*'
  {
    if |s| > 0 { assert s[|s| - 1..] == [s[|s| - 1]]; }
  }

  /** Reading a concatenation of three strings. */
  lemma PartsAt(p: string, a: string, core: string, b: string)
    requires p == a + core + b
    ensures forall i {:trigger a[i]} :: 0 <= i < |a| ==> p[i] == a[i]
    ensures forall i {:trigger core[i]} :: 0 <= i < |core| ==> p[|a| + i] == core[i]
    ensures forall i {:trigger p[i]} :: 0 <= i < |a| ==> p[i] == a[i]
    ensures forall i {:trigger p[i]} :: |a| <= i < |a| + |core| ==> p[i] == core[i - |a|]
    ensures forall i {:trigger p[i]} :: |a| + |core| <= i < |p| ==> p[i] == b[i - |a| - |core|]
  {
  }

  // ---- What Glob does on the parts ----

  lemma {:induction false} GlobStars(s: string, v: string)
    requires AllStars(s) && s != ""
    ensures Glob(s, v)
    decreases |s| + |v|
  {
    if |v| > 0 {
      GlobStars(s, v[1..]);
    } else if |s| > 1 {
      GlobStars(s[1..], v);
    }
  }

  lemma {:induction false} GlobPlain(p: string, v: string)
    requires NoStars(p)
    ensures Glob(p, v) <==> v == p
    decreases |p|
  {
    if |p| > 0 && |v| > 0 && v[0] == p[0] {
      GlobPlain(p[1..], v[1..]);
      assert p == [p[0]] + p[1..] && v == [v[0]] + v[1..];
    }
  }

  /** Plain characters, then stars: a prefix. */
  lemma {:induction false} GlobPrefix(core: string, b: string, v: string)
    requires NoStars(core) && AllStars(b) && b != ""
    ensures Glob(core + b, v) <==> HasPrefix(v, core)
    decreases |core|
  {
    if |core| == 0 {
      assert core + b == b;
      GlobStars(b, v);
    } else {
      assert (core + b)[1..] == core[1..] + b;
      if |v| > 0 {
        GlobPrefix(core[1..], b, v[1..]);
        assert HasPrefix(v, core) <==> v[0] == core[0] && HasPrefix(v[1..], core[1..]) by {
          if |core| <= |v| {
            assert v[..|core|] == [v[0]] + v[1..][..|core| - 1];
            assert core == [core[0]] + core[1..];
          }
        }
      }
    }
  }

  /** Leading stars try the rest of the pattern at every position. */
  lemma {:induction false} GlobLeading(a: string, rest: string, v: string)
    requires AllStars(a) && a != ""
    ensures Glob(a + rest, v) <==> exists i :: 0 <= i <= |v| && Glob(rest, v[i..])
    decreases |a| + |v|
  {
    var p := a + rest;
    assert p[1..] == a[1..] + rest;
    if |a| > 1 {
      GlobLeading(a[1..], rest, v);
    } else {
      assert p[1..] == rest;
    }
    assert v[0..] == v;
    if |v| > 0 {
      GlobLeading(a, rest, v[1..]);
      forall i | 0 <= i <= |v[1..]| ensures v[1..][i..] == v[i + 1..] {
      }
      if i :| 0 <= i <= |v| && Glob(rest, v[i..]) {
        if i > 0 { assert v[1..][i - 1..] == v[i..]; }
      }
    }
  }

  lemma ContainsIff(core: string, b: string, v: string)
    requires NoStars(core) && AllStars(b) && b != ""
    ensures (exists i :: 0 <= i <= |v| && Glob(core + b, v[i..])) <==> Contains(v, core)
  {
    forall i | 0 <= i <= |v| ensures Glob(core + b, v[i..]) <==> HasPrefix(v[i..], core) {
      GlobPrefix(core, b, v[i..]);
    }
  }

  lemma SuffixIff(core: string, v: string)
    requires NoStars(core)
    ensures (exists i :: 0 <= i <= |v| && Glob(core, v[i..])) <==> HasSuffix(v, core)
  {
    forall i | 0 <= i <= |v| ensures Glob(core, v[i..]) <==> v[i..] == core {
      GlobPlain(core, v[i..]);
    }
    if HasSuffix(v, core) { assert v[|v| - |core|..] == core; }
  }

  lemma CorePlain(p: string, a: string, core: string, b: string)
    requires p == a + core + b && core != "" && core[0] != '*' && core[|core| - 1] != '*'
    ensures NoInnerStar(p) ==> NoStars(core)
  {
    PartsAt(p, a, core, b);
    forall j | 0 <= j < |core| ensures NoInnerStar(p) ==> core[j] != '*' {
      assert p[|a|] != '*' && p[|a| + |core| - 1] != '*';
      assert p[|a| + j] == core[j];
    }
  }

  /** Without an inner star and with something to match, the code decides the glob meaning. */
  lemma Agrees(p: string, v: string)
    requires p != "" && NoInnerStar(p)
    ensures MatchLikeStar(v, p) <==> Glob(p, v)
  {
    var a, b := Parts(p);
    var core := Trim(p);
    if core == "" {
      assert p == a + b;
      GlobStars(p, v);
    } else {
      CorePlain(p, a, core, b);
      PartsAt(p, a, core, b);
      assert p[|a|] == core[0];
      hide Glob, Trim, NoInnerStar, AllStars, NoStars, Contains;
      assert a + core + b == a + (core + b);
      if a != "" {
        GlobLeading(a, core + b, v);
        if b != "" {
          ContainsIff(core, b, v);
        } else {
          assert core + b == core;
          SuffixIff(core, v);
        }
      } else if b != "" {
        assert p == core + b;
        GlobPrefix(core, b, v);
      } else {
        assert p == core;
        GlobPlain(core, v);
      }
    }
  }

  // ---- The patterns it gets wrong ----

  function Strip(p: string): (s: string)
    ensures NoStars(s)
  {
    if |p| == 0 then "" else (if p[0] == '*' then "" else [p[0]]) + Strip(p[1..])
  }

  lemma {:induction false} GlobStrip(p: string)
    ensures Glob(p, Strip(p))
    decreases |p|
  {
    if |p| > 0 {
      GlobStrip(p[1..]);
      if p[0] != '*' {
        assert Strip(p)[0] == p[0] && Strip(p)[1..] == Strip(p[1..]);
      } else {
        assert Strip(p) == Strip(p[1..]);
      }
    }
  }

  /** With an inner star, the pattern with its stars removed is matched by the glob but not by
      the code, which looks for the star itself. */
  lemma InnerStarFails(p: string)
    requires !NoInnerStar(p)
    ensures Glob(p, Strip(p)) && !MatchLikeStar(Strip(p), p)
  {
    GlobStrip(p);
    var a, b := Parts(p);
    var core := Trim(p);
    hide Glob, Strip, Trim, MatchLikeStar;
    var i, j, k :| 0 <= i < j < k < |p| && p[i] != '*' && p[k] != '*' && p[j] == '*';
    StarInCore(p, a, core, b, i, j, k);
    NoMatch(Strip(p), p);
  }

  lemma NoMatch(v: string, p: string)
    requires NoStars(v) && '*' in Trim(p) && '*' in p && |p| > 1
    ensures !MatchLikeStar(v, p)
  {
    hide Trim, Contains, HasSuffix, HasPrefix;
    NotInside(v, Trim(p));
  }

  /** A string without stars does not contain one with a star. */
  lemma NotInside(v: string, core: string)
    requires '*' in core && NoStars(v)
    ensures !Contains(v, core) && !HasSuffix(v, core) && !HasPrefix(v, core)
  {
    forall n | 0 <= n <= |v| ensures !HasPrefix(v[n..], core) {
      assert forall c :: c in v[n..][..if |core| <= |v| - n then |core| else 0] ==> c in v[n..];
      assert forall c :: c in v[n..] ==> c in v;
    }
    assert v[0..] == v;
    if |core| <= |v| { assert forall c :: c in v[|v| - |core|..] ==> c in v; }
  }

  lemma StarInCore(p: string, a: string, core: string, b: string, i: nat, j: nat, k: nat)
    requires p == a + core + b && AllStars(a) && AllStars(b)
    requires i < j < k < |p| && p[i] != '*' && p[k] != '*' && p[j] == '*'
    ensures core != "" && '*' in core && '*' in p && |p| > 1
  {
    PartsAt(p, a, core, b);
    assert |a| <= i && k < |a| + |core|;
    assert p[j] == core[j - |a|];
  }

  // ---- What the code does with any pattern ----

  /** Leading stars, then nothing, a star or more; the value may have anything before and behind the
      core where the pattern has stars, and the core is compared character by character, stars
      inside it included. */
  lemma CodeMeaning(p: string, a: string, core: string, b: string, v: string)
    requires p == a + core + b && AllStars(a) && AllStars(b)
    requires core != "" && core[0] != '*' && core[|core| - 1] != '*'
    ensures MatchLikeStar(v, p) <==>
      exists x, y :: v == x + core + y && (a == "" ==> x == "") && (b == "" ==> y == "")
  {
    PartsAt(p, a, core, b);
    TrimParts(p, a, core, b);
    StarSuffix(p);
    assert HasPrefix(p, "*") <==> a != "" by { assert p[0] == if a != "" then a[0] else core[0]; }
    assert HasSuffix(p, "*") <==> b != "" by {
      assert p[|p| - 1] == if b != "" then b[|b| - 1] else core[|core| - 1];
    }
    assert p != "*";
    assert a == "" && b == "" ==> p == core;
    hide Trim, AllStars;
    if MatchLikeStar(v, p) {
      var x, y := SplitMatch(v, core, a != "", b != "");
    }
    if x, y :| v == x + core + y && (a == "" ==> x == "") && (b == "" ==> y == "") {
      JoinMatch(v, x, core, y);
    }
  }

  lemma {:induction false} TrimLeftParts(a: string, rest: string)
    requires AllStars(a) && rest != "" && rest[0] != '*'
    ensures TrimLeft(a + rest) == rest
    decreases |a|
  {
    if a == "" {
      assert a + rest == rest;
    } else {
      assert (a + rest)[1..] == a[1..] + rest;
      TrimLeftParts(a[1..], rest);
    }
  }

  lemma {:induction false} TrimRightParts(core: string, b: string)
    requires AllStars(b) && core != "" && core[|core| - 1] != '*'
    ensures TrimRight(core + b) == core
    decreases |b|
  {
    if b == "" {
      assert core + b == core;
    } else {
      assert (core + b)[..|core + b| - 1] == core + b[..|b| - 1];
      TrimRightParts(core, b[..|b| - 1]);
    }
  }

  lemma TrimParts(p: string, a: string, core: string, b: string)
    requires p == a + core + b && AllStars(a) && AllStars(b)
    requires core != "" && core[0] != '*' && core[|core| - 1] != '*'
    ensures Trim(p) == core
  {
    assert p == a + (core + b);
    TrimLeftParts(a, core + b);
    TrimRightParts(core, b);
  }

  lemma SplitMatch(v: string, core: string, starts: bool, ends: bool) returns (x: string, y: string)
    requires if starts && ends then Contains(v, core) else if starts then HasSuffix(v, core)
             else if ends then HasPrefix(v, core) else v == core
    ensures v == x + core + y && (!starts ==> x == "") && (!ends ==> y == "")
  {
    if starts && ends {
      x, y := SplitInside(v, core);
    } else if starts {
      x, y := v[..|v| - |core|], "";
    } else {
      x, y := "", v[|core|..];
    }
  }

  lemma SplitInside(v: string, core: string) returns (x: string, y: string)
    requires Contains(v, core)
    ensures v == x + core + y
  {
    var i :| 0 <= i <= |v| && HasPrefix(v[i..], core);
    var rest := v[i..];
    x, y := v[..i], rest[|core|..];
    assert v == v[..i] + rest && rest == core + y;
  }

  lemma JoinMatch(v: string, x: string, core: string, y: string)
    requires v == x + core + y
    ensures Contains(v, core)
    ensures y == "" ==> HasSuffix(v, core)
    ensures x == "" ==> HasPrefix(v, core)
    ensures x == "" && y == "" ==> v == core
  {
    assert v[|x|..] == core + y;
    assert HasPrefix(v[|x|..], core);
  }

  /** With no core everything matches, under the empty pattern as well. */
  lemma StarsMeaning(p: string, v: string)
    requires AllStars(p)
    ensures MatchLikeStar(v, p)
  {
    TrimStars(p);
  }

  lemma {:induction false} TrimStars(p: string)
    requires AllStars(p)
    ensures TrimLeft(p) == ""
  {
    if p != "" { TrimStars(p[1..]); }
  }

  /** The meaning of `like`, exactly: the code agrees with the glob on every value if and only if
      the pattern is not empty and has no star strictly between other characters. */
  lemma PatternMeaning(p: string)
    ensures (forall v :: MatchLikeStar(v, p) <==> Glob(p, v)) <==> p != "" && NoInnerStar(p)
  {
    hide Glob, MatchLikeStar, NoInnerStar;
    if p != "" && NoInnerStar(p) {
      forall v ensures MatchLikeStar(v, p) <==> Glob(p, v) { Agrees(p, v); }
    } else if p == "" {
      EmptyPattern();
    } else {
      InnerStarFails(p);
    }
  }

  lemma EmptyPattern()
    ensures MatchLikeStar("a", "") && !Glob("", "a")
  {
  }
}
