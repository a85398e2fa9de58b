/** Comparing values of mixed types (internal/dbs/helppers.go:17-88, 190-253) and the scalar
    comparison operators (internal/dbs/condition.go:260-322, 398-460, 607-632). */
module Ordering {
  import opened Bytes
  import opened Prelude
  import opened Sorting

  // ---- float64 ----

  datatype Float = NaN | NegInf | Num(r: real) | PosInf

  /** float64's `<`: false whenever a NaN is involved. */
  predicate FloatLess(a: Float, b: Float) {
    match (a, b)
    case (NegInf, Num(_)) => true
    case (NegInf, PosInf) => true
    case (Num(x), Num(y)) => x < y
    case (Num(_), PosInf) => true
    case _ => false
  }

  predicate FloatEqual(a: Float, b: Float) {
    a == b && a != NaN
  }

  function Pow2(e: nat): (p: nat)
    ensures p > 0
  {
    if e == 0 then 1 else 2 * Pow2(e - 1)
  }

  const TWO_TO_THE_52 := 0x10_0000_0000_0000
  const TWO_TO_THE_53 := 0x20_0000_0000_0000

  /** The multiple of u nearest to n, ties to the even one. */
  function RoundTo(n: nat, u: nat): (r: nat)
    requires u > 0
  {
    RoundParts(n / u, n % u, u)
  }

  /** The same for n == q * u + d. */
  function RoundParts(q: nat, d: nat, u: nat): nat {
    if 2 * d < u || (2 * d == u && q % 2 == 0) then q * u else (q + 1) * u
  }

  /** The double nearest to n, for n below 2^(53+e): up to 2^53 there is one for each integer,
      and from 2^(52+k) on only for the multiples of 2^k. */
  function Round(n: nat, e: nat): nat {
    if e == 0 then n
    else if n < TWO_TO_THE_52 * Pow2(e) then Round(n, e - 1)
    else RoundTo(n, Pow2(e))
  }

  /** float64 of an integer of at most 64 bits. */
  function ToDouble(n: int): real {
    if n >= 0 then Round(n, 11) as real else -(Round(-n, 11) as real)
  }

  lemma MulMonotone(a: nat, b: nat, u: nat)
    requires a <= b
    ensures a * u <= b * u
  {
  }

  lemma RoundToMultiple(k: nat, u: nat)
    requires u > 0
    ensures RoundTo(k * u, u) == k * u
  {
    assert k * u / u == k && k * u % u == 0 by { DivMultiple(k, u); }
  }

  lemma DivMultiple(k: nat, u: nat)
    requires u > 0
    ensures k * u / u == k && k * u % u == 0
  {
    var q, d := k * u / u, k * u % u;
    assert k * u == q * u + d;
    assert (k - q) * u == d;
    if k - q >= 1 { MulMonotone(1, k - q, u); }
    if k - q <= -1 { MulMonotone(1, q - k, u); }
  }

  lemma PartsMonotone(q: nat, d: nat, q': nat, d': nat, u: nat)
    requires d < u && d' < u && (q < q' || (q == q' && d <= d'))
    ensures RoundParts(q, d, u) <= RoundParts(q', d', u)
  {
    MulMonotone(q, q + 1, u);
    MulMonotone(q', q' + 1, u);
    if q < q' { MulMonotone(q + 1, q', u); }
  }

  lemma DivMonotone(n: nat, m: nat, u: nat)
    requires u > 0 && n <= m
    ensures n / u < m / u || (n / u == m / u && n % u <= m % u)
  {
    var q, q' := n / u, m / u;
    assert n == q * u + n % u && m == q' * u + m % u;
    if q > q' { MulMonotone(q' + 1, q, u); }
  }

  lemma RoundToMonotone(n: nat, m: nat, u: nat)
    requires u > 0 && n <= m
    ensures RoundTo(n, u) <= RoundTo(m, u)
  {
    hide RoundParts;
    DivMonotone(n, m, u);
    PartsMonotone(n / u, n % u, m / u, m % u, u);
  }

  lemma {:induction false} RoundMonotone(n: nat, m: nat, e: nat)
    requires n <= m < 2 * TWO_TO_THE_52 * Pow2(e)
    ensures Round(n, e) <= Round(m, e)
    ensures Round(m, e) <= 2 * TWO_TO_THE_52 * Pow2(e)
    decreases e
  {
    if e > 0 {
      hide RoundTo;
      var u := Pow2(e);
      var b := TWO_TO_THE_52 * u;
      assert u == 2 * Pow2(e - 1);
      if m < b {
        RoundMonotone(n, m, e - 1);
      } else {
        RoundToMultiple(TWO_TO_THE_52, u);
        RoundToMonotone(b, m, u);
        RoundToMultiple(TWO_TO_THE_53, u);
        RoundToMonotone(m, TWO_TO_THE_53 * u, u);
        if n < b { RoundMonotone(n, n, e - 1); } else { RoundToMonotone(n, m, u); }
      }
    }
  }

  lemma {:induction false} RoundExact(n: nat, e: nat)
    requires n <= TWO_TO_THE_53
    ensures Round(n, e) == n
    decreases e
  {
    if e > 0 {
      var u := Pow2(e);
      assert u == 2 * Pow2(e - 1);
      assert e == 1 || u == 4 * Pow2(e - 2);
      if n < TWO_TO_THE_52 * u {
        RoundExact(n, e - 1);
      } else {
        assert u == 2 && n == TWO_TO_THE_53;
      }
    }
  }

  function Distance(a: nat, b: nat): nat {
    if a < b then b - a else a - b
  }

  /** m is a double: a mantissa of at most 53 bits, shifted. */
  ghost predicate IsDouble(m: nat) {
    exists k: nat, e: nat :: k <= TWO_TO_THE_53 && Shifted(m, k, e)
  }

  predicate Shifted(m: nat, k: nat, e: nat) {
    m == k * Pow2(e)
  }

  /** RoundTo gives a multiple of u at most half of u away, and the even one of two as near. */
  lemma RoundToNearest(n: nat, u: nat)
    requires u > 0
    ensures exists k: nat :: RoundTo(n, u) == k * u && (2 * Distance(RoundTo(n, u), n) == u ==> k % 2 == 0)
    ensures 2 * Distance(RoundTo(n, u), n) <= u
  {
    var q, d := n / u, n % u;
    assert n == q * u + d;
    assert (q + 1) * u == q * u + u;
    var k := if 2 * d < u || (2 * d == u && q % 2 == 0) then q else q + 1;
    assert RoundTo(n, u) == k * u;
  }

  /** The spacing of the doubles around n. */
  ghost predicate Binade(n: nat, e: nat) {
    n < 2 * TWO_TO_THE_52 * Pow2(e) && (e > 0 ==> n >= TWO_TO_THE_52 * Pow2(e))
  }

  lemma {:induction false} RoundInBinade(n: nat, e: nat, top: nat)
    requires Binade(n, e) && e <= top
    ensures Round(n, top) == RoundTo(n, Pow2(e))
    decreases top
  {
    if e < top {
      PowGrows(e, top - 1);
      assert Pow2(top) == 2 * Pow2(top - 1);
      MulMonotone(TWO_TO_THE_53 * Pow2(e), TWO_TO_THE_53 * Pow2(top - 1), 1);
      RoundInBinade(n, e, top - 1);
    } else if e == 0 {
      assert n / 1 == n && n % 1 == 0;
    }
  }

  lemma {:induction false} PowGrows(e: nat, f: nat)
    requires e <= f
    ensures Pow2(e) <= Pow2(f) && exists k: nat :: Pow2(f) == k * Pow2(e)
    decreases f
  {
    if e < f {
      PowGrows(e, f - 1);
      var k: nat :| Pow2(f - 1) == k * Pow2(e);
      assert Pow2(f) == (2 * k) * Pow2(e);
    } else {
      assert Pow2(f) == 1 * Pow2(e);
    }
  }

  lemma {:induction false} SomeBinade(n: nat, top: nat) returns (e: nat)
    requires n < 2 * TWO_TO_THE_52 * Pow2(top)
    ensures e <= top && Binade(n, e)
    decreases top
  {
    if top > 0 && n < TWO_TO_THE_52 * Pow2(top) {
      assert Pow2(top) == 2 * Pow2(top - 1);
      e := SomeBinade(n, top - 1);
    } else {
      e := top;
    }
  }

  /** Of the multiples of u, none is nearer than one at most half of u away. */
  lemma NoneNearer(n: nat, r: nat, m: nat, u: nat, k: nat, j: nat)
    requires r == k * u && m == j * u && 2 * Distance(r, n) <= u
    ensures Distance(r, n) <= Distance(m, n)
  {
    if j < k { MulMonotone(j + 1, k, u); assert (j + 1) * u == j * u + u; }
    if j > k { MulMonotone(k + 1, j, u); assert (k + 1) * u == k * u + u; }
  }

  lemma CoarseMultiple(m: nat, k: nat, f: nat, e: nat) returns (j: nat)
    requires Shifted(m, k, f) && e <= f
    ensures m == j * Pow2(e)
  {
    PowGrows(e, f);
    var i: nat :| Pow2(f) == i * Pow2(e);
    j := k * i;
    Associate(k, i, Pow2(e));
  }

  lemma Associate(a: nat, b: nat, c: nat)
    ensures a * b * c == a * (b * c)
  {
  }

  lemma FineBelow(m: nat, k: nat, f: nat, e: nat)
    requires Shifted(m, k, f) && k <= TWO_TO_THE_53 && f < e
    ensures m <= TWO_TO_THE_52 * Pow2(e)
  {
    PowGrows(f, e - 1);
    assert Pow2(e) == 2 * Pow2(e - 1);
    MulMonotone(k, TWO_TO_THE_53, Pow2(f));
  }

  /** A double is a multiple of the spacing around n, or lies below the doubles with that
      spacing. */
  lemma DoubleNear(m: nat, n: nat, e: nat) returns (j: nat)
    requires IsDouble(m) && Binade(n, e)
    ensures Distance(j * Pow2(e), n) <= Distance(m, n)
  {
    var k: nat, f: nat :| k <= TWO_TO_THE_53 && Shifted(m, k, f);
    hide Shifted, IsDouble;
    if f >= e {
      j := CoarseMultiple(m, k, f, e);
    } else {
      FineBelow(m, k, f, e);
      hide Pow2;
      j := TWO_TO_THE_52;
    }
  }

  /** float64 of an integer below 2^64 in absolute value is a double, no double is nearer, and of two as near it is
      the one with the even mantissa. */
  lemma RoundNearest(n: nat, m: nat)
    requires n < TWO_TO_THE_64
    ensures var i: int := n; ToDouble(i) == Round(n, 11) as real && ToDouble(-i) == -(Round(n, 11) as real)
    ensures IsDouble(Round(n, 11))
    ensures IsDouble(m) ==> Distance(Round(n, 11), n) <= Distance(m, n)
    ensures exists e: nat, k: nat :: Binade(n, e) && Shifted(Round(n, 11), k, e)
              && (2 * Distance(Round(n, 11), n) == Pow2(e) ==> k % 2 == 0)
  {
    assert Pow2(5) == 32;
    assert Pow2(11) == 64 * Pow2(5);
    var e := SomeBinade(n, 11);
    RoundInBinade(n, e, 11);
    hide Round;
    var k := NearestIn(n, Round(n, 11), m, e);
  }

  lemma NearestIn(n: nat, r: nat, m: nat, e: nat) returns (k: nat)
    requires Binade(n, e) && r == RoundTo(n, Pow2(e))
    ensures IsDouble(r) && Shifted(r, k, e) && (2 * Distance(r, n) == Pow2(e) ==> k % 2 == 0)
    ensures IsDouble(m) ==> Distance(r, n) <= Distance(m, n)
  {
    hide Pow2, RoundTo;
    RoundToNearest(n, Pow2(e));
    k :| r == k * Pow2(e) && (2 * Distance(r, n) == Pow2(e) ==> k % 2 == 0);
    MantissaFits(n, r, k, e);
    assert Shifted(r, k, e);
    if IsDouble(m) {
      var j := DoubleNear(m, n, e);
      hide IsDouble;
      NoneNearer(n, r, j * Pow2(e), Pow2(e), k, j);
    }
  }

  lemma MantissaFits(n: nat, r: nat, k: nat, e: nat)
    requires Binade(n, e) && r == k * Pow2(e) && 2 * Distance(r, n) <= Pow2(e)
    ensures k <= TWO_TO_THE_53
  {
    if k > TWO_TO_THE_53 {
      MulMonotone(TWO_TO_THE_53 + 1, k, Pow2(e));
    }
  }

  /** Integers of at most 64 bits keep their order as doubles, and up to 2^53 their difference. */
  lemma ToDoubleOrder(n: int, m: int)
    requires -TWO_TO_THE_63 <= n <= m < TWO_TO_THE_64
    ensures ToDouble(n) <= ToDouble(m)
    ensures -TWO_TO_THE_53 <= n < m <= TWO_TO_THE_53 ==> ToDouble(n) < ToDouble(m)
  {
    hide Round;
    assert Pow2(5) == 32;
    assert Pow2(11) == 64 * Pow2(5);
    if n >= 0 {
      RoundMonotone(n, m, 11);
    } else if m <= 0 {
      RoundMonotone(-m, -n, 11);
    }
    if -TWO_TO_THE_53 <= n < m <= TWO_TO_THE_53 {
      RoundExact(if n < 0 then -n else n, 11);
      RoundExact(if m < 0 then -m else m, 11);
    }
  }

  // ---- Values ----

  /** A value of type any. `plain` tells the basic numeric types that the operators' type
      switches list from a pointer to a number, a uintptr or a defined numeric type, which only
      reflection sees. */
  datatype Value =
    | Nil
    | Time(t: int)
    | Str(s: Bytes)
    | Signed(n: int, plain: bool)
    | Unsigned(m: nat, plain: bool)
    | Flt(f: Float, plain: bool)
    | Other

  predicate Valid(v: Value) {
    match v
    case Signed(n, _) => -TWO_TO_THE_63 <= n < TWO_TO_THE_63
    case Unsigned(m, _) => m < TWO_TO_THE_64
    case _ => true
  }

  /** numberToFloat64. */
  function NumberToFloat(v: Value): Option<Float> {
    match v
    case Signed(n, _) => Some(Num(ToDouble(n)))
    case Unsigned(m, _) => Some(Num(ToDouble(m)))
    case Flt(f, _) => Some(f)
    case _ => None
  }

  /** The comparison of a negative signed integer with an unsigned one, which is refused. */
  predicate MixedSigns(a: Value, b: Value) {
    || (a.Signed? && b.Unsigned? && a.n < 0)
    || (a.Unsigned? && b.Signed? && b.n < 0)
  }

  function Sign(less: bool, more: bool): int {
    if less then -1 else if more then 1 else 0
  }

  function CompareAnyOrdered(a: Value, b: Value): Option<int> {
    match a
    case Time(x) => if b.Time? then Some(Sign(x < b.t, x > b.t)) else None
    case Str(x) => if b.Str? then Some(Sign(Less(x, b.s), Less(b.s, x))) else None
    case _ =>
      match (NumberToFloat(a), NumberToFloat(b))
      case (Some(x), Some(y)) =>
        if MixedSigns(a, b) then None else Some(Sign(FloatLess(x, y), FloatLess(y, x)))
      case _ => None
  }

  predicate IsNaN(v: Value) {
    v.Flt? && v.f == NaN
  }

  /** Comparison is antisymmetric: both directions compare or neither does, with opposite
      results. */
  lemma Antisymmetric(a: Value, b: Value)
    ensures match CompareAnyOrdered(a, b)
            case None => CompareAnyOrdered(b, a) == None
            case Some(c) => CompareAnyOrdered(b, a) == Some(-c)
  {
    hide ToDouble;
    if a.Str? && b.Str? && Less(a.s, b.s) { LessAsym(a.s, b.s); }
  }

  /** Numbers as they lie on the line, between the infinities; a NaN is level with everything. */
  function CompareFloats(x: Float, y: Float): int {
    if x == NaN || y == NaN || x == y then 0
    else if x == NegInf || y == PosInf then -1
    else if x == PosInf || y == NegInf then 1
    else if x.r < y.r then -1 else 1
  }

  /** What is compared: times on the time line, strings at their first difference, numbers as
      doubles, except a negative integer with an unsigned one; nothing across these kinds, and no
      other values. */
  lemma CompareMeaning(a: Value, b: Value)
    ensures CompareAnyOrdered(a, b).Some? ==>
      (a.Time? && b.Time?) || (a.Str? && b.Str?) || (NumberToFloat(a).Some? && NumberToFloat(b).Some?)
    ensures a.Time? && b.Time? ==>
      && CompareAnyOrdered(a, b) == Some(if a.t < b.t then -1 else if a.t == b.t then 0 else 1)
      && (OpMoreEq(a, b) <==> a.t >= b.t) && (OpLessEq(a, b) <==> a.t <= b.t)
    ensures a.Str? && b.Str? ==>
      && (CompareAnyOrdered(a, b) == Some(-1) <==> exists k: nat :: LessAt(a.s, b.s, k))
      && (CompareAnyOrdered(a, b) == Some(0) <==> a.s == b.s)
      && CompareAnyOrdered(a, b).Some?
    ensures NumberToFloat(a).Some? && NumberToFloat(b).Some? ==>
      && (CompareAnyOrdered(a, b) == None <==>
            (a.Signed? && a.n < 0 && b.Unsigned?) || (b.Signed? && b.n < 0 && a.Unsigned?))
      && (CompareAnyOrdered(a, b).Some? ==>
            CompareAnyOrdered(a, b) == Some(CompareFloats(NumberToFloat(a).value, NumberToFloat(b).value)))
  {
    hide ToDouble, LessAt;
    if a.Str? && b.Str? {
      LessExact(a.s, b.s);
      LessTotal(a.s, b.s);
      LessIrreflexive(a.s);
      hide Less;
    }
  }

  lemma FloatOrder(x: Float, y: Float, z: Float)
    requires x != NaN && y != NaN && z != NaN && !FloatLess(y, x) && !FloatLess(z, y)
    ensures !FloatLess(z, x)
    ensures FloatLess(x, y) || FloatLess(y, z) ==> FloatLess(x, z)
  {
  }

  lemma BytesOrder(x: Bytes, y: Bytes, z: Bytes)
    requires !Less(y, x) && !Less(z, y)
    ensures !Less(z, x)
    ensures Less(x, y) || Less(y, z) ==> Less(x, z)
  {
    LessTotal(x, y);
    LessTotal(y, z);
    if Less(x, y) && Less(y, z) { LessTransitive(x, y, z); }
    if Less(x, z) { LessAsym(x, z); }
    LessIrreflexive(x);
  }

  /** All three pairs compare, and neither step goes down. */
  predicate Ascends(a: Value, b: Value, c: Value) {
    && CompareAnyOrdered(a, b).Some? && CompareAnyOrdered(b, c).Some? && CompareAnyOrdered(a, c).Some?
    && CompareAnyOrdered(a, b).value <= 0 && CompareAnyOrdered(b, c).value <= 0
  }

  /** Comparison through a value that is not NaN is transitive; and if a step is strict, so is the
      result, exactly when the outer two are not NaN either. */
  lemma Transitive(a: Value, b: Value, c: Value)
    requires Ascends(a, b, c)
    ensures !IsNaN(b) ==> CompareAnyOrdered(a, c).value <= 0
    ensures CompareAnyOrdered(a, b).value < 0 || CompareAnyOrdered(b, c).value < 0 ==>
      (CompareAnyOrdered(a, c).value < 0 <==> !IsNaN(a) && !IsNaN(c))
  {
    hide ToDouble, Less;
    if a.Str? && b.Str? && c.Str? {
      Antisymmetric(a, b);
      Antisymmetric(b, c);
      BytesOrder(a.s, b.s, c.s);
    } else if NumberToFloat(a).Some? && !IsNaN(a) && !IsNaN(b) && !IsNaN(c) {
      FloatOrder(NumberToFloat(a).value, NumberToFloat(b).value, NumberToFloat(c).value);
    }
  }

  /** A NaN compares as equal to every number, so going through it breaks transitivity. */
  lemma NaNBreaksTransitivity(plain: bool)
    ensures var one, nan, two := Flt(Num(1.0), true), Flt(NaN, plain), Flt(Num(2.0), true);
      && CompareAnyOrdered(two, nan) == Some(0)
      && CompareAnyOrdered(nan, one) == Some(0)
      && CompareAnyOrdered(two, one) == Some(1)
  {
  }

  /** Transitivity exactly: a value may stand between any two others if and only if it is not
      NaN. */
  lemma TransitiveExact(b: Value)
    ensures (forall a, c :: Ascends(a, b, c) ==> CompareAnyOrdered(a, c).value <= 0) <==> !IsNaN(b)
  {
    hide CompareAnyOrdered;
    if IsNaN(b) {
      NaNBreaksTransitivity(b.plain);
      assert Ascends(Flt(Num(2.0), true), b, Flt(Num(1.0), true));
    } else {
      forall a, c | Ascends(a, b, c) ensures CompareAnyOrdered(a, c).value <= 0 { Transitive(a, b, c); }
    }
  }

  function IntOf(v: Value): int
    requires v.Signed? || v.Unsigned?
  {
    if v.Signed? then v.n else v.m
  }

  /** On integers of any kinds the comparison never contradicts the numeric order, and is the
      numeric order up to 2^53; beyond, different integers may compare as equal. */
  lemma IntegerOrder(a: Value, b: Value)
    requires Valid(a) && Valid(b) && (a.Signed? || a.Unsigned?) && (b.Signed? || b.Unsigned?)
    ensures CompareAnyOrdered(a, b).None? <==> MixedSigns(a, b)
    ensures CompareAnyOrdered(a, b).Some? ==>
      var c, x, y := CompareAnyOrdered(a, b).value, IntOf(a), IntOf(b);
      && (c < 0 ==> x < y) && (c > 0 ==> x > y)
      && (-TWO_TO_THE_53 <= x <= TWO_TO_THE_53 && -TWO_TO_THE_53 <= y <= TWO_TO_THE_53 ==>
            (c < 0 <==> x < y) && (c > 0 <==> x > y))
  {
    hide ToDouble;
    var x, y := IntOf(a), IntOf(b);
    if x <= y { ToDoubleOrder(x, y); } else { ToDoubleOrder(y, x); }
  }

  // ---- Operators on a scalar bound ----

  /** applyOpMoreEq with the bound as s.Value. */
  predicate OpMoreEq(val: Value, bound: Value) {
    match bound
    case Time(t) => val.Time? && val.t >= t
    case Str(s) => val.Str? && !Less(val.s, s)
    case Nil => false
    case Other => false
    case _ =>
      && bound.plain && NumberToFloat(val).Some? && !MixedSigns(val, bound)
      && var x, y := NumberToFloat(val).value, NumberToFloat(bound).value;
      FloatLess(y, x) || FloatEqual(x, y)
  }

  /** applyOpLessEq with the bound as s.Value. */
  predicate OpLessEq(val: Value, bound: Value) {
    match bound
    case Time(t) => val.Time? && val.t <= t
    case Str(s) => val.Str? && !Less(s, val.s)
    case Nil => false
    case Other => false
    case _ =>
      && bound.plain && NumberToFloat(val).Some? && !MixedSigns(val, bound)
      && var x, y := NumberToFloat(val).value, NumberToFloat(bound).value;
      FloatLess(x, y) || FloatEqual(x, y)
  }

  /** applyOpBetween with `min` and `max` as getBetweenRange gives them. */
  predicate OpBetween(val: Value, min: Value, max: Value) {
    && val != Nil && min != Nil && max != Nil
    && CompareAnyOrdered(val, min).Some?
    && CompareAnyOrdered(val, max).Some?
    && CompareAnyOrdered(val, min).value >= 0
    && CompareAnyOrdered(val, max).value <= 0
  }

  predicate Plain(v: Value) {
    v.Signed? || v.Unsigned? || v.Flt? ==> v.plain
  }

  lemma MoreEqExact(val: Value, bound: Value)
    ensures OpMoreEq(val, bound) <==>
      && CompareAnyOrdered(val, bound).Some? && CompareAnyOrdered(val, bound).value >= 0
      && !IsNaN(val) && !IsNaN(bound) && Plain(bound)
  {
    hide ToDouble, Less;
    if val.Str? && bound.Str? { Antisymmetric(val, bound); }
  }

  lemma LessEqExact(val: Value, bound: Value)
    ensures OpLessEq(val, bound) <==>
      && CompareAnyOrdered(val, bound).Some? && CompareAnyOrdered(val, bound).value <= 0
      && !IsNaN(val) && !IsNaN(bound) && Plain(bound)
  {
    hide ToDouble, Less;
    if val.Str? && bound.Str? { Antisymmetric(val, bound); }
  }

  /** `between` follows from `more_eq` and `less_eq`; the converse holds exactly if no NaN is
      compared and the bounds are of the basic numeric types. So the two sides differ exactly when
      `between` says yes to a NaN, to a NaN bound, or to a bound only reflection can read. */
  lemma BetweenExact(val: Value, min: Value, max: Value)
    ensures OpMoreEq(val, min) && OpLessEq(val, max) ==> OpBetween(val, min, max)
    ensures OpBetween(val, min, max) ==>
      (OpMoreEq(val, min) && OpLessEq(val, max)
       <==> !IsNaN(val) && !IsNaN(min) && !IsNaN(max) && Plain(min) && Plain(max))
  {
    MoreEqExact(val, min);
    LessEqExact(val, max);
    hide OpMoreEq, OpLessEq, IsNaN, Plain, ToDouble;
  }

  /** `between` accepts a NaN for any two bounds that are numbers, and any number for two bounds
      that are NaN; `more_eq` and `less_eq` accept none of these. */
  lemma BetweenNaN(nan: Value, a: Value, b: Value)
    requires IsNaN(nan)
    ensures OpBetween(nan, a, b) <==> NumberToFloat(a).Some? && NumberToFloat(b).Some?
    ensures OpBetween(a, nan, nan) <==> NumberToFloat(a).Some?
    ensures !OpMoreEq(nan, a) && !OpLessEq(nan, a) && !OpMoreEq(a, nan) && !OpLessEq(a, nan)
  {
    hide ToDouble;
  }
}
