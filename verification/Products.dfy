/** Power-of-two scaling into a format's range (engine/precision/grid.py, scale_exponent) and the
    residual terms of a matrix operand (engine/precision/products.py, _quantize and _terms). Values
    are finite; an out-of-range grid value becomes a term that is not. */
module Products {
  import opened Powers
  import opened Grid
  import FloatBits

  // ----- the scale ----------------------------------------------------------------------------

  const TOP := 126

  function Clip(k: int): int {
    if k < -TOP then -TOP else if k > TOP then TOP else k
  }

  function ScaleExponent(amax: real, limit: real): int {
    var k := Exponent(limit) - Exponent(amax);
    var scaled := Times(amax, Pow2(Clip(k)));
    Clip(if scaled > limit then k - 1 else k)
  }

  lemma ScaledGrows(x: real, j: int, k: int)
    requires j <= k && x >= 0.0
    ensures Times(x, Pow2(j)) <= Times(x, Pow2(k))
  {
    if j < k {
      Pow2Grows(j, k);
      Ordered(x, Pow2(j), Pow2(k));
    }
  }

  lemma Ordered(x: real, p: real, q: real)
    requires x >= 0.0 && p <= q
    ensures Times(x, p) <= Times(x, q)
  {
    assert x * (q - p) >= 0.0;
  }

  /** Scaled by the difference of exponents, `amax` is in the limit's binade; one power further it is
      past the limit, one power back it is within. */
  lemma SameBinade(amax: real, limit: real)
    requires amax > 0.0 && limit > 0.0
    ensures var k := Exponent(limit) - Exponent(amax);
            Times(amax, Pow2(k - 1)) < limit < Times(amax, Pow2(k + 1))
  {
    var e, k := Exponent(limit), Exponent(limit) - Exponent(amax);
    ExponentScaled(amax, k - 1);
    ExponentScaled(amax, k + 1);
    PositiveTimes(amax, Pow2(k - 1));
    PositiveTimes(amax, Pow2(k + 1));
    assert InBinade(Times(amax, Pow2(k - 1)), e - 1);
    assert InBinade(Times(amax, Pow2(k + 1)), e + 1);
  }

  lemma PositiveTimes(x: real, p: real)
    requires x > 0.0 && p > 0.0
    ensures Times(x, p) > 0.0
  {
  }

  /** The largest exponent in range that keeps amax within the limit. It does keep it so exactly when
      the lowest exponent does: a larger `amax` saturates the range from below. */
  lemma ScaleIsLargest(amax: real, limit: real)
    requires amax > 0.0 && limit > 0.0
    ensures var r := ScaleExponent(amax, limit);
            && -TOP <= r <= TOP
            && (forall k :: -TOP <= k <= TOP && Times(amax, Pow2(k)) <= limit ==> k <= r)
            && (Times(amax, Pow2(r)) <= limit <==> Times(amax, Pow2(-TOP)) <= limit)
            && (r < TOP ==> limit < Times(amax, Pow2(r + 1)))
            && (limit < Times(amax, Pow2(-TOP)) ==> r == -TOP)
  {
    hide Times, Exponent;
    var d, r := Exponent(limit) - Exponent(amax), ScaleExponent(amax, limit);
    SameBinade(amax, limit);
    if d > TOP {
      ScaledGrows(amax, TOP, d - 1);
    } else if d < -TOP {
      ScaledGrows(amax, d + 1, -TOP);
    }
    ScaledGrows(amax, -TOP, r);
    if r < TOP {
      if d < -TOP {
        ScaledGrows(amax, d + 1, r + 1);
      }
      forall k | r < k <= TOP ensures Times(amax, Pow2(k)) > limit {
        ScaledGrows(amax, r + 1, k);
      }
    }
  }

  /** Where the range saturates from below the largest magnitude stays above the limit: 2^200, a
      float64, against the 448 of e4m3. */
  lemma LowSaturation()
    ensures Times(Pow2(200), Pow2(ScaleExponent(Pow2(200), 448.0))) > 448.0
  {
    Pow2Add(200, -TOP);
    Pow2Grows(9, 74);
    assert Pow2(9) == 512.0;
    ScaleIsLargest(Pow2(200), 448.0);
  }

  /** A slice's largest magnitude lands in (limit/2, limit], as it is meant to, exactly when the lowest
      exponent keeps it within the limit and the highest one brings it past half of it. */
  lemma ScaledIntoTopHalf(amax: real, limit: real)
    requires amax > 0.0 && limit > 0.0
    ensures limit / 2.0 < Times(amax, Pow2(ScaleExponent(amax, limit))) <= limit <==>
            Times(amax, Pow2(-TOP)) <= limit && limit / 2.0 < Times(amax, Pow2(TOP))
  {
    var r := ScaleExponent(amax, limit);
    ScaleIsLargest(amax, limit);
    ScaledGrows(amax, r, TOP);
    DoubledScale(amax, r);
  }

  lemma DoubledScale(x: real, k: int)
    ensures Times(x, Pow2(k + 1)) == 2.0 * Times(x, Pow2(k))
  {
    Pow2Next(k);
    DoubleProduct(x, Pow2(k), Pow2(k + 1));
  }

  /** Where the range saturates from above the largest magnitude stays below half the limit: 2^-130, a
      float32 subnormal, against e4m3's 448. */
  lemma HighSaturation()
    ensures ScaleExponent(Pow2(-130), 448.0) == TOP
    ensures Times(Pow2(-130), Pow2(ScaleExponent(Pow2(-130), 448.0))) < 448.0 / 2.0
  {
    Pow2Add(-130, TOP);
    assert Pow2(-4) == 1.0 / 16.0;
    ScaleIsLargest(Pow2(-130), 448.0);
  }

  /** Every scale and its inverse are built exactly as float32 numbers, and one exponent more has no such
      inverse. */
  lemma ScalesAreFloats(k: int)
    ensures -TOP <= k <= TOP ==> BuiltExactly(k) && BuiltExactly(-k)
    ensures !BuiltExactly(-TOP - 1)
  {
    if -TOP <= k <= TOP {
      FloatBits.Pow2Bits32Is(k);
      FloatBits.Pow2Bits32Is(-k);
    }
    assert FloatBits.Pow2Bits32(-127) == 0;
    FloatBits.NoMagnitude(0, 0);
    PositiveTimes(1.0, Pow2(-127));
  }

  ghost predicate BuiltExactly(k: int)
    requires -127 <= k <= 127
  {
    var bits := FloatBits.Pow2Bits32(k);
    0 <= bits < 0x1_0000_0000 && FloatBits.Finite32(bits) && FloatBits.Value32(bits) == Pow2(k)
  }

  // ----- one term -----------------------------------------------------------------------------

  /** `limit` is the format's largest value; `scaled` is false under the option that turns scaling
      off. */
  datatype Target = Target(grid: Format, limit: real, scaled: bool)

  /** A rounded value, or the overflow the target's encoding has in its place. */
  datatype Term = Finite(value: real) | Overflow

  const FLOAT32_TOP := 128

  predicate Scales(t: Target) {
    t.scaled && Exponent(t.limit) < FLOAT32_TOP
  }

  /** The largest magnitude of a slice, 0 for an empty one. */
  function Largest(x: seq<real>): (a: real)
    ensures a >= 0.0
  {
    if x == [] then 0.0
    else
      var rest := Largest(x[1..]);
      if Abs(x[0]) >= rest then Abs(x[0]) else rest
  }

  /** No entry is larger, and one is as large. */
  lemma {:induction false} LargestIs(x: seq<real>)
    ensures forall j :: 0 <= j < |x| ==> Abs(x[j]) <= Largest(x)
    ensures Largest(x) == 0.0 || exists j :: 0 <= j < |x| && Abs(x[j]) == Largest(x)
  {
    if x != [] {
      LargestIs(x[1..]);
      assert forall j :: 1 <= j < |x| ==> x[j] == x[1..][j - 1];
      if Abs(x[0]) < Largest(x[1..]) {
        var j :| 0 <= j < |x[1..]| && Abs(x[1..][j]) == Largest(x[1..]);
        assert Abs(x[j + 1]) == Largest(x);
      }
    }
  }

  /** A slice's largest magnitude at the lowest scale there is. */
  function Lowest(x: seq<real>): real {
    Times(Largest(x), Pow2(-TOP))
  }

  /** The scale exponent of a slice. */
  function SliceExponent(t: Target, x: seq<real>): int {
    if Scales(t) then ScaleExponent(Largest(x), t.limit) else 0
  }

  function Quantized(t: Target, x: real, k: int): Term {
    var rounded := RoundToGrid(t.grid, Times(x, Pow2(k)));
    if Abs(rounded) > t.limit then Overflow else Finite(rounded)
  }

  /** What a term at scale 2^k stands for. */
  function Taken(term: Term, k: int): real
    requires term.Finite?
  {
    Times(term.value, Pow2(-k))
  }

  /** What a term leaves: nothing where it overflowed. */
  function Left(t: Target, x: real, k: int): real {
    var term := Quantized(t, x, k);
    if term.Finite? then x - Taken(term, k) else 0.0
  }

  /** A usable target: the limit is a value of the grid, and normal. */
  ghost predicate Usable(t: Target) {
    && t.limit > 0.0 && OnGrid(t.grid, t.limit)
    && t.grid.minExponent <= Exponent(t.limit) - 1
    && t.grid.dtypeMin <= Exponent(t.limit) - 1 - t.grid.mantissaBits
  }

  /** The largest value of a format of `bits` mantissa bits and float32's range. */
  ghost function WideTop(bits: nat): real {
    Pow2(FLOAT32_TOP) - Pow2(FLOAT32_TOP - 1 - bits)
  }

  lemma TopIsWide(bits: nat)
    ensures WideTop(bits) >= Pow2(127)
  {
    Pow2Next(FLOAT32_TOP - 1);
    if bits > 0 {
      Pow2Grows(FLOAT32_TOP - 1 - bits, FLOAT32_TOP - 1);
    }
  }

  /** The exponent of float32's smallest normal, below which its arithmetic spaces no values. */
  const FLOAT32_MIN := -126

  const E4M3 := Target(Format(3, -6, FLOAT32_MIN), 448.0, true)
  const E5M2 := Target(Format(2, -14, FLOAT32_MIN), 57344.0, true)
  const FLOAT16 := Target(Format(10, -14, FLOAT32_MIN), 65504.0, true)
  ghost const BFLOAT16 := Target(Format(7, FLOAT32_MIN, FLOAT32_MIN), WideTop(7), true)
  ghost const TENSORFLOAT32 := Target(Format(10, FLOAT32_MIN, FLOAT32_MIN), WideTop(23), true)

  /** A slice is scaled exactly under the option for it and where the format's largest value is below
      float32's top binade. */
  lemma ScalesBelowFloat32(t: Target)
    requires t.limit > 0.0
    ensures Scales(t) <==> t.scaled && t.limit < Pow2(127)
  {
    var e := Exponent(t.limit);
    if e < 128 && e < 127 {
      Pow2Grows(e, 127);
    } else if e > 128 {
      Pow2Grows(127, e - 1);
    }
  }

  /** e4m3, e5m2 and float16 in float32 arithmetic, which are scaled ... */
  lemma FormatsAreUsable()
    ensures Usable(E4M3) && Usable(E5M2) && Usable(FLOAT16)
    ensures Finest(E4M3.grid) == -9 && Finest(E5M2.grid) == -16 && Finest(FLOAT16.grid) == -24
    ensures Scales(E4M3) && Scales(E5M2) && Scales(FLOAT16)
  {
    OnOwnGrid(E4M3.grid, E4M3.limit, 14, 5);
    OnOwnGrid(E5M2.grid, E5M2.limit, 7, 13);
    OnOwnGrid(FLOAT16.grid, FLOAT16.limit, 2047, 5);
    assert Pow2(16) == 65536.0;
    Pow2Grows(16, 127);
    ScalesBelowFloat32(E4M3);
    ScalesBelowFloat32(E5M2);
    ScalesBelowFloat32(FLOAT16);
  }

  /** ... and bfloat16 and TensorFloat-32, of float32's range, which are not. */
  lemma WideFormatsAreUnscaled()
    ensures !Scales(BFLOAT16) && !Scales(TENSORFLOAT32)
    ensures Finest(BFLOAT16.grid) == Finest(TENSORFLOAT32.grid) == FLOAT32_MIN == -126
  {
    TopIsWide(7);
    TopIsWide(23);
    ScalesBelowFloat32(BFLOAT16);
    ScalesBelowFloat32(TENSORFLOAT32);
  }

  /** n spacings of 2^s, n between 2^m and 2^(m+1). */
  lemma OnOwnGrid(g: Format, v: real, n: int, s: int)
    requires IntPow2(g.mantissaBits) <= n < IntPow2(g.mantissaBits + 1) && v == Times(n as real, Pow2(s))
    requires g.minExponent <= s + g.mantissaBits && g.dtypeMin <= s
    ensures OnGrid(g, v) && Exponent(v) == s + g.mantissaBits + 1
  {
    Pow2Add(g.mantissaBits, s);
    Pow2Add(g.mantissaBits + 1, s);
    Pow2IsInt(g.mantissaBits);
    Pow2IsInt(g.mantissaBits + 1);
    TimesMono(IntPow2(g.mantissaBits) as real, n as real, Pow2(s));
    TimesOrder(IntPow2(g.mantissaBits + 1) as real, n as real, Pow2(s));
    PositiveTimes(n as real, Pow2(s));
    ExponentIs(v, s + g.mantissaBits + 1);
    assert IsMultiple(v, n, Spacing(g, v));
  }

  /** No value within a value of the grid rounds past it. */
  lemma StaysWithin(g: Format, x: real, bound: real)
    requires OnGrid(g, bound) && Abs(x) <= bound
    ensures Abs(RoundToGrid(g, x)) <= bound
  {
    GridValuesAreFixed(g, bound);
    RoundingIsOdd(g, bound);
    RoundingIsMonotone(g, x, bound);
    RoundingIsMonotone(g, -bound, x);
  }

  /** A value scaled past the format's top binade overflows. */
  lemma PastTopOverflows(t: Target, x: real, k: int)
    requires Usable(t) && Abs(Times(x, Pow2(k))) >= Pow2(Exponent(t.limit))
    ensures Quantized(t, x, k).Overflow?
  {
    hide RoundToGrid, OnGrid, Times, Exponent;
    var e, y := Exponent(t.limit), Times(x, Pow2(k));
    BelowTop(t);
    TopOnGrid(t);
    GridValuesAreFixed(t.grid, Pow2(e));
    RoundingIsMonotone(t.grid, Pow2(e), Abs(y));
    RoundingIsOdd(t.grid, Abs(y));
  }

  lemma BelowTop(t: Target)
    requires t.limit > 0.0
    ensures t.limit < Pow2(Exponent(t.limit))
  {
  }

  /** The next power of two is on the grid too. */
  lemma TopOnGrid(t: Target)
    requires Usable(t)
    ensures OnGrid(t.grid, Pow2(Exponent(t.limit)))
  {
    var e, m := Exponent(t.limit), t.grid.mantissaBits;
    Pow2Add(m, e - m);
    Pow2IsInt(m);
    Pow2Next(e);
    ExponentIs(Pow2(e), e + 1);
    assert IsMultiple(Pow2(e), IntPow2(m), Spacing(t.grid, Pow2(e)));
  }

  lemma Unscaled(x: real, k: int)
    ensures Times(Times(x, Pow2(k)), Pow2(-k)) == x
  {
    Pow2Inverse(k);
    Undo(x, Pow2(k), Pow2(-k));
  }

  lemma TimesMinus(a: real, b: real, p: real)
    ensures Times(a, p) - Times(b, p) == Times(a - b, p)
  {
    assert (a - b) * p == a * p - b * p;
  }

  /** Unscaled, what a term leaves is the rounding error. */
  lemma LeftIs(t: Target, x: real, k: int)
    requires Quantized(t, x, k).Finite?
    ensures var y := Times(x, Pow2(k)); Left(t, x, k) == Times(y - RoundToGrid(t.grid, y), Pow2(-k))
  {
    Unscaled(x, k);
    TimesMinus(Times(x, Pow2(k)), RoundToGrid(t.grid, Times(x, Pow2(k))), Pow2(-k));
  }

  lemma ErrorAtMostValue(g: Format, y: real)
    ensures Abs(y - RoundToGrid(g, y)) <= Abs(y)
  {
    MultipleOnGrid(g, Finest(g), 0);
    RoundsToNearest(g, y, Times(0 as real, Pow2(Finest(g))));
  }

  /** A term never leaves more than it was given. */
  lemma NeverMore(t: Target, x: real, k: int)
    ensures Abs(Left(t, x, k)) <= Abs(x)
  {
    if Quantized(t, x, k).Finite? {
      var y := Times(x, Pow2(k));
      LeftIs(t, x, k);
      ErrorAtMostValue(t.grid, y);
      AbsOfTimes(y - RoundToGrid(t.grid, y), Pow2(-k));
      AbsOfTimes(y, Pow2(-k));
      TimesMono(Abs(y - RoundToGrid(t.grid, y)), Abs(y), Pow2(-k));
      Unscaled(x, k);
    }
  }

  lemma AbsOfTimes(a: real, p: real)
    requires p > 0.0
    ensures Abs(Times(a, p)) == Times(Abs(a), p)
  {
    Distance(a, 0.0, p);
    assert Times(0.0, p) == 0.0;
  }

  lemma ZeroOnGrid(d: Format)
    ensures OnGrid(d, 0.0)
  {
    assert IsMultiple(0.0, 0, Spacing(d, 0.0));
  }

  /** The subtraction loses nothing: what a term leaves of a value of any format is a value of that
      same format, whatever the scale. */
  lemma RestIsExact(d: Format, t: Target, x: real, k: int)
    requires OnGrid(d, x)
    ensures OnGrid(d, Left(t, x, k))
  {
    ZeroOnGrid(d);
    if Quantized(t, x, k).Finite? {
      var n: int :| IsMultiple(x, n, Spacing(d, x));
      if Spacing(t.grid, Times(x, Pow2(k))) - k < Spacing(d, x) {
        FinerLeavesNothing(t, x, k, n, Spacing(d, x));
      } else {
        CoarserLeavesValue(d, t, x, k, n);
      }
    }
  }

  lemma FinerLeavesNothing(t: Target, x: real, k: int, n: int, s: int)
    requires Quantized(t, x, k).Finite? && IsMultiple(x, n, s)
    requires Spacing(t.grid, Times(x, Pow2(k))) - k < s
    ensures Left(t, x, k) == 0.0
  {
    var y := Times(x, Pow2(k));
    var j := ScaledMultiple(x, y, k, n, s, Spacing(t.grid, y));
    WholeIsFixed(t.grid, y, j);
    FixedLeavesNothing(t, x, k);
  }

  lemma WholeIsFixed(g: Format, y: real, j: int)
    requires y == Times(j as real, Pow2(Spacing(g, y)))
    ensures RoundToGrid(g, y) == y
  {
    NearestMultiple(g, y, j);
  }

  /** A multiple of 2^s, scaled by 2^k, is a whole number of every spacing 2^a up to 2^(s+k). */
  lemma ScaledMultiple(x: real, y: real, k: int, n: int, s: int, a: int) returns (j: int)
    requires IsMultiple(x, n, s) && a - k < s && y == Times(x, Pow2(k))
    ensures y == Times(j as real, Pow2(a))
  {
    j := MultipleOf(n, a, s + k);
    Pow2Add(s, k);
    Nested(n as real, Pow2(s), Pow2(k), Pow2(s + k));
  }

  lemma FixedLeavesNothing(t: Target, x: real, k: int)
    requires Quantized(t, x, k).Finite? && RoundToGrid(t.grid, Times(x, Pow2(k))) == Times(x, Pow2(k))
    ensures Left(t, x, k) == 0.0
  {
    Unscaled(x, k);
  }

  lemma CoarserLeavesValue(d: Format, t: Target, x: real, k: int, n: int)
    requires Quantized(t, x, k).Finite? && IsMultiple(x, n, Spacing(d, x))
    requires Spacing(t.grid, Times(x, Pow2(k))) - k >= Spacing(d, x)
    ensures OnGrid(d, Left(t, x, k))
  {
    var j := CoarserTaken(t.grid, Times(x, Pow2(k)), k, Spacing(d, x));
    NeverMore(t, x, k);
    DifferenceOnGrid(d, x, n, j, Left(t, x, k));
  }

  lemma CoarserTaken(g: Format, y: real, k: int, s: int) returns (j: int)
    requires s <= Spacing(g, y) - k
    ensures Times(RoundToGrid(g, y), Pow2(-k)) == Times(j as real, Pow2(s))
  {
    TakenIsMultiple(g, y, k);
    j := MultipleOf(HalfEven(Units(g, y)), s, Spacing(g, y) - k);
  }

  lemma TakenIsMultiple(g: Format, y: real, k: int)
    ensures Times(RoundToGrid(g, y), Pow2(-k)) == Times(HalfEven(Units(g, y)) as real, Pow2(Spacing(g, y) - k))
  {
    Pow2Add(Spacing(g, y), -k);
    Nested(HalfEven(Units(g, y)) as real, Pow2(Spacing(g, y)), Pow2(-k), Pow2(Spacing(g, y) - k));
  }

  lemma Nested(a: real, p: real, q: real, r: real)
    requires r == Times(p, q)
    ensures Times(Times(a, p), q) == Times(a, r)
  {
    assert (a * p) * q == a * (p * q);
  }

  lemma DifferenceOnGrid(d: Format, x: real, n: int, j: int, left: real)
    requires IsMultiple(x, n, Spacing(d, x)) && Abs(left) <= Abs(x)
    requires left == x - Times(j as real, Pow2(Spacing(d, x)))
    ensures OnGrid(d, left)
  {
    var p := Pow2(Spacing(d, x));
    TimesMinus(n as real, j as real, p);
    assert left == Times((n - j) as real, p);
    UnitsBound(d, x);
    UnitsBack(d, x);
    SameUnits(Units(d, x), n as real, p);
    SmallerCount(n - j, n, p);
    SpacingIs(d, x);
    MultipleOnGrid(d, Spacing(d, x), n - j);
  }

  lemma SameUnits(u: real, n: real, p: real)
    requires p > 0.0 && Times(u, p) == Times(n, p)
    ensures u == n
  {
    TimesOrder(u, n, p);
    TimesOrder(n, u, p);
  }

  lemma SmallerCount(a: int, b: int, p: real)
    requires p > 0.0 && Abs(Times(a as real, p)) <= Abs(Times(b as real, p))
    ensures Abs(a as real) <= Abs(b as real)
  {
    AbsOfTimes(a as real, p);
    AbsOfTimes(b as real, p);
    TimesOrder(Abs(a as real), Abs(b as real), p);
  }

  // ----- how much a term leaves ---------------------------------------------------------------

  /** A scaled value within the limit is rounded by at most 2^(E-2-m), E the limit's exponent. */
  lemma ScaledError(t: Target, y: real)
    requires Usable(t) && Abs(y) <= t.limit
    ensures Abs(y - RoundToGrid(t.grid, y)) <= Pow2(Exponent(t.limit) - 2 - t.grid.mantissaBits)
  {
    var top := Exponent(t.limit) - 1 - t.grid.mantissaBits;
    if y == 0.0 {
      ErrorAtMostValue(t.grid, y);
    } else {
      RoundedOnGrid(t.grid, y);
      ExponentAtMost(y, Exponent(t.limit));
      if Spacing(t.grid, y) < top {
        Pow2Grows(Spacing(t.grid, y), top);
      }
      Pow2Next(top - 1);
    }
  }

  lemma LeftWithin(t: Target, x: real, k: int, bound: int)
    requires Quantized(t, x, k).Finite?
    requires var y := Times(x, Pow2(k)); Abs(y - RoundToGrid(t.grid, y)) <= Pow2(bound)
    ensures Abs(Left(t, x, k)) <= Pow2(bound - k)
  {
    var y := Times(x, Pow2(k));
    LeftIs(t, x, k);
    AbsOfTimes(y - RoundToGrid(t.grid, y), Pow2(-k));
    TimesMono(Abs(y - RoundToGrid(t.grid, y)), Pow2(bound), Pow2(-k));
    Pow2Add(bound, -k);
  }

  /** Where the scale brings `amax` above half the limit, 2^(E-2-m-k) is within amax 2^-m. */
  lemma TopHalf(amax: real, limit: real, k: int, m: int)
    requires limit > 0.0 && limit < Times(amax, Pow2(k + 1))
    ensures Pow2(Exponent(limit) - 2 - m - k) <= Times(amax, Pow2(-m))
  {
    var e := Exponent(limit) - 1;
    var q := -k - 1 - m;
    TimesMono(Pow2(e), Times(amax, Pow2(k + 1)), Pow2(q));
    Pow2Add(e, q);
    Pow2Add(k + 1, q);
    Nested(amax, Pow2(k + 1), Pow2(q), Pow2(-m));
  }

  /** Each step leaves no more than it was given, and either 2^-q of it or at most `floor`. */
  predicate Shrinks(given: real, left: real, q: int, floor: real) {
    left <= given && (left <= Times(given, Pow2(-q)) || left <= floor)
  }

  lemma ScaledWithin(x: real, amax: real, k: int)
    requires Abs(x) <= amax
    ensures Abs(Times(x, Pow2(k))) <= Times(amax, Pow2(k))
  {
    AbsOfTimes(x, Pow2(k));
    TimesMono(Abs(x), amax, Pow2(k));
  }

  lemma FitsAndLeaves(t: Target, x: real, k: int)
    requires Usable(t) && Abs(Times(x, Pow2(k))) <= t.limit
    ensures Quantized(t, x, k).Finite?
    ensures Abs(Left(t, x, k)) <= Pow2(Exponent(t.limit) - 2 - t.grid.mantissaBits - k)
  {
    StaysWithin(t.grid, Times(x, Pow2(k)), t.limit);
    ScaledError(t, Times(x, Pow2(k)));
    LeftWithin(t, x, k, Exponent(t.limit) - 2 - t.grid.mantissaBits);
  }

  lemma EntryShrinks(t: Target, x: real, amax: real)
    requires Usable(t) && Scales(t) && Abs(x) <= amax && amax > 0.0
    requires Times(amax, Pow2(-TOP)) <= t.limit
    ensures var k, m := ScaleExponent(amax, t.limit), t.grid.mantissaBits;
            && Quantized(t, x, k).Finite?
            && Abs(Left(t, x, k)) <= if k < TOP then Times(amax, Pow2(0 - m)) else Pow2(Exponent(t.limit) - 128 - m)
  {
    var k, m := ScaleExponent(amax, t.limit), t.grid.mantissaBits;
    ScaleIsLargest(amax, t.limit);
    ScaledWithin(x, amax, k);
    FitsAndLeaves(t, x, k);
    if k < TOP {
      TopHalf(amax, t.limit, k, m);
    }
  }

  /** What one term leaves of a slice. */
  function Step(t: Target, x: seq<real>): (r: seq<real>)
    ensures |r| == |x| && forall j :: 0 <= j < |x| ==> r[j] == Left(t, x[j], SliceExponent(t, x))
  {
    seq(|x|, j requires 0 <= j < |x| => Left(t, x[j], SliceExponent(t, x)))
  }

  function Floor(t: Target): real {
    Pow2(Exponent(t.limit) - 128 - t.grid.mantissaBits)
  }

  ghost predicate AllFinite(t: Target, x: seq<real>) {
    forall j :: 0 <= j < |x| ==> Quantized(t, x[j], SliceExponent(t, x)).Finite?
  }

  lemma ZeroLeft(t: Target, k: int)
    requires Usable(t)
    ensures Quantized(t, 0.0, k).Finite? && Left(t, 0.0, k) == 0.0
  {
    assert Times(0.0, Pow2(k)) == 0.0;
    StaysWithin(t.grid, 0.0, t.limit);
    NeverMore(t, 0.0, k);
  }

  /** A bound on every entry is one on the largest. */
  lemma LargestAtMost(x: seq<real>, b: real)
    requires b >= 0.0 && forall j :: 0 <= j < |x| ==> Abs(x[j]) <= b
    ensures Largest(x) <= b
  {
    LargestIs(x);
  }

  lemma StepEntry(t: Target, x: seq<real>, j: nat)
    requires j < |x| && Usable(t) && Scales(t) && Lowest(x) <= t.limit
    ensures var k, left := SliceExponent(t, x), Abs(Left(t, x[j], SliceExponent(t, x)));
            && Quantized(t, x[j], k).Finite? && left <= Largest(x)
            && left <= if k < TOP then Times(Largest(x), Pow2(0 - t.grid.mantissaBits)) else Floor(t)
  {
    var amax := Largest(x);
    LargestIs(x);
    NeverMore(t, x[j], SliceExponent(t, x));
    if amax > 0.0 {
      EntryShrinks(t, x[j], amax);
    } else {
      assert x[j] == 0.0;
      ZeroLeft(t, SliceExponent(t, x));
      NonnegativeTimes(amax, Pow2(0 - t.grid.mantissaBits));
    }
  }

  lemma StepShrinks(t: Target, x: seq<real>)
    requires Usable(t) && Scales(t) && Lowest(x) <= t.limit
    ensures AllFinite(t, x)
    ensures Shrinks(Largest(x), Largest(Step(t, x)), t.grid.mantissaBits, Floor(t))
    ensures SliceExponent(t, x) < TOP ==>
              Largest(Step(t, x)) <= Times(Largest(x), Pow2(0 - t.grid.mantissaBits))
  {
    var b := if SliceExponent(t, x) < TOP then Times(Largest(x), Pow2(0 - t.grid.mantissaBits)) else Floor(t);
    forall j | 0 <= j < |x|
      ensures Quantized(t, x[j], SliceExponent(t, x)).Finite?
      ensures Abs(Step(t, x)[j]) <= Largest(x) && Abs(Step(t, x)[j]) <= b
    {
      StepEntry(t, x, j);
    }
    NonnegativeTimes(Largest(x), Pow2(0 - t.grid.mantissaBits));
    LargestAtMost(Step(t, x), Largest(x));
    LargestAtMost(Step(t, x), b);
  }

  lemma NonnegativeTimes(x: real, p: real)
    requires x >= 0.0 && p > 0.0
    ensures Times(x, p) >= 0.0
  {
  }

  // ----- all terms ----------------------------------------------------------------------------

  /** What `i` terms leave of a slice. */
  function RestAt(t: Target, x: seq<real>, i: nat): (r: seq<real>)
    ensures |r| == |x|
  {
    if i == 0 then x else Step(t, RestAt(t, x, i - 1))
  }

  /** Term `i` of entry `j`. */
  function TermAt(t: Target, x: seq<real>, i: nat, j: nat): Term
    requires j < |x|
  {
    Quantized(t, RestAt(t, x, i)[j], SliceExponent(t, RestAt(t, x, i)))
  }

  function RoundedSlice(t: Target, x: seq<real>, k: int): (r: seq<Term>)
    ensures |r| == |x| && forall j :: 0 <= j < |x| ==> r[j] == Quantized(t, x[j], k)
  {
    seq(|x|, j requires 0 <= j < |x| => Quantized(t, x[j], k))
  }

  /** `terms` and `exponents` are the first terms of the slice. */
  ghost predicate AreTerms(t: Target, x: seq<real>, terms: seq<seq<Term>>, exponents: seq<int>) {
    && |terms| == |exponents|
    && forall i :: 0 <= i < |terms| ==> IsTerm(t, x, i, terms[i], exponents[i])
  }

  ghost predicate IsTerm(t: Target, x: seq<real>, i: nat, terms: seq<Term>, exponent: int) {
    && |terms| == |x|
    && exponent == SliceExponent(t, RestAt(t, x, i))
    && forall j :: 0 <= j < |x| ==> terms[j] == TermAt(t, x, i, j)
  }

  lemma RoundedIsTerm(t: Target, x: seq<real>, i: nat)
    ensures var rest := RestAt(t, x, i); var k := SliceExponent(t, rest);
            IsTerm(t, x, i, RoundedSlice(t, rest, k), k)
  {
  }

  lemma AppendTerm(t: Target, x: seq<real>, terms: seq<seq<Term>>, exponents: seq<int>, term: seq<Term>, k: int)
    requires AreTerms(t, x, terms, exponents) && IsTerm(t, x, |terms|, term, k)
    ensures AreTerms(t, x, terms + [term], exponents + [k])
  {
    hide IsTerm;
    var terms', exponents' := terms + [term], exponents + [k];
    forall i: nat | i < |terms'| ensures IsTerm(t, x, i, terms'[i], exponents'[i]) {
      if i < |terms| {
        assert terms'[i] == terms[i] && exponents'[i] == exponents[i];
      }
    }
  }

  lemma NextTerm(t: Target, x: seq<real>, terms: seq<seq<Term>>, exponents: seq<int>, rest: seq<real>)
    requires AreTerms(t, x, terms, exponents) && rest == RestAt(t, x, |terms|)
    ensures AreTerms(t, x, terms + [RoundedSlice(t, rest, SliceExponent(t, rest))],
                     exponents + [SliceExponent(t, rest)])
    ensures Step(t, rest) == RestAt(t, x, |terms| + 1)
  {
    RoundedIsTerm(t, x, |terms|);
    AppendTerm(t, x, terms, exponents, RoundedSlice(t, rest, SliceExponent(t, rest)), SliceExponent(t, rest));
  }

  /** `_terms` on one slice: the terms and their scale exponents. */
  method Terms(t: Target, x: seq<real>, count: nat) returns (terms: seq<seq<Term>>, exponents: seq<int>)
    ensures |terms| == count && AreTerms(t, x, terms, exponents)
  {
    terms, exponents := [], [];
    var rest := x;
    for i := 0 to count
      invariant |terms| == i && AreTerms(t, x, terms, exponents)
      invariant i < count ==> rest == RestAt(t, x, |terms|)
    {
      NextTerm(t, x, terms, exponents, rest);
      var k := SliceExponent(t, rest);
      terms, exponents := terms + [RoundedSlice(t, rest, k)], exponents + [k];
      if i + 1 < count {
        rest := Step(t, rest);
      }
    }
  }

  /** Entry j put together again from its first `count` terms. */
  ghost function Reconstructed(t: Target, x: seq<real>, count: nat, j: nat): real
    requires j < |x| && forall i :: 0 <= i < count ==> TermAt(t, x, i, j).Finite?
  {
    if count == 0 then 0.0
    else Reconstructed(t, x, count - 1, j)
         + Taken(TermAt(t, x, count - 1, j), SliceExponent(t, RestAt(t, x, count - 1)))
  }

  /** A term takes what the next rest lacks. */
  lemma RestIsLeft(t: Target, x: seq<real>, i: nat, j: nat)
    requires j < |x| && TermAt(t, x, i, j).Finite?
    ensures RestAt(t, x, i + 1)[j] == RestAt(t, x, i)[j] - Taken(TermAt(t, x, i, j), SliceExponent(t, RestAt(t, x, i)))
  {
  }

  lemma NothingTaken(t: Target, x: seq<real>)
    ensures RestAt(t, x, 0) == x
  {
  }

  lemma {:induction false} RestIsDifference(t: Target, x: seq<real>, count: nat, j: nat)
    requires j < |x| && forall i :: 0 <= i < count ==> TermAt(t, x, i, j).Finite?
    ensures RestAt(t, x, count)[j] == x[j] - Reconstructed(t, x, count, j)
  {
    hide TermAt, SliceExponent, Taken, RestAt;
    if count == 0 {
      NothingTaken(t, x);
    } else {
      RestIsDifference(t, x, count - 1, j);
      RestIsLeft(t, x, count - 1, j);
    }
  }

  // ----- the error of all terms ---------------------------------------------------------------

  /** The largest magnitude `i` terms leave. */
  ghost function Size(t: Target, x: seq<real>, i: nat): real {
    Largest(RestAt(t, x, i))
  }

  /** Term `i` fits the format and shrinks what is left; `floor` is how little it may leave without
      shrinking it by the full mantissa. */
  ghost predicate TermShrinks(t: Target, x: seq<real>, i: nat, floor: real) {
    && AllFinite(t, RestAt(t, x, i))
    && Shrinks(Size(t, x, i), Size(t, x, i + 1), t.grid.mantissaBits, floor)
  }

  lemma TermsFinite(t: Target, x: seq<real>, count: nat, j: nat, floor: real)
    requires j < |x| && forall i :: 0 <= i < count ==> TermShrinks(t, x, i, floor)
    ensures forall i :: 0 <= i < count ==> TermAt(t, x, i, j).Finite?
  {
    forall i | 0 <= i < count ensures TermAt(t, x, i, j).Finite? {
      assert TermShrinks(t, x, i, floor);
    }
  }

  /** The scale of term `i` is below the upper end of its range. */
  ghost predicate Unclipped(t: Target, x: seq<real>, i: nat) {
    SliceExponent(t, RestAt(t, x, i)) < TOP
  }

  /** A rest no larger than the slice is within reach of the scale's range when the slice is, so a term
      shrinks it. */
  lemma TermShrinksRest(t: Target, x: seq<real>, i: nat)
    requires Usable(t) && Scales(t) && Size(t, x, i) <= Largest(x)
    requires Lowest(x) <= t.limit
    ensures TermShrinks(t, x, i, Floor(t))
    ensures Unclipped(t, x, i) ==> TermShrinks(t, x, i, -1.0)
  {
    TimesMono(Size(t, x, i), Largest(x), Pow2(-TOP));
    StepShrinks(t, RestAt(t, x, i));
  }

  lemma FirstSize(t: Target, x: seq<real>)
    ensures Size(t, x, 0) == Largest(x)
  {
  }

  lemma {:induction false} RestsShrink(t: Target, x: seq<real>, i: nat)
    requires Usable(t) && Scales(t) && Lowest(x) <= t.limit
    ensures Size(t, x, i) <= Largest(x)
    ensures TermShrinks(t, x, i, Floor(t))
    ensures Unclipped(t, x, i) ==> TermShrinks(t, x, i, -1.0)
  {
    hide *;
    if i == 0 {
      FirstSize(t, x);
    } else {
      RestsShrink(t, x, i - 1);
      SizeFalls(t, x, i - 1, Floor(t));
    }
    TermShrinksRest(t, x, i);
  }

  lemma SizeFalls(t: Target, x: seq<real>, i: nat, floor: real)
    requires TermShrinks(t, x, i, floor)
    ensures Size(t, x, i + 1) <= Size(t, x, i)
  {
  }

  /** first 2^(-m n). */
  function Decayed(first: real, m: nat, n: nat): real {
    Times(first, Pow2(0 - m * n))
  }

  lemma NotDecayed(first: real, m: nat, n: nat)
    requires n == 0
    ensures Decayed(first, m, n) == first
  {
    assert m * n == 0;
    assert Times(first, 1.0) == first;
  }

  lemma {:induction false} Decays(t: Target, x: seq<real>, n: nat, floor: real)
    requires forall i :: 0 <= i < n ==> TermShrinks(t, x, i, floor)
    ensures Size(t, x, n) <= Decayed(Largest(x), t.grid.mantissaBits, n) || Size(t, x, n) <= floor
  {
    if n == 0 {
      NotDecayed(Largest(x), t.grid.mantissaBits, n);
    } else {
      Decays(t, x, n - 1, floor);
      assert TermShrinks(t, x, n - 1, floor);
      DecayStep(Largest(x), Size(t, x, n - 1), Size(t, x, n), t.grid.mantissaBits, n, floor);
    }
  }

  lemma DecayStep(first: real, given: real, left: real, m: nat, n: nat, floor: real)
    requires n > 0 && Shrinks(given, left, m, floor)
    requires given <= Decayed(first, m, n - 1) || given <= floor
    ensures left <= Decayed(first, m, n) || left <= floor
  {
    if given <= Decayed(first, m, n - 1) {
      var a, b := 0 - m * (n - 1), 0 - m * n;
      TimesMono(given, Times(first, Pow2(a)), Pow2(0 - m));
      assert a + (0 - m) == b;
      Pow2Add(a, 0 - m);
      Nested(first, Pow2(a), Pow2(0 - m), Pow2(b));
    }
  }

  lemma EntryWithinSize(t: Target, x: seq<real>, i: nat, j: nat)
    requires j < |x|
    ensures Abs(RestAt(t, x, i)[j]) <= Size(t, x, i)
  {
    LargestIs(RestAt(t, x, i));
  }

  /** Once the terms are known to shrink what is left, so is the error of putting an entry together. */
  lemma ErrorWithin(t: Target, x: seq<real>, count: nat, j: nat, floor: real)
    requires j < |x| && forall i :: 0 <= i < count ==> TermShrinks(t, x, i, floor)
    ensures forall i :: 0 <= i < count ==> TermAt(t, x, i, j).Finite?
    ensures var error := Abs(x[j] - Reconstructed(t, x, count, j));
            error <= Decayed(Largest(x), t.grid.mantissaBits, count) || error <= floor
  {
    TermsFinite(t, x, count, j, floor);
    RestIsDifference(t, x, count, j);
    Decays(t, x, count, floor);
    EntryWithinSize(t, x, count, j);
  }

  /** A slice within reach of the scale's range: no scaled term is past the format's largest value, and
      `count` terms put every entry together again to within amax 2^(-m count), or to within 2^(E-128-m)
      where the scale's upper end is reached, E the exponent of the format's largest value. */
  lemma TermsReconstruct(t: Target, x: seq<real>, count: nat, j: nat)
    requires Usable(t) && Scales(t) && Lowest(x) <= t.limit && j < |x|
    ensures forall i :: 0 <= i < count ==> TermAt(t, x, i, j).Finite?
    ensures var error := Abs(x[j] - Reconstructed(t, x, count, j));
            error <= Decayed(Largest(x), t.grid.mantissaBits, count) || error <= Floor(t)
  {
    forall i | 0 <= i < count ensures TermShrinks(t, x, i, Floor(t)) {
      RestsShrink(t, x, i);
    }
    ErrorWithin(t, x, count, j, Floor(t));
  }

  lemma AbsNonnegative(x: real)
    ensures Abs(x) >= 0.0
  {
  }

  /** Where no exponent reaches the range's upper end, the geometric bound alone. */
  lemma UnclippedTermsReconstruct(t: Target, x: seq<real>, count: nat, j: nat)
    requires Usable(t) && Scales(t) && Lowest(x) <= t.limit && j < |x|
    requires forall i :: 0 <= i < count ==> Unclipped(t, x, i)
    ensures forall i :: 0 <= i < count ==> TermAt(t, x, i, j).Finite?
    ensures Abs(x[j] - Reconstructed(t, x, count, j)) <= Decayed(Largest(x), t.grid.mantissaBits, count)
  {
    forall i | 0 <= i < count ensures TermShrinks(t, x, i, -1.0) {
      RestsShrink(t, x, i);
    }
    ErrorWithin(t, x, count, j, -1.0);
    AbsNonnegative(x[j] - Reconstructed(t, x, count, j));
  }

  // ----- formats that are not scaled ----------------------------------------------------------

  /** Rounding is within 2^-(m+1) of the value, or within half the finest spacing. */
  lemma RelativeError(g: Format, x: real)
    ensures Shrinks(Abs(x), Abs(x - RoundToGrid(g, x)), g.mantissaBits + 1, Pow2(Finest(g) - 1))
  {
    ErrorAtMostValue(g, x);
    RoundedOnGrid(g, x);
    SpacingIs(g, x);
    Pow2Next(Spacing(g, x) - 1);
    if x != 0.0 && Spacing(g, x) != Finest(g) {
      var e := Exponent(x) - 1;
      Pow2Add(e, 0 - g.mantissaBits - 1);
      TimesMono(Pow2(e), Abs(x), Pow2(0 - g.mantissaBits - 1));
    }
  }

  lemma UnscaledShrinks(t: Target, x: real, bound: real)
    requires OnGrid(t.grid, bound) && Abs(x) <= bound <= t.limit
    ensures Quantized(t, x, 0).Finite?
    ensures Shrinks(Abs(x), Abs(Left(t, x, 0)), t.grid.mantissaBits + 1, Pow2(Finest(t.grid) - 1))
  {
    TimesOne(x);
    TimesOne(RoundToGrid(t.grid, x));
    StaysWithin(t.grid, x, bound);
    RelativeError(t.grid, x);
  }

  lemma TimesOne(x: real)
    ensures Times(x, Pow2(0)) == x
  {
  }

  /** Entry `j` after `n` terms: no more than at first, and decayed or within `floor`. */
  ghost predicate EntryDecays(t: Target, x: seq<real>, n: nat, j: nat, floor: real)
    requires j < |x|
  {
    var left := Abs(RestAt(t, x, n)[j]);
    left <= Abs(x[j]) && (left <= Decayed(Abs(x[j]), t.grid.mantissaBits + 1, n) || left <= floor)
  }

  lemma UnscaledNext(t: Target, x: seq<real>, n: nat, j: nat, bound: real)
    requires !Scales(t) && j < |x| && OnGrid(t.grid, bound) && Abs(x[j]) <= bound <= t.limit
    requires EntryDecays(t, x, n, j, Pow2(Finest(t.grid) - 1))
    ensures TermAt(t, x, n, j).Finite? && EntryDecays(t, x, n + 1, j, Pow2(Finest(t.grid) - 1))
  {
    var given := RestAt(t, x, n)[j];
    UnscaledShrinks(t, given, bound);
    DecayStep(Abs(x[j]), Abs(given), Abs(Left(t, given, 0)), t.grid.mantissaBits + 1, n + 1, Pow2(Finest(t.grid) - 1));
  }

  lemma UnscaledFirst(t: Target, x: seq<real>, j: nat, floor: real)
    requires j < |x|
    ensures EntryDecays(t, x, 0, j, floor)
  {
    NotDecayed(Abs(x[j]), t.grid.mantissaBits + 1, 0);
  }

  lemma {:induction false} UnscaledRest(t: Target, x: seq<real>, n: nat, j: nat, bound: real)
    requires !Scales(t) && j < |x| && OnGrid(t.grid, bound) && Abs(x[j]) <= bound <= t.limit
    ensures EntryDecays(t, x, n, j, Pow2(Finest(t.grid) - 1))
  {
    hide *;
    if n == 0 {
      UnscaledFirst(t, x, j, Pow2(Finest(t.grid) - 1));
    } else {
      UnscaledRest(t, x, n - 1, j, bound);
      UnscaledNext(t, x, n - 1, j, bound);
    }
  }

  /** A format with float32's range (bfloat16, TensorFloat-32), or any with scaling off, keeps each entry
      that is within a value of its grid to the entry's own relative error: 2^-((m+1) count), or half the
      finest spacing. */
  lemma UnscaledTermsReconstruct(t: Target, x: seq<real>, count: nat, j: nat, bound: real)
    requires !Scales(t) && j < |x| && OnGrid(t.grid, bound) && Abs(x[j]) <= bound <= t.limit
    ensures forall i :: 0 <= i < count ==> TermAt(t, x, i, j).Finite?
    ensures var error := Abs(x[j] - Reconstructed(t, x, count, j));
            error <= Decayed(Abs(x[j]), t.grid.mantissaBits + 1, count) || error <= Pow2(Finest(t.grid) - 1)
  {
    forall i | 0 <= i < count ensures TermAt(t, x, i, j).Finite? {
      UnscaledRest(t, x, i, j, bound);
      UnscaledNext(t, x, i, j, bound);
    }
    UnscaledRest(t, x, count, j, bound);
    RestIsDifference(t, x, count, j);
  }
}
