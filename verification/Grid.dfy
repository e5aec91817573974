/** Rounding onto a number format's grid (engine/precision/grid.py, round_to_grid). A format's values
    are whole numbers of a spacing that doubles from binade to binade and stops shrinking at the
    subnormals (sections 3.3 and 4.3.1 of IEEE 754-2019). */
module Grid {
  import opened Powers

  /** `mantissaBits` and `minExponent` of the format; `dtypeMin` is the smallest normal exponent of
      the dtype the rounding is computed in, which no spacing goes below. */
  datatype Format = Format(mantissaBits: nat, minExponent: int, dtypeMin: int)

  function Max(a: int, b: int): int {
    if a >= b then a else b
  }

  /** The exponent of the spacing at `x`. */
  function Spacing(g: Format, x: real): int {
    Max(Max(Exponent(x) - 1, g.minExponent) - g.mantissaBits, g.dtypeMin)
  }

  /** The exponent of the smallest spacing. */
  function Finest(g: Format): int {
    Max(g.minExponent - g.mantissaBits, g.dtypeMin)
  }

  /** `x` in spacings. */
  function Units(g: Format, x: real): real {
    Times(x, Pow2(-Spacing(g, x)))
  }

  function HalfEven(u: real): (n: int)
    ensures -0.5 <= n as real - u <= 0.5
    ensures n as real - u == 0.5 || n as real - u == -0.5 ==> n % 2 == 0
  {
    var lower := u.Floor;
    var rest := u - lower as real;
    if rest < 0.5 || (rest == 0.5 && lower % 2 == 0) then lower else lower + 1
  }

  /** Round to nearest, ties to even. */
  function RoundToGrid(g: Format, x: real): real {
    Times(HalfEven(Units(g, x)) as real, Pow2(Spacing(g, x)))
  }

  /** Stochastic rounding by a uniform draw in [0, 1). */
  function RoundStochastic(g: Format, x: real, uniform: real): real {
    var lower := Units(g, x).Floor;
    var whole := if uniform < Units(g, x) - lower as real then lower + 1 else lower;
    Times(whole as real, Pow2(Spacing(g, x)))
  }

  /** A value of the format: a whole number of its own spacings. */
  ghost predicate OnGrid(g: Format, v: real) {
    exists k: int :: IsMultiple(v, k, Spacing(g, v))
  }

  /** v is k times 2^s. */
  ghost predicate IsMultiple(v: real, k: int, s: int) {
    v == Times(k as real, Pow2(s))
  }

  // ----- the grid's shape ---------------------------------------------------------------------

  lemma SpacingIs(g: Format, x: real)
    ensures Spacing(g, x) == Max(Exponent(x) - 1 - g.mantissaBits, Finest(g))
  {
  }

  lemma UnitsBack(g: Format, x: real)
    ensures Times(Units(g, x), Pow2(Spacing(g, x))) == x
  {
    Pow2Inverse(Spacing(g, x));
    Undo(x, Pow2(-Spacing(g, x)), Pow2(Spacing(g, x)));
  }

  lemma Undo(x: real, p: real, q: real)
    requires Times(q, p) == 1.0
    ensures Times(Times(x, p), q) == x
  {
    assert (x * p) * q == x * (q * p);
  }

  /** |x| is less than 2^(m+1) spacings. */
  lemma UnitsBound(g: Format, x: real)
    ensures Abs(Units(g, x)) < IntPow2(g.mantissaBits + 1) as real
  {
    var s := Spacing(g, x);
    Pow2IsInt(g.mantissaBits + 1);
    if x != 0.0 {
      ScaleBounds(Pow2(Exponent(x) - 1), Pow2(Exponent(x)), Pow2(-s), x);
      Pow2Add(Exponent(x), -s);
      if Exponent(x) - s < g.mantissaBits + 1 {
        Pow2Grows(Exponent(x) - s, g.mantissaBits + 1);
      }
    }
  }

  /** Any whole number up to 2^(m+1) of a spacing no finer than the finest is a value of the format,
      also where it leaves the binade it was counted in. */
  lemma MultipleOnGrid(g: Format, s: int, k: int)
    requires s >= Finest(g) && -IntPow2(g.mantissaBits + 1) <= k <= IntPow2(g.mantissaBits + 1)
    ensures OnGrid(g, Times(k as real, Pow2(s)))
  {
    if k == 0 {
      assert IsMultiple(0.0, 0, Spacing(g, 0.0));
    } else if -IntPow2(g.mantissaBits + 1) < k < IntPow2(g.mantissaBits + 1) {
      InnerMultiple(g, s, k);
    } else {
      EdgeMultiple(g, s, k);
    }
  }

  lemma TopOfRange(g: Format, s: int)
    ensures Times(IntPow2(g.mantissaBits + 1) as real, Pow2(s)) == Pow2(s + g.mantissaBits + 1)
  {
    Pow2Add(g.mantissaBits + 1, s);
    Pow2IsInt(g.mantissaBits + 1);
  }

  lemma InnerMultiple(g: Format, s: int, k: int)
    requires s >= Finest(g) && -IntPow2(g.mantissaBits + 1) < k < IntPow2(g.mantissaBits + 1) && k != 0
    ensures OnGrid(g, Times(k as real, Pow2(s)))
  {
    var v := Times(k as real, Pow2(s));
    TopOfRange(g, s);
    MultipleBelow(k, IntPow2(g.mantissaBits + 1), Pow2(s));
    ExponentAtMost(v, s + g.mantissaBits + 1);
    SpacingIs(g, v);
    var j := MultipleOf(k, Spacing(g, v), s);
    assert IsMultiple(v, j, Spacing(g, v));
  }

  lemma EdgeMultiple(g: Format, s: int, k: int)
    requires s >= Finest(g) && (k == IntPow2(g.mantissaBits + 1) || k == -IntPow2(g.mantissaBits + 1))
    ensures OnGrid(g, Times(k as real, Pow2(s)))
  {
    var v := Times(k as real, Pow2(s));
    var top := s + g.mantissaBits + 1;
    TopOfRange(g, s);
    Pow2Next(top);
    AbsTimes(k, Pow2(s));
    ExponentIs(v, top + 1);
    SpacingIs(g, v);
    var half := if k > 0 then IntPow2(g.mantissaBits) else -IntPow2(g.mantissaBits);
    DoubleUnit(half, k, s);
    assert IsMultiple(v, half, Spacing(g, v));
  }

  lemma MultipleBelow(k: int, n: int, p: real)
    requires -n < k < n && k != 0 && p > 0.0
    ensures Times(k as real, p) != 0.0
    ensures Abs(Times(k as real, p)) < Times(n as real, p)
  {
  }

  lemma AbsTimes(k: int, p: real)
    requires p > 0.0
    ensures Abs(Times(k as real, p)) == Times((if k < 0 then -k else k) as real, p)
  {
  }

  lemma DoubleUnit(half: int, k: int, s: int)
    requires k == 2 * half
    ensures Times(k as real, Pow2(s)) == Times(half as real, Pow2(s + 1))
  {
    Pow2Next(s);
    assert half as real * (2.0 * Pow2(s)) == (2 * half) as real * Pow2(s);
  }

  /** A grid value spaced no finer than 2^s is a whole number of 2^s. */
  lemma CoarserIsMultiple(g: Format, v: real, s: int) returns (j: int)
    requires OnGrid(g, v) && Spacing(g, v) >= s
    ensures IsMultiple(v, j, s)
  {
    var k: int :| IsMultiple(v, k, Spacing(g, v));
    j := MultipleOf(k, s, Spacing(g, v));
  }

  /** A value spaced finer than `x` lies below x's binade, whose lower end is 2^m spacings of x. */
  lemma FinerIsSmaller(g: Format, v: real, x: real)
    requires Spacing(g, v) < Spacing(g, x)
    ensures x != 0.0 ==> Abs(v) < Pow2(Exponent(x) - 1)
    ensures x != 0.0 ==> Pow2(Exponent(x) - 1) == Times(IntPow2(g.mantissaBits) as real, Pow2(Spacing(g, x)))
  {
    if x != 0.0 {
      SpacingIs(g, x);
      SpacingIs(g, v);
      Pow2Add(g.mantissaBits, Spacing(g, x));
      Pow2IsInt(g.mantissaBits);
      if v != 0.0 && Exponent(v) < Exponent(x) - 1 {
        Pow2Grows(Exponent(v), Exponent(x) - 1);
      }
    }
  }

  // ----- nearest ------------------------------------------------------------------------------

  /** The result is a value of the format, at most half a spacing from x. */
  lemma RoundedOnGrid(g: Format, x: real)
    ensures OnGrid(g, RoundToGrid(g, x))
    ensures 2.0 * Abs(RoundToGrid(g, x) - x) <= Pow2(Spacing(g, x))
  {
    UnitsBound(g, x);
    SpacingIs(g, x);
    MultipleOnGrid(g, Spacing(g, x), HalfEven(Units(g, x)));
    UnitsBack(g, x);
    Distance(HalfEven(Units(g, x)) as real, Units(g, x), Pow2(Spacing(g, x)));
  }

  lemma Distance(a: real, b: real, p: real)
    requires p > 0.0
    ensures Abs(Times(a, p) - Times(b, p)) == Times(Abs(a - b), p)
    ensures 2.0 * Abs(a - b) <= 1.0 ==> 2.0 * Abs(Times(a, p) - Times(b, p)) <= p
  {
    if a <= b {
      TimesMono(a, b, p);
      assert (b - a) * p == b * p - a * p;
    } else {
      TimesMono(b, a, p);
      assert (a - b) * p == a * p - b * p;
    }
    HalfTimes(Abs(a - b), p);
  }

  lemma HalfTimes(d: real, p: real)
    requires p > 0.0
    ensures 2.0 * d <= 1.0 ==> 2.0 * Times(d, p) <= p
  {
    if 2.0 * d <= 1.0 {
      assert d * p <= 0.5 * p;
    }
  }

  /** No whole number of the spacing is nearer than the one rounded to. */
  lemma NearestMultiple(g: Format, x: real, j: int)
    ensures Abs(RoundToGrid(g, x) - x) <= Abs(Times(j as real, Pow2(Spacing(g, x))) - x)
  {
    var u, n, p := Units(g, x), HalfEven(Units(g, x)), Pow2(Spacing(g, x));
    UnitsBack(g, x);
    Distance(n as real, u, p);
    Distance(j as real, u, p);
    NearestInt(u, n, j);
    TimesMono(Abs(n as real - u), Abs(j as real - u), p);
  }

  lemma NearestInt(u: real, n: int, j: int)
    requires -0.5 <= n as real - u <= 0.5
    ensures Abs(n as real - u) <= Abs(j as real - u)
  {
    if j < n {
      assert j as real <= n as real - 1.0;
    } else if j > n {
      assert j as real >= n as real + 1.0;
    }
  }

  lemma TimesMono(a: real, b: real, p: real)
    requires a <= b && p > 0.0
    ensures Times(a, p) <= Times(b, p)
  {
  }

  /** The nearest-rounded result is no farther from x than any value of the format, in x's binade,
      across its ends and among the subnormals. */
  lemma RoundsToNearest(g: Format, x: real, v: real)
    requires OnGrid(g, v)
    ensures Abs(RoundToGrid(g, x) - x) <= Abs(v - x)
  {
    if Spacing(g, v) >= Spacing(g, x) || x == 0.0 {
      if x == 0.0 {
        NearestMultiple(g, x, 0);
      } else {
        var j := CoarserIsMultiple(g, v, Spacing(g, x));
        NearestMultiple(g, x, j);
      }
    } else {
      FinerIsSmaller(g, v, x);
      var edge := if x > 0.0 then IntPow2(g.mantissaBits) else -IntPow2(g.mantissaBits);
      AbsTimes(edge, Pow2(Spacing(g, x)));
      NearestMultiple(g, x, edge);
      SignedEdge(IntPow2(g.mantissaBits), Pow2(Spacing(g, x)));
    }
  }

  lemma SignedEdge(n: int, p: real)
    ensures Times((-n) as real, p) == -Times(n as real, p)
  {
  }

  /** A tie goes to the even multiple. */
  lemma TieGoesToEven(g: Format, x: real)
    requires 2.0 * Abs(HalfEven(Units(g, x)) as real - Units(g, x)) == 1.0
    ensures exists k: int :: IsMultiple(RoundToGrid(g, x), k, Spacing(g, x)) && k % 2 == 0
  {
    assert IsMultiple(RoundToGrid(g, x), HalfEven(Units(g, x)), Spacing(g, x));
  }

  /** Values of the format are left as they are ... */
  lemma GridValuesAreFixed(g: Format, x: real)
    requires OnGrid(g, x)
    ensures RoundToGrid(g, x) == x
  {
    RoundsToNearest(g, x, x);
  }

  /** ... so rounding twice is rounding once. */
  lemma RoundingIsIdempotent(g: Format, x: real)
    ensures RoundToGrid(g, RoundToGrid(g, x)) == RoundToGrid(g, x)
  {
    RoundedOnGrid(g, x);
    GridValuesAreFixed(g, RoundToGrid(g, x));
  }

  lemma RoundingIsMonotone(g: Format, x: real, y: real)
    requires x <= y
    ensures RoundToGrid(g, x) <= RoundToGrid(g, y)
  {
    RoundedOnGrid(g, x);
    RoundedOnGrid(g, y);
    RoundsToNearest(g, x, RoundToGrid(g, y));
    RoundsToNearest(g, y, RoundToGrid(g, x));
  }

  lemma RoundingIsOdd(g: Format, x: real)
    ensures RoundToGrid(g, -x) == -RoundToGrid(g, x)
  {
    hide Times, HalfEven, Exponent;
    if x != 0.0 {
      ExponentIs(-x, Exponent(x));
    }
    var u, p := Units(g, x), Pow2(Spacing(g, x));
    Negate(x, Pow2(-Spacing(g, x)));
    HalfEvenIsOdd(u);
    SignedEdge(HalfEven(u), p);
  }

  lemma Negate(x: real, p: real)
    ensures Times(-x, p) == -Times(x, p)
  {
  }

  lemma HalfEvenIsOdd(u: real)
    ensures HalfEven(-u) == -HalfEven(u)
  {
    var n, m := HalfEven(u), HalfEven(-u);
    assert -1.0 <= n as real + m as real <= 1.0;
    assert -1 <= n + m <= 1;
  }

  // ----- stochastic ---------------------------------------------------------------------------

  /** Within the interval from `a` to `b`, `a` left out. */
  predicate Between(a: real, v: real, b: real) {
    a < v <= b || b <= v < a
  }

  /** No value of the format lies between. */
  ghost predicate NoneUpTo(g: Format, a: real, b: real) {
    forall v :: OnGrid(g, v) ==> !Between(a, v, b)
  }

  /** Given a uniform draw the result is one of the format's two values around x, and x itself where
      x is a value of the format. */
  lemma StochasticIsNeighbour(g: Format, x: real, uniform: real)
    requires 0.0 <= uniform < 1.0
    ensures OnGrid(g, RoundStochastic(g, x, uniform))
    ensures NoneUpTo(g, RoundStochastic(g, x, uniform), x)
    ensures OnGrid(g, x) ==> RoundStochastic(g, x, uniform) == x
  {
    var u, s := Units(g, x), Spacing(g, x);
    var whole := if uniform < u - u.Floor as real then u.Floor + 1 else u.Floor;
    UnitsBound(g, x);
    SpacingIs(g, x);
    MultipleOnGrid(g, s, whole);
    forall v | OnGrid(g, v) ensures !Between(RoundStochastic(g, x, uniform), v, x) {
      NothingBetween(g, x, v, whole);
    }
  }

  /** A whole number next to u, or u itself. */
  predicate IsNeighbour(whole: int, u: real) {
    whole == u.Floor || (whole == u.Floor + 1 && u != u.Floor as real)
  }

  lemma NothingBetween(g: Format, x: real, v: real, whole: int)
    requires OnGrid(g, v) && IsNeighbour(whole, Units(g, x))
    ensures !Between(Times(whole as real, Pow2(Spacing(g, x))), v, x)
  {
    hide Times, Spacing, OnGrid, IsNeighbour, Units;
    UnitsBack(g, x);
    if x == 0.0 {
      ZeroIsWhole(g, x, whole);
    } else if Spacing(g, v) >= Spacing(g, x) {
      var j := CoarserIsMultiple(g, v, Spacing(g, x));
      MultipleNotBetween(j, whole, Units(g, x), Pow2(Spacing(g, x)));
    } else {
      FinerNotBetween(g, x, v, whole);
    }
  }

  lemma ZeroIsWhole(g: Format, x: real, whole: int)
    requires x == 0.0 && IsNeighbour(whole, Units(g, x))
    ensures Times(whole as real, Pow2(Spacing(g, x))) == x
  {
    assert Units(g, x) == 0.0;
  }

  /** A value below x's binade is beyond the multiple at the binade's end. */
  lemma FinerNotBetween(g: Format, x: real, v: real, whole: int)
    requires IsNeighbour(whole, Units(g, x)) && x != 0.0 && Spacing(g, v) < Spacing(g, x)
    ensures !Between(Times(whole as real, Pow2(Spacing(g, x))), v, x)
  {
    hide Times, Spacing, IsNeighbour, Units;
    var u, p, edge := Units(g, x), Pow2(Spacing(g, x)), IntPow2(g.mantissaBits);
    FinerIsSmaller(g, v, x);
    SignedEdge(edge, p);
    UnitsBack(g, x);
    ExponentPlaces(x);
    MultipleNotBetween(edge, whole, u, p);
    MultipleNotBetween(-edge, whole, u, p);
  }

  lemma ExponentPlaces(x: real)
    requires x != 0.0
    ensures Pow2(Exponent(x) - 1) <= Abs(x)
  {
  }

  /** A whole number of p between `whole` and its neighbour u is `whole` itself. */
  lemma MultipleNotBetween(j: int, whole: int, u: real, p: real)
    requires p > 0.0 && IsNeighbour(whole, u)
    ensures !Between(Times(whole as real, p), Times(j as real, p), Times(u, p))
    ensures Times(j as real, p) <= Times(u, p) ==> Times(j as real, p) <= Times(whole as real, p)
    ensures Times(j as real, p) >= Times(u, p) ==> Times(j as real, p) >= Times(whole as real, p)
  {
    hide Times;
    IntBetween(j, whole, u);
    TimesOrder(j as real, u, p);
    TimesOrder(u, j as real, p);
    TimesOrder(j as real, whole as real, p);
    TimesOrder(whole as real, j as real, p);
  }

  lemma IntBetween(j: int, whole: int, u: real)
    requires IsNeighbour(whole, u)
    ensures j as real <= u ==> j <= whole
    ensures j as real >= u ==> j >= whole
  {
  }

  lemma TimesOrder(a: real, b: real, p: real)
    requires p > 0.0
    ensures a <= b <==> Times(a, p) <= Times(b, p)
  {
  }

  /** The mean of `b` with chance `rest` and `a` otherwise. */
  function Weighted(rest: real, a: real, b: real): real {
    (1.0 - rest) * a + rest * b
  }

  /** The draw rounds up for a share `rest` of [0, 1), x's place in its gap, so the result's mean is x. */
  lemma StochasticIsUnbiased(g: Format, x: real)
    ensures var u, p := Units(g, x), Pow2(Spacing(g, x));
            var rest := u - u.Floor as real;
            && 0.0 <= rest < 1.0
            && Weighted(rest, Times(u.Floor as real, p), Times(u.Floor as real + 1.0, p)) == x
            && forall uniform :: 0.0 <= uniform < 1.0 ==>
                 RoundStochastic(g, x, uniform) ==
                 if uniform < rest then Times(u.Floor as real + 1.0, p) else Times(u.Floor as real, p)
  {
    UnitsBack(g, x);
    var lower := Units(g, x).Floor;
    assert (lower + 1) as real == lower as real + 1.0;
    Mean(lower as real, Units(g, x) - lower as real, Units(g, x), Pow2(Spacing(g, x)));
  }

  lemma Mean(lower: real, rest: real, u: real, p: real)
    requires u == lower + rest
    ensures Weighted(rest, Times(lower, p), Times(lower + 1.0, p)) == Times(u, p)
  {
    var lp := lower * p;
    assert (lower + 1.0) * p == lp + p;
    assert (1.0 - rest) * lp + rest * (lp + p) == lp + rest * p;
    assert u * p == lp + rest * p;
  }
}
