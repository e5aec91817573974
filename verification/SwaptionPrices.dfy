/** What a swaption helper's model price is (engine/calibration/lgm.py): stationary in the exercise boundary
    at y*, best there, and of a swap valued on the simulated market's curve. */
module SwaptionPrices {
  import opened LinearAlgebra
  import opened Powers
  import opened Sums
  import opened HullWhite
  import opened SwaptionHelpers
  import K = Calibration
  import M = ScenarioMarket
  import T = TermStructures

  // ----- the price is stationary at y* --------------------------------------------------------

  /** The normal density, but for a constant, at the argument of `Probability`. */
  function Density(m: Model, y: real, zeta: real): Fn {
    dh => DensityAt(m.exp, Over(y + Times(dh, zeta), m.sqrt(zeta)))
  }

  function DensityAt(exp: Fn, x: real): real {
    exp(-0.5 * Times(x, x))
  }

  /** (y + dh zeta)^2 / zeta, with a square root r of zeta. */
  lemma ExponentExpands(y: real, dh: real, zeta: real, r: real)
    requires r * r == zeta && r != 0.0
    ensures var x, x0 := Over(y + Times(dh, zeta), r), Over(y + Times(0.0, zeta), r);
            -0.5 * Times(x, x) == -0.5 * Times(x0, x0) + (-Times(dh, y) - 0.5 * Times(Times(dh, dh), zeta))
  {
    var a := dh * r;
    ShiftedQuotient(y, dh, zeta, r);
    var x0 := Over(y + Times(0.0, zeta), r);
    assert Times(0.0, zeta) == 0.0;
    assert x0 * r == y;
    SquareOfSum(x0, a, dh * y, dh * dh * zeta);
  }

  lemma ShiftedQuotient(y: real, dh: real, zeta: real, r: real)
    requires r * r == zeta && r != 0.0
    ensures Over(y + Times(dh, zeta), r) == Over(y + Times(0.0, zeta), r) + dh * r
    ensures Over(y + Times(0.0, zeta), r) * (dh * r) == dh * y
    ensures (dh * r) * (dh * r) == dh * dh * zeta
  {
    var q := y / r;
    assert q * r == y;
    assert Times(0.0, zeta) == 0.0;
    assert dh * zeta == (dh * r) * r;
    QuotientOfSum(y, dh * r, r);
    assert q * (dh * r) == dh * (q * r);
    assert (dh * r) * (dh * r) == dh * dh * (r * r);
  }

  lemma QuotientOfSum(y: real, a: real, r: real)
    requires r != 0.0
    ensures (y + a * r) / r == y / r + a
  {
    assert (y / r + a) * r == y + a * r;
  }

  lemma SquareOfSum(x: real, a: real, xa: real, aa: real)
    requires x * a == xa && a * a == aa
    ensures (x + a) * (x + a) == x * x + 2.0 * xa + aa
  {
  }

  /** Along dH the density falls as the bond does. */
  lemma DensityIsBond(m: Model, y: real, zeta: real, dh: real)
    requires IsExp(m.exp) && IsSqrt(m.sqrt) && zeta > 0.0
    ensures Density(m, y, zeta)(dh) == Times(Density(m, y, zeta)(0.0), Bond(m, y, zeta)(dh))
  {
    var r := m.sqrt(zeta);
    var x0 := Over(y + Times(0.0, zeta), r);
    ExponentExpands(y, dh, zeta, r);
    assert AddsAt(m.exp, -0.5 * Times(x0, x0), -Times(dh, y) - 0.5 * Times(Times(dh, dh), zeta));
  }

  ghost predicate ScaledBy(f: Fn, g: Fn, k: real) {
    forall dh :: g(dh) == Times(k, f(dh))
  }

  lemma CashScales(m: Model, c: Curves, h: Helper, strike: real, f: Fn, g: Fn, k: real)
    requires Valid(h) && ScaledBy(f, g, k)
    ensures Sum(CashTerms(m, c, h, strike, g), |h.fixed|) == Times(Sum(CashTerms(m, c, h, strike, f), |h.fixed|), k)
  {
    forall j | 0 <= j < |h.fixed|
      ensures TermScales(CashTerms(m, c, h, strike, f), CashTerms(m, c, h, strike, g), k, j)
    {
      CashTermScales(m, c, h, strike, f, g, k, j);
    }
    TermsScale(CashTerms(m, c, h, strike, f), CashTerms(m, c, h, strike, g), k, |h.fixed|);
  }

  lemma CashTermScales(m: Model, c: Curves, h: Helper, strike: real, f: Fn, g: Fn, k: real, j: nat)
    requires Valid(h) && ScaledBy(f, g, k) && j < |h.fixed|
    ensures TermScales(CashTerms(m, c, h, strike, f), CashTerms(m, c, h, strike, g), k, j)
  {
    assert g(DeltaH(m, h, j)) == Times(k, f(DeltaH(m, h, j)));
    ScaledTerm(Cash(c, h, strike, j), f(DeltaH(m, h, j)), k);
  }

  lemma SwapScales(m: Model, c: Curves, h: Helper, strike: real, f: Fn, atStart: real, g: Fn, k: real)
    requires Valid(h) && ScaledBy(f, g, k)
    ensures Swap(m, c, h, strike, g, Times(k, atStart)) == Times(Swap(m, c, h, strike, f, atStart), k)
  {
    CashScales(m, c, h, strike, f, g, k);
    assert g(DeltaH(m, h, h.last)) == Times(k, f(DeltaH(m, h, h.last)));
    TotalScales(Sum(CashTerms(m, c, h, strike, f), |h.fixed|), StartAmount(c, h), StartDiscount(c, h), atStart,
                c.disc(h.fixed[h.last].pay), f(DeltaH(m, h, h.last)), k);
  }

  lemma ScaledTerm(x: real, f: real, k: real)
    ensures Times(x, Times(k, f)) == Times(x, f) * k
  {
    assert x * (k * f) == x * f * k;
  }

  lemma TotalScales(cash: real, s: real, d0: real, atStart: real, dLast: real, f: real, k: real)
    ensures Total(Times(cash, k), s, d0, Times(k, atStart), dLast, Times(k, f))
            == Times(Total(cash, s, d0, atStart, dLast, f), k)
  {
    ScaledTerm(s * d0, atStart, k);
    ScaledTerm(dLast, f, k);
    ScaledTerm(d0, atStart, k);
    var x, y, z := s * d0 * atStart, dLast * f, d0 * atStart;
    assert (cash - x + y - z) * k == cash * k - x * k + y * k - z * k;
  }

  lemma DensityPositive(m: Model, y: real, zeta: real, dh: real)
    requires IsExp(m.exp)
    ensures Density(m, y, zeta)(dh) > 0.0
  {
    var x := Over(y + Times(dh, zeta), m.sqrt(zeta));
    ExpPositive(m.exp, -0.5 * Times(x, x));
  }

  lemma DensityScalesBond(m: Model, y: real, zeta: real)
    requires IsExp(m.exp) && IsSqrt(m.sqrt) && zeta > 0.0
    ensures ScaledBy(Bond(m, y, zeta), Density(m, y, zeta), Density(m, y, zeta)(0.0))
  {
    var f, g := Bond(m, y, zeta), Density(m, y, zeta);
    forall dh ensures g(dh) == Times(g(0.0), f(dh)) {
      DensityIsBond(m, y, zeta, dh);
    }
  }

  lemma ZeroTimes(x: real, k: real)
    requires k > 0.0
    ensures Times(x, k) == 0.0 <==> x == 0.0
  {
  }

  /** Density-weighted, the swap is the underlying times a positive factor. */
  lemma DensityWeighed(m: Model, c: Curves, h: Helper, strike: real, y: real, zeta: real)
    requires Valid(h) && IsExp(m.exp) && IsSqrt(m.sqrt) && zeta > 0.0
    ensures Density(m, y, zeta)(0.0) > 0.0
    ensures Weighed(m, c, h, strike, Density(m, y, zeta))
            == Times(Underlying(m, c, h, strike, zeta)(y), Density(m, y, zeta)(0.0))
  {
    var k := Density(m, y, zeta)(0.0);
    DensityScalesBond(m, y, zeta);
    DensityPositive(m, y, zeta, 0.0);
    SwapScales(m, c, h, strike, Bond(m, y, zeta), 1.0, Density(m, y, zeta), k);
    SignedTimes(k);
  }

  /** A function's slope at a point: what is left of its change is at most of second order in the step. */
  ghost predicate HasSlope(f: Fn, x: real, slope: real, bound: real) {
    forall d :: NearLine(f, x, slope, bound, d)
  }

  ghost predicate NearLine(f: Fn, x: real, slope: real, bound: real, d: real) {
    Abs(f(x + d) - f(x) - Times(slope, d)) <= Times(bound, Times(d, d))
  }

  /** A function has one slope at a point. */
  lemma SlopeIsUnique(f: Fn, x: real, s: real, t: real, a: real, b: real)
    requires HasSlope(f, x, s, a) && HasSlope(f, x, t, b)
    ensures s == t
  {
    if s < t {
      SlopeNotBelow(f, x, s, t, a, b);
    } else if t < s {
      SlopeNotBelow(f, x, t, s, b, a);
    }
  }

  lemma SlopeNotBelow(f: Fn, x: real, s: real, t: real, a: real, b: real)
    requires HasSlope(f, x, s, a) && HasSlope(f, x, t, b)
    ensures s >= t
  {
    assert NearLine(f, x, s, a, 1.0) && NearLine(f, x, t, b, 1.0);
    assert a >= 0.0 && b >= 0.0;
    if s < t {
      var d := SmallStep(t - s, a + b);
      assert NearLine(f, x, s, a, d) && NearLine(f, x, t, b, d);
      LinesPart(s, t, a, b, d);
    }
  }

  /** A step at which a second-order term is below a first-order one. */
  lemma SmallStep(gap: real, bound: real) returns (d: real)
    requires gap > 0.0 && bound >= 0.0
    ensures d > 0.0 && bound * d < gap
  {
    d := gap / (bound + gap);
    assert d * (bound + gap) == gap;
    assert d > 0.0;
    assert d * gap > 0.0;
  }

  lemma LinesPart(s: real, t: real, a: real, b: real, d: real)
    requires d > 0.0 && (a + b) * d < t - s
    ensures Times(a, Times(d, d)) + Times(b, Times(d, d)) < Times(t, d) - Times(s, d)
  {
    var dd := d * d;
    assert a * dd + b * dd == (a + b) * d * d;
    ProductOrder((a + b) * d, t - s, d);
    assert (t - s) * d == t * d - s * d;
  }

  /** The cdf has the density, but for its constant, as its slope everywhere. */
  ghost predicate HasDensity(cdf: Fn, exp: Fn, scale: real, bound: real) {
    forall x :: HasSlope(cdf, x, Times(scale, DensityAt(exp, x)), bound)
  }

  /** A step of y in units of the deviation, signed. */
  function UnitStep(m: Model, w: real, zeta: real, d: real): real {
    Over(Times(w, d), m.sqrt(zeta))
  }

  function Scaled(f: Fn, k: real): Fn {
    dh => Times(k, f(dh))
  }

  /** A probability's change less its first-order part. */
  function Rest(m: Model, w: real, y: real, zeta: real, scale: real, d: real): Fn {
    dh => Probability(m, w, y + d, zeta)(dh) - Probability(m, w, y, zeta)(dh)
          - Times(Times(scale, UnitStep(m, w, zeta, d)), Density(m, y, zeta)(dh))
  }

  lemma ArgumentMoves(m: Model, w: real, y: real, zeta: real, d: real, dh: real)
    ensures Argument(m, w, y + d, zeta, dh) == Argument(m, w, y, zeta, dh) + UnitStep(m, w, zeta, d)
  {
    hide Times, Over;
    var z := y + Times(dh, zeta);
    assert y + d + Times(dh, zeta) == z + d;
    ArgumentSum(w, z, d, m.sqrt(zeta));
  }

  lemma DensityAtArgument(m: Model, w: real, y: real, zeta: real, dh: real)
    requires w == 1.0 || w == -1.0
    ensures DensityAt(m.exp, Argument(m, w, y, zeta, dh)) == Density(m, y, zeta)(dh)
  {
    hide Times, Over, DensityAt;
    DensityIsEven(m.exp, w, y + Times(dh, zeta), m.sqrt(zeta));
  }

  /** What is left of a probability's change is what is left of the cdf's. */
  lemma RestIsCdfs(m: Model, w: real, y: real, zeta: real, scale: real, d: real, dh: real)
    requires w == 1.0 || w == -1.0
    ensures var x, e := Argument(m, w, y, zeta, dh), UnitStep(m, w, zeta, d);
            Rest(m, w, y, zeta, scale, d)(dh)
            == m.cdf(x + e) - m.cdf(x) - Times(Times(scale, DensityAt(m.exp, x)), e)
  {
    hide Times, DensityAt, Density, Argument, UnitStep;
    ArgumentMoves(m, w, y, zeta, d, dh);
    DensityAtArgument(m, w, y, zeta, dh);
    LastTwoSwap(scale, Density(m, y, zeta)(dh), UnitStep(m, w, zeta, d));
  }

  lemma RestIsSmall(m: Model, w: real, y: real, zeta: real, scale: real, bound: real, d: real, dh: real)
    requires HasDensity(m.cdf, m.exp, scale, bound) && (w == 1.0 || w == -1.0)
    ensures Abs(Rest(m, w, y, zeta, scale, d)(dh))
            <= Times(bound, Times(UnitStep(m, w, zeta, d), UnitStep(m, w, zeta, d)))
  {
    hide Times, DensityAt, Argument, UnitStep, Rest;
    var x, e := Argument(m, w, y, zeta, dh), UnitStep(m, w, zeta, d);
    RestIsCdfs(m, w, y, zeta, scale, d, dh);
    assert HasSlope(m.cdf, x, Times(scale, DensityAt(m.exp, x)), bound);
    assert NearLine(m.cdf, x, Times(scale, DensityAt(m.exp, x)), bound, e);
  }

  lemma LastTwoSwap(x: real, y: real, z: real)
    ensures Times(Times(x, y), z) == Times(Times(x, z), y)
  {
  }

  lemma ArgumentSum(w: real, z: real, d: real, r: real)
    ensures Over(Times(w, z + d), r) == Over(Times(w, z), r) + Over(Times(w, d), r)
  {
    assert w * (z + d) == w * z + w * d;
    OverSum(w * z, w * d, r);
  }

  lemma OverSum(x: real, y: real, r: real)
    ensures Over(x + y, r) == Over(x, r) + Over(y, r)
  {
    if r != 0.0 {
      var p, q, sum := Over(x, r), Over(y, r), Over(x + y, r);
      OverBack(x, r);
      OverBack(y, r);
      OverBack(x + y, r);
      hide Over;
      assert (p + q) * r == p * r + q * r;
      Cancel(sum, p + q, r);
    }
  }

  lemma DensityIsEven(exp: Fn, w: real, z: real, r: real)
    requires w == 1.0 || w == -1.0
    ensures DensityAt(exp, Over(Times(w, z), r)) == DensityAt(exp, Over(z, r))
  {
    SignedTimes(z);
    OverNegated(z, r);
    var x := Over(z, r);
    assert Times(-x, -x) == Times(x, x);
  }

  // ----- a bound on the swap --------------------------------------------------------------------

  ghost predicate BoundedBy(g: Fn, bound: real) {
    forall dh :: Abs(g(dh)) <= bound
  }

  function Size(m: Model, c: Curves, h: Helper, strike: real): Entries {
    j => if 0 <= j < |h.fixed| then Abs(Cash(c, h, strike, j)) else 0.0
  }

  /** The sizes of all the swap's amounts. */
  function Gross(m: Model, c: Curves, h: Helper, strike: real): real
    requires Valid(h)
  {
    Sum(Size(m, c, h, strike), |h.fixed|) + Abs(StartAmount(c, h) * StartDiscount(c, h))
    + Abs(c.disc(h.fixed[h.last].pay)) + Abs(StartDiscount(c, h))
  }

  lemma SwapIsBounded(m: Model, c: Curves, h: Helper, strike: real, g: Fn, bound: real)
    requires Valid(h) && BoundedBy(g, bound)
    ensures Abs(Weighed(m, c, h, strike, g)) <= Times(Gross(m, c, h, strike), bound)
  {
    hide Sum, Total, Times;
    CashIsBounded(m, c, h, strike, g, bound);
    TotalIsBounded(Sum(CashTerms(m, c, h, strike, g), |h.fixed|), Sum(Size(m, c, h, strike), |h.fixed|),
                   StartAmount(c, h), StartDiscount(c, h), g(0.0), c.disc(h.fixed[h.last].pay),
                   g(DeltaH(m, h, h.last)), bound, Gross(m, c, h, strike));
  }

  lemma CashIsBounded(m: Model, c: Curves, h: Helper, strike: real, g: Fn, bound: real)
    requires Valid(h) && BoundedBy(g, bound)
    ensures Abs(Sum(CashTerms(m, c, h, strike, g), |h.fixed|)) <= Times(Sum(Size(m, c, h, strike), |h.fixed|), bound)
  {
    var u, size := CashTerms(m, c, h, strike, g), Size(m, c, h, strike);
    forall j | 0 <= j < |h.fixed| ensures Within(u, size, bound, j) {
      ProductIsBounded(Cash(c, h, strike, j), g(DeltaH(m, h, j)), bound);
    }
    SumIsBounded(u, size, bound, |h.fixed|);
  }

  ghost predicate Within(u: Entries, size: Entries, bound: real, j: int) {
    Abs(u(j)) <= Times(size(j), bound)
  }

  lemma {:induction false} SumIsBounded(u: Entries, size: Entries, bound: real, n: nat)
    requires forall j :: 0 <= j < n ==> Within(u, size, bound, j)
    ensures Abs(Sum(u, n)) <= Times(Sum(size, n), bound)
  {
    if n > 0 {
      SumIsBounded(u, size, bound, n - 1);
      assert Within(u, size, bound, n - 1);
      TimesSum(Sum(size, n - 1), size(n - 1), bound);
    }
  }

  lemma TimesSum(x: real, y: real, k: real)
    ensures Times(x + y, k) == Times(x, k) + Times(y, k)
  {
  }

  lemma ProductIsBounded(x: real, g: real, bound: real)
    requires Abs(g) <= bound
    ensures Abs(Times(x, g)) <= Times(Abs(x), bound)
  {
    assert Abs(x) * (bound - g) >= 0.0 && Abs(x) * (bound + g) >= 0.0;
  }

  lemma TotalIs(cash: real, s: real, d0: real, atStart: real, dLast: real, atLast: real)
    ensures Total(cash, s, d0, atStart, dLast, atLast)
            == cash - Times(s * d0, atStart) + Times(dLast, atLast) - Times(d0, atStart)
  {
  }

  lemma TotalIsBounded(cash: real, size: real, s: real, d0: real, atStart: real, dLast: real, atLast: real,
                       bound: real, gross: real)
    requires gross == size + Abs(s * d0) + Abs(dLast) + Abs(d0)
    requires Abs(cash) <= Times(size, bound) && Abs(atStart) <= bound && Abs(atLast) <= bound
    ensures Abs(Total(cash, s, d0, atStart, dLast, atLast)) <= Times(gross, bound)
  {
    hide Times, Total;
    ProductIsBounded(s * d0, atStart, bound);
    ProductIsBounded(dLast, atLast, bound);
    ProductIsBounded(d0, atStart, bound);
    assert Total(cash, s, d0, atStart, dLast, atLast)
           == cash - Times(s * d0, atStart) + Times(dLast, atLast) - Times(d0, atStart) by {
      TotalIs(cash, s, d0, atStart, dLast, atLast);
    }
    TimesSum(size, Abs(s * d0), bound);
    TimesSum(size + Abs(s * d0), Abs(dLast), bound);
    TimesSum(size + Abs(s * d0) + Abs(dLast), Abs(d0), bound);
  }

  // ----- the price's slope ----------------------------------------------------------------------

  /** The slope of the price in y. */
  function PriceSlope(m: Model, c: Curves, h: Helper, strike: real, y: real, zeta: real, scale: real): real
    requires Valid(h)
  {
    Times(Over(scale, m.sqrt(zeta)), Weighed(m, c, h, strike, Density(m, y, zeta)))
  }

  function Curvature(m: Model, c: Curves, h: Helper, strike: real, zeta: real, bound: real): real
    requires Valid(h)
  {
    Times(Gross(m, c, h, strike), Over(bound, zeta))
  }

  /** The weighted swap's change, split at first order. */
  lemma WeighedChange(m: Model, c: Curves, h: Helper, strike: real, w: real, y: real, zeta: real, scale: real,
                      d: real)
    requires Valid(h)
    ensures Weighed(m, c, h, strike, Probability(m, w, y + d, zeta))
            == Weighed(m, c, h, strike, Probability(m, w, y, zeta))
               + Times(Weighed(m, c, h, strike, Density(m, y, zeta)), Times(scale, UnitStep(m, w, zeta, d)))
               + Weighed(m, c, h, strike, Rest(m, w, y, zeta, scale, d))
  {
    hide Weighed, Times, UnitStep, Over;
    var k := Times(scale, UnitStep(m, w, zeta, d));
    var p, q, rest := Probability(m, w, y, zeta), Probability(m, w, y + d, zeta), Rest(m, w, y, zeta, scale, d);
    var line := Scaled(Density(m, y, zeta), k);
    var first: Fn := dh => p(dh) + line(dh);
    SwapsAdd(m, c, h, strike, p, line, first);
    SwapsAdd(m, c, h, strike, first, rest, q);
    LineWeighed(m, c, h, strike, Density(m, y, zeta), k);
  }

  lemma LineWeighed(m: Model, c: Curves, h: Helper, strike: real, f: Fn, k: real)
    requires Valid(h)
    ensures Weighed(m, c, h, strike, Scaled(f, k)) == Times(Weighed(m, c, h, strike, f), k)
  {
    hide Swap, Times;
    SwapScales(m, c, h, strike, f, f(0.0), Scaled(f, k), k);
  }

  lemma UnitStepSquare(m: Model, w: real, zeta: real, d: real)
    requires IsSqrt(m.sqrt) && zeta > 0.0 && (w == 1.0 || w == -1.0)
    ensures Times(UnitStep(m, w, zeta, d), UnitStep(m, w, zeta, d)) == Over(Times(d, d), zeta)
  {
    var r := m.sqrt(zeta);
    var e := UnitStep(m, w, zeta, d);
    assert e * r == w * d;
    assert (e * r) * (e * r) == d * d;
    assert (e * e) * (r * r) == (e * r) * (e * r);
    Cancel(e * e, Over(d * d, zeta), zeta);
  }

  /** The price changes with y at the rate of its slope, up to a remainder of second order. */
  lemma PriceHasSlope(m: Model, c: Curves, h: Helper, strike: real, receiver: bool, y: real, zeta: real,
                      scale: real, bound: real)
    requires Valid(h) && IsSqrt(m.sqrt) && zeta > 0.0 && HasDensity(m.cdf, m.exp, scale, bound)
    ensures HasSlope(Price(m, c, h, strike, receiver, zeta), y, PriceSlope(m, c, h, strike, y, zeta, scale),
                     Curvature(m, c, h, strike, zeta, bound))
  {
    forall d
      ensures NearLine(Price(m, c, h, strike, receiver, zeta), y, PriceSlope(m, c, h, strike, y, zeta, scale),
                       Curvature(m, c, h, strike, zeta, bound), d)
    {
      PriceNearLine(m, c, h, strike, receiver, y, zeta, scale, bound, d);
    }
  }

  lemma PriceNearLine(m: Model, c: Curves, h: Helper, strike: real, receiver: bool, y: real, zeta: real,
                      scale: real, bound: real, d: real)
    requires Valid(h) && IsSqrt(m.sqrt) && zeta > 0.0 && HasDensity(m.cdf, m.exp, scale, bound)
    ensures NearLine(Price(m, c, h, strike, receiver, zeta), y, PriceSlope(m, c, h, strike, y, zeta, scale),
                     Curvature(m, c, h, strike, zeta, bound), d)
  {
    hide Weighed, Times, Over, Gross, Probability, Density, Rest;
    var w := Side(receiver);
    var p, q, rest := Weighed(m, c, h, strike, Probability(m, w, y, zeta)),
                      Weighed(m, c, h, strike, Probability(m, w, y + d, zeta)),
                      Weighed(m, c, h, strike, Rest(m, w, y, zeta, scale, d));
    WeighedChange(m, c, h, strike, w, y, zeta, scale, d);
    WeighedRestIsSmall(m, c, h, strike, w, y, zeta, scale, bound, d);
    SignedChange(w, p, q, Weighed(m, c, h, strike, Density(m, y, zeta)), scale, d, m.sqrt(zeta), rest);
  }

  lemma WeighedRestIsSmall(m: Model, c: Curves, h: Helper, strike: real, w: real, y: real, zeta: real,
                           scale: real, bound: real, d: real)
    requires Valid(h) && IsSqrt(m.sqrt) && zeta > 0.0 && HasDensity(m.cdf, m.exp, scale, bound)
    requires w == 1.0 || w == -1.0
    ensures Abs(Weighed(m, c, h, strike, Rest(m, w, y, zeta, scale, d)))
            <= Times(Curvature(m, c, h, strike, zeta, bound), Times(d, d))
  {
    hide Weighed, Times, Over, Gross, Rest, UnitStep;
    var rest, e := Rest(m, w, y, zeta, scale, d), UnitStep(m, w, zeta, d);
    forall dh ensures Abs(rest(dh)) <= Times(bound, Times(e, e)) {
      RestIsSmall(m, w, y, zeta, scale, bound, d, dh);
    }
    SwapIsBounded(m, c, h, strike, rest, Times(bound, Times(e, e)));
    UnitStepSquare(m, w, zeta, d);
    CurvatureIs(Gross(m, c, h, strike), bound, zeta, Times(d, d));
  }

  lemma CurvatureIs(gross: real, bound: real, zeta: real, dd: real)
    requires zeta > 0.0
    ensures Times(gross, Times(bound, Over(dd, zeta))) == Times(Times(gross, Over(bound, zeta)), dd)
  {
    assert dd / zeta == dd * (1.0 / zeta) && bound / zeta == bound * (1.0 / zeta);
    var i := 1.0 / zeta;
    assert gross * (bound * (dd * i)) == gross * (bound * i) * dd;
  }

  /** The sign of the side cancels that of the step. */
  lemma SignedChange(w: real, p: real, q: real, slope: real, scale: real, d: real, r: real, rest: real)
    requires w == 1.0 || w == -1.0
    requires q == p + Times(slope, Times(scale, Over(Times(w, d), r))) + rest
    ensures Times(w, q) - Times(w, p) - Times(Times(Over(scale, r), slope), d) == Times(w, rest)
    ensures Abs(Times(w, rest)) == Abs(rest)
  {
    SignedTimes(p);
    SignedTimes(q);
    SignedTimes(rest);
    SignedTimes(d);
    OverNegated(d, r);
    ScaledStep(slope, scale, d, r);
    var x := Times(slope, Times(scale, Over(d, r)));
    assert Times(slope, Times(scale, -Over(d, r))) == -x;
  }

  lemma ScaledStep(slope: real, scale: real, d: real, r: real)
    ensures Times(slope, Times(scale, Over(d, r))) == Times(Times(Over(scale, r), slope), d)
  {
    if r != 0.0 {
      var i := 1.0 / r;
      assert d / r == d * i && scale / r == scale * i;
      assert slope * (scale * (d * i)) == scale * i * slope * d;
    }
  }

  /** The price's slope in y is the underlying there times a positive factor, so the price is stationary in y
      exactly where the underlying vanishes, which is where y* is taken. */
  lemma StationaryAtRoot(m: Model, c: Curves, h: Helper, strike: real, receiver: bool, y: real, zeta: real,
                         scale: real, bound: real)
    requires Valid(h) && IsExp(m.exp) && IsSqrt(m.sqrt) && zeta > 0.0
    requires scale > 0.0 && HasDensity(m.cdf, m.exp, scale, bound)
    ensures var price, curvature := Price(m, c, h, strike, receiver, zeta), Curvature(m, c, h, strike, zeta, bound);
            var factor := Times(Over(scale, m.sqrt(zeta)), Density(m, y, zeta)(0.0));
            var underlying := Underlying(m, c, h, strike, zeta)(y);
            && factor > 0.0
            && HasSlope(price, y, Times(underlying, factor), curvature)
            && ((exists b :: HasSlope(price, y, 0.0, b)) <==> underlying == 0.0)
  {
    var price, curvature := Price(m, c, h, strike, receiver, zeta), Curvature(m, c, h, strike, zeta, bound);
    var a, k := Over(scale, m.sqrt(zeta)), Density(m, y, zeta)(0.0);
    var underlying := Underlying(m, c, h, strike, zeta)(y);
    DensityWeighed(m, c, h, strike, y, zeta);
    RootPositive(m.sqrt, zeta, scale);
    SlopeFactor(a, underlying, k);
    PriceHasSlope(m, c, h, strike, receiver, y, zeta, scale, bound);
    ZeroTimes(underlying, Times(a, k));
    if b :| HasSlope(price, y, 0.0, b) {
      SlopeIsUnique(price, y, 0.0, Times(underlying, Times(a, k)), b, curvature);
    }
  }

  lemma RootPositive(sqrt: Fn, zeta: real, scale: real)
    requires IsSqrt(sqrt) && zeta > 0.0 && scale > 0.0
    ensures Over(scale, sqrt(zeta)) > 0.0
  {
    var r := sqrt(zeta);
    assert r > 0.0;
    assert Over(scale, r) * r == scale;
  }

  lemma SlopeFactor(a: real, x: real, k: real)
    requires a > 0.0 && k > 0.0
    ensures Times(a, k) > 0.0 && Times(a, Times(x, k)) == Times(x, Times(a, k))
  {
    assert a * (x * k) == x * (a * k);
  }

  /** The root finder found the boundary. */
  ghost predicate Solved(m: Model, c: Curves, h: Helper, strike: real, zeta: real)
    requires Valid(h)
  {
    var underlying := Underlying(m, c, h, strike, zeta);
    underlying(m.root(underlying)) == 0.0
  }

  /** The option is worth its price at a state where the underlying vanishes and the price is stationary. */
  ghost predicate PricedAt(m: Model, c: Curves, h: Helper, strike: real, receiver: bool, zeta: real, bound: real,
                           y: real)
    requires Valid(h)
  {
    && Underlying(m, c, h, strike, zeta)(y) == 0.0
    && HasSlope(Price(m, c, h, strike, receiver, zeta), y, 0.0, Curvature(m, c, h, strike, zeta, bound))
    && OptionValue(m, c, h, strike, receiver, zeta) == Price(m, c, h, strike, receiver, zeta)(y)
  }

  /** With the boundary found, the option is priced there. */
  lemma PricedAtRoot(m: Model, c: Curves, h: Helper, strike: real, receiver: bool, zeta: real, scale: real,
                     bound: real)
    requires Valid(h) && IsExp(m.exp) && IsSqrt(m.sqrt) && zeta > 0.0
    requires scale > 0.0 && HasDensity(m.cdf, m.exp, scale, bound) && Solved(m, c, h, strike, zeta)
    ensures exists y :: PricedAt(m, c, h, strike, receiver, zeta, bound, y)
  {
    var y := m.root(Underlying(m, c, h, strike, zeta));
    var k := Times(Over(scale, m.sqrt(zeta)), Density(m, y, zeta)(0.0));
    StationaryAtRoot(m, c, h, strike, receiver, y, zeta, scale, bound);
    assert Times(0.0, k) == 0.0;
    assert PricedAt(m, c, h, strike, receiver, zeta, bound, y);
  }

  /** A helper's model value is that price, for the strike its market value is quoted at, to a receiver where
      that is no higher than the forward and to a payer where it is. */
  lemma ModelIsPricedAtRoot(m: Model, c: Curves, h: Helper, band: real, zeta: real, scale: real, bound: real)
    requires Valid(h) && IsExp(m.exp) && IsSqrt(m.sqrt) && zeta > 0.0 && band >= 0.0
    requires scale > 0.0 && HasDensity(m.cdf, m.exp, scale, bound)
    requires Solved(m, c, h, StrikeRate(c, h, band), zeta)
    ensures var strike := StrikeRate(c, h, band); var receiver := strike <= Forward(c, h);
            && ModelValue(m, c, h, band, zeta) == OptionValue(m, c, h, strike, receiver, zeta)
            && exists y :: PricedAt(m, c, h, strike, receiver, zeta, bound, y)
  {
    hide OptionValue, PricedAt, Solved;
    StrikeIsNearest(c, h, band, Forward(c, h));
    PricedAtRoot(m, c, h, StrikeRate(c, h, band), Receiver(c, h, band), zeta, scale, bound);
  }

  /** Model and market have the same parity, so a helper repriced as a receiver is repriced as a payer. */
  lemma EitherSideReprices(m: Model, c: Curves, h: Helper, bachelier: Bachelier, deviation: real, strike: real,
                           zeta: real)
    requires Regular(h) && Positive(c) && Annuity(c, h) != 0.0 && IsSymmetric(m.cdf) && IsBachelier(bachelier)
    ensures MarketOn(c, h, bachelier, deviation, strike, true) == OptionValue(m, c, h, strike, true, zeta) <==>
            MarketOn(c, h, bachelier, deviation, strike, false) == OptionValue(m, c, h, strike, false, zeta)
  {
    ModelParity(m, c, h, strike, zeta);
    MarketParity(c, h, bachelier, deviation, strike);
  }

  // ----- the boundary is the best one ---------------------------------------------------------

  /** The underlying is not negative before the state, and not positive after it. */
  ghost predicate CrossesAt(f: Fn, y: real) {
    forall x :: (x <= y ==> f(x) >= 0.0) && (x >= y ==> f(x) <= 0.0)
  }

  /** The slopes `s` of f from `a` on, `n` steps of `d`, do not point back. */
  ghost predicate Forwards(f: Fn, s: Fn, bound: real, a: real, d: real, n: nat) {
    forall k: nat :: k < n ==> StepsForward(f, s, bound, Along(a, d, k), d)
  }

  ghost predicate StepsForward(f: Fn, s: Fn, bound: real, x: real, d: real) {
    HasSlope(f, x, s(x), bound) && Times(s(x), d) >= 0.0
  }

  /** At x the slope does not point away from the way from `a` to `b`. */
  ghost predicate PointsFrom(f: Fn, s: Fn, bound: real, x: real, a: real, b: real) {
    StepsForward(f, s, bound, x, b - a)
  }

  function Along(a: real, d: real, k: nat): real {
    a + Times(k as real, d)
  }

  lemma AlongNext(a: real, d: real, k: nat)
    ensures Along(a, d, k + 1) == Along(a, d, k) + d
  {
    assert (k + 1) as real * d == k as real * d + d;
  }

  /** In n steps f falls by no more than n remainders. */
  lemma {:induction false} Climbs(f: Fn, s: Fn, bound: real, a: real, d: real, n: nat)
    requires Forwards(f, s, bound, a, d, n)
    ensures f(Along(a, d, n)) >= f(a) - Times(n as real, Times(bound, Times(d, d)))
  {
    hide Times;
    if n == 0 {
      NoStep(a, d, Times(bound, Times(d, d)));
    } else {
      var x := Along(a, d, n - 1);
      Climbs(f, s, bound, a, d, n - 1);
      AlongNext(a, d, n - 1);
      OneMore(n, Times(bound, Times(d, d)));
      assert StepsForward(f, s, bound, x, d);
      assert NearLine(f, x, s(x), bound, d);
    }
  }

  lemma NoStep(a: real, d: real, r: real)
    ensures Along(a, d, 0) == a && Times(0 as real, r) == 0.0
  {
  }

  lemma OneMore(n: nat, r: real)
    requires n > 0
    ensures Times(n as real, r) == Times((n - 1) as real, r) + r
  {
  }

  /** Where no slope on the way points back, f does not fall: the remainders of ever smaller steps vanish. */
  lemma DoesNotFall(f: Fn, s: Fn, bound: real, a: real, b: real)
    requires forall x :: a <= x <= b || b <= x <= a ==> PointsFrom(f, s, bound, x, a, b)
    ensures f(b) >= f(a)
  {
    if f(b) < f(a) {
      var whole := Times(bound, Times(b - a, b - a));
      var n := Enough(whole, f(a) - f(b));
      var d := (b - a) / n as real;
      EvenSteps(b - a, n, bound);
      forall k: nat | k < n ensures StepsForward(f, s, bound, Along(a, d, k), d) {
        StepWithin(a, b, n, k);
        assert PointsFrom(f, s, bound, Along(a, d, k), a, b);
        SmallerStep(s(Along(a, d, k)), b - a, n);
      }
      Climbs(f, s, bound, a, d, n);
      StepWithin(a, b, n, n);
    }
  }

  /** So many steps that what is left of `whole` in each is below `gap`. */
  lemma Enough(whole: real, gap: real) returns (n: nat)
    requires gap > 0.0
    ensures n > 0 && whole / n as real < gap
  {
    var q := whole / gap;
    n := if q < 0.0 then 1 else q.Floor + 1;
    assert q * gap == whole;
    assert q < n as real;
    ProductOrder(q, n as real, gap);
    assert whole < gap * (n as real);
    var r := whole / n as real;
    assert r * (n as real) == whole;
    ProductOrder(r, gap, n as real);
  }

  lemma EvenSteps(length: real, n: nat, bound: real)
    requires n > 0
    ensures var d := length / n as real;
            Times(n as real, Times(bound, Times(d, d))) == Times(bound, Times(length, length)) / n as real
  {
    var d, m := length / n as real, n as real;
    assert d * m == length;
    var x, y := bound * (length * length), m * (bound * (d * d));
    assert y * m == bound * ((d * m) * (d * m));
    assert (x / m) * m == x;
    Cancel(x / m, y, m);
  }

  lemma StepWithin(a: real, b: real, n: nat, k: nat)
    requires 0 < n && k <= n
    ensures var x := Along(a, (b - a) / n as real, k);
            (a <= x <= b || b <= x <= a) && (k == n ==> x == b)
  {
    var length, m := b - a, n as real;
    var d := length / m;
    assert d * m == length;
    var moved, rest := k as real * d, (m - k as real) * d;
    assert moved + rest == length;
    if length >= 0.0 {
      assert d >= 0.0 by {
        if d < 0.0 {
          ProductOrder(d, 0.0, m);
        }
      }
      assert moved >= 0.0 && rest >= 0.0;
    } else {
      assert d <= 0.0 by {
        if d > 0.0 {
          ProductOrder(0.0, d, m);
        }
      }
      assert moved <= 0.0 && rest <= 0.0;
    }
  }

  lemma SmallerStep(slope: real, length: real, n: nat)
    requires n > 0 && Times(slope, length) >= 0.0
    ensures Times(slope, length / n as real) >= 0.0
  {
    var d, m := length / n as real, n as real;
    assert d * m == length;
    assert slope * d * m == slope * length;
    if slope * d < 0.0 {
      ProductOrder(slope * d, 0.0, m);
    }
  }

  /** The slope of the price, as a function of y. */
  function SlopeOf(m: Model, c: Curves, h: Helper, strike: real, zeta: real, scale: real): Fn
    requires Valid(h)
  {
    y => Times(Underlying(m, c, h, strike, zeta)(y), Times(Over(scale, m.sqrt(zeta)), Density(m, y, zeta)(0.0)))
  }

  lemma SlopeTowards(u: real, factor: real, d: real)
    requires factor > 0.0 && ((d >= 0.0 && u >= 0.0) || (d <= 0.0 && u <= 0.0))
    ensures Times(Times(u, factor), d) >= 0.0
  {
    assert u * factor * d == (u * d) * factor;
    assert u * d >= 0.0;
  }

  lemma StepsToRoot(m: Model, c: Curves, h: Helper, strike: real, receiver: bool, zeta: real, scale: real, bound: real,
                    best: real, x: real, d: real)
    requires Valid(h) && IsExp(m.exp) && IsSqrt(m.sqrt) && zeta > 0.0
    requires scale > 0.0 && HasDensity(m.cdf, m.exp, scale, bound)
    requires CrossesAt(Underlying(m, c, h, strike, zeta), best) && (d >= 0.0 ==> x <= best) && (d <= 0.0 ==> x >= best)
    ensures StepsForward(Price(m, c, h, strike, receiver, zeta), SlopeOf(m, c, h, strike, zeta, scale),
                         Curvature(m, c, h, strike, zeta, bound), x, d)
  {
    hide Price, Density, Underlying, Over, Times, Curvature;
    StationaryAtRoot(m, c, h, strike, receiver, x, zeta, scale, bound);
    var factor := Times(Over(scale, m.sqrt(zeta)), Density(m, x, zeta)(0.0));
    SlopeTowards(Underlying(m, c, h, strike, zeta)(x), factor, d);
  }

  /** Where the underlying crosses zero at y*, from above, no other boundary gives a larger price, to a receiver
      or a payer: y* is the best exercise. */
  lemma RootIsBest(m: Model, c: Curves, h: Helper, strike: real, receiver: bool, zeta: real, scale: real, bound: real,
                   y: real)
    requires Valid(h) && IsExp(m.exp) && IsSqrt(m.sqrt) && zeta > 0.0
    requires scale > 0.0 && HasDensity(m.cdf, m.exp, scale, bound)
    requires var underlying := Underlying(m, c, h, strike, zeta); CrossesAt(underlying, m.root(underlying))
    ensures Price(m, c, h, strike, receiver, zeta)(y) <= OptionValue(m, c, h, strike, receiver, zeta)
  {
    hide Price, Underlying, SlopeOf, Curvature;
    var best := m.root(Underlying(m, c, h, strike, zeta));
    var price, slope := Price(m, c, h, strike, receiver, zeta), SlopeOf(m, c, h, strike, zeta, scale);
    var curvature := Curvature(m, c, h, strike, zeta, bound);
    forall x | y <= x <= best || best <= x <= y ensures PointsFrom(price, slope, curvature, x, y, best) {
      StepsToRoot(m, c, h, strike, receiver, zeta, scale, bound, best, x, best - y);
    }
    DoesNotFall(price, slope, curvature, y, best);
  }

  // ----- the underlying falls -----------------------------------------------------------------

  ghost predicate StrictlyGrows(f: Fn) {
    forall s, t :: GrowsAt(f, s, t)
  }

  /** Every coupon is paid after the start, where H is smaller. */
  lemma DeltaHPositive(m: Model, h: Helper, j: nat)
    requires Valid(h) && j < |h.fixed| && StrictlyGrows(m.accumulated) && h.floating[0].start < h.fixed[j].pay
    ensures DeltaH(m, h, j) > 0.0
  {
    assert GrowsAt(m.accumulated, h.floating[0].start, h.fixed[j].pay);
  }

  /** H grows, coupons are paid after the start, and no fixed coupon less its correction is negative. */
  ghost predicate PaysForward(m: Model, c: Curves, h: Helper, strike: real)
    requires Valid(h)
  {
    && StrictlyGrows(m.accumulated)
    && forall j :: 0 <= j < |h.fixed| ==> h.floating[0].start < h.fixed[j].pay && Cash(c, h, strike, j) >= 0.0
  }

  lemma BondFalls(m: Model, zeta: real, x: real, y: real, dh: real)
    requires IsExp(m.exp) && dh > 0.0 && x < y
    ensures Bond(m, x, zeta)(dh) > Bond(m, y, zeta)(dh)
  {
    var fall := 0.5 * Times(Times(dh, dh), zeta);
    hide Times;
    TimesGrows(dh, x, y);
    assert GrowsAt(m.exp, -Times(dh, y) - fall, -Times(dh, x) - fall);
  }

  lemma CashFalls(m: Model, c: Curves, h: Helper, strike: real, zeta: real, x: real, y: real, j: nat)
    requires Valid(h) && IsExp(m.exp) && PaysForward(m, c, h, strike) && x < y && j < |h.fixed|
    ensures CashTerms(m, c, h, strike, Bond(m, y, zeta))(j) <= CashTerms(m, c, h, strike, Bond(m, x, zeta))(j)
  {
    DeltaHPositive(m, h, j);
    BondFalls(m, zeta, x, y, DeltaH(m, h, j));
    TimesOrdered(Cash(c, h, strike, j), Bond(m, y, zeta)(DeltaH(m, h, j)), Bond(m, x, zeta)(DeltaH(m, h, j)));
  }

  lemma TimesOrdered(k: real, x: real, y: real)
    requires k >= 0.0 && x <= y
    ensures Times(k, x) <= Times(k, y)
  {
    assert k * (y - x) >= 0.0;
  }

  /** Then the underlying strictly decreases in the state, as `_y_star_helper` has it. */
  lemma UnderlyingFalls(m: Model, c: Curves, h: Helper, strike: real, zeta: real, x: real, y: real)
    requires Valid(h) && IsExp(m.exp) && Positive(c) && PaysForward(m, c, h, strike) && x < y
    ensures Underlying(m, c, h, strike, zeta)(y) < Underlying(m, c, h, strike, zeta)(x)
  {
    hide Cash, DeltaH, Bond, Underlying, Total;
    var f, g := Bond(m, x, zeta), Bond(m, y, zeta);
    forall j | 0 <= j < |h.fixed|
      ensures CashTerms(m, c, h, strike, g)(j) <= CashTerms(m, c, h, strike, f)(j)
    {
      CashFalls(m, c, h, strike, zeta, x, y, j);
    }
    SumMonotone(CashTerms(m, c, h, strike, g), CashTerms(m, c, h, strike, f), |h.fixed|);
    DeltaHPositive(m, h, h.last);
    BondFalls(m, zeta, x, y, DeltaH(m, h, h.last));
    UnderlyingIsTotal(m, c, h, strike, zeta, x);
    UnderlyingIsTotal(m, c, h, strike, zeta, y);
    TotalFalls(Sum(CashTerms(m, c, h, strike, f), |h.fixed|), Sum(CashTerms(m, c, h, strike, g), |h.fixed|),
               StartAmount(c, h), StartDiscount(c, h), c.disc(h.fixed[h.last].pay), f(DeltaH(m, h, h.last)),
               g(DeltaH(m, h, h.last)));
  }

  lemma UnderlyingIsTotal(m: Model, c: Curves, h: Helper, strike: real, zeta: real, y: real)
    requires Valid(h)
    ensures var bond := Bond(m, y, zeta);
            Underlying(m, c, h, strike, zeta)(y)
            == TotalOf(m, c, h, Sum(CashTerms(m, c, h, strike, bond), |h.fixed|), 1.0, bond(DeltaH(m, h, h.last)))
  {
  }

  lemma TotalFalls(cash: real, cash': real, s: real, d0: real, dLast: real, last: real, last': real)
    requires cash' <= cash && last' < last && dLast > 0.0
    ensures Total(cash', s, d0, 1.0, dLast, last') < Total(cash, s, d0, 1.0, dLast, last)
  {
    TimesGrows(dLast, last', last);
  }

  /** So a boundary found is the only one, whatever solver finds it, and the best. */
  lemma OnlyRootIsBest(m: Model, c: Curves, h: Helper, strike: real, receiver: bool, zeta: real, scale: real,
                       bound: real, y: real)
    requires Valid(h) && IsExp(m.exp) && IsSqrt(m.sqrt) && zeta > 0.0 && Positive(c) && PaysForward(m, c, h, strike)
    requires scale > 0.0 && HasDensity(m.cdf, m.exp, scale, bound) && Solved(m, c, h, strike, zeta)
    ensures Price(m, c, h, strike, receiver, zeta)(y) <= OptionValue(m, c, h, strike, receiver, zeta)
    ensures Underlying(m, c, h, strike, zeta)(y) == 0.0 ==>
              OptionValue(m, c, h, strike, receiver, zeta) == Price(m, c, h, strike, receiver, zeta)(y)
  {
    var underlying := Underlying(m, c, h, strike, zeta);
    var best := m.root(underlying);
    forall x ensures (x <= best ==> underlying(x) >= 0.0) && (x >= best ==> underlying(x) <= 0.0) {
      if x < best {
        UnderlyingFalls(m, c, h, strike, zeta, x, best);
      } else if x > best {
        UnderlyingFalls(m, c, h, strike, zeta, best, x);
      }
    }
    RootIsBest(m, c, h, strike, receiver, zeta, scale, bound, y);
    if y < best {
      UnderlyingFalls(m, c, h, strike, zeta, y, best);
    } else if y > best {
      UnderlyingFalls(m, c, h, strike, zeta, best, y);
    }
  }

  // ----- the boundary on the simulated market -------------------------------------------------

  /** ln P(t, T) at the state z, as the market is simulated. */
  function SimulatedLog(r: M.Rates, target: Fn, t: real, T: real, z: real): real {
    M.CurveLevel(target, r, t, T - t) + Times(M.CurveSlope(r, t, T - t), z)
  }

  /** The fixed coupons less their corrections, on bonds of the simulated curve at the state z. */
  function SimulatedCash(exp: Fn, c: Curves, h: Helper, strike: real, r: M.Rates, target: Fn, z: real): Entries
    requires Valid(h)
  {
    j => if 0 <= j < |h.fixed|
         then Times(Times(h.fixed[j].accrual, strike) - Amount(c, h, j),
                    exp(SimulatedLog(r, target, h.floating[0].start, h.fixed[j].pay, z)))
         else 0.0
  }

  /** The swap as its holder has it at the start date, the state being z: the coupons, the correction due, the
      notional repaid and the notional received. */
  function SimulatedSwap(exp: Fn, c: Curves, h: Helper, strike: real, r: M.Rates, target: Fn, z: real): real
    requires Valid(h)
  {
    Sum(SimulatedCash(exp, c, h, strike, r, target, z), |h.fixed|) - StartAmount(c, h)
    + exp(SimulatedLog(r, target, h.floating[0].start, h.fixed[h.last].pay, z)) - 1.0
  }

  /** The same H, the variance at the expiry, and the discount curve by its logarithm. */
  ghost predicate SameRates(m: Model, c: Curves, h: Helper, zeta: real, r: M.Rates, target: Fn)
    requires Valid(h)
  {
    && r.accumulated == m.accumulated && r.zeta(h.floating[0].start) == zeta
    && forall t :: HasLog(m.exp, c.disc, target, t)
  }

  ghost predicate HasLog(exp: Fn, disc: Fn, target: Fn, t: real) {
    exp(target(t)) == disc(t)
  }

  /** The state y of the helper's formula is the simulated one plus H zeta. */
  function StateOf(m: Model, h: Helper, zeta: real, y: real): real
    requires Valid(h)
  {
    y - Times(m.accumulated(h.floating[0].start), zeta)
  }

  lemma BondExponent(H: real, H': real, zeta: real, y: real)
    ensures -Times(H' - H, y) - 0.5 * Times(Times(H' - H, H' - H), zeta)
            == -0.5 * Times(Times(H', H') - Times(H, H), zeta) + Times(-(H' - H), y - Times(H, zeta))
  {
    var d := H' - H;
    assert d * d == H' * H' - 2.0 * H' * H + H * H;
    assert d * (H * zeta) == H' * H * zeta - H * H * zeta;
    assert d * d * zeta == H' * H' * zeta - 2.0 * H' * H * zeta + H * H * zeta;
    assert (H' * H' - H * H) * zeta == H' * H' * zeta - H * H * zeta;
    assert -d * (y - H * zeta) == -(d * y) + d * (H * zeta);
  }

  /** A helper's bond is the simulated one: discounted to today they are the same. */
  lemma BondIsSimulated(m: Model, c: Curves, h: Helper, zeta: real, r: M.Rates, target: Fn, y: real, j: nat)
    requires Valid(h) && IsExp(m.exp) && SameRates(m, c, h, zeta, r, target) && j < |h.fixed|
    ensures Times(c.disc(h.fixed[j].pay), Bond(m, y, zeta)(DeltaH(m, h, j)))
            == Times(StartDiscount(c, h),
                     m.exp(SimulatedLog(r, target, h.floating[0].start, h.fixed[j].pay, StateOf(m, h, zeta, y))))
  {
    var t, T, z := h.floating[0].start, h.fixed[j].pay, StateOf(m, h, zeta, y);
    var H, H' := m.accumulated(t), m.accumulated(T);
    var bond := -Times(H' - H, y) - 0.5 * Times(Times(H' - H, H' - H), zeta);
    BondExponent(H, H', zeta, y);
    assert t + (T - t) == T;
    assert SimulatedLog(r, target, t, T, z) == target(T) - target(t) + bond;
    assert HasLog(m.exp, c.disc, target, t) && HasLog(m.exp, c.disc, target, T);
    assert AddsAt(m.exp, target(T), bond);
    assert AddsAt(m.exp, target(t), target(T) - target(t) + bond);
    assert target(t) + (target(T) - target(t) + bond) == target(T) + bond;
  }

  lemma CashIsSimulated(m: Model, c: Curves, h: Helper, strike: real, zeta: real, r: M.Rates, target: Fn, y: real,
                        j: nat)
    requires Valid(h) && IsExp(m.exp) && SameRates(m, c, h, zeta, r, target) && j < |h.fixed|
    ensures TermScales(SimulatedCash(m.exp, c, h, strike, r, target, StateOf(m, h, zeta, y)),
                       CashTerms(m, c, h, strike, Bond(m, y, zeta)), StartDiscount(c, h), j)
  {
    hide Bond, DeltaH, SimulatedLog, StateOf, Amount, Times, StartDiscount;
    BondIsSimulated(m, c, h, zeta, r, target, y, j);
    var P := m.exp(SimulatedLog(r, target, h.floating[0].start, h.fixed[j].pay, StateOf(m, h, zeta, y)));
    Discounted(Times(h.fixed[j].accrual, strike) - Amount(c, h, j), c.disc(h.fixed[j].pay),
               Bond(m, y, zeta)(DeltaH(m, h, j)), StartDiscount(c, h), P);
  }

  lemma Discounted(x: real, d: real, bond: real, d0: real, P: real)
    requires Times(d, bond) == Times(d0, P)
    ensures Times(Times(x, d), bond) == Times(x, P) * d0
  {
    assert x * d * bond == x * (d * bond);
    assert x * (d0 * P) == x * P * d0;
  }

  lemma TotalIsSimulated(cash: real, s: real, d0: real, dLast: real, bond: real, P: real)
    requires Times(dLast, bond) == Times(d0, P)
    ensures Total(Times(cash, d0), s, d0, 1.0, dLast, bond) == Times(d0, cash - s + P - 1.0)
  {
    assert d0 * (cash - s + P - 1.0) == d0 * cash - d0 * s + d0 * P - d0;
  }

  /** The helper's underlying at y is the swap on the simulated market's curve at z = y - H zeta, H at the start,
      discounted to today: calibration and simulation exercise the same swap, and the boundary is where it is
      worth nothing. */
  lemma UnderlyingIsSimulated(m: Model, c: Curves, h: Helper, strike: real, zeta: real, r: M.Rates, target: Fn, y: real)
    requires Valid(h) && IsExp(m.exp) && SameRates(m, c, h, zeta, r, target) && Positive(c)
    ensures var swap := SimulatedSwap(m.exp, c, h, strike, r, target, StateOf(m, h, zeta, y));
            && Underlying(m, c, h, strike, zeta)(y) == Times(StartDiscount(c, h), swap)
            && (Underlying(m, c, h, strike, zeta)(y) == 0.0 <==> swap == 0.0)
  {
    hide Bond, DeltaH, SimulatedLog, StateOf, Total, Underlying, CashTerms, SimulatedCash, Times;
    var z := StateOf(m, h, zeta, y);
    var u, v := SimulatedCash(m.exp, c, h, strike, r, target, z), CashTerms(m, c, h, strike, Bond(m, y, zeta));
    forall j | 0 <= j < |h.fixed| ensures TermScales(u, v, StartDiscount(c, h), j) {
      CashIsSimulated(m, c, h, strike, zeta, r, target, y, j);
    }
    TermsScale(u, v, StartDiscount(c, h), |h.fixed|);
    BondIsSimulated(m, c, h, zeta, r, target, y, h.last);
    UnderlyingIsTotal(m, c, h, strike, zeta, y);
    var P := m.exp(SimulatedLog(r, target, h.floating[0].start, h.fixed[h.last].pay, z));
    TotalIsSimulated(Sum(u, |h.fixed|), StartAmount(c, h), StartDiscount(c, h), c.disc(h.fixed[h.last].pay),
                     Bond(m, y, zeta)(DeltaH(m, h, h.last)), P);
    TimesPositive(StartDiscount(c, h), SimulatedSwap(m.exp, c, h, strike, r, target, z));
  }

  lemma TimesPositive(d: real, x: real)
    requires d > 0.0
    ensures Times(d, x) == 0.0 <==> x == 0.0
  {
    NonzeroProduct(d, x);
  }

  // ----- the bootstrap on swaption helpers ----------------------------------------------------

  /** A basket of helpers with the deviation and the strike band each is quoted at. */
  datatype Quoted = Quoted(helper: Helper, deviation: real, band: real)

  ghost predicate ValidBasket(quotes: seq<Quoted>) {
    forall i :: 0 <= i < |quotes| ==> Valid(quotes[i].helper)
  }

  /** The helpers' market values, and their model values by the variance at their expiry. */
  function BasketOf(m: Model, c: Curves, bachelier: Bachelier, quotes: seq<Quoted>): K.Basket {
    K.Basket(i => if 0 <= i < |quotes| then MarketOf(c, bachelier, quotes[i]) else 0.0,
             (i, zeta) => if 0 <= i < |quotes| && Valid(quotes[i].helper) then ModelOf(m, c, quotes[i], zeta) else 0.0)
  }

  function MarketOf(c: Curves, bachelier: Bachelier, q: Quoted): real {
    MarketValue(c, q.helper, bachelier, q.deviation, q.band)
  }

  function ModelOf(m: Model, c: Curves, q: Quoted, zeta: real): real
    requires Valid(q.helper)
  {
    ModelValue(m, c, q.helper, q.band, zeta)
  }

  /** With a root in every bucket the bootstrapped volatility gives every helper its market value: on regular
      schedules, as a receiver and as a payer at its strike. */
  lemma HelpersAreRepriced(m: Model, c: Curves, bachelier: Bachelier, quotes: seq<Quoted>, solve: K.Solver,
                           vols: seq<real>, expiries: seq<real>, values: seq<real>, j: nat)
    requires ValidBasket(quotes) && |quotes| == |expiries| == |vols| && j < |quotes|
    requires K.Calibrates(expiries, values)
    requires var basket, dt := BasketOf(m, c, bachelier, quotes), K.Lengths(expiries);
             K.AreBuckets(basket, solve, vols, dt, values) && K.Solved(basket, solve, vols, dt, values)
    ensures T.WellFormed(K.BucketSigma(expiries, values))
    ensures var zeta := T.Zeta(K.BucketSigma(expiries, values), expiries[j]);
            && ModelOf(m, c, quotes[j], zeta) == MarketOf(c, bachelier, quotes[j])
            && (ParityHolds(m, c, bachelier, quotes[j].helper) ==>
                  forall receiver :: RepricedAs(m, c, bachelier, quotes[j], zeta, receiver))
  {
    var basket := BasketOf(m, c, bachelier, quotes);
    K.BootstrapReprices(basket, solve, vols, expiries, values);
    assert K.Reprices(basket, K.BucketSigma(expiries, values), expiries[j], j);
    var zeta, strike := T.Zeta(K.BucketSigma(expiries, values), expiries[j]),
                        StrikeRate(c, quotes[j].helper, quotes[j].band);
    if ParityHolds(m, c, bachelier, quotes[j].helper) {
      hide OptionValue, MarketOn;
      EitherSideReprices(m, c, quotes[j].helper, bachelier, quotes[j].deviation, strike, zeta);
    }
  }

  ghost predicate ParityHolds(m: Model, c: Curves, bachelier: Bachelier, h: Helper) {
    Regular(h) && Positive(c) && Annuity(c, h) != 0.0 && IsSymmetric(m.cdf) && IsBachelier(bachelier)
  }

  ghost predicate RepricedAs(m: Model, c: Curves, bachelier: Bachelier, q: Quoted, zeta: real, receiver: bool)
    requires Valid(q.helper)
  {
    var strike := StrikeRate(c, q.helper, q.band);
    OptionValue(m, c, q.helper, strike, receiver, zeta)
    == MarketOn(c, q.helper, bachelier, q.deviation, strike, receiver)
  }
}
