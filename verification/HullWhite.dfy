/** The variance under the Hull-White parametrization on the accelerator and on the host, and the
    Hull-White volatility that has a Hagan one's variance (engine/models/lgm.py, engine/models/cam.py). */
module HullWhite {
  import opened LinearAlgebra
  import opened Powers
  import opened Sums
  import opened TermStructures
  import opened Wrappers

  /** A square root and an exponential, the host's. */
  type Fn = real -> real

  ghost predicate AddsAt(exp: Fn, x: real, y: real) {
    exp(x + y) == Times(exp(x), exp(y))
  }

  ghost predicate GrowsAt(exp: Fn, x: real, y: real) {
    x < y ==> exp(x) < exp(y)
  }

  ghost predicate IsExp(exp: Fn) {
    && exp(0.0) == 1.0
    && (forall x, y :: AddsAt(exp, x, y))
    && (forall x, y :: GrowsAt(exp, x, y))
  }

  function Expm1(exp: Fn, x: real): real {
    exp(x) - 1.0
  }

  // ----- one stretch of a bucket --------------------------------------------------------------

  /** expm1(x)/x, and 1 at 0. */
  function Ratio(exp: Fn, x: real): real {
    if x == 0.0 then 1.0 else Expm1(exp, x) / x
  }

  /** `_exp_integral` from `lo` over a width. */
  function ExpIntegral(exp: Fn, rate: real, lo: real, width: real): real {
    Times(Times(exp(Times(rate, lo)), width), Ratio(exp, Times(rate, width)))
  }

  /** What a stretch of a bucket adds to the variance on the accelerator ... */
  function StretchOf(exp: Fn, a: real, v: real, lo: real, length: real): real {
    Times(v * v, ExpIntegral(exp, 2.0 * a, lo, length))
  }

  /** ... and on the host. */
  function HostStretchOf(exp: Fn, a: real, v: real, lo: real, length: real): real {
    Times(v * v, if a == 0.0 then length else HostIntegral(exp, 2.0 * a, lo, length))
  }

  function Stretch(exp: Fn, a: real): Weight {
    (v, lo, length) => StretchOf(exp, a, v, lo, length)
  }

  function HostStretch(exp: Fn, a: real): Weight {
    (v, lo, length) => HostStretchOf(exp, a, v, lo, length)
  }

  function HostIntegral(exp: Fn, rate: real, lo: real, width: real): real
    requires rate != 0.0
  {
    Times(exp(Times(rate, lo)), Expm1(exp, Times(rate, width))) / rate
  }

  lemma Quotient(width: real, rate: real, m: real)
    requires rate != 0.0 && width != 0.0 && rate * width != 0.0
    ensures Times(width, m / (rate * width)) == m / rate
  {
    var q := m / (rate * width);
    assert q * (rate * width) == m;
    assert (width * q) * rate == m;
  }

  lemma Associate(a: real, b: real, c: real)
    ensures Times(Times(a, b), c) == Times(a, Times(b, c))
  {
  }

  lemma MoveQuotient(a: real, m: real, rate: real)
    requires rate != 0.0
    ensures Times(a, m / rate) == Times(a, m) / rate
  {
  }

  /** Both forms of the integral are the same, the accelerator's branch at 0 included. */
  lemma IntegralsAgree(exp: Fn, rate: real, lo: real, width: real)
    requires exp(0.0) == 1.0
    ensures rate != 0.0 ==> ExpIntegral(exp, rate, lo, width) == HostIntegral(exp, rate, lo, width)
    ensures rate == 0.0 ==> ExpIntegral(exp, rate, lo, width) == width
  {
    var e, x := exp(Times(rate, lo)), Times(rate, width);
    NonzeroProduct(rate, width);
    NonzeroProduct(rate, lo);
    Associate(e, width, Ratio(exp, x));
    if x != 0.0 {
      Quotient(width, rate, Expm1(exp, x));
      MoveQuotient(e, Expm1(exp, x), rate);
    } else if rate == 0.0 {
      assert e == 1.0;
    } else {
      assert Expm1(exp, x) == 0.0;
      NoIntegral(e, rate);
    }
  }

  lemma NoIntegral(e: real, rate: real)
    requires rate != 0.0
    ensures Times(e, 0.0) / rate == 0.0
  {
  }

  /** rate times the integral is the difference of the exponentials at its ends. */
  lemma IntegralIsDifference(exp: Fn, rate: real, lo: real, width: real)
    requires IsExp(exp) && rate != 0.0
    ensures Times(rate, ExpIntegral(exp, rate, lo, width)) == exp(Times(rate, lo + width)) - exp(Times(rate, lo))
  {
    var p, q := Times(rate, lo), Times(rate, width);
    IntegralsAgree(exp, rate, lo, width);
    assert Times(rate, lo + width) == p + q;
    assert AddsAt(exp, p, q);
    var m := Times(exp(p), Expm1(exp, q));
    assert Times(rate, m / rate) == m;
    assert m == Times(exp(p), exp(q)) - exp(p);
  }

  // ----- the variance -------------------------------------------------------------------------

  /** clip(t, lo, hi), hi infinite for the last bucket. */
  function Reached(s: Sigma, t: real, j: nat): real {
    var from := if t < Start(s, j) then Start(s, j) else t;
    if j < |s.times| then AtMost(from, s.times[j]) else from
  }

  function Stretched(exp: Fn, a: real, s: Sigma, t: real): Entries {
    j => if 0 <= j < |s.values| then StretchOf(exp, a, s.values[j], Start(s, j), Reached(s, t, j) - Start(s, j))
         else 0.0
  }

  /** `hull_white_zeta`. */
  function HullWhiteZeta(exp: Fn, a: real, s: Sigma, t: real): real {
    Sum(Stretched(exp, a, s, NotNegative(t)), |s.values|)
  }

  /** `_integral_of_square` under a reversion. */
  function HostVariance(exp: Fn, a: real, s: Sigma, t: real): real {
    ClippedForm(HostStretch(exp, a), s, NotNegative(t))
  }

  lemma StretchesAgree(exp: Fn, a: real, v: real, lo: real, length: real)
    requires exp(0.0) == 1.0
    ensures StretchOf(exp, a, v, lo, length) == HostStretchOf(exp, a, v, lo, length)
  {
    IntegralsAgree(exp, 2.0 * a, lo, length);
  }

  /** What is reached of a bucket is what is covered of it. */
  lemma ReachedIsCovered(s: Sigma, t: real, j: nat)
    ensures Reached(s, t, j) - Start(s, j) == Covering(s, t, j)
  {
  }

  lemma StretchApplied(exp: Fn, a: real, v: real, lo: real, length: real)
    ensures Stretch(exp, a)(v, lo, length) == StretchOf(exp, a, v, lo, length)
  {
  }

  lemma StretchedIsCovered(exp: Fn, a: real, s: Sigma, t: real)
    ensures HullWhiteZeta(exp, a, s, t) == ClippedForm(Stretch(exp, a), s, NotNegative(t))
  {
    var f, c := Stretched(exp, a, s, NotNegative(t)), Covered(Stretch(exp, a), s, NotNegative(t));
    forall j | 0 <= j < |s.values| ensures f(j) == c(j) {
      ReachedIsCovered(s, NotNegative(t), j);
      StretchApplied(exp, a, Level(s, j), Start(s, j), Covering(s, NotNegative(t), j));
    }
    SumExt(f, c, |s.values|);
  }

  /** Accelerator and host have the same Hull-White variance, for every reversion, time and list of
      buckets. */
  lemma HullWhiteIsHost(exp: Fn, a: real, s: Sigma, t: real)
    requires exp(0.0) == 1.0
    ensures HullWhiteZeta(exp, a, s, t) == HostVariance(exp, a, s, t)
  {
    StretchedIsCovered(exp, a, s, t);
    var t' := NotNegative(t);
    var f, c := Covered(Stretch(exp, a), s, t'), Covered(HostStretch(exp, a), s, t');
    forall j | 0 <= j < |s.values| ensures f(j) == c(j) {
      StretchesAgree(exp, a, Level(s, j), Start(s, j), Covering(s, t', j));
    }
    SumExt(f, c, |s.values|);
  }

  // ----- the matching volatility --------------------------------------------------------------

  /** sqrt of a bucket's length over its integral. */
  function ScaleOf(exp: Fn, sqrt: Fn, a: real, s: Sigma, last: real, j: nat): real
    requires j < |s.values|
  {
    var width := End(s, last, j) - Start(s, j);
    sqrt(SafeQuotient(width, ExpIntegral(exp, 2.0 * a, Start(s, j), width)))
  }

  function SafeQuotient(p: real, q: real): real {
    if q == 0.0 then 0.0 else p / q
  }

  /** `hull_white_matching_zeta`: refused unless the bucket ends increase from 0. */
  function HullWhiteMatching(exp: Fn, sqrt: Fn, a: real, hagan: Sigma, last: real): Result<Sigma, string>
    requires |hagan.values| == |hagan.times| + 1
  {
    if exists j :: 0 <= j < |hagan.values| && End(hagan, last, j) <= Start(hagan, j) then
      Failure("bucket ends must increase from 0 and `last` follow the bucket times")
    else
      Success(Sigma(hagan.times, seq(|hagan.values|, j requires 0 <= j < |hagan.values| =>
                                     hagan.values[j] * ScaleOf(exp, sqrt, a, hagan, last, j))))
  }

  lemma ExpPositive(exp: Fn, x: real)
    requires IsExp(exp)
    ensures exp(x) > 0.0
  {
    var h := (x - 1.0) / 2.0;
    assert AddsAt(exp, h, h);
    assert exp(h + h) >= 0.0;
    assert h + h == x - 1.0;
    assert GrowsAt(exp, x - 1.0, x);
  }

  lemma RatioPositive(exp: Fn, x: real)
    requires IsExp(exp)
    ensures Ratio(exp, x) > 0.0
  {
    assert GrowsAt(exp, x, 0.0) && GrowsAt(exp, 0.0, x);
    if x != 0.0 {
      SameSign(Expm1(exp, x), x);
    }
  }

  lemma SameSign(m: real, x: real)
    requires (m > 0.0 && x > 0.0) || (m < 0.0 && x < 0.0)
    ensures m / x > 0.0
  {
    assert (m / x) * x == m;
  }

  lemma IntegralPositive(exp: Fn, rate: real, lo: real, width: real)
    requires IsExp(exp) && width > 0.0
    ensures ExpIntegral(exp, rate, lo, width) > 0.0
  {
    ExpPositive(exp, Times(rate, lo));
    RatioPositive(exp, Times(rate, width));
    PositiveProduct(exp(Times(rate, lo)), width);
    PositiveProduct(Times(exp(Times(rate, lo)), width), Ratio(exp, Times(rate, width)));
  }

  lemma PositiveProduct(x: real, y: real)
    requires x > 0.0 && y > 0.0
    ensures Times(x, y) > 0.0
  {
  }

  /** v scaled by sqrt(width / weight) has over `weight` the variance v has over `width`. */
  lemma Rescaled(sqrt: Fn, v: real, width: real, weight: real)
    requires IsSqrt(sqrt) && width > 0.0 && weight > 0.0
    ensures var u := v * sqrt(SafeQuotient(width, weight)); Times(u * u, weight) == v * v * width
  {
    var q := width / weight;
    assert q * weight == width;
    assert q > 0.0 by {
      assert q <= 0.0 ==> q * weight <= 0.0;
    }
    var r := sqrt(q);
    assert r * r == q;
    Regrouped(v, r, q, weight, width);
  }

  lemma Regrouped(v: real, r: real, q: real, weight: real, width: real)
    requires r * r == q && q * weight == width
    ensures Times(v * r * (v * r), weight) == v * v * width
  {
    assert v * r * (v * r) == v * v * (r * r);
    assert v * v * q * weight == v * v * (q * weight);
  }

  lemma NoStretch(exp: Fn, a: real)
    ensures NothingForNothing(Stretch(exp, a))
  {
    forall v, lo, length | length == 0.0 ensures Stretch(exp, a)(v, lo, length) == 0.0 {
      ZeroWidth(exp(Times(2.0 * a, lo)), Ratio(exp, Times(2.0 * a, length)), length);
      assert StretchOf(exp, a, v, lo, length) == 0.0;
    }
  }

  lemma ZeroWidth(e: real, r: real, width: real)
    requires width == 0.0
    ensures Times(Times(e, width), r) == 0.0
  {
  }

  /** It is accepted exactly for bucket ends that increase from 0, and then its Hull-White variance is
      the Hagan one's at every bucket end. */
  lemma MatchingHasTheSameVariance(exp: Fn, sqrt: Fn, a: real, hagan: Sigma, last: real)
    requires |hagan.values| == |hagan.times| + 1 && IsExp(exp) && IsSqrt(sqrt)
    ensures var r := HullWhiteMatching(exp, sqrt, a, hagan, last);
            && (r.Success? <==> Ends(hagan, last))
            && (r.Success? ==> SameAtEnds(exp, a, r.value, hagan, last))
  {
    var r := HullWhiteMatching(exp, sqrt, a, hagan, last);
    if r.Success? {
      assert forall j :: 0 <= j < |hagan.values| ==> !(End(hagan, last, j) <= Start(hagan, j));
      EndsSorted(hagan, last);
      forall j | 0 <= j < |hagan.values|
        ensures HullWhiteZeta(exp, a, r.value, End(hagan, last, j)) == Zeta(hagan, End(hagan, last, j))
      {
        SameAtEnd(exp, sqrt, a, hagan, last, j, r.value);
      }
    }
  }

  ghost predicate SameAtEnds(exp: Fn, a: real, s: Sigma, hagan: Sigma, last: real) {
    && WellFormed(hagan) && s.times == hagan.times
    && forall j :: 0 <= j < |hagan.values| ==>
         HullWhiteZeta(exp, a, s, End(hagan, last, j)) == Zeta(hagan, End(hagan, last, j))
  }

  lemma SameAtEnd(exp: Fn, sqrt: Fn, a: real, hagan: Sigma, last: real, j: nat, s: Sigma)
    requires Ends(hagan, last) && IsExp(exp) && IsSqrt(sqrt) && j < |hagan.values|
    requires HullWhiteMatching(exp, sqrt, a, hagan, last) == Success(s)
    ensures WellFormed(hagan)
    ensures HullWhiteZeta(exp, a, s, End(hagan, last, j)) == Zeta(hagan, End(hagan, last, j))
  {
    SameEnds(hagan, last, s);
    ZetaAtEnd(hagan, last, j);
    StretchedIsCovered(exp, a, s, End(s, last, j));
    EndNotNegative(s, last, j);
    NoStretch(exp, a);
    ClippedAtEnd(Stretch(exp, a), s, last, j);
    WholesAgree(exp, sqrt, a, hagan, last, j, s);
  }

  lemma SameEnds(hagan: Sigma, last: real, s: Sigma)
    requires Ends(hagan, last) && s.times == hagan.times && |s.values| == |hagan.values|
    ensures Ends(s, last) && forall j: nat :: End(s, last, j) == End(hagan, last, j)
  {
    forall j | 0 <= j < |s.values| ensures Start(s, j) < End(s, last, j) {
      assert Start(hagan, j) < End(hagan, last, j);
    }
  }

  lemma MatchedStretch(exp: Fn, sqrt: Fn, a: real, v: real, u: real, lo: real, width: real)
    requires IsExp(exp) && IsSqrt(sqrt) && width > 0.0
    requires u == v * sqrt(SafeQuotient(width, ExpIntegral(exp, 2.0 * a, lo, width)))
    ensures StretchOf(exp, a, u, lo, width) == Variance(v, lo, width)
  {
    IntegralPositive(exp, 2.0 * a, lo, width);
    Rescaled(sqrt, v, width, ExpIntegral(exp, 2.0 * a, lo, width));
  }

  lemma MatchedBucket(exp: Fn, sqrt: Fn, a: real, hagan: Sigma, last: real, i: nat, s: Sigma)
    requires Ends(hagan, last) && i < |hagan.values|
    requires HullWhiteMatching(exp, sqrt, a, hagan, last) == Success(s)
    ensures |s.values| == |hagan.values| && Level(s, i) == Level(hagan, i) * ScaleOf(exp, sqrt, a, hagan, last, i)
    ensures Start(s, i) == Start(hagan, i) < End(s, last, i) == End(hagan, last, i)
  {
  }

  lemma WholeAgrees(exp: Fn, sqrt: Fn, a: real, hagan: Sigma, last: real, i: nat, s: Sigma)
    requires Ends(hagan, last) && IsExp(exp) && IsSqrt(sqrt) && i < |hagan.values|
    requires HullWhiteMatching(exp, sqrt, a, hagan, last) == Success(s)
    ensures Whole(Stretch(exp, a), s, last)(i) == Whole(Variance, hagan, last)(i)
  {
    hide HullWhiteMatching, StretchOf, Variance, ExpIntegral, Start, End, Level;
    var lo, width := Start(hagan, i), End(hagan, last, i) - Start(hagan, i);
    MatchedBucket(exp, sqrt, a, hagan, last, i, s);
    MatchedStretch(exp, sqrt, a, Level(hagan, i), Level(s, i), lo, width);
    StretchApplied(exp, a, Level(s, i), lo, width);
  }

  lemma WholesAgree(exp: Fn, sqrt: Fn, a: real, hagan: Sigma, last: real, j: nat, s: Sigma)
    requires Ends(hagan, last) && IsExp(exp) && IsSqrt(sqrt) && j < |hagan.values|
    requires HullWhiteMatching(exp, sqrt, a, hagan, last) == Success(s)
    ensures Sum(Whole(Stretch(exp, a), s, last), j + 1) == Sum(Whole(Variance, hagan, last), j + 1)
  {
    var f, g := Whole(Stretch(exp, a), s, last), Whole(Variance, hagan, last);
    forall i | 0 <= i < j + 1 ensures f(i) == g(i) {
      WholeAgrees(exp, sqrt, a, hagan, last, i, s);
    }
    SumExt(f, g, j + 1);
  }
}
