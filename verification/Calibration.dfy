/** The bootstrap of a piecewise volatility, bucket by bucket, and its tangent
    (engine/calibration/lgm.py). The solver and the helpers' market and model values are parameters. */
module Calibration {
  import opened LinearAlgebra
  import opened Powers
  import opened Sums
  import opened TermStructures
  import opened HullWhite
  import opened Wrappers

  /** What the basket's helpers are worth: in the market, and in the model as a function of the
      variance at their expiry. */
  datatype Basket = Basket(market: int -> real, model: (int, real) -> real)

  /** A root finder: of a function, from a first guess. */
  type Solver = (Fn, real) -> real

  // ----- bucket ends --------------------------------------------------------------------------

  datatype BasketError = NoHelpers | ExpiriesNotIncreasing

  predicate Increasing(a: seq<real>) {
    forall i :: 0 < i < |a| ==> a[i - 1] < a[i]
  }

  /** `basket_expiries`. */
  function BasketExpiries(expiries: seq<real>): Result<seq<real>, BasketError> {
    if expiries == [] then Failure(NoHelpers)
    else if !Increasing(expiries) then Failure(ExpiriesNotIncreasing)
    else Success(expiries)
  }

  /** Each bucket's length, the first from 0. */
  function Lengths(expiries: seq<real>): (dt: seq<real>)
    ensures |dt| == |expiries|
  {
    seq(|expiries|, i requires 0 <= i < |expiries| => expiries[i] - if i == 0 then 0.0 else expiries[i - 1])
  }

  // ----- the bootstrap ------------------------------------------------------------------------

  /** What each bucket adds to the variance. */
  function Grown(values: seq<real>, dt: seq<real>): Entries {
    i => if 0 <= i < |values| && i < |dt| then Variance(values[i], 0.0, dt[i]) else 0.0
  }

  /** A bucket's equation: the helper's model value less its market value, the earlier buckets fixed. */
  function Residual(basket: Basket, i: int, base: real, dt: real): Fn {
    sigma => basket.model(i, base + Variance(sigma, 0.0, dt)) - basket.market(i)
  }

  /** Bucket `i` of the result is what the solver made of its equation. */
  ghost predicate IsBucket(basket: Basket, solve: Solver, vols: seq<real>, dt: seq<real>, values: seq<real>, i: nat)
    requires i < |values| && |values| <= |dt| && |values| <= |vols|
  {
    values[i] == solve(Residual(basket, i, Sum(Grown(values, dt), i), dt[i]), vols[i])
  }

  lemma PrefixUnchanged(values: seq<real>, v: real, dt: seq<real>, i: nat)
    requires i <= |values| <= |dt|
    ensures Sum(Grown(values + [v], dt), i) == Sum(Grown(values, dt), i)
  {
    SumExt(Grown(values + [v], dt), Grown(values, dt), i);
  }

  lemma NextSum(values: seq<real>, v: real, dt: seq<real>)
    requires |values| < |dt|
    ensures Sum(Grown(values + [v], dt), |values| + 1)
            == Sum(Grown(values, dt), |values|) + Variance(v, 0.0, dt[|values|])
  {
    PrefixUnchanged(values, v, dt, |values|);
    SumLast(Grown(values + [v], dt), |values|);
  }

  ghost predicate AreBuckets(basket: Basket, solve: Solver, vols: seq<real>, dt: seq<real>, values: seq<real>)
    requires |values| <= |dt| && |values| <= |vols|
  {
    forall i :: 0 <= i < |values| ==> IsBucket(basket, solve, vols, dt, values, i)
  }

  lemma NextBucket(basket: Basket, solve: Solver, vols: seq<real>, dt: seq<real>, values: seq<real>, v: real)
    requires |values| < |dt| && |values| < |vols| && AreBuckets(basket, solve, vols, dt, values)
    requires v == solve(Residual(basket, |values|, Sum(Grown(values, dt), |values|), dt[|values|]), vols[|values|])
    ensures AreBuckets(basket, solve, vols, dt, values + [v])
  {
    forall i | 0 <= i < |values + [v]| ensures IsBucket(basket, solve, vols, dt, values + [v], i) {
      PrefixUnchanged(values, v, dt, i);
      assert i < |values| ==> IsBucket(basket, solve, vols, dt, values, i);
    }
  }

  /** The helpers' model values at the result. */
  ghost predicate AreModels(basket: Basket, dt: seq<real>, values: seq<real>, models: seq<real>) {
    |models| == |values| && forall i :: 0 <= i < |values| ==> IsModel(basket, dt, values, i, models[i])
  }

  ghost predicate IsModel(basket: Basket, dt: seq<real>, values: seq<real>, i: nat, model: real) {
    model == basket.model(i, Sum(Grown(values, dt), i + 1))
  }

  lemma NextModel(basket: Basket, dt: seq<real>, values: seq<real>, models: seq<real>, v: real)
    requires |values| < |dt| && AreModels(basket, dt, values, models)
    ensures var zeta := Sum(Grown(values, dt), |values|) + Variance(v, 0.0, dt[|values|]);
            AreModels(basket, dt, values + [v], models + [basket.model(|values|, zeta)])
  {
    NextSum(values, v, dt);
    forall i | 0 <= i < |values| ensures IsModel(basket, dt, values + [v], i, models[i]) {
      PrefixUnchanged(values, v, dt, i + 1);
      assert IsModel(basket, dt, values, i, models[i]);
    }
  }

  /** `bootstrap`: each bucket's volatility solves its helper's equation on top of the variance of the
      buckets before. */
  method Bootstrap(basket: Basket, solve: Solver, vols: seq<real>, dt: seq<real>, ceiling: real)
    returns (values: seq<real>, models: seq<real>, hits: seq<bool>)
    requires |vols| == |dt|
    ensures |values| == |dt| && AreBuckets(basket, solve, vols, dt, values)
    ensures AreModels(basket, dt, values, models)
    ensures |hits| == |values| && forall i :: 0 <= i < |values| ==> (hits[i] <==> values[i] >= ceiling)
  {
    values, models, hits := [], [], [];
    var zetaBefore := 0.0;
    for i := 0 to |dt|
      invariant |values| == i && AreBuckets(basket, solve, vols, dt, values)
      invariant AreModels(basket, dt, values, models)
      invariant zetaBefore == Sum(Grown(values, dt), i)
      invariant |hits| == i && forall h :: 0 <= h < i ==> (hits[h] <==> values[h] >= ceiling)
    {
      var sigma := solve(Residual(basket, i, zetaBefore, dt[i]), vols[i]);
      var zeta := zetaBefore + Variance(sigma, 0.0, dt[i]);
      NextBucket(basket, solve, vols, dt, values, sigma);
      NextModel(basket, dt, values, models, sigma);
      NextSum(values, sigma, dt);
      values, models, hits := values + [sigma], models + [basket.model(i, zeta)], hits + [sigma >= ceiling];
      zetaBefore := zeta;
    }
  }

  // ----- what the bootstrapped volatility reproduces ------------------------------------------

  /** The result as a volatility: its buckets end at the helpers' expiries, the last one open. */
  function BucketSigma(expiries: seq<real>, values: seq<real>): Sigma
    requires 0 < |expiries|
  {
    Sigma(expiries[..|expiries| - 1], values)
  }

  ghost predicate Calibrates(expiries: seq<real>, values: seq<real>) {
    0 < |expiries| == |values| && Increasing(expiries) && expiries[0] > 0.0
  }

  lemma EndsAreExpiries(expiries: seq<real>, values: seq<real>)
    requires Calibrates(expiries, values)
    ensures Ends(BucketSigma(expiries, values), expiries[|expiries| - 1])
    ensures forall j :: 0 <= j < |expiries| ==>
              End(BucketSigma(expiries, values), expiries[|expiries| - 1], j) == expiries[j]
  {
  }

  /** The volatility's variance at an expiry is the sum the bootstrap built there. */
  lemma ZetaAtExpiry(expiries: seq<real>, values: seq<real>, j: nat)
    requires Calibrates(expiries, values) && j < |expiries|
    ensures WellFormed(BucketSigma(expiries, values))
    ensures Zeta(BucketSigma(expiries, values), expiries[j]) == Sum(Grown(values, Lengths(expiries)), j + 1)
  {
    var s, last := BucketSigma(expiries, values), expiries[|expiries| - 1];
    EndsAreExpiries(expiries, values);
    assert End(s, last, j) == expiries[j];
    ZetaAtEnd(s, last, j);
    forall i | 0 <= i < j + 1 ensures Whole(Variance, s, last)(i) == Grown(values, Lengths(expiries))(i) {
      BucketIsGrown(expiries, values, i);
    }
    SumExt(Whole(Variance, s, last), Grown(values, Lengths(expiries)), j + 1);
  }

  lemma BucketIsGrown(expiries: seq<real>, values: seq<real>, i: nat)
    requires Calibrates(expiries, values) && i < |expiries|
    ensures Whole(Variance, BucketSigma(expiries, values), expiries[|expiries| - 1])(i)
            == Grown(values, Lengths(expiries))(i)
  {
    var s, last := BucketSigma(expiries, values), expiries[|expiries| - 1];
    assert End(s, last, i) - Start(s, i) == Lengths(expiries)[i];
    SameVariance(Level(s, i), Start(s, i), End(s, last, i) - Start(s, i), Lengths(expiries)[i]);
  }

  lemma SameVariance(v: real, lo: real, a: real, b: real)
    requires a == b
    ensures Variance(v, lo, a) == Variance(v, 0.0, b)
  {
  }

  /** Helper j's model value on the volatility equals its market value. */
  ghost predicate Reprices(basket: Basket, s: Sigma, expiry: real, j: nat) {
    WellFormed(s) && basket.model(j, Zeta(s, expiry)) == basket.market(j)
  }

  /** A helper is repriced exactly when its bucket's value is a root of its bucket's equation: no
      later bucket disturbs it. */
  lemma RepricesIffRoot(basket: Basket, expiries: seq<real>, values: seq<real>, j: nat)
    requires Calibrates(expiries, values) && j < |expiries|
    ensures Reprices(basket, BucketSigma(expiries, values), expiries[j], j) <==>
            Residual(basket, j, Sum(Grown(values, Lengths(expiries)), j), Lengths(expiries)[j])(values[j]) == 0.0
  {
    var dt := Lengths(expiries);
    ZetaAtExpiry(expiries, values, j);
    ResidualIs(basket, j, values, dt);
  }

  lemma ResidualIs(basket: Basket, j: nat, values: seq<real>, dt: seq<real>)
    requires j < |values| && j < |dt|
    ensures Residual(basket, j, Sum(Grown(values, dt), j), dt[j])(values[j])
            == basket.model(j, Sum(Grown(values, dt), j + 1)) - basket.market(j)
  {
    SumLast(Grown(values, dt), j);
  }

  /** The solver found a root of every bucket's equation. */
  ghost predicate Solved(basket: Basket, solve: Solver, vols: seq<real>, dt: seq<real>, values: seq<real>)
    requires |values| <= |dt| && |values| <= |vols|
  {
    forall i :: 0 <= i < |values| ==> RootAt(basket, solve, vols, dt, values, i)
  }

  ghost predicate RootAt(basket: Basket, solve: Solver, vols: seq<real>, dt: seq<real>, values: seq<real>, i: nat)
    requires i < |dt| && i < |vols|
  {
    var f := Residual(basket, i, Sum(Grown(values, dt), i), dt[i]);
    f(solve(f, vols[i])) == 0.0
  }

  /** So the bootstrapped volatility reprices all helpers at once ... */
  lemma BootstrapReprices(basket: Basket, solve: Solver, vols: seq<real>, expiries: seq<real>, values: seq<real>)
    requires Calibrates(expiries, values) && |vols| == |expiries|
    requires AreBuckets(basket, solve, vols, Lengths(expiries), values)
    requires Solved(basket, solve, vols, Lengths(expiries), values)
    ensures forall j :: 0 <= j < |expiries| ==> Reprices(basket, BucketSigma(expiries, values), expiries[j], j)
  {
    forall j | 0 <= j < |expiries| ensures Reprices(basket, BucketSigma(expiries, values), expiries[j], j) {
      RepricesIffRoot(basket, expiries, values, j);
      assert IsBucket(basket, solve, vols, Lengths(expiries), values, j);
      assert RootAt(basket, solve, vols, Lengths(expiries), values, j);
    }
  }

  /** ... and so does the Hull-White volatility converted from it. */
  lemma ConvertedReprices(basket: Basket, exp: Fn, sqrt: Fn, a: real, expiries: seq<real>, values: seq<real>, j: nat)
    requires Calibrates(expiries, values) && j < |expiries| && IsExp(exp) && IsSqrt(sqrt)
    requires Reprices(basket, BucketSigma(expiries, values), expiries[j], j)
    ensures var r := HullWhiteMatching(exp, sqrt, a, BucketSigma(expiries, values), expiries[|expiries| - 1]);
            r.Success? && basket.model(j, HullWhiteZeta(exp, a, r.value, expiries[j])) == basket.market(j)
  {
    EndsAreExpiries(expiries, values);
    MatchingHasTheSameVariance(exp, sqrt, a, BucketSigma(expiries, values), expiries[|expiries| - 1]);
    assert End(BucketSigma(expiries, values), expiries[|expiries| - 1], j) == expiries[j];
  }

  datatype Bootstrapped = Bootstrapped(sigma: Sigma, models: seq<real>, hits: seq<bool>)

  /** The model values of the result are the helpers' own under its volatility. */
  lemma ModelsAreOfTheSigma(basket: Basket, expiries: seq<real>, values: seq<real>, models: seq<real>, j: nat)
    requires Calibrates(expiries, values) && AreModels(basket, Lengths(expiries), values, models) && j < |expiries|
    ensures WellFormed(BucketSigma(expiries, values))
    ensures models[j] == basket.model(j, Zeta(BucketSigma(expiries, values), expiries[j]))
  {
    ZetaAtExpiry(expiries, values, j);
    assert IsModel(basket, Lengths(expiries), values, j, models[j]);
  }

  /** `bootstrap_sigma`: refused for no helpers or expiries that do not increase; otherwise, where the
      solver finds roots, a volatility that reprices every helper. */
  method BootstrapSigma(basket: Basket, solve: Solver, vols: seq<real>, expiries: seq<real>, ceiling: real)
    returns (r: Result<Bootstrapped, BasketError>)
    requires |vols| == |expiries|
    ensures r.Failure? <==> expiries == [] || !Increasing(expiries)
    ensures r.Failure? ==> (r.error == NoHelpers <==> expiries == [])
    ensures r.Success? ==>
              && 0 < |expiries| == |r.value.sigma.values|
              && AreBuckets(basket, solve, vols, Lengths(expiries), r.value.sigma.values)
              && r.value.sigma == BucketSigma(expiries, r.value.sigma.values)
              && AreModels(basket, Lengths(expiries), r.value.sigma.values, r.value.models)
              && |r.value.hits| == |expiries|
              && (forall j :: 0 <= j < |expiries| ==> (r.value.hits[j] <==> r.value.sigma.values[j] >= ceiling))
              && (Calibrates(expiries, r.value.sigma.values)
                  && Solved(basket, solve, vols, Lengths(expiries), r.value.sigma.values) ==>
                    forall j :: 0 <= j < |expiries| ==> Reprices(basket, r.value.sigma, expiries[j], j))
  {
    var ends := BasketExpiries(expiries);
    if ends.Failure? {
      return Failure(ends.error);
    }
    var values, models, hits := Bootstrap(basket, solve, vols, Lengths(ends.value), ceiling);
    ghost var dt := Lengths(expiries);
    if Calibrates(expiries, values) && Solved(basket, solve, vols, dt, values) {
      BootstrapReprices(basket, solve, vols, expiries, values);
    }
    r := Success(Bootstrapped(BucketSigma(ends.value, values), models, hits));
  }

  // ----- the tangent --------------------------------------------------------------------------

  /** d(v^2 dt) along a tangent of the values. */
  function GrownTangent(values: seq<real>, dt: seq<real>, tangent: seq<real>): Entries
    requires |dt| == |tangent| == |values|
  {
    i => if 0 <= i < |values| then Times(tangent[i], Slope(values[i], dt[i])) else 0.0
  }

  function Slope(v: real, dt: real): real {
    2.0 * v * dt
  }

  function Moved(values: seq<real>, tangent: seq<real>, h: real): (r: seq<real>)
    requires |values| == |tangent|
    ensures |r| == |values|
  {
    seq(|values|, i requires 0 <= i < |values| => values[i] + h * tangent[i])
  }

  function Quadratic(h: real, a: real, b: real, c: real): real {
    a + h * b + h * h * c
  }

  /** The cumulative sum of the tangents is the first-order change of the variance: what is left over is
      h^2 times the variance of the tangent. */
  lemma {:induction false} GrownTangentIsDifferential(
      values: seq<real>, dt: seq<real>, tangent: seq<real>, h: real, n: nat)
    requires |dt| == |tangent| == |values| && n <= |values|
    ensures Sum(Grown(Moved(values, tangent, h), dt), n)
            == Quadratic(h, Sum(Grown(values, dt), n), Sum(GrownTangent(values, dt, tangent), n),
                         Sum(Grown(tangent, dt), n))
  {
    if n > 0 {
      GrownTangentIsDifferential(values, dt, tangent, h, n - 1);
      SumLast(Grown(Moved(values, tangent, h), dt), n - 1);
      SumLast(Grown(values, dt), n - 1);
      SumLast(GrownTangent(values, dt, tangent), n - 1);
      SumLast(Grown(tangent, dt), n - 1);
      GrownMoves(values, dt, tangent, h, n - 1);
      Collect(h, Sum(Grown(values, dt), n - 1), Sum(GrownTangent(values, dt, tangent), n - 1),
              Sum(Grown(tangent, dt), n - 1), Grown(values, dt)(n - 1),
              GrownTangent(values, dt, tangent)(n - 1), Grown(tangent, dt)(n - 1));
    }
  }

  lemma GrownMoves(values: seq<real>, dt: seq<real>, tangent: seq<real>, h: real, i: nat)
    requires |dt| == |tangent| == |values| && i < |values|
    ensures Grown(Moved(values, tangent, h), dt)(i)
            == Quadratic(h, Grown(values, dt)(i), GrownTangent(values, dt, tangent)(i), Grown(tangent, dt)(i))
  {
    Expanded(values[i], tangent[i], dt[i], h);
  }

  lemma Expanded(v: real, u: real, dt: real, h: real)
    ensures Variance(v + h * u, 0.0, dt)
            == Quadratic(h, Variance(v, 0.0, dt), Times(u, Slope(v, dt)), Variance(u, 0.0, dt))
  {
    var w := h * u;
    assert (v + w) * (v + w) == v * v + 2.0 * v * w + w * w;
    assert (v * v + 2.0 * v * w + w * w) * dt == v * v * dt + 2.0 * v * w * dt + w * w * dt;
  }

  lemma Collect(h: real, a: real, b: real, c: real, a': real, b': real, c': real)
    ensures Quadratic(h, a, b, c) + Quadratic(h, a', b', c') == Quadratic(h, a + a', b + b', c + c')
  {
  }

  /** `buckets_jvp`: the values' tangent from the variances'. */
  function ValuesTangent(values: seq<real>, dt: seq<real>, zetas: seq<real>): (r: seq<real>)
    requires |dt| == |zetas| == |values| && forall i :: 0 <= i < |values| ==> Slope(values[i], dt[i]) != 0.0
    ensures |r| == |values|
  {
    seq(|values|, i requires 0 <= i < |values| =>
        (zetas[i] - if i == 0 then 0.0 else zetas[i - 1]) / Slope(values[i], dt[i]))
  }

  lemma QuotientIs(x: real, d: real, q: real)
    requires d != 0.0
    ensures Times(q, d) == x <==> q == x / d
  {
    var p := x / d;
    assert p * d == x;
    Cancel(q, p, d);
  }

  /** The values' tangent is the one whose cumulative sums are the variances' tangents, and the only one. */
  lemma TangentInvertsCumulative(values: seq<real>, dt: seq<real>, zetas: seq<real>, tangent: seq<real>)
    requires |dt| == |zetas| == |tangent| == |values|
    requires forall i :: 0 <= i < |values| ==> Slope(values[i], dt[i]) != 0.0
    ensures tangent == ValuesTangent(values, dt, zetas) <==>
            (forall j :: 0 <= j < |values| ==> CumulativeIs(values, dt, tangent, zetas, j))
  {
    if tangent == ValuesTangent(values, dt, zetas) {
      forall j | 0 <= j < |values| ensures CumulativeIs(values, dt, tangent, zetas, j) {
        CumulativeBack(values, dt, zetas, tangent, j);
      }
    }
    if forall j :: 0 <= j < |values| ==> CumulativeIs(values, dt, tangent, zetas, j) {
      forall i | 0 <= i < |values| ensures tangent[i] == ValuesTangent(values, dt, zetas)[i] {
        assert CumulativeIs(values, dt, tangent, zetas, i);
        assert i > 0 ==> CumulativeIs(values, dt, tangent, zetas, i - 1);
        EntryIs(values, dt, zetas, tangent, i);
      }
    }
  }

  ghost predicate CumulativeIs(values: seq<real>, dt: seq<real>, tangent: seq<real>, zetas: seq<real>, j: nat)
    requires |dt| == |zetas| == |tangent| == |values| && j < |values|
  {
    Sum(GrownTangent(values, dt, tangent), j + 1) == zetas[j]
  }

  lemma EntryIs(values: seq<real>, dt: seq<real>, zetas: seq<real>, tangent: seq<real>, i: nat)
    requires |dt| == |zetas| == |tangent| == |values| && i < |values|
    requires forall h :: 0 <= h < |values| ==> Slope(values[h], dt[h]) != 0.0
    requires i > 0 ==> CumulativeIs(values, dt, tangent, zetas, i - 1)
    ensures tangent[i] == ValuesTangent(values, dt, zetas)[i] <==> CumulativeIs(values, dt, tangent, zetas, i)
  {
    SumLast(GrownTangent(values, dt, tangent), i);
    QuotientIs(zetas[i] - if i == 0 then 0.0 else zetas[i - 1], Slope(values[i], dt[i]), tangent[i]);
  }

  lemma {:induction false} CumulativeBack(values: seq<real>, dt: seq<real>, zetas: seq<real>, tangent: seq<real>,
                                          j: nat)
    requires |dt| == |zetas| == |tangent| == |values| && j < |values|
    requires forall i :: 0 <= i < |values| ==> Slope(values[i], dt[i]) != 0.0
    requires tangent == ValuesTangent(values, dt, zetas)
    ensures CumulativeIs(values, dt, tangent, zetas, j)
  {
    if j > 0 {
      CumulativeBack(values, dt, zetas, tangent, j - 1);
    }
    EntryIs(values, dt, zetas, tangent, j);
  }
}
