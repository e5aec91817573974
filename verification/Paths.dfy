/** The state recursion of the cross-asset model in difference form (engine/market_simulation/paths.py)
    and the moments it is standardized by (engine/models/cam.py, path_moments). */
module Paths {
  import opened LinearAlgebra
  import opened Powers

  import Cholesky

  /** One step of the exact discretization: x' = M x + b + L z, L L' the step's covariance. */
  datatype Step = Step(transition: Mat, drift: Vec, cholesky: Mat, covariance: Mat)

  function ColumnOf(M: Mat, c: int): Vec {
    r => M(r, c)
  }

  // ----- the moments --------------------------------------------------------------------------

  function NextMean(step: Step, mean: Vec, d: nat): Vec {
    r => Dot(RowOf(step.transition, r), mean, d) + step.drift(r)
  }

  function Product(A: Mat, B: Mat, d: nat): Mat {
    (r, c) => Dot(RowOf(A, r), ColumnOf(B, c), d)
  }

  function Transposed(A: Mat): Mat {
    (r, c) => A(c, r)
  }

  /** V <- M V M' + C. */
  function NextCovariance(step: Step, V: Mat, d: nat): Mat {
    (r, c) => Product(Product(step.transition, V, d), Transposed(step.transition), d)(r, c) + step.covariance(r, c)
  }

  function Zero(r: int, c: int): real {
    0.0
  }

  function MeanAt(steps: seq<Step>, initial: Vec, d: nat, i: nat): Vec
    requires i <= |steps|
  {
    if i == 0 then initial else NextMean(steps[i - 1], MeanAt(steps, initial, d, i - 1), d)
  }

  function CovarianceAt(steps: seq<Step>, d: nat, i: nat): Mat
    requires i <= |steps|
  {
    if i == 0 then Zero else NextCovariance(steps[i - 1], CovarianceAt(steps, d, i - 1), d)
  }

  /** The power of two above the standard deviation, 1 where that is 0. */
  function ScaleOf(sqrt: real -> real, variance: real): (s: real)
    ensures s > 0.0
  {
    var deviation := sqrt(if variance < 0.0 then 0.0 else variance);
    if deviation > 0.0 then Pow2(Exponent(deviation)) else 1.0
  }

  /** The scales of a date's components. */
  function Scales(sqrt: real -> real, V: Mat): Vec {
    r => ScaleOf(sqrt, V(r, r))
  }

  /** `path_moments`: mean and scale of every date. */
  method PathMoments(steps: seq<Step>, initial: Vec, d: nat, sqrt: real -> real)
    returns (means: seq<Vec>, scales: seq<Vec>)
    ensures |means| == |scales| == |steps| + 1
    ensures forall i :: 0 <= i <= |steps| ==> means[i] == MeanAt(steps, initial, d, i)
    ensures forall i :: 0 <= i <= |steps| ==> scales[i] == Scales(sqrt, CovarianceAt(steps, d, i))
  {
    var covariance: Mat := Zero;
    means, scales := [initial], [Scales(sqrt, covariance)];
    for i := 0 to |steps|
      invariant |means| == |scales| == i + 1
      invariant covariance == CovarianceAt(steps, d, i)
      invariant forall h :: 0 <= h <= i ==> means[h] == MeanAt(steps, initial, d, h)
      invariant forall h :: 0 <= h <= i ==> scales[h] == Scales(sqrt, CovarianceAt(steps, d, h))
    {
      means := means + [NextMean(steps[i], means[i], d)];
      covariance := NextCovariance(steps[i], covariance, d);
      scales := scales + [Scales(sqrt, covariance)];
    }
  }

  /** A scale is a power of two at least the standard deviation and at most twice it, and 1 where there is none. */
  lemma ScaleIsNear(sqrt: real -> real, variance: real)
    requires IsSqrt(sqrt)
    ensures var s, deviation := ScaleOf(sqrt, variance), sqrt(variance);
            && s > 0.0 && (exists e :: s == Pow2(e))
            && (if variance > 0.0 then 0.0 < deviation <= s <= 2.0 * deviation else s == 1.0)
  {
    var deviation := sqrt(if variance < 0.0 then 0.0 else variance);
    NonzeroProduct(deviation, deviation);
    if deviation > 0.0 {
      Pow2Next(Exponent(deviation) - 1);
    } else {
      assert Pow2(0) == 1.0;
    }
  }

  // ----- the difference form ------------------------------------------------------------------

  /** `[M~, L~]'` of a step between dates of the scales `s` and `s'`: the rows of M~' then of L~'. */
  function Standardized(step: Step, s: Vec, s': Vec, d: nat): Mat {
    (k, r) => if k < d then StandardTransition(step, s, s', r, k) else StandardNoise(step, s', r, k - d)
  }

  function StandardTransition(step: Step, s: Vec, s': Vec, r: int, c: int): real {
    Times(Times(Inverse(s'(r)), step.transition(r, c)), s(c))
  }

  function StandardNoise(step: Step, s': Vec, r: int, c: int): real {
    Times(Inverse(s'(r)), step.cholesky(r, c))
  }

  function Inverse(x: real): real {
    if x == 0.0 then 0.0 else 1.0 / x
  }

  /** `concatenate([deviation, z])`. */
  function Joined(y: Vec, z: Vec, d: nat): Vec {
    k => if k < d then y(k) else z(k - d)
  }

  /** One step of the scan: `[y, z] @ [M~, L~]'`. */
  function NextDeviation(moments: Mat, y: Vec, z: Vec, d: nat): Vec {
    r => Dot(Joined(y, z, d), ColumnOf(moments, r), d + d)
  }

  function DeviationAt(steps: seq<Step>, scales: seq<Vec>, noise: seq<Vec>, d: nat, i: nat): Vec
    requires i <= |steps| == |noise| && |scales| == |steps| + 1
  {
    if i == 0 then c => 0.0
    else NextDeviation(Standardized(steps[i - 1], scales[i - 1], scales[i], d),
                       DeviationAt(steps, scales, noise, d, i - 1), noise[i - 1], d)
  }

  /** m + s y. */
  function StateAt(steps: seq<Step>, initial: Vec, scales: seq<Vec>, noise: seq<Vec>, d: nat, i: nat): Vec
    requires i <= |steps| == |noise| && |scales| == |steps| + 1
  {
    r => MeanAt(steps, initial, d, i)(r) + Times(scales[i](r), DeviationAt(steps, scales, noise, d, i)(r))
  }

  /** The recursion the scan stands for: x' = M x + b + L z. */
  function DirectAt(steps: seq<Step>, initial: Vec, noise: seq<Vec>, d: nat, i: nat): Vec
    requires i <= |steps| == |noise|
  {
    if i == 0 then initial else NextState(steps[i - 1], DirectAt(steps, initial, noise, d, i - 1), noise[i - 1], d)
  }

  function NextState(step: Step, x: Vec, z: Vec, d: nat): Vec {
    r => Dot(RowOf(step.transition, r), x, d) + step.drift(r) + Dot(RowOf(step.cholesky, r), z, d)
  }

  lemma {:induction false} JoinedDot(y: Vec, z: Vec, w: Vec, w': Vec, d: nat, n: nat)
    requires forall k :: 0 <= k < n ==> w'(k) == w(k + d)
    ensures Dot(Joined(y, z, d), w, d + n) == Dot(y, w, d) + Dot(z, w', n)
  {
    if n == 0 {
      DotExt(Joined(y, z, d), w, y, w, d);
    } else {
      JoinedDot(y, z, w, w', d, n - 1);
    }
  }

  /** Products that agree once scaled by `k`. */
  lemma {:induction false} DotTermwise(u: Vec, y: Vec, v: Vec, w: Vec, k: real, n: nat)
    requires forall c :: 0 <= c < n ==> ScaledProduct(u(c), y(c), v(c), w(c), k)
    ensures Times(k, Dot(u, y, n)) == Dot(v, w, n)
  {
    if n > 0 {
      DotTermwise(u, y, v, w, k, n - 1);
      assert ScaledProduct(u(n - 1), y(n - 1), v(n - 1), w(n - 1), k);
      Distribute(k, Dot(u, y, n - 1), u(n - 1) * y(n - 1));
    }
  }

  predicate ScaledProduct(u: real, y: real, v: real, w: real, k: real) {
    Times(k, u * y) == v * w
  }

  lemma Distribute(k: real, a: real, b: real)
    ensures Times(k, a + b) == Times(k, a) + Times(k, b)
  {
  }

  lemma TransitionProduct(step: Step, s: Vec, s': Vec, y: Vec, r: int, c: int)
    requires s'(r) != 0.0
    ensures ScaledProduct(StandardTransition(step, s, s', r, c), y(c), step.transition(r, c), Times(s(c), y(c)), s'(r))
  {
    Unscale(s'(r), Inverse(s'(r)), step.transition(r, c), s(c), y(c));
  }

  lemma Unscale(k: real, inverse: real, m: real, s: real, y: real)
    requires k * inverse == 1.0
    ensures ScaledProduct(Times(Times(inverse, m), s), y, m, Times(s, y), k)
  {
    var q := m * s * y;
    assert inverse * m * s * y == inverse * q;
    assert k * (inverse * q) == (k * inverse) * q;
  }

  lemma NoiseProduct(step: Step, s': Vec, z: Vec, r: int, c: int)
    requires s'(r) != 0.0
    ensures ScaledProduct(StandardNoise(step, s', r, c), z(c), step.cholesky(r, c), z(c), s'(r))
  {
    Unscale1(s'(r), Inverse(s'(r)), step.cholesky(r, c), z(c));
  }

  lemma Unscale1(k: real, inverse: real, m: real, z: real)
    requires k * inverse == 1.0
    ensures ScaledProduct(Times(inverse, m), z, m, z, k)
  {
    var q := m * z;
    assert inverse * m * z == inverse * q;
    assert k * (inverse * q) == (k * inverse) * q;
  }

  function Scaled(s: Vec, y: Vec): Vec {
    c => Times(s(c), y(c))
  }

  /** A deviation in units of its new scale is the transition of the old one plus the noise. */
  lemma DeviationStep(step: Step, s: Vec, s': Vec, y: Vec, z: Vec, d: nat, r: nat)
    requires s'(r) != 0.0
    ensures Times(s'(r), NextDeviation(Standardized(step, s, s', d), y, z, d)(r))
            == Dot(RowOf(step.transition, r), Scaled(s, y), d) + Dot(RowOf(step.cholesky, r), z, d)
  {
    hide Dot, Times, StandardTransition, StandardNoise, Inverse;
    var w := ColumnOf(Standardized(step, s, s', d), r);
    var t: Vec := c => StandardTransition(step, s, s', r, c);
    var n: Vec := c => StandardNoise(step, s', r, c);
    JoinedDot(y, z, w, n, d, d);
    DotExt(y, w, y, t, d);
    DotSymmetric(y, t, d);
    DotSymmetric(z, n, d);
    forall c | 0 <= c < d
      ensures ScaledProduct(t(c), y(c), RowOf(step.transition, r)(c), Scaled(s, y)(c), s'(r))
      ensures ScaledProduct(n(c), z(c), RowOf(step.cholesky, r)(c), z(c), s'(r))
    {
      TransitionProduct(step, s, s', y, r, c);
      NoiseProduct(step, s', z, r, c);
    }
    DotTermwise(t, y, RowOf(step.transition, r), Scaled(s, y), s'(r), d);
    DotTermwise(n, z, RowOf(step.cholesky, r), z, s'(r), d);
    Distribute(s'(r), Dot(t, y, d), Dot(n, z, d));
  }

  ghost predicate NonzeroScales(scales: seq<Vec>, d: nat) {
    forall i, r :: 0 <= i < |scales| && 0 <= r < d ==> NonzeroAt(scales, i, r)
  }

  ghost predicate NonzeroAt(scales: seq<Vec>, i: nat, r: int)
    requires i < |scales|
  {
    scales[i](r) != 0.0
  }

  lemma DotOfSum(u: Vec, m: Vec, w: Vec, x: Vec, d: nat)
    requires forall c :: 0 <= c < d ==> x(c) == m(c) + w(c)
    ensures Dot(u, x, d) == Dot(u, m, d) + Dot(u, w, d)
  {
    DotLinear(u, 1.0, m, 1.0, w, x, d);
  }

  /** For every noise sequence and every choice of non-zero scales, the scan in difference form is the
      direct recursion, component by component at every date. */
  lemma {:induction false} DifferenceFormIsDirect(
      steps: seq<Step>, initial: Vec, scales: seq<Vec>, noise: seq<Vec>, d: nat, i: nat)
    requires i <= |steps| == |noise| && |scales| == |steps| + 1 && NonzeroScales(scales, d)
    ensures forall r :: 0 <= r < d ==>
              StateAt(steps, initial, scales, noise, d, i)(r) == DirectAt(steps, initial, noise, d, i)(r)
  {
    if i == 0 {
      forall r | 0 <= r < d
        ensures StateAt(steps, initial, scales, noise, d, 0)(r) == DirectAt(steps, initial, noise, d, 0)(r)
      {
        assert Times(scales[0](r), 0.0) == 0.0;
      }
    } else {
      DifferenceFormIsDirect(steps, initial, scales, noise, d, i - 1);
      var m, x := MeanAt(steps, initial, d, i - 1), DirectAt(steps, initial, noise, d, i - 1);
      var y := DeviationAt(steps, scales, noise, d, i - 1);
      var w := Scaled(scales[i - 1], y);
      assert forall c :: 0 <= c < d ==> x(c) == m(c) + w(c) by {
        forall c | 0 <= c < d ensures x(c) == m(c) + w(c) {
          assert StateAt(steps, initial, scales, noise, d, i - 1)(c) == m(c) + w(c);
        }
      }
      forall r | 0 <= r < d
        ensures StateAt(steps, initial, scales, noise, d, i)(r) == DirectAt(steps, initial, noise, d, i)(r)
      {
        assert NonzeroAt(scales, i, r);
        DeviationStep(steps[i - 1], scales[i - 1], scales[i], y, noise[i - 1], d, r);
        DotOfSum(RowOf(steps[i - 1].transition, r), m, w, x, d);
      }
    }
  }

  lemma ScaleNotZero(sqrt: real -> real, V: Mat, r: int)
    ensures Scales(sqrt, V)(r) > 0.0
  {
    assert ScaleOf(sqrt, V(r, r)) > 0.0;
  }

  lemma PathScalesNonzero(steps: seq<Step>, d: nat, sqrt: real -> real, scales: seq<Vec>)
    requires |scales| == |steps| + 1
    requires forall i :: 0 <= i <= |steps| ==> scales[i] == Scales(sqrt, CovarianceAt(steps, d, i))
    ensures NonzeroScales(scales, d)
  {
    forall i: nat, r: int | i < |scales| && 0 <= r < d ensures NonzeroAt(scales, i, r) {
      assert scales[i] == Scales(sqrt, CovarianceAt(steps, d, i));
      ScaleNotZero(sqrt, CovarianceAt(steps, d, i), r);
    }
  }

  // ----- the covariance is that of the paths --------------------------------------------------

  /** How many normals have been drawn by date `i`. */
  function Drawn(d: nat, i: nat): nat {
    if i == 0 then 0 else Drawn(d, i - 1) + d
  }

  lemma {:induction false} DrawnIs(d: nat, i: nat)
    ensures Drawn(d, i) == i * d
  {
    if i > 0 {
      DrawnIs(d, i - 1);
      assert (i - 1) * d + d == i * d;
    }
  }

  /** What a step carries of earlier loadings on the normals: row `r` of M K. */
  function Carried(step: Step, K: Mat, d: nat, r: int): Vec {
    k => Dot(RowOf(step.transition, r), ColumnOf(K, k), d)
  }

  /** The state's loadings on every normal drawn by date `i`: [M K, L]. */
  function Loadings(steps: seq<Step>, d: nat, i: nat): Mat
    requires i <= |steps|
  {
    if i == 0 then Zero else NextLoadings(steps[i - 1], Loadings(steps, d, i - 1), d, Drawn(d, i - 1))
  }

  function NextLoadings(step: Step, K: Mat, d: nat, n: nat): Mat {
    (r, k) => Joined(Carried(step, K, d, r), RowOf(step.cholesky, r), n)(k)
  }

  /** Every normal drawn by date `i`. */
  function AllNoise(noise: seq<Vec>, d: nat, i: nat): Vec
    requires i <= |noise|
  {
    if i == 0 then k => 0.0 else Joined(AllNoise(noise, d, i - 1), noise[i - 1], Drawn(d, i - 1))
  }

  /** Row p of K against w, for every p. */
  function Rows(K: Mat, w: Vec, n: nat): Vec {
    p => Dot(RowOf(K, p), w, n)
  }

  function Columns(u: Vec, K: Mat, d: nat): Vec {
    k => Dot(u, ColumnOf(K, k), d)
  }

  /** u (K w) == (u K) w. */
  lemma {:induction false} Exchange(u: Vec, K: Mat, w: Vec, d: nat, n: nat)
    ensures Dot(u, Rows(K, w, n), d) == Dot(Columns(u, K, d), w, n)
  {
    if d == 0 {
      DotTail(Columns(u, K, 0), w, 0, n);
    } else {
      Exchange(u, K, w, d - 1, n);
      NextColumn(u, K, w, d, n);
    }
  }

  /** One more row of K. */
  lemma NextColumn(u: Vec, K: Mat, w: Vec, d: nat, n: nat)
    requires d > 0
    ensures Dot(Columns(u, K, d), w, n) == Dot(Columns(u, K, d - 1), w, n) + u(d - 1) * Rows(K, w, n)(d - 1)
  {
    var z, z', row := Columns(u, K, d), Columns(u, K, d - 1), RowOf(K, d - 1);
    forall k | 0 <= k < n ensures z(k) == Lin(1.0, z'(k), u(d - 1), row(k)) {
      assert ColumnOf(K, k)(d - 1) == row(k);
    }
    DotLinear(w, 1.0, z', u(d - 1), row, z, n);
    DotSymmetric(w, z, n);
    DotSymmetric(w, z', n);
    DotSymmetric(w, row, n);
  }

  /** A matrix that is K K'. */
  ghost predicate IsGram(V: Mat, K: Mat, d: nat, n: nat) {
    forall r, c :: 0 <= r < d && 0 <= c < d ==> V(r, c) == Dot(RowOf(K, r), RowOf(K, c), n)
  }

  /** (M V)(r, q) == (M K)_r . K_q. */
  lemma HalfCarried(step: Step, V: Mat, K: Mat, d: nat, n: nat, r: int, q: int)
    requires IsGram(V, K, d, n) && 0 <= q < d
    ensures Product(step.transition, V, d)(r, q) == Dot(Carried(step, K, d, r), RowOf(K, q), n)
  {
    var u := RowOf(step.transition, r);
    DotExt(u, ColumnOf(V, q), u, Rows(K, RowOf(K, q), n), d);
    Exchange(u, K, RowOf(K, q), d, n);
    DotExt(Columns(u, K, d), RowOf(K, q), Carried(step, K, d, r), RowOf(K, q), n);
  }

  /** (M V M')(r, c) == (M K)_r . (M K)_c. */
  lemma FullyCarried(step: Step, V: Mat, K: Mat, d: nat, n: nat, r: int, c: int)
    requires IsGram(V, K, d, n)
    ensures Product(Product(step.transition, V, d), Transposed(step.transition), d)(r, c)
            == Dot(Carried(step, K, d, r), Carried(step, K, d, c), n)
  {
    var a, u := Carried(step, K, d, r), RowOf(step.transition, c);
    var mv := RowOf(Product(step.transition, V, d), r);
    forall q | 0 <= q < d ensures mv(q) == Rows(K, a, n)(q) {
      HalfCarried(step, V, K, d, n, r, q);
      DotSymmetric(a, RowOf(K, q), n);
    }
    DotExt(mv, ColumnOf(Transposed(step.transition), c), Rows(K, a, n), u, d);
    DotSymmetric(Rows(K, a, n), u, d);
    Exchange(u, K, a, d, n);
    DotExt(Columns(u, K, d), a, Carried(step, K, d, c), a, n);
    DotSymmetric(Carried(step, K, d, c), a, n);
  }

  lemma JoinedProducts(a: Vec, b: Vec, a': Vec, b': Vec, n: nat, d: nat)
    ensures Dot(Joined(a, b, n), Joined(a', b', n), n + d) == Dot(a, a', n) + Dot(b, b', d)
  {
    JoinedDot(a, b, Joined(a', b', n), b', n, d);
    DotExt(a, Joined(a', b', n), a, a', n);
  }

  /** Every step's covariance is what its Cholesky factor makes of independent normals. */
  ghost predicate Factored(steps: seq<Step>, d: nat) {
    forall i :: 0 <= i < |steps| ==> IsGram(steps[i].covariance, steps[i].cholesky, d, d)
  }

  lemma NextGram(step: Step, V: Mat, K: Mat, d: nat, n: nat)
    requires IsGram(V, K, d, n) && IsGram(step.covariance, step.cholesky, d, d)
    ensures IsGram(NextCovariance(step, V, d), NextLoadings(step, K, d, n), d, n + d)
  {
    var K' := NextLoadings(step, K, d, n);
    forall r, c | 0 <= r < d && 0 <= c < d
      ensures NextCovariance(step, V, d)(r, c) == Dot(RowOf(K', r), RowOf(K', c), n + d)
    {
      var x, y := Joined(Carried(step, K, d, r), RowOf(step.cholesky, r), n),
                  Joined(Carried(step, K, d, c), RowOf(step.cholesky, c), n);
      FullyCarried(step, V, K, d, n, r, c);
      JoinedProducts(Carried(step, K, d, r), RowOf(step.cholesky, r),
                     Carried(step, K, d, c), RowOf(step.cholesky, c), n, d);
      DotExt(RowOf(K', r), RowOf(K', c), x, y, n + d);
    }
  }

  /** The covariance the moments carry from date to date is that of the states over all normals drawn:
      the state is its mean plus its loadings times the normals ... */
  lemma {:induction false} StateIsLoaded(steps: seq<Step>, initial: Vec, noise: seq<Vec>, d: nat, i: nat)
    requires i <= |steps| == |noise|
    ensures forall r :: 0 <= r < d ==>
              DirectAt(steps, initial, noise, d, i)(r)
              == MeanAt(steps, initial, d, i)(r)
                 + Dot(RowOf(Loadings(steps, d, i), r), AllNoise(noise, d, i), Drawn(d, i))
  {
    if i > 0 {
      StateIsLoaded(steps, initial, noise, d, i - 1);
      var step, K, n := steps[i - 1], Loadings(steps, d, i - 1), Drawn(d, i - 1);
      var m, x := MeanAt(steps, initial, d, i - 1), DirectAt(steps, initial, noise, d, i - 1);
      var w := Rows(K, AllNoise(noise, d, i - 1), n);
      assert forall c :: 0 <= c < d ==> x(c) == m(c) + w(c);
      forall r | 0 <= r < d
        ensures DirectAt(steps, initial, noise, d, i)(r)
                == MeanAt(steps, initial, d, i)(r)
                   + Dot(RowOf(Loadings(steps, d, i), r), AllNoise(noise, d, i), Drawn(d, i))
      {
        NextLoaded(step, K, m, x, AllNoise(noise, d, i - 1), noise[i - 1], d, n, r);
      }
    }
  }

  lemma NextLoaded(step: Step, K: Mat, m: Vec, x: Vec, before: Vec, z: Vec, d: nat, n: nat, r: int)
    requires forall c :: 0 <= c < d ==> x(c) == m(c) + Rows(K, before, n)(c)
    ensures NextState(step, x, z, d)(r)
            == NextMean(step, m, d)(r) + Dot(RowOf(NextLoadings(step, K, d, n), r), Joined(before, z, n), n + d)
  {
    var u := RowOf(step.transition, r);
    DotOfSum(u, m, Rows(K, before, n), x, d);
    Exchange(u, K, before, d, n);
    DotExt(Columns(u, K, d), before, Carried(step, K, d, r), before, n);
    JoinedProducts(Carried(step, K, d, r), RowOf(step.cholesky, r), before, z, n, d);
    DotExt(RowOf(NextLoadings(step, K, d, n), r), Joined(before, z, n),
           Joined(Carried(step, K, d, r), RowOf(step.cholesky, r), n), Joined(before, z, n), n + d);
  }

  lemma NothingDrawn(d: nat)
    ensures IsGram(Zero, Zero, d, 0)
  {
  }

  ghost predicate GramAt(steps: seq<Step>, d: nat, i: nat)
    requires i <= |steps|
  {
    IsGram(CovarianceAt(steps, d, i), Loadings(steps, d, i), d, Drawn(d, i))
  }

  lemma GramNext(steps: seq<Step>, d: nat, i: nat)
    requires i < |steps| && Factored(steps, d) && GramAt(steps, d, i)
    ensures GramAt(steps, d, i + 1)
  {
    NextGram(steps[i], CovarianceAt(steps, d, i), Loadings(steps, d, i), d, Drawn(d, i));
  }

  /** ... and the covariance is the loadings times their transpose. */
  lemma {:induction false} CovarianceIsGram(steps: seq<Step>, d: nat, i: nat)
    requires i <= |steps| && Factored(steps, d)
    ensures GramAt(steps, d, i)
  {
    if i == 0 {
      NothingDrawn(d);
    } else {
      CovarianceIsGram(steps, d, i - 1);
      GramNext(steps, d, i - 1);
    }
  }

  /** `step_moments`: every step's factor is what `flexible_cholesky` makes of its covariance. */
  ghost predicate FactoredByCholesky(steps: seq<Step>, sqrt: real -> real, d: nat) {
    forall i :: 0 <= i < |steps| ==> IsFactor(steps[i], sqrt, d)
  }

  ghost predicate IsFactor(step: Step, sqrt: real -> real, d: nat) {
    forall r, c :: 0 <= r < d && 0 <= c < d ==>
      step.cholesky(r, c) == Cholesky.FactorRow(step.covariance, sqrt, r)(c)
  }

  ghost predicate IsCovariance(V: Mat, d: nat) {
    Symmetric(V, d) && PositiveSemidefinite(V, d)
  }

  lemma StepIsFactored(step: Step, sqrt: real -> real, d: nat)
    requires IsSqrt(sqrt) && IsFactor(step, sqrt, d)
    ensures IsGram(step.covariance, step.cholesky, d, d) <==> IsCovariance(step.covariance, d)
  {
    var S := step.covariance;
    forall r: int, c: int | 0 <= r < d && 0 <= c < d
      ensures Dot(RowOf(step.cholesky, r), RowOf(step.cholesky, c), d)
              == Dot(Cholesky.FactorRow(S, sqrt, r), Cholesky.FactorRow(S, sqrt, c), d)
    {
      DotExt(RowOf(step.cholesky, r), RowOf(step.cholesky, c), Cholesky.FactorRow(S, sqrt, r),
             Cholesky.FactorRow(S, sqrt, c), d);
    }
    Cholesky.ReproducesExactlySemidefinite(S, sqrt, d);
  }

  /** The steps' factors make their covariances exactly when each of these is symmetric and semi-definite,
      singular ones included, and then the covariance of every date is the simulated states' own. */
  lemma SimulatedCovariance(steps: seq<Step>, sqrt: real -> real, d: nat)
    requires IsSqrt(sqrt) && FactoredByCholesky(steps, sqrt, d)
    ensures Factored(steps, d) <==> forall i :: 0 <= i < |steps| ==> IsCovariance(steps[i].covariance, d)
    ensures Factored(steps, d) ==> forall i :: 0 <= i <= |steps| ==> GramAt(steps, d, i)
  {
    forall i | 0 <= i < |steps|
      ensures IsGram(steps[i].covariance, steps[i].cholesky, d, d) <==> IsCovariance(steps[i].covariance, d)
    {
      assert IsFactor(steps[i], sqrt, d);
      StepIsFactored(steps[i], sqrt, d);
    }
    if Factored(steps, d) {
      forall i | 0 <= i <= |steps| ensures GramAt(steps, d, i) {
        CovarianceIsGram(steps, d, i);
      }
    }
  }

  /** The scale of a component at a date is a power of two within a factor two of that component's own deviation
      over all normals drawn, 1 where it does not move. */
  lemma ScalesFitTheStates(steps: seq<Step>, sqrt: real -> real, d: nat, i: nat, r: nat)
    requires IsSqrt(sqrt) && Factored(steps, d) && i <= |steps| && r < d
    ensures var loading := RowOf(Loadings(steps, d, i), r);
            var s, variance := Scales(sqrt, CovarianceAt(steps, d, i))(r), Dot(loading, loading, i * d);
            && (exists e :: s == Pow2(e))
            && (if variance > 0.0 then sqrt(variance) <= s <= 2.0 * sqrt(variance) else s == 1.0)
  {
    DrawnIs(d, i);
    var loading := RowOf(Loadings(steps, d, i), r);
    CovarianceIsGram(steps, d, i);
    ScaleIsNear(sqrt, Dot(loading, loading, Drawn(d, i)));
  }
}
