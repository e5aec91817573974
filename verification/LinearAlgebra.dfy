/** Dot products and quadratic forms over vectors and matrices given by their entries. */
module LinearAlgebra {

  type Vec = int -> real
  type Mat = (int, int) -> real

  /** u[0] v[0] + ... + u[n-1] v[n-1]. */
  function Dot(u: Vec, v: Vec, n: nat): real {
    if n == 0 then 0.0 else Dot(u, v, n - 1) + u(n - 1) * v(n - 1)
  }

  /** a u + b v, named so that linear combinations are matched by name and not by arithmetic. */
  function Lin(a: real, u: real, b: real, v: real): real {
    a * u + b * v
  }

  lemma LinStep(u: real, a: real, v: real, b: real, w: real, z: real, c: real, d: real)
    requires z == Lin(a, v, b, w)
    ensures Lin(a, c, b, d) + u * z == Lin(a, c + u * v, b, d + u * w)
  {
  }

  /** The dot product is linear in its second argument ... */
  lemma DotLinear(u: Vec, a: real, v: Vec, b: real, w: Vec, z: Vec, n: nat)
    requires forall i :: 0 <= i < n ==> z(i) == Lin(a, v(i), b, w(i))
    ensures Dot(u, z, n) == Lin(a, Dot(u, v, n), b, Dot(u, w, n))
  {
    if n > 0 {
      DotLinear(u, a, v, b, w, z, n - 1);
      LinStep(u(n - 1), a, v(n - 1), b, w(n - 1), z(n - 1), Dot(u, v, n - 1), Dot(u, w, n - 1));
    }
  }

  /** ... and symmetric. */
  lemma DotSymmetric(u: Vec, v: Vec, n: nat)
    ensures Dot(u, v, n) == Dot(v, u, n)
  {
  }

  lemma DotExt(u: Vec, v: Vec, u': Vec, v': Vec, n: nat)
    requires forall i :: 0 <= i < n ==> u(i) == u'(i) && v(i) == v'(i)
    ensures Dot(u, v, n) == Dot(u', v', n)
  {
  }

  /** Products that vanish from `m` on add nothing. */
  lemma DotTail(u: Vec, v: Vec, m: nat, n: nat)
    requires m <= n
    requires forall i :: m <= i < n ==> u(i) == 0.0 || v(i) == 0.0
    ensures Dot(u, v, n) == Dot(u, v, m)
  {
  }

  ghost function Bumped(x: Vec, k: int, t: real): Vec {
    i => if i == k then x(i) + t else x(i)
  }

  /** Moving one coordinate: (x + t e_k) . r = x . r + t r_k. */
  lemma DotBumped(x: Vec, k: nat, t: real, r: Vec, n: nat)
    requires k < n
    ensures Dot(Bumped(x, k, t), r, n) == Dot(x, r, n) + t * r(k)
  {
    if k == n - 1 {
      DotExt(Bumped(x, k, t), r, x, r, n - 1);
      assert (x(k) + t) * r(k) == x(k) * r(k) + t * r(k);
    } else {
      DotBumped(x, k, t, r, n - 1);
    }
  }

  lemma NonzeroProduct(x: real, y: real)
    ensures x * y == 0.0 <==> x == 0.0 || y == 0.0
  {
  }

  /** A common non-zero factor cancels. */
  lemma Cancel(x: real, y: real, d: real)
    requires d != 0.0
    ensures x * d == y * d <==> x == y
  {
    assert (x - y) * d == x * d - y * d;
    NonzeroProduct(x - y, d);
  }

  /** A positive factor keeps order. */
  lemma ProductOrder(x: real, y: real, d: real)
    requires d > 0.0
    ensures x * d < y * d <==> x < y
  {
    if x < y {
      assert (y - x) * d > 0.0;
    } else {
      assert (x - y) * d >= 0.0;
    }
  }

  // ----- quadratic forms ---------------------------------------------------------------------

  function RowOf(M: Mat, p: int): Vec {
    q => M(p, q)
  }

  function Apply(M: Mat, x: Vec, n: nat): Vec {
    p => Dot(RowOf(M, p), x, n)
  }

  ghost function Quad(M: Mat, x: Vec, n: nat): real {
    Dot(x, Apply(M, x, n), n)
  }

  ghost predicate Symmetric(M: Mat, n: nat) {
    forall p, q :: 0 <= p < n && 0 <= q < n ==> M(p, q) == M(q, p)
  }

  ghost predicate PositiveSemidefinite(M: Mat, n: nat) {
    forall x: Vec :: Quad(M, x, n) >= 0.0
  }

  lemma ApplyBumped(M: Mat, x: Vec, p: int, k: nat, t: real, n: nat)
    requires k < n
    ensures Apply(M, Bumped(x, k, t), n)(p) == Lin(1.0, Apply(M, x, n)(p), t, M(p, k))
  {
    DotSymmetric(RowOf(M, p), Bumped(x, k, t), n);
    DotSymmetric(RowOf(M, p), x, n);
    DotBumped(x, k, t, RowOf(M, p), n);
  }

  /** q + 2 t r + t^2 m: a form of value q moved by t along a coordinate of row r and pivot m. */
  ghost function Moved(q: real, r: real, m: real, t: real): real {
    q + 2.0 * t * r + t * t * m
  }

  lemma MovedSum(q: real, r: real, s: real, m: real, t: real)
    requires s == Lin(1.0, r, t, m)
    ensures Lin(1.0, q, t, r) + t * s == Moved(q, r, m, t)
  {
  }

  /** Q(x + t e_k) = Q(x) + 2 t (M x)_k + t^2 M_kk for a symmetric M. */
  lemma QuadBumped(M: Mat, x: Vec, k: nat, t: real, n: nat)
    requires k < n && Symmetric(M, n)
    ensures Quad(M, Bumped(x, k, t), n) == Moved(Quad(M, x, n), Apply(M, x, n)(k), M(k, k), t)
  {
    var y := Bumped(x, k, t);
    var r, s := Apply(M, x, n), Apply(M, y, n);
    forall p | 0 <= p < n ensures s(p) == Lin(1.0, r(p), t, RowOf(M, k)(p)) {
      ApplyBumped(M, x, p, k, t, n);
    }
    DotLinear(x, 1.0, r, t, RowOf(M, k), s, n);
    DotSymmetric(x, RowOf(M, k), n);
    DotBumped(x, k, t, s, n);
    MovedSum(Dot(x, r, n), r(k), s(k), M(k, k), t);
  }

  /** R = M - v v'. */
  ghost predicate RankOneLess(M: Mat, R: Mat, v: Vec, n: nat) {
    forall p, q :: 0 <= p < n && 0 <= q < n ==> R(p, q) == Lin(1.0, M(p, q), -v(p), v(q))
  }

  lemma ApplyRankOne(M: Mat, R: Mat, v: Vec, x: Vec, p: nat, n: nat)
    requires p < n && RankOneLess(M, R, v, n)
    ensures Apply(R, x, n)(p) == Lin(1.0, Apply(M, x, n)(p), -Dot(v, x, n), v(p))
  {
    hide Dot;
    DotSymmetric(RowOf(R, p), x, n);
    DotSymmetric(RowOf(M, p), x, n);
    DotSymmetric(v, x, n);
    DotLinear(x, 1.0, RowOf(M, p), -v(p), v, RowOf(R, p), n);
  }

  /** Taking v v' off the matrix takes (v . x)^2 off the form. */
  lemma QuadRankOne(M: Mat, R: Mat, v: Vec, x: Vec, n: nat)
    requires RankOneLess(M, R, v, n)
    ensures Quad(R, x, n) == Quad(M, x, n) - Dot(v, x, n) * Dot(v, x, n)
  {
    var V := Dot(v, x, n);
    forall p | 0 <= p < n ensures Apply(R, x, n)(p) == Lin(1.0, Apply(M, x, n)(p), -V, v(p)) {
      ApplyRankOne(M, R, v, x, p, n);
    }
    DotLinear(x, 1.0, Apply(M, x, n), -V, v, Apply(R, x, n), n);
    DotSymmetric(x, v, n);
  }

  /** The k-th unit vector, as the zero vector moved by 1: (M e_k)_p = M_pk and Q(e_k) = M_kk. */
  lemma UnitVector(M: Mat, k: nat, n: nat) returns (e: Vec)
    requires k < n && Symmetric(M, n)
    ensures forall p :: 0 <= p < n ==> Apply(M, e, n)(p) == M(p, k)
    ensures Quad(M, e, n) == M(k, k)
  {
    var zero: Vec := i => 0.0;
    e := Bumped(zero, k, 1.0);
    DotTail(zero, Apply(M, zero, n), 0, n);
    forall p | 0 <= p < n ensures Apply(M, zero, n)(p) == 0.0 && Apply(M, e, n)(p) == M(p, k) {
      DotTail(RowOf(M, p), zero, 0, n);
      ApplyBumped(M, zero, p, k, 1.0, n);
    }
    QuadBumped(M, zero, k, 1.0, n);
  }

  lemma FarEnough(d: real, r: real) returns (t: real)
    requires r != 0.0
    ensures Moved(d, r, 0.0, t) == -1.0
  {
    t := -(d + 1.0) / (2.0 * r);
    assert t * (2.0 * r) == -(d + 1.0);
  }

  /** A symmetric form with a zero pivot but a non-zero entry in its row is negative somewhere. */
  lemma NegativeDirection(M: Mat, k: nat, q: nat, n: nat) returns (y: Vec)
    requires k < n && q < n && Symmetric(M, n) && M(k, k) == 0.0 && M(k, q) != 0.0
    ensures Quad(M, y, n) < 0.0
  {
    var x := UnitVector(M, q, n);
    var t := FarEnough(M(q, q), M(k, q));
    QuadBumped(M, x, k, t, n);
    y := Bumped(x, k, t);
  }

  /** A positive semi-definite form that vanishes at e_k vanishes on the whole of row k. */
  lemma ZeroPivotZeroRow(M: Mat, k: nat, q: nat, n: nat)
    requires k < n && q < n && Symmetric(M, n) && PositiveSemidefinite(M, n) && M(k, k) == 0.0
    ensures M(k, q) == 0.0
  {
    if M(k, q) != 0.0 {
      var y := NegativeDirection(M, k, q, n);
    }
  }

  lemma PivotNonnegative(M: Mat, k: nat, n: nat)
    requires k < n && Symmetric(M, n) && PositiveSemidefinite(M, n)
    ensures M(k, k) >= 0.0
  {
    var e := UnitVector(M, k, n);
  }

  // ----- matrices held in arrays --------------------------------------------------------------

  /** Row `p` of a matrix held in place, and a sequence read as a vector. */
  ghost function ArrayRow(L: array2<real>, p: nat): seq<real>
    requires p < L.Length0
    reads L
  {
    seq(L.Length1, c requires 0 <= c < L.Length1 reads L => L[p, c])
  }

  ghost function VecOf(s: seq<real>): Vec {
    c => if 0 <= c < |s| then s[c] else 0.0
  }

  /** The square root the host computes with, as far as the constructions below rely on it. */
  ghost predicate IsSqrt(sqrt: real -> real) {
    forall x: real :: x >= 0.0 ==> sqrt(x) >= 0.0 && sqrt(x) * sqrt(x) == x
  }
}
