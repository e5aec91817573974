/** The factor of a possibly singular step covariance (engine/models/cam.py, flexible_cholesky). */
module Cholesky {
  import opened LinearAlgebra

  // ----- specification: one elimination step per column --------------------------------------

  /** Column `k` of the factor, given what the earlier columns leave of the matrix. A pivot that is
      not positive gives a zero column. */
  ghost function Column(R: Mat, sqrt: real -> real, k: int): Vec {
    var pivot := if R(k, k) > 0.0 then sqrt(R(k, k)) else 0.0;
    p => if p < k then 0.0 else if p == k then pivot else if pivot == 0.0 then 0.0 else R(k, p) / pivot
  }

  /** The matrix less the outer product of a column. */
  ghost function Eliminate(R: Mat, v: Vec): Mat {
    (p, q) => Lin(1.0, R(p, q), -v(p), v(q))
  }

  /** What the first `k` columns leave of `S`: S less their outer products. */
  ghost function Residual(S: Mat, sqrt: real -> real, k: nat): Mat {
    if k == 0 then S else Eliminate(Residual(S, sqrt, k - 1), Column(Residual(S, sqrt, k - 1), sqrt, k - 1))
  }

  /** Row `p` of the factor. */
  ghost function FactorRow(S: Mat, sqrt: real -> real, p: int): Vec {
    c => if c < 0 then 0.0 else Column(Residual(S, sqrt, c), sqrt, c)(p)
  }

  lemma EliminateEntry(R: Mat, v: Vec, p: int, q: int, a: real, b: real)
    requires a == v(p) && b == v(q)
    ensures Eliminate(R, v)(p, q) == R(p, q) - a * b
  {
  }

  /** One elimination step seen at one entry. */
  ghost predicate Drops(r: int -> real, u: Vec, w: Vec, c: int) {
    r(c + 1) == r(c) - u(c) * w(c)
  }

  lemma {:induction false} Telescope(r: int -> real, u: Vec, w: Vec, k: nat)
    requires forall c :: 0 <= c < k ==> Drops(r, u, w, c)
    ensures r(k) == r(0) - Dot(u, w, k)
  {
    if k > 0 {
      Telescope(r, u, w, k - 1);
      assert Drops(r, u, w, k - 1);
    }
  }

  ghost function ResidualAt(S: Mat, sqrt: real -> real, p: int, q: int): int -> real {
    c => if c < 0 then 0.0 else Residual(S, sqrt, c)(p, q)
  }

  lemma ResidualDrops(S: Mat, sqrt: real -> real, c: nat, p: int, q: int)
    ensures Drops(ResidualAt(S, sqrt, p, q), FactorRow(S, sqrt, p), FactorRow(S, sqrt, q), c)
  {
    var R := Residual(S, sqrt, c);
    assert Residual(S, sqrt, c + 1) == Eliminate(R, Column(R, sqrt, c));
    EliminateEntry(R, Column(R, sqrt, c), p, q, FactorRow(S, sqrt, p)(c), FactorRow(S, sqrt, q)(c));
  }

  lemma ResidualIsDifference(S: Mat, sqrt: real -> real, k: nat, p: nat, q: nat)
    ensures Residual(S, sqrt, k)(p, q) == S(p, q) - Dot(FactorRow(S, sqrt, p), FactorRow(S, sqrt, q), k)
  {
    var r, u, w := ResidualAt(S, sqrt, p, q), FactorRow(S, sqrt, p), FactorRow(S, sqrt, q);
    forall c | 0 <= c < k ensures Drops(r, u, w, c) {
      ResidualDrops(S, sqrt, c, p, q);
    }
    Telescope(r, u, w, k);
  }

  // ----- the elimination keeps the form positive ---------------------------------------------

  /** After `k` columns: still symmetric and positive semi-definite, its first `k` rows cleared. */
  ghost predicate Reduced(R: Mat, k: nat, n: nat) {
    && Symmetric(R, n)
    && PositiveSemidefinite(R, n)
    && forall p, q :: 0 <= p < k && p < n && 0 <= q < n ==> R(p, q) == 0.0
  }

  /** The column is the pivot row over the pivot's root, and the root's square is the pivot; where
      the pivot is zero so is the whole row, so dropping the column loses nothing. */
  lemma ColumnIsScaledRow(R: Mat, sqrt: real -> real, k: nat, n: nat) returns (root: real)
    requires k < n && Reduced(R, k, n) && IsSqrt(sqrt)
    ensures root * root == R(k, k)
    ensures forall p :: 0 <= p < n ==> root * Column(R, sqrt, k)(p) == R(k, p)
    ensures Column(R, sqrt, k)(k) == root
  {
    hide PositiveSemidefinite, Quad;
    root := Column(R, sqrt, k)(k);
    PivotNonnegative(R, k, n);
    forall p | 0 <= p < n ensures root * Column(R, sqrt, k)(p) == R(k, p) {
      assert R(k, p) == R(p, k);
      if R(k, k) == 0.0 {
        ZeroPivotZeroRow(R, k, p, n);
      }
    }
  }

  lemma Complete(q: real, r: real, s: real, root: real, d: real) returns (t: real)
    requires root * root == s && s > 0.0 && root * d == r
    ensures Moved(q, r, s, t) == q - d * d
  {
    t := -r / s;
    assert t * s == -r;
    assert root * (t * root + d) == 0.0;
    assert t * root == -d;
    assert t * r == (t * root) * d;
    assert t * t * s == (t * root) * (t * root);
  }

  lemma PivotedForm(R: Mat, sqrt: real -> real, k: nat, x: Vec, n: nat)
    requires k < n && Reduced(R, k, n) && IsSqrt(sqrt)
    ensures Quad(Eliminate(R, Column(R, sqrt, k)), x, n) >= 0.0
  {
    var root := ColumnIsScaledRow(R, sqrt, k, n);
    if R(k, k) == 0.0 {
      assert forall p :: 0 <= p < n ==> Column(R, sqrt, k)(p) == 0.0;
      EliminateNothing(R, Column(R, sqrt, k), x, n);
    } else {
      PivotNonnegative(R, k, n);
      EliminatePivot(R, Column(R, sqrt, k), root, k, x, n);
    }
  }

  lemma EliminateNothing(R: Mat, v: Vec, x: Vec, n: nat)
    requires forall p :: 0 <= p < n ==> v(p) == 0.0
    ensures Quad(Eliminate(R, v), x, n) == Quad(R, x, n)
  {
    QuadRankOne(R, Eliminate(R, v), v, x, n);
    DotTail(v, x, 0, n);
  }

  /** Eliminating a positive pivot leaves the form's value at x moved along e_k to its minimum. */
  lemma EliminatePivot(R: Mat, v: Vec, root: real, k: nat, x: Vec, n: nat)
    requires k < n && Symmetric(R, n) && PositiveSemidefinite(R, n) && R(k, k) > 0.0 && root * root == R(k, k)
    requires forall p :: 0 <= p < n ==> root * v(p) == R(k, p)
    ensures Quad(Eliminate(R, v), x, n) >= 0.0
  {
    QuadRankOne(R, Eliminate(R, v), v, x, n);
    var y := PivotShift(R, v, root, k, x, n);
    assert Quad(R, y, n) >= 0.0;
  }

  lemma PivotShift(R: Mat, v: Vec, root: real, k: nat, x: Vec, n: nat) returns (y: Vec)
    requires k < n && Symmetric(R, n) && R(k, k) > 0.0 && root * root == R(k, k)
    requires forall p :: 0 <= p < n ==> root * v(p) == R(k, p)
    ensures Quad(R, y, n) == Quad(R, x, n) - Dot(v, x, n) * Dot(v, x, n)
  {
    PivotRowDot(R, v, root, k, x, n);
    var t := Complete(Quad(R, x, n), Apply(R, x, n)(k), R(k, k), root, Dot(v, x, n));
    QuadBumped(R, x, k, t, n);
    y := Bumped(x, k, t);
  }

  lemma PivotRowDot(R: Mat, v: Vec, root: real, k: nat, x: Vec, n: nat)
    requires forall p :: 0 <= p < n ==> root * v(p) == R(k, p)
    ensures root * Dot(v, x, n) == Apply(R, x, n)(k)
  {
    forall p | 0 <= p < n ensures RowOf(R, k)(p) == Lin(root, v(p), 0.0, v(p)) {
    }
    DotLinear(x, root, v, 0.0, v, RowOf(R, k), n);
    DotSymmetric(x, v, n);
    DotSymmetric(x, RowOf(R, k), n);
  }

  /** Eliminating keeps the matrix symmetric and clears one row more. */
  lemma EliminatedEntry(R: Mat, sqrt: real -> real, k: nat, n: nat, p: int, q: int)
    requires k < n && Reduced(R, k, n) && IsSqrt(sqrt) && 0 <= p < n && 0 <= q < n
    ensures var R' := Eliminate(R, Column(R, sqrt, k));
            R'(p, q) == R'(q, p) && (p < k + 1 ==> R'(p, q) == 0.0)
  {
    var v := Column(R, sqrt, k);
    var root := ColumnIsScaledRow(R, sqrt, k, n);
    assert R(p, q) == R(q, p);
    EliminateEntry(R, v, p, q, v(p), v(q));
    EliminateEntry(R, v, q, p, v(q), v(p));
  }

  lemma ReducedStep(R: Mat, sqrt: real -> real, k: nat, n: nat)
    requires k < n && Reduced(R, k, n) && IsSqrt(sqrt)
    ensures Reduced(Eliminate(R, Column(R, sqrt, k)), k + 1, n)
  {
    hide Quad, Eliminate, Column;
    var R' := Eliminate(R, Column(R, sqrt, k));
    forall x: Vec ensures Quad(R', x, n) >= 0.0 {
      PivotedForm(R, sqrt, k, x, n);
    }
    forall p: int, q: int | 0 <= p < n && 0 <= q < n
      ensures R'(p, q) == R'(q, p) && (p < k + 1 ==> R'(p, q) == 0.0)
    {
      EliminatedEntry(R, sqrt, k, n, p, q);
    }
  }

  lemma {:induction false} ResidualReduced(S: Mat, sqrt: real -> real, k: nat, n: nat)
    requires k <= n && Symmetric(S, n) && PositiveSemidefinite(S, n) && IsSqrt(sqrt)
    ensures Reduced(Residual(S, sqrt, k), k, n)
  {
    if k > 0 {
      ResidualReduced(S, sqrt, k - 1, n);
      ReducedStep(Residual(S, sqrt, k - 1), sqrt, k - 1, n);
    }
  }

  /** L L' = S on the n x n entries. */
  ghost predicate Reproduces(S: Mat, sqrt: real -> real, n: nat) {
    forall p, q :: 0 <= p < n && 0 <= q < n ==> Dot(FactorRow(S, sqrt, p), FactorRow(S, sqrt, q), n) == S(p, q)
  }

  lemma EliminateBelow(R: Mat, v: Vec, x: Vec, n: nat)
    ensures Quad(Eliminate(R, v), x, n) <= Quad(R, x, n)
  {
    QuadRankOne(R, Eliminate(R, v), v, x, n);
  }

  lemma {:induction false} ResidualBelow(S: Mat, sqrt: real -> real, k: nat, x: Vec, n: nat)
    ensures Quad(Residual(S, sqrt, k), x, n) <= Quad(S, x, n)
  {
    if k > 0 {
      ResidualBelow(S, sqrt, k - 1, x, n);
      EliminateBelow(Residual(S, sqrt, k - 1), Column(Residual(S, sqrt, k - 1), sqrt, k - 1), x, n);
    }
  }

  /** The factorisation reproduces exactly the symmetric positive semi-definite matrices, singular
      ones included. */
  lemma ReproducesExactlySemidefinite(S: Mat, sqrt: real -> real, n: nat)
    requires IsSqrt(sqrt)
    ensures Reproduces(S, sqrt, n) <==> Symmetric(S, n) && PositiveSemidefinite(S, n)
  {
    if Symmetric(S, n) && PositiveSemidefinite(S, n) {
      ResidualReduced(S, sqrt, n, n);
      forall p: int, q: int | 0 <= p < n && 0 <= q < n
        ensures Dot(FactorRow(S, sqrt, p), FactorRow(S, sqrt, q), n) == S(p, q)
      {
        ResidualIsDifference(S, sqrt, n, p, q);
      }
    }
    if Reproduces(S, sqrt, n) {
      var R := Residual(S, sqrt, n);
      forall p: int, q: int | 0 <= p < n && 0 <= q < n ensures R(p, q) == 0.0 && S(p, q) == S(q, p) {
        ResidualIsDifference(S, sqrt, n, p, q);
        DotSymmetric(FactorRow(S, sqrt, p), FactorRow(S, sqrt, q), n);
      }
      forall x: Vec ensures Quad(S, x, n) >= 0.0 {
        ResidualBelow(S, sqrt, n, x, n);
        forall p | 0 <= p < n ensures Apply(R, x, n)(p) == 0.0 {
          DotTail(RowOf(R, p), x, 0, n);
        }
        DotTail(x, Apply(R, x, n), 0, n);
      }
    }
  }

  // ----- the algorithm, in place --------------------------------------------------------------

  /** An n x n matrix given by its rows, as entries. */
  ghost function Entries(S: seq<seq<real>>): Mat {
    (p, q) => if 0 <= p < |S| && 0 <= q < |S[p]| then S[p][q] else 0.0
  }

  /** The dot product of the first `k` entries of two rows. */
  function PrefixDot(L: array2<real>, i: nat, j: nat, k: nat): (s: real)
    requires i < L.Length0 && j < L.Length0 && k <= L.Length1
    reads L
    ensures s == Dot(VecOf(ArrayRow(L, i)), VecOf(ArrayRow(L, j)), k)
  {
    if k == 0 then 0.0 else PrefixDot(L, i, j, k - 1) + L[i, k - 1] * L[j, k - 1]
  }

  /** Entry (p, c) of the factor of `S`. */
  ghost function Factor(S: seq<seq<real>>, sqrt: real -> real, p: int, c: int): real {
    FactorRow(Entries(S), sqrt, p)(c)
  }

  lemma ProductOfRows(S: seq<seq<real>>, sqrt: real -> real, L: array2<real>)
    requires forall p :: 0 <= p < |S| ==> |S[p]| == |S|
    requires IsSqrt(sqrt) && L.Length0 == |S| && L.Length1 == |S|
    requires forall p, c :: 0 <= p < |S| && 0 <= c < |S| ==> L[p, c] == Factor(S, sqrt, p, c)
    ensures Symmetric(Entries(S), |S|) && PositiveSemidefinite(Entries(S), |S|) ==>
              forall p, q :: 0 <= p < |S| && 0 <= q < |S| ==>
                Dot(VecOf(ArrayRow(L, p)), VecOf(ArrayRow(L, q)), |S|) == S[p][q]
  {
    ReproducesExactlySemidefinite(Entries(S), sqrt, |S|);
    forall p: nat, q: nat | p < |S| && q < |S|
      ensures Dot(VecOf(ArrayRow(L, p)), VecOf(ArrayRow(L, q)), |S|) ==
              Dot(FactorRow(Entries(S), sqrt, p), FactorRow(Entries(S), sqrt, q), |S|)
    {
      DotExt(VecOf(ArrayRow(L, p)), VecOf(ArrayRow(L, q)), FactorRow(Entries(S), sqrt, p),
             FactorRow(Entries(S), sqrt, q), |S|);
    }
  }

  /** The pivot or quotient for row `j` of column `i`, from what the earlier columns leave. */
  ghost function NextEntry(sqrt: real -> real, s: real, pivot: real, diagonal: bool): real {
    if diagonal then if s > 0.0 then sqrt(s) else 0.0 else if pivot == 0.0 then 0.0 else s / pivot
  }

  /** `F` holds the factor's entries; used where only their recursion matters, not their definition. */
  ghost predicate Tabulates(F: Mat, S: seq<seq<real>>, sqrt: real -> real) {
    forall p: int, c: int {:trigger Factor(S, sqrt, p, c)} :: F(p, c) == Factor(S, sqrt, p, c)
  }

  lemma FactorEntry(S: seq<seq<real>>, sqrt: real -> real, F: Mat, L: array2<real>, i: nat, j: nat, s: real)
    requires forall p :: 0 <= p < |S| ==> |S[p]| == |S|
    requires L.Length0 == |S| && L.Length1 == |S| && i <= j < |S|
    requires Tabulates(F, S, sqrt)
    requires forall p, c :: 0 <= p < |S| && 0 <= c < i ==> L[p, c] == F(p, c)
    requires s == S[i][j] - PrefixDot(L, i, j, i)
    ensures F(j, i) == NextEntry(sqrt, s, F(i, i), i == j)
  {
    PrefixResidual(S, sqrt, L, i, j);
    ColumnEntry(Residual(Entries(S), sqrt, i), sqrt, i, j);
    FactorIsColumn(S, sqrt, j, i);
    FactorIsColumn(S, sqrt, i, i);
  }

  lemma PrefixResidual(S: seq<seq<real>>, sqrt: real -> real, L: array2<real>, i: nat, j: nat)
    requires forall p :: 0 <= p < |S| ==> |S[p]| == |S|
    requires L.Length0 == |S| && L.Length1 == |S| && i <= j < |S|
    requires forall p, c :: 0 <= p < |S| && 0 <= c < i ==> L[p, c] == Factor(S, sqrt, p, c)
    ensures S[i][j] - PrefixDot(L, i, j, i) == Residual(Entries(S), sqrt, i)(i, j)
  {
    DotExt(VecOf(ArrayRow(L, i)), VecOf(ArrayRow(L, j)), FactorRow(Entries(S), sqrt, i),
           FactorRow(Entries(S), sqrt, j), i);
    ResidualIsDifference(Entries(S), sqrt, i, i, j);
  }

  lemma ColumnEntry(R: Mat, sqrt: real -> real, i: nat, j: nat)
    ensures i <= j ==> Column(R, sqrt, i)(j) == NextEntry(sqrt, R(i, j), Column(R, sqrt, i)(i), i == j)
    ensures j < i ==> Column(R, sqrt, i)(j) == 0.0
  {
  }

  lemma FactorIsColumn(S: seq<seq<real>>, sqrt: real -> real, p: nat, c: nat)
    ensures Factor(S, sqrt, p, c) == Column(Residual(Entries(S), sqrt, c), sqrt, c)(p)
    ensures p < c ==> Factor(S, sqrt, p, c) == 0.0
  {
  }

  /** Column `i`, in place: the columns before it are given, those after it untouched. */
  method FillColumn(S: seq<seq<real>>, sqrt: real -> real, ghost F: Mat, L: array2<real>, i: nat)
    requires forall p :: 0 <= p < |S| ==> |S[p]| == |S|
    requires L.Length0 == |S| && L.Length1 == |S| && i < |S|
    requires Tabulates(F, S, sqrt)
    requires forall p, c :: 0 <= p < |S| && 0 <= c < i ==> L[p, c] == F(p, c)
    modifies L
    ensures forall p, c :: 0 <= p < |S| && 0 <= c < |S| && (c != i || p < i) ==> L[p, c] == old(L[p, c])
    ensures forall p :: i <= p < |S| ==> L[p, i] == F(p, i)
  {
    hide Tabulates, PrefixDot;
    for j := i to |S|
      invariant forall p, c :: 0 <= p < |S| && 0 <= c < |S| && (c != i || p < i) ==> L[p, c] == old(L[p, c])
      invariant forall p :: i <= p < j ==> L[p, i] == F(p, i)
    {
      var s := S[i][j] - PrefixDot(L, i, j, i);
      FactorEntry(S, sqrt, F, L, i, j, s);
      if i == j {
        L[i, i] := if s > 0.0 then sqrt(s) else 0.0;
      } else {
        L[j, i] := if L[i, i] == 0.0 then 0.0 else s / L[i, i];
      }
    }
  }

  /** The lower-triangular factor: every entry as specified, and L L' = S whenever S is symmetric
      and positive semi-definite. */
  method FlexibleCholesky(S: seq<seq<real>>, sqrt: real -> real) returns (L: array2<real>)
    requires forall p :: 0 <= p < |S| ==> |S[p]| == |S|
    requires IsSqrt(sqrt)
    ensures fresh(L) && L.Length0 == |S| && L.Length1 == |S|
    ensures forall p, c :: 0 <= p < |S| && 0 <= c < |S| ==> L[p, c] == Factor(S, sqrt, p, c)
    ensures forall p, c :: 0 <= p < c < |S| ==> L[p, c] == 0.0
    ensures Symmetric(Entries(S), |S|) && PositiveSemidefinite(Entries(S), |S|) ==>
              forall p, q :: 0 <= p < |S| && 0 <= q < |S| ==>
                Dot(VecOf(ArrayRow(L, p)), VecOf(ArrayRow(L, q)), |S|) == S[p][q]
  {
    var n := |S|;
    L := new real[n, n]((i, j) => 0.0);
    ghost var F: Mat := (p, c) => Factor(S, sqrt, p, c);
    for i := 0 to n
      invariant forall p, c :: 0 <= p < n && 0 <= c < i ==> L[p, c] == Factor(S, sqrt, p, c)
      invariant forall p, c :: 0 <= p < n && i <= c < n ==> L[p, c] == 0.0
      invariant forall p, c :: 0 <= p < c < n ==> L[p, c] == 0.0
    {
      FillColumn(S, sqrt, F, L, i);
      forall p | 0 <= p < i ensures Factor(S, sqrt, p, i) == 0.0 {
        FactorIsColumn(S, sqrt, p, i);
      }
    }
    ProductOfRows(S, sqrt, L);
  }
}
