/** Piecewise-constant volatilities and their variances: the accelerator's search over prefix sums
    (engine/models/lgm.py) and the host's clipped sum over buckets (engine/models/cam.py). `exp` and
    `sqrt` are parameters; each proof names the laws it needs of them. */
module TermStructures {
  import opened Sums
  import opened LinearAlgebra
  import opened Wrappers

  /** values[i] on bucket i: [0, times[0]), [times[0], times[1]), ..., the last one open. */
  datatype Sigma = Sigma(times: seq<real>, values: seq<real>)

  predicate Sorted(a: seq<real>) {
    forall i, j :: 0 <= i < j < |a| ==> a[i] <= a[j]
  }

  predicate WellFormed(s: Sigma) {
    |s.values| == |s.times| + 1 && Sorted(s.times)
  }

  /** The left edge of bucket j. */
  function Start(s: Sigma, j: int): real {
    if 0 < j <= |s.times| then s.times[j - 1] else 0.0
  }

  function Level(s: Sigma, j: nat): real
    requires j < |s.values|
  {
    s.values[j]
  }

  function NotNegative(t: real): real {
    if t < 0.0 then 0.0 else t
  }

  function AtMost(x: real, bound: real): real {
    if x > bound then bound else x
  }

  /** How much of bucket j lies before `t`: clip(t - lo, 0, hi - lo), hi infinite for the last. */
  function Covering(s: Sigma, t: real, j: nat): real {
    if j < |s.times| then AtMost(NotNegative(t - Start(s, j)), s.times[j] - Start(s, j))
    else NotNegative(t - Start(s, j))
  }

  /** What the stretch of a bucket from its left edge adds: of its value, its edge and the length. */
  type Weight = (real, real, real) -> real

  ghost predicate NothingForNothing(w: Weight) {
    forall v, lo, length :: length == 0.0 ==> w(v, lo, length) == 0.0
  }

  /** The whole of every bucket but the open last one. */
  function Full(w: Weight, s: Sigma): Entries {
    j => if 0 <= j < |s.times| && j < |s.values| then w(Level(s, j), Start(s, j), s.times[j] - Start(s, j)) else 0.0
  }

  function Covered(w: Weight, s: Sigma, t: real): Entries {
    j => if 0 <= j < |s.values| then w(Level(s, j), Start(s, j), Covering(s, t, j)) else 0.0
  }

  // ----- the search and the clipped sum -------------------------------------------------------

  /** `searchsorted(side="right")`: how many times are not past `t`. */
  function SearchRight(times: seq<real>, t: real): (i: nat)
    requires Sorted(times)
    ensures i <= |times|
    ensures forall j :: 0 <= j < i ==> times[j] <= t
    ensures forall j :: i <= j < |times| ==> t < times[j]
  {
    if times == [] || t < times[|times| - 1] then
      if times == [] then 0 else SearchRight(times[..|times| - 1], t)
    else |times|
  }

  /** Whole buckets before the one holding `t`, and the part of that one. */
  function PrefixForm(w: Weight, s: Sigma, t: real): real
    requires WellFormed(s)
  {
    if |s.times| == 0 then w(Level(s, 0), 0.0, t)
    else
      var i := SearchRight(s.times, t);
      Sum(Full(w, s), i) + w(Level(s, i), Start(s, i), NotNegative(t - Start(s, i)))
  }

  /** The covered part of every bucket. */
  function ClippedForm(w: Weight, s: Sigma, t: real): real {
    Sum(Covered(w, s, t), |s.values|)
  }

  /** Before the bucket holding `t` a covered part is whole, and after it there is none. */
  lemma CoveringIs(s: Sigma, t: real, i: nat, j: nat)
    requires WellFormed(s) && t >= 0.0 && i == SearchRight(s.times, t)
    ensures j < i ==> Covering(s, t, j) == s.times[j] - Start(s, j)
    ensures j == i ==> Covering(s, t, j) == t - Start(s, j) >= 0.0
    ensures i < j <= |s.times| ==> Covering(s, t, j) == 0.0
  {
    if j < i {
      assert s.times[j] <= t;
    } else if j == i {
      assert i > 0 ==> s.times[i - 1] <= t;
    } else if j <= |s.times| {
      assert t < s.times[j - 1];
    }
  }

  lemma WholeBefore(w: Weight, s: Sigma, t: real, i: nat)
    requires WellFormed(s) && t >= 0.0 && i == SearchRight(s.times, t)
    ensures Sum(Covered(w, s, t), i) == Sum(Full(w, s), i)
  {
    forall j | 0 <= j < i ensures Covered(w, s, t)(j) == Full(w, s)(j) {
      CoveringIs(s, t, i, j);
    }
    SumExt(Covered(w, s, t), Full(w, s), i);
  }

  lemma NoneAfter(w: Weight, s: Sigma, t: real, i: nat)
    requires WellFormed(s) && t >= 0.0 && i == SearchRight(s.times, t) && NothingForNothing(w)
    ensures Sum(Covered(w, s, t), |s.values|) == Sum(Covered(w, s, t), i + 1)
  {
    forall j | i + 1 <= j < |s.values| ensures Covered(w, s, t)(j) == 0.0 {
      CoveringIs(s, t, i, j);
    }
    SumTail(Covered(w, s, t), i + 1, |s.values|);
  }

  /** The search over prefix sums and the clipped sum agree, for every time and list of buckets. */
  lemma PrefixIsClipped(w: Weight, s: Sigma, t: real)
    requires WellFormed(s) && t >= 0.0 && NothingForNothing(w)
    ensures PrefixForm(w, s, t) == ClippedForm(w, s, t)
  {
    var i := SearchRight(s.times, t);
    WholeBefore(w, s, t, i);
    NoneAfter(w, s, t, i);
    SumLast(Covered(w, s, t), i);
    CoveringIs(s, t, i, i);
  }

  // ----- the variance -------------------------------------------------------------------------

  /** v^2 over a length: the weight of the Hagan model's variance. */
  function Variance(v: real, lo: real, length: real): real {
    v * v * length
  }

  /** `zeta`. */
  function Zeta(s: Sigma, t: real): real
    requires WellFormed(s)
  {
    PrefixForm(Variance, s, NotNegative(t))
  }

  /** `_integral_of_square` without reversion. */
  function IntegralOfSquare(s: Sigma, t: real): real {
    ClippedForm(Variance, s, NotNegative(t))
  }

  lemma NoVariance()
    ensures NothingForNothing(Variance)
  {
  }

  lemma ZetaIsIntegral(s: Sigma, t: real)
    requires WellFormed(s)
    ensures Zeta(s, t) == IntegralOfSquare(s, t)
  {
    NoVariance();
    PrefixIsClipped(Variance, s, NotNegative(t));
  }

  lemma VarianceGrows(v: real, lo: real, a: real, b: real)
    requires a <= b
    ensures Variance(v, lo, a) <= Variance(v, lo, b)
  {
    assert v * v * (b - a) >= 0.0;
  }

  lemma CoveringGrows(s: Sigma, t1: real, t2: real, j: nat)
    requires t1 <= t2
    ensures Covering(s, t1, j) <= Covering(s, t2, j)
  {
  }

  /** The variance grows with time. */
  lemma ZetaMonotone(s: Sigma, t1: real, t2: real)
    requires WellFormed(s) && t1 <= t2
    ensures Zeta(s, t1) <= Zeta(s, t2)
  {
    ZetaIsIntegral(s, t1);
    ZetaIsIntegral(s, t2);
    var u, w := Covered(Variance, s, NotNegative(t1)), Covered(Variance, s, NotNegative(t2));
    forall j | 0 <= j < |s.values| ensures u(j) <= w(j) {
      CoveringGrows(s, NotNegative(t1), NotNegative(t2), j);
      VarianceGrows(s.values[j], Start(s, j), Covering(s, NotNegative(t1), j), Covering(s, NotNegative(t2), j));
    }
    SumMonotone(u, w, |s.values|);
  }

  lemma NothingCovered(s: Sigma, j: nat)
    requires WellFormed(s) && j < |s.values| && (|s.times| > 0 ==> s.times[0] >= 0.0)
    ensures Covering(s, 0.0, j) == 0.0
  {
    assert 0 < j ==> s.times[j - 1] >= 0.0;
    assert 0 < j < |s.times| ==> s.times[j - 1] <= s.times[j];
  }

  /** There is none before time 0, for buckets that end no earlier. */
  lemma ZetaStartsAtZero(s: Sigma, t: real)
    requires WellFormed(s) && t <= 0.0 && (|s.times| > 0 ==> s.times[0] >= 0.0)
    ensures Zeta(s, t) == 0.0
  {
    ZetaIsIntegral(s, t);
    NoVariance();
    var c := Covered(Variance, s, NotNegative(t));
    forall j | 0 <= j < |s.values| ensures c(j) == 0.0 {
      NothingCovered(s, j);
    }
    SumTail(c, 0, |s.values|);
  }

  // ----- bucket ends --------------------------------------------------------------------------

  /** The right end of bucket j, the open last one's being `last`. */
  function End(s: Sigma, last: real, j: int): real {
    if 0 <= j < |s.times| then s.times[j] else last
  }

  /** Every bucket, the last one closed by `last`, has a positive length. */
  predicate Ends(s: Sigma, last: real) {
    && |s.values| == |s.times| + 1
    && forall j :: 0 <= j < |s.values| ==> Start(s, j) < End(s, last, j)
  }

  lemma {:induction false} EndsOrdered(s: Sigma, last: real, i: nat, j: nat)
    requires Ends(s, last) && i < j < |s.values|
    ensures 0.0 <= Start(s, i) && End(s, last, i) <= Start(s, j)
    decreases j
  {
    assert Start(s, j - 1) < End(s, last, j - 1);
    if i < j - 1 {
      EndsOrdered(s, last, i, j - 1);
    } else {
      StartNotNegative(s, last, i);
    }
  }

  lemma {:induction false} StartNotNegative(s: Sigma, last: real, j: nat)
    requires Ends(s, last) && j < |s.values|
    ensures Start(s, j) >= 0.0
  {
    if j > 0 {
      StartNotNegative(s, last, j - 1);
      assert Start(s, j - 1) < End(s, last, j - 1);
    }
  }

  lemma EndsSorted(s: Sigma, last: real)
    requires Ends(s, last)
    ensures WellFormed(s)
  {
    forall i, j | 0 <= i < j < |s.times| ensures s.times[i] <= s.times[j] {
      EndsOrdered(s, last, i, j);
      assert Start(s, j) < End(s, last, j);
    }
  }

  /** At the end of bucket j the buckets up to it are whole and the later ones are not reached. */
  lemma CoveringAtEnd(s: Sigma, last: real, j: nat, i: nat)
    requires Ends(s, last) && i < |s.values| && j < |s.values|
    ensures Covering(s, End(s, last, j), i) == if i <= j then End(s, last, i) - Start(s, i) else 0.0
  {
    assert Start(s, i) < End(s, last, i);
    if i < j {
      EndsOrdered(s, last, i, j);
      assert Start(s, j) < End(s, last, j);
    } else if j < i {
      EndsOrdered(s, last, j, i);
    }
  }

  /** The weight of a whole bucket. */
  function Whole(w: Weight, s: Sigma, last: real): Entries {
    i => if 0 <= i < |s.values| then w(Level(s, i), Start(s, i), End(s, last, i) - Start(s, i)) else 0.0
  }

  lemma ClippedAtEnd(w: Weight, s: Sigma, last: real, j: nat)
    requires Ends(s, last) && j < |s.values| && NothingForNothing(w)
    ensures ClippedForm(w, s, End(s, last, j)) == Sum(Whole(w, s, last), j + 1)
  {
    var c := Covered(w, s, End(s, last, j));
    forall i | 0 <= i < |s.values|
      ensures i <= j ==> c(i) == Whole(w, s, last)(i)
      ensures i > j ==> c(i) == 0.0
    {
      CoveringAtEnd(s, last, j, i);
    }
    SumTail(c, j + 1, |s.values|);
    SumExt(c, Whole(w, s, last), j + 1);
  }

  lemma EndNotNegative(s: Sigma, last: real, j: nat)
    requires Ends(s, last) && j < |s.values|
    ensures NotNegative(End(s, last, j)) == End(s, last, j)
  {
    StartNotNegative(s, last, j);
    assert Start(s, j) < End(s, last, j);
  }

  /** At a bucket's end the variance is that of the buckets up to it. */
  lemma ZetaAtEnd(s: Sigma, last: real, j: nat)
    requires Ends(s, last) && j < |s.values|
    ensures WellFormed(s)
    ensures Zeta(s, End(s, last, j)) == Sum(Whole(Variance, s, last), j + 1)
  {
    EndsSorted(s, last);
    ZetaIsIntegral(s, End(s, last, j));
    EndNotNegative(s, last, j);
    NoVariance();
    ClippedAtEnd(Variance, s, last, j);
  }

  /** Buckets after j, their ends or their values, do not reach the variance at its end. */
  lemma LaterBucketsDoNotReach(s: Sigma, last: real, s': Sigma, last': real, j: nat)
    requires Ends(s, last) && Ends(s', last') && j < |s.values| && j < |s'.values|
    requires forall i :: 0 <= i <= j ==> Level(s, i) == Level(s', i) && End(s, last, i) == End(s', last', i)
    ensures WellFormed(s) && WellFormed(s')
    ensures Zeta(s, End(s, last, j)) == Zeta(s', End(s', last', j))
  {
    ZetaAtEnd(s, last, j);
    ZetaAtEnd(s', last', j);
    SameWhole(Variance, s, last, s', last', j);
  }

  lemma SameWhole(w: Weight, s: Sigma, last: real, s': Sigma, last': real, j: nat)
    requires Ends(s, last) && Ends(s', last') && j < |s.values| && j < |s'.values|
    requires forall i :: 0 <= i <= j ==> Level(s, i) == Level(s', i) && End(s, last, i) == End(s', last', i)
    ensures Sum(Whole(w, s, last), j + 1) == Sum(Whole(w, s', last'), j + 1)
  {
    forall i | 0 <= i < j + 1 ensures Whole(w, s, last)(i) == Whole(w, s', last')(i) {
      SameStart(s, last, s', last', i, j);
    }
    SumExt(Whole(w, s, last), Whole(w, s', last'), j + 1);
  }

  lemma SameStart(s: Sigma, last: real, s': Sigma, last': real, i: nat, j: nat)
    requires |s.values| == |s.times| + 1 && |s'.values| == |s'.times| + 1
    requires i <= j && j < |s.values| && j < |s'.values|
    requires forall h :: 0 <= h <= j ==> Level(s, h) == Level(s', h) && End(s, last, h) == End(s', last', h)
    ensures Start(s, i) == Start(s', i)
  {
    if i > 0 {
      assert Level(s, i - 1) == Level(s', i - 1);
      assert End(s, last, i - 1) == End(s', last', i - 1);
    }
  }
}
