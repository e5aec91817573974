/** Yield curves and the two-node stencil that carries a deviation of their node values
    (engine/market_data/curves.py). */
module Curves {
  import opened LinearAlgebra
  import opened Powers
  import opened TermStructures
  import opened Wrappers

  /** Zero rates at pillar times, or log discount factors at tenors. */
  datatype Curve =
    | ZeroCurve(times: seq<real>, nodes: seq<real>)
    | DiscountCurve(times: seq<real>, nodes: seq<real>)

  predicate StrictlyIncreasing(a: seq<real>) {
    forall i, j :: 0 <= i < j < |a| ==> a[i] < a[j]
  }

  predicate Valid(c: Curve) {
    0 < |c.times| == |c.nodes| && StrictlyIncreasing(c.times) && c.times[|c.times| - 1] >= 0.0
  }

  /** The right node of the segment at `t`: the search clipped to a segment. */
  function Right(times: seq<real>, t: real): (r: nat)
    requires 2 <= |times| && Sorted(times)
    ensures 1 <= r < |times|
  {
    var i := SearchRight(times, t);
    if i < 1 then 1 else if i > |times| - 1 then |times| - 1 else i
  }

  /** How far `t` is from `lo` to `hi`. */
  function Share(t: real, lo: real, hi: real): (s: real)
    requires lo < hi
    ensures lo <= t <= hi ==> 0.0 <= s <= 1.0
    ensures t == lo ==> s == 0.0
    ensures t == hi ==> s == 1.0
    ensures t < lo ==> s < 0.0
    ensures t > hi ==> s > 1.0
  {
    QuotientBounds(t - lo, hi - lo);
    (t - lo) / (hi - lo)
  }

  lemma QuotientBounds(p: real, q: real)
    requires q > 0.0
    ensures p > 0.0 <==> p / q > 0.0
    ensures p < 0.0 <==> p / q < 0.0
    ensures p > q <==> p / q > 1.0
    ensures p == q <==> p / q == 1.0
  {
    var r := p / q;
    assert r * q == p;
    ProductOrder(r, 0.0, q);
    ProductOrder(0.0, r, q);
    ProductOrder(r, 1.0, q);
    ProductOrder(1.0, r, q);
  }

  /** A straight line through `a` and `b`, `s` of the way. */
  function Line(a: real, b: real, s: real): real {
    a + s * (b - a)
  }

  // ----- the interpolants ---------------------------------------------------------------------

  /** `jnp.interp`: linear between the pillars, flat outside them. */
  function Interpolated(times: seq<real>, values: seq<real>, t: real): real
    requires 0 < |times| == |values| && StrictlyIncreasing(times)
  {
    if |times| == 1 || t < times[0] then values[0]
    else if t > times[|times| - 1] then values[|times| - 1]
    else
      var r := Right(times, t);
      Line(values[r - 1], values[r], Share(t, times[r - 1], times[r]))
  }

  /** The slope of the last segment, 0 for a single pillar. */
  function LastSlope(c: Curve): real
    requires Valid(c)
  {
    var n := |c.times|;
    if n < 2 then 0.0 else (c.nodes[n - 1] - c.nodes[n - 2]) / (c.times[n - 1] - c.times[n - 2])
  }

  /** The forward at the last pillar, held flat beyond it. */
  function LastForward(c: Curve): real
    requires Valid(c)
  {
    c.nodes[|c.times| - 1] + Times(c.times[|c.times| - 1], LastSlope(c))
  }

  function ZeroRate(c: Curve, t: real): real
    requires Valid(c)
  {
    var last, z := c.times[|c.times| - 1], c.nodes[|c.times| - 1];
    if t > last then (Times(z, last) + Times(LastForward(c), t - last)) / t
    else Interpolated(c.times, c.nodes, t)
  }

  /** How much of the left node there is at `t`. */
  function LeftWeight(lo: real, hi: real, t: real): (w: real)
    requires lo < hi
    ensures t == lo ==> w == 1.0
    ensures t == hi ==> w == 0.0
  {
    QuotientBounds(hi - t, hi - lo);
    (hi - t) / (hi - lo)
  }

  function Mix(w: real, a: real, b: real): real {
    Times(1.0 - w, b) + Times(w, a)
  }

  /** `loglinear_log_discount`: with a single tenor both nodes are that tenor, and the weight divides by
      zero. */
  function LoglinearLogDiscount(c: Curve, t: real): Option<real>
    requires Valid(c)
  {
    if |c.times| < 2 then None
    else
      var r := Right(c.times, t);
      Some(Mix(LeftWeight(c.times[r - 1], c.times[r], t), c.nodes[r - 1], c.nodes[r]))
  }

  function LogDiscount(c: Curve, t: real): Option<real>
    requires Valid(c)
  {
    if c.DiscountCurve? then LoglinearLogDiscount(c, t) else Some(Times(-ZeroRate(c, t), t))
  }

  // ----- the stencil --------------------------------------------------------------------------

  /** Two nodes and their weights. */
  datatype Stencil = Stencil(left: nat, right: nat, leftWeight: real, rightWeight: real)

  /** The nearest number of [0, 1]. */
  function Clamp01(x: real): (r: real)
    ensures 0.0 <= r <= 1.0 && (0.0 <= x <= 1.0 ==> r == x)
  {
    if x < 0.0 then 0.0 else if x > 1.0 then 1.0 else x
  }

  function StencilAt(c: Curve, t: real): (s: Stencil)
    requires Valid(c)
    ensures s.left < |c.times| && s.right < |c.times|
  {
    var n := |c.times|;
    if n < 2 then Stencil(0, 0, 0.0, if c.ZeroCurve? then -t else 1.0)
    else
      var r := Right(c.times, t);
      if c.DiscountCurve? then
        var weight := LeftWeight(c.times[r - 1], c.times[r], t);
        Stencil(r - 1, r, weight, 1.0 - weight)
      else
        var last, gap := c.times[n - 1], c.times[n - 1] - c.times[n - 2];
        if t > last then
          Stencil(n - 2, n - 1, Times(t - last, last) / gap, -(last + Times(t - last, 1.0 + last / gap)))
        else
          var share := Clamp01(Share(t, c.times[r - 1], c.times[r]));
          Stencil(r - 1, r, Times(-t, 1.0 - share), Times(-t, share))
  }

  /** `log_discount_deviation`. */
  function Deviation(c: Curve, d: seq<real>, t: real): real
    requires Valid(c) && |d| == |c.nodes|
  {
    var s := StencilAt(c, t);
    Times(d[s.left], s.leftWeight) + Times(d[s.right], s.rightWeight)
  }

  /** `with_node_deviation`. */
  function Deviated(c: Curve, d: seq<real>): (r: Curve)
    requires Valid(c) && |d| == |c.nodes|
    ensures Valid(r) && r.ZeroCurve? == c.ZeroCurve? && r.times == c.times
    ensures forall i :: 0 <= i < |d| ==> r.nodes[i] == c.nodes[i] + d[i]
  {
    c.(nodes := seq(|d|, i requires 0 <= i < |d| => c.nodes[i] + d[i]))
  }

  // ----- the stencil is the change of the interpolant -----------------------------------------

  /** The stencil's value is how far ln P(t) moves, and both logarithms are numbers. */
  ghost predicate Exact(c: Curve, d: seq<real>, t: real)
    requires Valid(c) && |d| == |c.nodes|
  {
    && LogDiscount(c, t).Some? && LogDiscount(Deviated(c, d), t).Some?
    && Deviation(c, d, t) == LogDiscount(Deviated(c, d), t).value - LogDiscount(c, t).value
  }

  lemma LineMoves(a: real, b: real, da: real, db: real, s: real, t: real)
    ensures Times(da, Times(-t, 1.0 - s)) + Times(db, Times(-t, s))
            == Times(-Line(a + da, b + db, s), t) - Times(-Line(a, b, s), t)
  {
    var x, y := Line(a, b, s), Line(da, db, s);
    assert Line(a + da, b + db, s) == x + y;
    assert (-(x + y)) * t - (-x) * t == -(y * t);
    assert da * (-t * (1.0 - s)) + db * (-t * s) == -(y * t);
  }

  lemma FlatMoves(a: real, da: real, t: real)
    ensures Times(da, -t) == Times(-(a + da), t) - Times(-a, t)
  {
  }

  lemma SinglePillar(c: Curve, d: seq<real>, t: real)
    requires Valid(c) && |d| == |c.nodes| && c.ZeroCurve? && |c.times| == 1 && t >= 0.0
    ensures Exact(c, d, t)
  {
    FlatMoves(c.nodes[0], d[0], t);
    SingleRate(c, t);
    SingleRate(Deviated(c, d), t);
  }

  lemma SingleRate(c: Curve, t: real)
    requires Valid(c) && |c.times| == 1 && t >= 0.0
    ensures ZeroRate(c, t) == c.nodes[0]
  {
    if t > c.times[0] {
      FlatRate(c.nodes[0], c.times[0], t);
    }
  }

  lemma FlatRate(z: real, last: real, t: real)
    requires t > 0.0
    ensures (Times(z, last) + Times(z + Times(last, 0.0), t - last)) / t == z
  {
    var x := Times(z, last) + Times(z, t - last);
    assert x == z * t;
    assert x / t == z;
  }

  /** Up to the last pillar: before the first, at pillars and between them. */
  lemma WithinPillars(c: Curve, d: seq<real>, t: real)
    requires Valid(c) && |d| == |c.nodes| && c.ZeroCurve? && |c.times| >= 2
    requires t <= c.times[|c.times| - 1]
    ensures Exact(c, d, t)
  {
    var r := Right(c.times, t);
    var s := Clamp01(Share(t, c.times[r - 1], c.times[r]));
    RightIs(c.times, t);
    RateWithin(c, t, r, s);
    RateWithin(Deviated(c, d), t, r, s);
    LineMoves(c.nodes[r - 1], c.nodes[r], d[r - 1], d[r], s, t);
  }

  /** The clipped segment holds t, or is the first with t before it, or the last with t past it. */
  lemma RightIs(times: seq<real>, t: real)
    requires 2 <= |times| && StrictlyIncreasing(times)
    ensures var r := Right(times, t);
            && (t < times[0] ==> r == 1)
            && (times[0] <= t <= times[|times| - 1] ==> times[r - 1] <= t <= times[r])
            && (t > times[|times| - 1] ==> r == |times| - 1)
  {
  }

  lemma RateWithin(c: Curve, t: real, r: nat, s: real)
    requires Valid(c) && c.ZeroCurve? && |c.times| >= 2 && t <= c.times[|c.times| - 1]
    requires r == Right(c.times, t) && s == Clamp01(Share(t, c.times[r - 1], c.times[r]))
    ensures ZeroRate(c, t) == Line(c.nodes[r - 1], c.nodes[r], s)
  {
    RightIs(c.times, t);
    assert c.nodes[r - 1] + 0.0 * (c.nodes[r] - c.nodes[r - 1]) == c.nodes[r - 1];
  }

  /** With a single node the stencil is that node's: its log discount factor, or its rate over t. */
  lemma SingleNodeStencil(c: Curve, d: seq<real>, t: real)
    requires Valid(c) && |d| == |c.nodes| == 1
    ensures Deviation(c, d, t) == if c.ZeroCurve? then Times(-t, d[0]) else d[0]
  {
  }

  /** Past the last pillar ln P is minus last z plus the flat forward's growth. */
  lemma LogBeyond(c: Curve, t: real)
    requires Valid(c) && c.ZeroCurve? && t > c.times[|c.times| - 1]
    ensures var last, z := c.times[|c.times| - 1], c.nodes[|c.times| - 1];
            LogDiscount(c, t) == Some(-(Times(z, last) + Times(LastForward(c), t - last)))
  {
    var last, z := c.times[|c.times| - 1], c.nodes[|c.times| - 1];
    var x := Times(z, last) + Times(LastForward(c), t - last);
    assert Times(-(x / t), t) == -x;
  }

  lemma BeyondPillars(c: Curve, d: seq<real>, t: real)
    requires Valid(c) && |d| == |c.nodes| && c.ZeroCurve? && |c.times| >= 2
    requires t > c.times[|c.times| - 1]
    ensures Exact(c, d, t)
  {
    var n := |c.times|;
    LogBeyond(c, t);
    LogBeyond(Deviated(c, d), t);
    ForwardMoves(c.nodes[n - 2], c.nodes[n - 1], d[n - 2], d[n - 1], c.times[n - 1],
                 c.times[n - 1] - c.times[n - 2], t - c.times[n - 1]);
  }

  /** The flat-forward extrapolation, of the last two rates p and z. */
  function Extrapolated(p: real, z: real, last: real, gap: real, past: real): real
    requires gap > 0.0
  {
    -(Times(z, last) + Times(z + Times(last, (z - p) / gap), past))
  }

  lemma ForwardMoves(p: real, z: real, dp: real, dz: real, last: real, gap: real, past: real)
    requires gap > 0.0
    ensures Times(dp, Times(past, last) / gap) + Times(dz, -(last + Times(past, 1.0 + last / gap)))
            == Extrapolated(p + dp, z + dz, last, gap, past) - Extrapolated(p, z, last, gap, past)
  {
    var k := last / gap;
    assert Times(past, last) / gap == past * k;
    ExtrapolatedIs(p, z, last, gap, past, k);
    ExtrapolatedIs(p + dp, z + dz, last, gap, past, k);
    PolynomialMoves(p, z, dp, dz, last, past, k);
  }

  lemma ExtrapolatedIs(p: real, z: real, last: real, gap: real, past: real, k: real)
    requires gap > 0.0 && k == last / gap
    ensures Extrapolated(p, z, last, gap, past) == -(z * last + (z + k * (z - p)) * past)
  {
    assert last * ((z - p) / gap) == k * (z - p);
  }

  lemma PolynomialMoves(p: real, z: real, dp: real, dz: real, last: real, past: real, k: real)
    ensures dp * (past * k) + dz * -(last + past * (1.0 + k))
            == -((z + dz) * last + (z + dz + k * (z + dz - (p + dp))) * past) + (z * last + (z + k * (z - p)) * past)
  {
    assert k * (z + dz - (p + dp)) == k * (z - p) + k * (dz - dp);
  }

  lemma Tenors(c: Curve, d: seq<real>, t: real)
    requires Valid(c) && |d| == |c.nodes| && c.DiscountCurve? && |c.times| >= 2
    ensures Exact(c, d, t)
  {
    var r := Right(c.times, t);
    MixMoves(c.nodes[r - 1], c.nodes[r], d[r - 1], d[r], LeftWeight(c.times[r - 1], c.times[r], t));
  }

  lemma MixMoves(a: real, b: real, da: real, db: real, w: real)
    ensures Times(da, w) + Times(db, 1.0 - w)
            == Mix(w, a + da, b + db) - Mix(w, a, b)
  {
  }

  /** The stencil is exact for every node deviation and time from 0 on, at any length of a zero curve
      and from two tenors on of a discount curve: with one its interpolant is no number. */
  lemma StencilIsExact(c: Curve, d: seq<real>, t: real)
    requires Valid(c) && |d| == |c.nodes| && t >= 0.0
    ensures Exact(c, d, t) <==> c.ZeroCurve? || |c.times| >= 2
  {
    if c.DiscountCurve? {
      if |c.times| >= 2 {
        Tenors(c, d, t);
      }
    } else if |c.times| == 1 {
      SinglePillar(c, d, t);
    } else if t <= c.times[|c.times| - 1] {
      WithinPillars(c, d, t);
    } else {
      BeyondPillars(c, d, t);
    }
  }

  lemma SearchAtNode(times: seq<real>, i: nat)
    requires i < |times| && StrictlyIncreasing(times)
    ensures SearchRight(times, times[i]) == i + 1
  {
    assert i + 1 < |times| ==> times[i] < times[i + 1];
  }

  /** At a node the interpolant has the node's own value, the last one included. */
  lemma NodesAreReproduced(c: Curve, i: nat)
    requires Valid(c) && i < |c.times| && |c.times| >= 2
    ensures LogDiscount(c, c.times[i]) == Some(if c.ZeroCurve? then Times(-c.nodes[i], c.times[i]) else c.nodes[i])
  {
    SearchAtNode(c.times, i);
    if c.ZeroCurve? {
      PillarIsReproduced(c, i, Right(c.times, c.times[i]));
    } else {
      TenorIsReproduced(c, i, Right(c.times, c.times[i]));
    }
  }

  lemma PillarIsReproduced(c: Curve, i: nat, r: nat)
    requires Valid(c) && i < |c.times| && |c.times| >= 2 && c.ZeroCurve?
    requires r == Right(c.times, c.times[i]) && r == if i < |c.times| - 1 then i + 1 else i
    ensures LogDiscount(c, c.times[i]) == Some(Times(-c.nodes[i], c.times[i]))
  {
    RateWithin(c, c.times[i], r, Clamp01(Share(c.times[i], c.times[r - 1], c.times[r])));
    LineEnds(c.nodes[r - 1], c.nodes[r]);
  }

  lemma TenorIsReproduced(c: Curve, i: nat, r: nat)
    requires Valid(c) && i < |c.times| && |c.times| >= 2 && c.DiscountCurve?
    requires r == Right(c.times, c.times[i]) && r == if i < |c.times| - 1 then i + 1 else i
    ensures LogDiscount(c, c.times[i]) == Some(c.nodes[i])
  {
    MixEnds(c.nodes[r - 1], c.nodes[r]);
  }

  lemma LineEnds(a: real, b: real)
    ensures Line(a, b, 0.0) == a && Line(a, b, 1.0) == b
  {
  }

  lemma MixEnds(a: real, b: real)
    ensures Mix(1.0, a, b) == a && Mix(0.0, a, b) == b
  {
  }

  // ----- the interpolants are straight lines --------------------------------------------------

  /** (t, v) is on the line through (lo, a) and (hi, b). */
  predicate OnLine(lo: real, a: real, hi: real, b: real, t: real, v: real) {
    Times(v - a, hi - lo) == Times(t - lo, b - a)
  }

  lemma LineThrough(lo: real, a: real, hi: real, b: real, t: real)
    requires lo < hi
    ensures OnLine(lo, a, hi, b, t, Line(a, b, Share(t, lo, hi)))
  {
    var s := Share(t, lo, hi);
    assert s * (hi - lo) == t - lo;
    assert s * (b - a) * (hi - lo) == s * (hi - lo) * (b - a);
  }

  lemma MixThrough(lo: real, a: real, hi: real, b: real, t: real)
    requires lo < hi
    ensures OnLine(lo, a, hi, b, t, Mix(LeftWeight(lo, hi, t), a, b))
  {
    var w := LeftWeight(lo, hi, t);
    assert w * (hi - lo) == hi - t;
    assert Mix(w, a, b) - a == (1.0 - w) * (b - a);
    assert (1.0 - w) * (hi - lo) == t - lo;
    assert (1.0 - w) * (b - a) * (hi - lo) == (1.0 - w) * (hi - lo) * (b - a);
  }

  /** The next pillar's value is on the line that ends there and on the one that starts there. */
  lemma AtEnds(lo: real, a: real, hi: real, b: real)
    ensures OnLine(lo, a, hi, b, lo, a) && OnLine(lo, a, hi, b, hi, b)
  {
  }

  /** A zero rate is on the line between the pillars around it, the first one's up to the first, and from the
      last one on such that r(t) t grows at the forward there, z + t z' of the last segment. */
  lemma ZeroRateIsLinear(c: Curve, t: real)
    requires Valid(c) && c.ZeroCurve?
    ensures forall i :: 0 <= i < |c.times| - 1 && c.times[i] <= t <= c.times[i + 1] ==>
              OnLine(c.times[i], c.nodes[i], c.times[i + 1], c.nodes[i + 1], t, ZeroRate(c, t))
    ensures t <= c.times[0] ==> ZeroRate(c, t) == c.nodes[0]
    ensures t >= c.times[|c.times| - 1] ==>
              Times(ZeroRate(c, t), t)
              == Times(c.nodes[|c.nodes| - 1], c.times[|c.times| - 1])
                 + Times(LastForward(c), t - c.times[|c.times| - 1])
  {
    hide Share, Mix;
    forall i | 0 <= i < |c.times| - 1 && c.times[i] <= t <= c.times[i + 1]
      ensures OnLine(c.times[i], c.nodes[i], c.times[i + 1], c.nodes[i + 1], t, ZeroRate(c, t))
    {
      RateBetween(c, t, i);
    }
    if t <= c.times[0] {
      RateBefore(c, t);
    }
    if t >= c.times[|c.times| - 1] {
      RateBeyond(c, t);
    }
  }

  lemma RateBetween(c: Curve, t: real, i: nat)
    requires Valid(c) && c.ZeroCurve? && i + 1 < |c.times| && c.times[i] <= t <= c.times[i + 1]
    ensures OnLine(c.times[i], c.nodes[i], c.times[i + 1], c.nodes[i + 1], t, ZeroRate(c, t))
  {
    AtEnds(c.times[i], c.nodes[i], c.times[i + 1], c.nodes[i + 1]);
    if t == c.times[i + 1] {
      RateAtPillar(c, i + 1);
    } else {
      var r := Right(c.times, t);
      SegmentAt(c.times, t, i);
      RateWithin(c, t, r, Share(t, c.times[i], c.times[i + 1]));
      LineThrough(c.times[i], c.nodes[i], c.times[i + 1], c.nodes[i + 1], t);
    }
  }

  lemma SegmentAt(times: seq<real>, t: real, i: nat)
    requires StrictlyIncreasing(times) && i + 1 < |times| && times[i] <= t < times[i + 1]
    ensures Right(times, t) == i + 1
  {
    assert forall j :: 0 <= j < |times| && j <= i ==> times[j] <= t;
    assert forall j :: i + 1 <= j < |times| ==> t < times[j];
  }

  lemma RateAtPillar(c: Curve, i: nat)
    requires Valid(c) && c.ZeroCurve? && i < |c.times| && |c.times| >= 2
    ensures ZeroRate(c, c.times[i]) == c.nodes[i]
  {
    SearchAtNode(c.times, i);
    var r := Right(c.times, c.times[i]);
    RateWithin(c, c.times[i], r, Clamp01(Share(c.times[i], c.times[r - 1], c.times[r])));
    LineEnds(c.nodes[r - 1], c.nodes[r]);
  }

  /** Rates are flat outside the pillars. */
  lemma InterpolatedIsFlat(c: Curve, t: real)
    requires Valid(c) && c.ZeroCurve?
    ensures t <= c.times[0] ==> Interpolated(c.times, c.nodes, t) == c.nodes[0]
    ensures t >= c.times[|c.times| - 1] ==> Interpolated(c.times, c.nodes, t) == c.nodes[|c.nodes| - 1]
  {
    var n := |c.times|;
    if n >= 2 && t == c.times[0] {
      RateAtPillar(c, 0);
    }
    if n >= 2 && t == c.times[n - 1] {
      RateAtPillar(c, n - 1);
    }
  }

  lemma RateBefore(c: Curve, t: real)
    requires Valid(c) && c.ZeroCurve? && t <= c.times[0]
    ensures ZeroRate(c, t) == c.nodes[0]
  {
    if |c.times| >= 2 && t == c.times[0] {
      RateAtPillar(c, 0);
    }
  }

  lemma RateBeyond(c: Curve, t: real)
    requires Valid(c) && c.ZeroCurve? && t >= c.times[|c.times| - 1]
    ensures Times(ZeroRate(c, t), t)
            == Times(c.nodes[|c.nodes| - 1], c.times[|c.times| - 1])
               + Times(LastForward(c), t - c.times[|c.times| - 1])
  {
    var n, last := |c.times|, c.times[|c.times| - 1];
    if t > last {
      var x := Times(c.nodes[n - 1], last) + Times(LastForward(c), t - last);
      assert (x / t) * t == x;
    } else {
      if n >= 2 {
        RateAtPillar(c, n - 1);
      }
      assert Times(LastForward(c), 0.0) == 0.0;
    }
  }

  /** The forward held flat is the last segment's own at its end. */
  lemma LastForwardIs(c: Curve)
    requires Valid(c)
    ensures var n := |c.times|;
            if n < 2 then LastForward(c) == c.nodes[n - 1]
            else Times(LastForward(c) - c.nodes[n - 1], c.times[n - 1] - c.times[n - 2])
                 == Times(c.times[n - 1], c.nodes[n - 1] - c.nodes[n - 2])
  {
    var n := |c.times|;
    if n >= 2 {
      var gap, rise := c.times[n - 1] - c.times[n - 2], c.nodes[n - 1] - c.nodes[n - 2];
      var slope := rise / gap;
      assert slope * gap == rise;
      assert c.times[n - 1] * slope * gap == c.times[n - 1] * (slope * gap);
    }
  }

  /** A log discount factor is on the line between the tenors around it, and beyond the first or the last on
      the line of the segment there. */
  lemma LogDiscountIsLinear(c: Curve, t: real, i: nat)
    requires Valid(c) && c.DiscountCurve? && i + 1 < |c.times|
    requires (i == 0 || c.times[i] <= t) && (i + 2 == |c.times| || t <= c.times[i + 1])
    ensures LogDiscount(c, t).Some?
    ensures OnLine(c.times[i], c.nodes[i], c.times[i + 1], c.nodes[i + 1], t, LogDiscount(c, t).value)
  {
    hide LeftWeight, Mix, OnLine;
    var r := Right(c.times, t);
    MixThrough(c.times[r - 1], c.nodes[r - 1], c.times[r], c.nodes[r], t);
    if r != i + 1 {
      NextSegment(c.times, t, i);
      MixThrough(c.times[i + 1], c.nodes[i + 1], c.times[i + 2], c.nodes[i + 2], t);
      MixAtStart(c.times[i + 1], c.nodes[i + 1], c.times[i + 2], c.nodes[i + 2]);
      AtEnds(c.times[i], c.nodes[i], c.times[i + 1], c.nodes[i + 1]);
    }
  }

  lemma MixAtStart(lo: real, a: real, hi: real, b: real)
    requires lo < hi
    ensures Mix(LeftWeight(lo, hi, lo), a, b) == a
  {
    MixEnds(a, b);
  }

  /** At the end of a segment that is not the last the search gives the next one. */
  lemma NextSegment(times: seq<real>, t: real, i: nat)
    requires 2 <= |times| && StrictlyIncreasing(times) && i + 1 < |times|
    requires (i == 0 || times[i] <= t) && (i + 2 == |times| || t <= times[i + 1]) && Right(times, t) != i + 1
    ensures i + 2 < |times| && t == times[i + 1] && Right(times, t) == i + 2
  {
    if i + 2 < |times| && t == times[i + 1] {
      SearchAtNode(times, i + 1);
    } else if times[i] <= t && t < times[i + 1] {
      SegmentAt(times, t, i);
    } else {
      RightIs(times, t);
    }
  }
}
