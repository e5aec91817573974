/** The Brownian-bridge construction matrix (engine/market_simulation/sobol.py). */
module Bridge {
  import opened LinearAlgebra

  /** One construction step: `slot` is drawn between the built slots `left - 1` (time 0 when `left`
      is 0) and `right`. */
  datatype Step = Step(slot: int, left: int, right: int, leftWeight: real, rightWeight: real, stdDev: real)

  // ----- what the plan must be ----------------------------------------------------------------

  ghost predicate Increasing(times: seq<real>) {
    && (|times| > 0 ==> times[0] > 0.0)
    && forall i, j :: 0 <= i < j < |times| ==> times[i] < times[j]
  }

  ghost predicate Built(steps: seq<Step>, r: int) {
    exists i :: 0 <= i < |steps| && steps[i].slot == r
  }

  /** The time at the left end of a gap that starts at slot `j`. */
  function LeftTime(times: seq<real>, j: int): real
    requires 0 <= j <= |times|
  {
    if j == 0 then 0.0 else times[j - 1]
  }

  /** The variance of a bridge point at `m` given its ends at `a` and `k`. */
  function ConditionalVariance(a: real, m: real, k: real): real
    requires a < k
  {
    (m - a) * (k - m) / (k - a)
  }

  /** The step that draws the endpoint. */
  ghost predicate IsFirst(times: seq<real>, sqrt: real -> real, s: Step)
    requires |times| > 0
  {
    s.slot == |times| - 1 && s.stdDev == sqrt(times[|times| - 1])
  }

  /** The step takes a gap that `before` leaves, [left, right) between built ends, at its lower middle. */
  ghost predicate IsPlaced(times: seq<real>, before: seq<Step>, s: Step) {
    && 0 <= s.left <= s.slot < s.right < |times|
    && s.slot == s.left + (s.right - 1 - s.left) / 2
    && (s.left == 0 || Built(before, s.left - 1))
    && (forall r :: s.left <= r < s.right ==> !Built(before, r))
    && Built(before, s.right)
  }

  /** Such a step, weighted by the conditional law given the gap's two ends. */
  ghost predicate IsBisection(times: seq<real>, sqrt: real -> real, before: seq<Step>, s: Step) {
    && IsPlaced(times, before, s)
    && var a, m, k := LeftTime(times, s.left), times[s.slot], times[s.right];
       && a < m < k
       && s.leftWeight == (k - m) / (k - a)
       && s.rightWeight == (m - a) / (k - a)
       && s.stdDev == sqrt(ConditionalVariance(a, m, k))
  }

  /** What the covariance argument uses of the weights. */
  ghost predicate IsConditional(times: seq<real>, s: Step)
    requires 0 <= s.left <= s.slot < s.right < |times|
  {
    var a, m, k := LeftTime(times, s.left), times[s.slot], times[s.right];
    && s.leftWeight + s.rightWeight == 1.0
    && Lin(s.leftWeight, a, s.rightWeight, k) == m
    && Lin(s.leftWeight, a, s.rightWeight, m) + s.stdDev * s.stdDev == m
  }

  ghost predicate IsPlan(times: seq<real>, sqrt: real -> real, steps: seq<Step>)
    requires |times| > 0
  {
    && (|steps| > 0 ==> IsFirst(times, sqrt, steps[0]))
    && forall i :: 1 <= i < |steps| ==> BisectsAt(times, sqrt, steps, i)
  }

  ghost predicate BisectsAt(times: seq<real>, sqrt: real -> real, steps: seq<Step>, i: int)
    requires 0 <= i < |steps|
  {
    IsBisection(times, sqrt, steps[..i], steps[i])
  }

  /** No gap is left of the one taken. */
  ghost predicate TakesLeftmost(steps: seq<Step>, i: nat)
    requires i < |steps|
  {
    forall r :: 0 <= r < steps[i].left ==> Built(steps[..i], r)
  }

  /** Every step but the first takes the leftmost gap there is. */
  ghost predicate Leftmost(steps: seq<Step>) {
    forall i :: 1 <= i < |steps| ==> TakesLeftmost(steps, i)
  }

  // ----- the matrix a plan stands for ---------------------------------------------------------

  ghost function ZeroVec(): Vec {
    c => 0.0
  }

  /** The left neighbour's row: zero at time 0. */
  ghost function LeftRow(M: Mat, j: int): Vec {
    if j == 0 then ZeroVec() else RowOf(M, j - 1)
  }

  /** The row a step adds as column `i` comes into use, from the rows built before it. */
  ghost function NewRow(M: Mat, s: Step, i: int): Vec {
    if i == 0 then Bumped(ZeroVec(), 0, s.stdDev)
    else Bumped(Combination(s.leftWeight, LeftRow(M, s.left), s.rightWeight, RowOf(M, s.right)), i, s.stdDev)
  }

  ghost function Combination(a: real, u: Vec, b: real, w: Vec): Vec {
    c => Lin(a, u(c), b, w(c))
  }

  ghost function WithRow(M: Mat, r: int, v: Vec): Mat {
    (p, c) => if p == r then v(c) else M(p, c)
  }

  /** The rows built by `steps`, every other row zero. */
  ghost function Replay(steps: seq<Step>): Mat {
    if |steps| == 0 then (p, c) => 0.0
    else
      var i := |steps| - 1;
      WithRow(Replay(steps[..i]), steps[i].slot, NewRow(Replay(steps[..i]), steps[i], i))
  }

  // ----- it has the covariance of Brownian motion ---------------------------------------------

  function Min(a: real, b: real): real {
    if a <= b then a else b
  }

  /** What a partly built matrix keeps: min(t_r, t_s) between built rows, later columns unused. */
  ghost predicate BridgesTo(times: seq<real>, steps: seq<Step>, M: Mat) {
    && (forall r, c :: |steps| <= c ==> M(r, c) == 0.0)
    && (forall r, s :: 0 <= r < |times| && 0 <= s < |times| && Built(steps, r) && Built(steps, s) ==>
          Dot(RowOf(M, r), RowOf(M, s), |times|) == Min(times[r], times[s]))
  }

  /** The conditional law of a bridge point at m between a and k. */
  lemma BridgePoint(a: real, m: real, k: real, lw: real, rw: real, std: real)
    requires a < m < k && lw == (k - m) / (k - a) && rw == (m - a) / (k - a)
    requires std * std == (m - a) * (k - m) / (k - a)
    ensures lw + rw == 1.0 && Lin(lw, a, rw, k) == m
    ensures Lin(lw, a, rw, m) + std * std == m
  {
    var d := k - a;
    assert lw * d == k - m && rw * d == m - a;
    Cancel(lw + rw, 1.0, d);
    assert (lw * a + rw * k) * d == (lw * d) * a + (rw * d) * k;
    assert (k - m) * a + (m - a) * k == m * d;
    Cancel(lw * a + rw * k, m, d);
    assert std * std * d == (m - a) * (k - m) == (rw * d) * (k - m);
    Cancel(std * std, rw * (k - m), d);
  }

  lemma SameWeights(lw: real, rw: real, t: real)
    requires lw + rw == 1.0
    ensures Lin(lw, t, rw, t) == t
  {
    assert lw * t + rw * t == (lw + rw) * t;
  }

  lemma LeftDot(times: seq<real>, steps: seq<Step>, M: Mat, j: int, r: int)
    requires Increasing(times) && BridgesTo(times, steps, M)
    requires 0 <= j <= |times| && 0 <= r < |times| && Built(steps, r) && (j > 0 ==> Built(steps, j - 1))
    ensures Dot(LeftRow(M, j), RowOf(M, r), |times|) == Min(LeftTime(times, j), times[r])
    ensures j > 0 ==> Dot(LeftRow(M, j), LeftRow(M, j), |times|) == LeftTime(times, j)
    ensures j == 0 ==> Dot(LeftRow(M, j), LeftRow(M, j), |times|) == 0.0
  {
    if j == 0 {
      DotTail(ZeroVec(), RowOf(M, r), 0, |times|);
      DotTail(ZeroVec(), ZeroVec(), 0, |times|);
    }
  }

  /** A new point's covariance with a point already built. */
  lemma NewRowWithOld(times: seq<real>, steps: seq<Step>, M: Mat, s: Step, r: int)
    requires Increasing(times) && BridgesTo(times, steps, M) && IsPlaced(times, steps, s) && IsConditional(times, s)
    requires 0 <= r < |times| && Built(steps, r) && |steps| < |times|
    ensures Dot(NewRow(M, s, |steps|), RowOf(M, r), |times|) == Min(times[s.slot], times[r])
  {
    var i := |steps|;
    if i > 0 {
      var y := RowOf(M, r);
      NewRowDot(M, s, i, y, |times|);
      assert y(i) == 0.0;
      DotSymmetric(y, LeftRow(M, s.left), |times|);
      LeftDot(times, steps, M, s.left, r);
      if r < s.left {
        SameWeights(s.leftWeight, s.rightWeight, times[r]);
      } else {
        assert r >= s.right;
      }
    }
  }

  lemma NewRowWithLeft(times: seq<real>, steps: seq<Step>, M: Mat, s: Step)
    requires Increasing(times) && BridgesTo(times, steps, M) && IsPlaced(times, steps, s) && IsConditional(times, s)
    requires |steps| < |times|
    ensures Dot(NewRow(M, s, |steps|), LeftRow(M, s.left), |times|) == LeftTime(times, s.left)
  {
    if s.left == 0 {
      DotTail(NewRow(M, s, |steps|), ZeroVec(), 0, |times|);
    } else {
      NewRowWithOld(times, steps, M, s, s.left - 1);
    }
  }

  /** A new point's variance. */
  lemma NewRowVariance(times: seq<real>, steps: seq<Step>, M: Mat, s: Step)
    requires Increasing(times) && BridgesTo(times, steps, M) && IsPlaced(times, steps, s) && IsConditional(times, s)
    requires |steps| < |times|
    ensures Dot(NewRow(M, s, |steps|), NewRow(M, s, |steps|), |times|) == times[s.slot]
  {
    var v := NewRow(M, s, |steps|);
    NewRowWithOld(times, steps, M, s, s.right);
    NewRowWithLeft(times, steps, M, s);
    NewRowDot(M, s, |steps|, v, |times|);
    NewRowDiagonal(times, steps, M, s);
  }

  lemma NewRowDiagonal(times: seq<real>, steps: seq<Step>, M: Mat, s: Step)
    requires BridgesTo(times, steps, M)
    ensures NewRow(M, s, |steps|)(|steps|) == s.stdDev
  {
    assert LeftRow(M, s.left)(|steps|) == 0.0 && RowOf(M, s.right)(|steps|) == 0.0;
    assert Lin(s.leftWeight, 0.0, s.rightWeight, 0.0) == 0.0;
  }

  /** A new row against any vector. */
  lemma NewRowDot(M: Mat, s: Step, i: nat, y: Vec, n: nat)
    requires 0 < i < n
    ensures Dot(NewRow(M, s, i), y, n) ==
            Lin(s.leftWeight, Dot(y, LeftRow(M, s.left), n), s.rightWeight, Dot(y, RowOf(M, s.right), n)) +
            s.stdDev * y(i)
  {
    var z := Combination(s.leftWeight, LeftRow(M, s.left), s.rightWeight, RowOf(M, s.right));
    DotBumped(z, i, s.stdDev, y, n);
    DotLinear(y, s.leftWeight, LeftRow(M, s.left), s.rightWeight, RowOf(M, s.right), z, n);
    DotSymmetric(y, z, n);
  }

  lemma BisectionIsConditional(times: seq<real>, sqrt: real -> real, steps: seq<Step>, s: Step)
    requires IsBisection(times, sqrt, steps, s) && IsSqrt(sqrt)
    ensures IsConditional(times, s)
  {
    var a, m, k := LeftTime(times, s.left), times[s.slot], times[s.right];
    NonnegativeVariance(m - a, k - m, k - a);
    BridgePoint(a, m, k, s.leftWeight, s.rightWeight, s.stdDev);
  }

  lemma NonnegativeVariance(p: real, q: real, d: real)
    requires p > 0.0 && q > 0.0 && d > 0.0
    ensures p * q / d >= 0.0
  {
  }

  lemma PlanStep(times: seq<real>, sqrt: real -> real, steps: seq<Step>, i: nat)
    requires 0 < |times| && IsPlan(times, sqrt, steps) && 0 < i < |steps| && IsSqrt(sqrt)
    ensures IsPlaced(times, steps[..i], steps[i]) && IsConditional(times, steps[i])
  {
    assert BisectsAt(times, sqrt, steps, i);
    BisectionIsConditional(times, sqrt, steps[..i], steps[i]);
  }

  /** Every prefix of a plan covers its points with the covariance of Brownian motion. */
  lemma {:induction false} ReplayBridges(times: seq<real>, sqrt: real -> real, steps: seq<Step>, i: nat)
    requires Increasing(times) && IsSqrt(sqrt) && |steps| <= |times| && 0 < i <= |steps| && IsPlan(times, sqrt, steps)
    ensures BridgesTo(times, steps[..i], Replay(steps[..i]))
  {
    if i == 1 {
      FirstBridges(times, sqrt, steps[..1]);
    } else {
      ReplayBridges(times, sqrt, steps, i - 1);
      NextBridges(times, sqrt, steps, i - 1, steps[..i - 1], steps[..i]);
    }
  }

  lemma NextBridges(times: seq<real>, sqrt: real -> real, steps: seq<Step>, i: nat, before: seq<Step>, after: seq<Step>)
    requires Increasing(times) && IsSqrt(sqrt) && |steps| <= |times| && 0 < i < |steps| && IsPlan(times, sqrt, steps)
    requires before == steps[..i] && after == steps[..i + 1] && BridgesTo(times, before, Replay(before))
    ensures BridgesTo(times, after, Replay(after))
  {
    PlanStep(times, sqrt, steps, i);
    ReplayStep(times, before, steps[i]);
    assert before + [steps[i]] == after;
  }

  lemma ReplayStep(times: seq<real>, steps: seq<Step>, s: Step)
    requires Increasing(times) && 0 < |steps| < |times|
    requires BridgesTo(times, steps, Replay(steps)) && IsPlaced(times, steps, s) && IsConditional(times, s)
    ensures BridgesTo(times, steps + [s], Replay(steps + [s]))
  {
    StepBridges(times, steps, Replay(steps), s);
    ReplayAppend(steps, s);
  }

  lemma ReplayAppend(steps: seq<Step>, s: Step)
    ensures Replay(steps + [s]) == WithRow(Replay(steps), s.slot, NewRow(Replay(steps), s, |steps|))
  {
    assert (steps + [s])[..|steps|] == steps;
  }

  lemma FirstBridges(times: seq<real>, sqrt: real -> real, steps: seq<Step>)
    requires Increasing(times) && IsSqrt(sqrt) && 0 < |times| && |steps| == 1 && IsFirst(times, sqrt, steps[0])
    ensures BridgesTo(times, steps, Replay(steps))
  {
    var v := NewRow(Replay([]), steps[0], 0);
    assert steps[..0] == [];
    var last := |times| - 1;
    DotBumped(ZeroVec(), 0, steps[0].stdDev, v, |times|);
    DotTail(ZeroVec(), v, 0, |times|);
    assert Dot(v, v, |times|) == steps[0].stdDev * steps[0].stdDev == times[last];
    DotExt(RowOf(Replay(steps), last), RowOf(Replay(steps), last), v, v, |times|);
  }

  lemma StepBridges(times: seq<real>, steps: seq<Step>, M: Mat, s: Step)
    requires Increasing(times) && 0 < |steps| < |times|
    requires BridgesTo(times, steps, M) && IsPlaced(times, steps, s) && IsConditional(times, s)
    ensures BridgesTo(times, steps + [s], WithRow(M, s.slot, NewRow(M, s, |steps|)))
  {
    var n, v := |times|, NewRow(M, s, |steps|);
    var M' := WithRow(M, s.slot, v);
    forall r, q | 0 <= r < n && 0 <= q < n && Built(steps + [s], r) && Built(steps + [s], q)
      ensures Dot(RowOf(M', r), RowOf(M', q), n) == Min(times[r], times[q])
    {
      assert r != s.slot ==> Built(steps, r);
      assert q != s.slot ==> Built(steps, q);
      var x, y := if r == s.slot then v else RowOf(M, r), if q == s.slot then v else RowOf(M, q);
      DotExt(RowOf(M', r), RowOf(M', q), x, y, n);
      if r == s.slot && q == s.slot {
        NewRowVariance(times, steps, M, s);
      } else if r == s.slot {
        NewRowWithOld(times, steps, M, s, q);
      } else if q == s.slot {
        NewRowWithOld(times, steps, M, s, r);
        DotSymmetric(x, y, n);
      }
    }
  }

  // ----- every slot is filled exactly once ----------------------------------------------------

  ghost function Slots(steps: seq<Step>): set<int> {
    set i | 0 <= i < |steps| :: steps[i].slot
  }

  ghost function Range(n: nat): set<int> {
    if n == 0 then {} else Range(n - 1) + {n - 1}
  }

  lemma {:induction false} RangeIs(n: nat)
    ensures |Range(n)| == n
    ensures forall r :: r in Range(n) <==> 0 <= r < n
  {
    if n > 0 {
      RangeIs(n - 1);
    }
  }

  lemma {:induction false} SlotsSize(steps: seq<Step>)
    ensures |Slots(steps)| <= |steps|
    ensures (forall i :: 0 <= i < |steps| ==> !Built(steps[..i], steps[i].slot)) ==> |Slots(steps)| == |steps|
  {
    if |steps| > 0 {
      var i := |steps| - 1;
      SlotsSize(steps[..i]);
      assert Slots(steps) == Slots(steps[..i]) + {steps[i].slot};
      assert forall j :: 0 <= j < i ==> steps[..i][..j] == steps[..j];
      assert steps[i].slot in Slots(steps[..i]) <==> Built(steps[..i], steps[i].slot);
    }
  }

  /** Fewer steps than slots leave a slot open. */
  lemma OpenSlot(steps: seq<Step>, n: nat) returns (r: nat)
    requires |steps| < n
    ensures r < n && !Built(steps, r)
  {
    SlotsSize(steps);
    RangeIs(n);
    if forall r: nat :: r < n ==> Built(steps, r) {
      assert Range(n) <= Slots(steps) by {
        forall r | r in Range(n) ensures r in Slots(steps) {
          assert Built(steps, r);
        }
      }
      SubsetSize(Range(n), Slots(steps));
      assert false;
    }
    r :| r < n && !Built(steps, r);
  }

  lemma {:induction false} SubsetSize<T>(a: set<T>, b: set<T>)
    requires a <= b
    ensures |a| <= |b|
    ensures |a| == |b| ==> a == b
  {
    if a != {} {
      var x :| x in a;
      SubsetSize(a - {x}, b - {x});
    }
  }

  lemma StepsDiffer(times: seq<real>, sqrt: real -> real, steps: seq<Step>, j: nat)
    requires 0 < |times| && IsPlan(times, sqrt, steps) && j < |steps|
    ensures 0 <= steps[j].slot < |times| && !Built(steps[..j], steps[j].slot)
  {
    assert j > 0 ==> BisectsAt(times, sqrt, steps, j);
  }

  /** A complete plan fills every slot, and no slot twice. */
  lemma PlanFillsEachSlotOnce(times: seq<real>, sqrt: real -> real, steps: seq<Step>)
    requires 0 < |times| == |steps| && IsPlan(times, sqrt, steps)
    ensures forall r :: 0 <= r < |times| ==> Built(steps, r)
    ensures forall i, j :: 0 <= i < j < |steps| ==> steps[i].slot != steps[j].slot
  {
    forall j | 0 <= j < |steps|
      ensures 0 <= steps[j].slot < |times| && !Built(steps[..j], steps[j].slot)
    {
      StepsDiffer(times, sqrt, steps, j);
    }
    forall i, j | 0 <= i < j < |steps| ensures steps[i].slot != steps[j].slot {
      assert steps[..j][i].slot == steps[i].slot;
    }
    SlotsSize(steps);
    RangeIs(|times|);
    SubsetSize(Slots(steps), Range(|times|));
    forall r | 0 <= r < |times| ensures Built(steps, r) {
      assert r in Slots(steps);
    }
  }

  // ----- the plan, slot by slot ---------------------------------------------------------------

  /** The leftmost gap of the slots not yet marked: its first slot and the built slot after it. */
  method LeftmostGap(marks: array<int>, ghost open: nat) returns (j: int, k: int)
    requires open < marks.Length && marks[open] == 0 && marks[marks.Length - 1] != 0
    ensures 0 <= j < k < marks.Length && marks[k] != 0
    ensures forall r :: 0 <= r < j ==> marks[r] != 0
    ensures forall r :: j <= r < k ==> marks[r] == 0
  {
    j := 0;
    while marks[j] != 0
      invariant 0 <= j <= open
      invariant forall r :: 0 <= r < j ==> marks[r] != 0
      decreases open - j
    {
      j := j + 1;
    }
    k := j;
    while marks[k] == 0
      invariant j <= k < marks.Length
      invariant forall r :: j <= r < k ==> marks[r] == 0
      decreases marks.Length - k
    {
      k := k + 1;
    }
  }

  /** The gap's middle slot and its conditional law. */
  function Bisect(times: seq<real>, sqrt: real -> real, j: int, k: int): Step
    requires Increasing(times) && 0 <= j < k < |times|
  {
    var l := j + (k - 1 - j) / 2;
    var leftTime, midTime, rightTime := LeftTime(times, j), times[l], times[k];
    Step(l, j, k, (rightTime - midTime) / (rightTime - leftTime), (midTime - leftTime) / (rightTime - leftTime),
         sqrt(ConditionalVariance(leftTime, midTime, rightTime)))
  }

  /** The order of construction: the endpoint, then gap after gap. The parallel index and weight
      arrays of the source are one array of steps here. */
  method PlanBridge(times: seq<real>, sqrt: real -> real) returns (plan: array<Step>)
    requires Increasing(times) && |times| > 0
    ensures fresh(plan) && plan.Length == |times| && IsPlan(times, sqrt, plan[..]) && Leftmost(plan[..])
  {
    var n := |times|;
    var last := Step(n - 1, 0, 0, 0.0, 0.0, sqrt(times[n - 1]));
    plan := new Step[n](_ => last);
    var marks := new int[n](_ => 0);
    marks[n - 1] := 1;
    assert Built(plan[..1], n - 1) by {
      assert plan[..1][0].slot == n - 1;
    }
    for i := 1 to n
      invariant IsPlan(times, sqrt, plan[..i]) && Built(plan[..i], n - 1) && Leftmost(plan[..i])
      invariant forall r :: 0 <= r < n ==> (marks[r] != 0 <==> Built(plan[..i], r))
    {
      ghost var steps := plan[..i];
      ghost var open := OpenSlot(steps, n);
      var j, k := LeftmostGap(marks, open);
      var s := Bisect(times, sqrt, j, k);
      marks[s.slot] := i;
      plan[i] := s;
      GapIsBisected(times, sqrt, steps, j, k);
      PlanAppend(times, sqrt, steps, s);
      BuiltAppend(steps, s);
      LeftmostAppend(steps, s);
      assert plan[..i + 1] == steps + [s];
    }
    assert plan[..n] == plan[..];
  }

  lemma GapIsBisected(times: seq<real>, sqrt: real -> real, steps: seq<Step>, j: int, k: int)
    requires Increasing(times) && 0 <= j < k < |times| && Built(steps, k)
    requires forall r :: 0 <= r < j ==> Built(steps, r)
    requires forall r :: j <= r < k ==> !Built(steps, r)
    ensures IsBisection(times, sqrt, steps, Bisect(times, sqrt, j, k))
  {
    var s := Bisect(times, sqrt, j, k);
    assert IsPlaced(times, steps, s);
    assert LeftTime(times, j) < times[s.slot] < times[k];
  }

  lemma PlanAppend(times: seq<real>, sqrt: real -> real, steps: seq<Step>, s: Step)
    requires |times| > 0 && |steps| > 0 && IsPlan(times, sqrt, steps) && IsBisection(times, sqrt, steps, s)
    ensures IsPlan(times, sqrt, steps + [s])
  {
    forall i | 1 <= i < |steps| + 1 ensures BisectsAt(times, sqrt, steps + [s], i) {
      if i < |steps| {
        assert BisectsAt(times, sqrt, steps, i);
        assert (steps + [s])[..i] == steps[..i];
      } else {
        assert (steps + [s])[..i] == steps;
      }
    }
  }

  lemma LeftmostAppend(steps: seq<Step>, s: Step)
    requires Leftmost(steps) && forall r :: 0 <= r < s.left ==> Built(steps, r)
    ensures Leftmost(steps + [s])
  {
    forall i: nat | 1 <= i < |steps| + 1 ensures TakesLeftmost(steps + [s], i) {
      if i < |steps| {
        assert TakesLeftmost(steps, i);
        assert (steps + [s])[..i] == steps[..i];
      } else {
        assert (steps + [s])[..i] == steps;
      }
    }
  }

  lemma BuiltAppend(steps: seq<Step>, s: Step)
    ensures forall r :: Built(steps + [s], r) <==> Built(steps, r) || r == s.slot
  {
    forall r ensures Built(steps + [s], r) <==> Built(steps, r) || r == s.slot {
      assert (steps + [s])[|steps|] == s;
      if Built(steps, r) {
        var i :| 0 <= i < |steps| && steps[i].slot == r;
        assert (steps + [s])[i].slot == r;
      }
    }
  }

  // ----- the leftmost gap is not the widest ---------------------------------------------------

  /** Slots [a, b) are all open. */
  ghost predicate OpenRun(before: seq<Step>, a: int, b: int) {
    forall r :: a <= r < b ==> !Built(before, r)
  }

  /** No run of open slots among `n` is longer than the gap taken. */
  ghost predicate TakesWidest(steps: seq<Step>, i: nat, n: nat)
    requires i < |steps|
  {
    forall a, b :: 0 <= a < b < n && OpenRun(steps[..i], a, b) ==> b - a <= steps[i].right - steps[i].left
  }

  lemma BuiltFirst(steps: seq<Step>, i: nat, r: int)
    requires 1 <= i < |steps|
    ensures Built(steps[..i], r) <==> r == steps[0].slot || (exists h :: 1 <= h < i && steps[h].slot == r)
  {
    if Built(steps[..i], r) {
      var h :| 0 <= h < i && steps[..i][h].slot == r;
    }
    assert steps[..i][0].slot == steps[0].slot;
    if h :| 1 <= h < i && steps[h].slot == r {
      assert steps[..i][h].slot == r;
    }
  }

  /** The first gap is all slots but the last, and is split at its lower middle. */
  lemma FirstGap(times: seq<real>, sqrt: real -> real, steps: seq<Step>)
    requires 2 <= |times| == |steps| && IsPlan(times, sqrt, steps) && Leftmost(steps)
    ensures steps[0].slot == |times| - 1
    ensures steps[1].left == 0 && steps[1].right == |times| - 1 && steps[1].slot == (|times| - 2) / 2
  {
    assert BisectsAt(times, sqrt, steps, 1) && TakesLeftmost(steps, 1);
    BuiltFirst(steps, 1, steps[1].right);
    if steps[1].left > 0 {
      BuiltFirst(steps, 1, 0);
    }
  }

  /** The second, where the first left slots before its middle. */
  lemma SecondGap(times: seq<real>, sqrt: real -> real, steps: seq<Step>)
    requires 4 <= |times| == |steps| && IsPlan(times, sqrt, steps) && Leftmost(steps)
    ensures steps[2].left == 0 && steps[2].right == steps[1].slot && steps[2].slot == (steps[1].slot - 1) / 2
  {
    FirstGap(times, sqrt, steps);
    assert BisectsAt(times, sqrt, steps, 2) && TakesLeftmost(steps, 2);
    BuiltFirst(steps, 2, 0);
    BuiltFirst(steps, 2, steps[2].right);
    BuiltFirst(steps, 2, steps[1].slot);
    assert steps[1].slot == steps[1].slot;
    assert Built(steps[..2], steps[1].slot);
    assert !(steps[2].left <= steps[1].slot < steps[2].right);
  }

  /** The slots right of the first middle stay open through the second step. */
  lemma RightHalfOpen(times: seq<real>, sqrt: real -> real, steps: seq<Step>, i: nat)
    requires 4 <= |times| == |steps| && IsPlan(times, sqrt, steps) && Leftmost(steps) && 2 <= i <= 3
    ensures OpenRun(steps[..i], steps[1].slot + 1, |times| - 1)
  {
    FirstGap(times, sqrt, steps);
    SecondGap(times, sqrt, steps);
    forall r | steps[1].slot + 1 <= r < |times| - 1 ensures !Built(steps[..i], r) {
      BuiltFirst(steps, i, r);
    }
  }

  /** From an odd number of slots on, 5 or more, the second gap taken is the narrower half. */
  lemma OddTakesNarrower(times: seq<real>, sqrt: real -> real, steps: seq<Step>)
    requires 5 <= |times| == |steps| && |times| % 2 == 1 && IsPlan(times, sqrt, steps) && Leftmost(steps)
    ensures !TakesWidest(steps, 2, |times|)
  {
    hide IsPlan, Leftmost, OpenRun;
    FirstGap(times, sqrt, steps);
    SecondGap(times, sqrt, steps);
    RightHalfOpen(times, sqrt, steps, 2);
    HalvesDiffer(|times|, steps[1].slot);
  }

  lemma HalvesDiffer(n: int, middle: int)
    requires n >= 5 && n % 2 == 1 && middle == (n - 2) / 2
    ensures 0 <= middle + 1 < n - 1 && n - 1 - (middle + 1) > middle
  {
  }

  /** With five slots the second gap taken is the one slot [0, 1), while [2, 4) is open. */
  lemma FiveSlots(times: seq<real>, sqrt: real -> real, steps: seq<Step>)
    requires |times| == |steps| == 5 && IsPlan(times, sqrt, steps) && Leftmost(steps)
    ensures steps[2].left == 0 && steps[2].right == 1 && OpenRun(steps[..2], 2, 4)
  {
    FirstGap(times, sqrt, steps);
    SecondGap(times, sqrt, steps);
    RightHalfOpen(times, sqrt, steps, 2);
  }

  /** From an even number, 6 or more, the third is a part of the left half. */
  lemma EvenTakesNarrower(times: seq<real>, sqrt: real -> real, steps: seq<Step>)
    requires 6 <= |times| == |steps| && |times| % 2 == 0 && IsPlan(times, sqrt, steps) && Leftmost(steps)
    ensures !TakesWidest(steps, 3, |times|)
  {
    FirstGap(times, sqrt, steps);
    SecondGap(times, sqrt, steps);
    RightHalfOpen(times, sqrt, steps, 3);
    assert BisectsAt(times, sqrt, steps, 3) && TakesLeftmost(steps, 3);
    ThirdWithin(steps, steps[1].slot, steps[2].slot, |times|);
    assert |times| - 1 - (steps[1].slot + 1) == steps[1].slot;
  }

  /** The third gap lies left of the first middle and not over the second. */
  lemma ThirdWithin(steps: seq<Step>, l1: int, l2: int, n: nat)
    requires 4 <= |steps| && steps[0].slot == n - 1 && steps[1].slot == l1 && steps[2].slot == l2
    requires 0 <= l2 < l1 < n - 1 && l1 >= 2
    requires 0 <= steps[3].left < steps[3].right < n && TakesLeftmost(steps, 3)
    requires OpenRun(steps[..3], steps[3].left, steps[3].right)
    ensures steps[3].right - steps[3].left < l1
  {
    var free := if l2 == 0 then 1 else 0;
    BuiltFirst(steps, 3, free);
    BuiltFirst(steps, 3, l1);
    BuiltFirst(steps, 3, l2);
    assert Built(steps[..3], l1) && Built(steps[..3], l2);
    assert !Built(steps[..3], free);
  }

  /** Up to 4 slots there is nothing wider to take: all open slots at first, single slots afterwards. */
  lemma FewSlotsTakeWidest(times: seq<real>, sqrt: real -> real, steps: seq<Step>, i: nat)
    requires 0 < |times| == |steps| <= 4 && IsPlan(times, sqrt, steps) && Leftmost(steps) && 1 <= i < |steps|
    ensures TakesWidest(steps, i, |times|)
  {
    FirstGap(times, sqrt, steps);
    assert BisectsAt(times, sqrt, steps, i);
    assert i > 1 ==> Built(steps[..i], steps[1].slot) by {
      BuiltFirst(steps, i, steps[1].slot);
    }
  }

  /** Counted in slots, a plan that takes the leftmost gap at every step takes a widest one at every step if
      and only if there are at most 4 slots. */
  lemma LeftmostIsWidestUpToFour(times: seq<real>, sqrt: real -> real, steps: seq<Step>)
    requires 0 < |times| == |steps| && IsPlan(times, sqrt, steps) && Leftmost(steps)
    ensures (forall i :: 1 <= i < |steps| ==> TakesWidest(steps, i, |times|)) <==> |times| <= 4
  {
    if |times| <= 4 {
      forall i: nat | 1 <= i < |steps| ensures TakesWidest(steps, i, |times|) {
        FewSlotsTakeWidest(times, sqrt, steps, i);
      }
    } else if |times| % 2 == 1 {
      OddTakesNarrower(times, sqrt, steps);
    } else {
      EvenTakesNarrower(times, sqrt, steps);
    }
  }

  // ----- the matrix, row by row ---------------------------------------------------------------

  lemma {:induction false} UnbuiltRowsAreZero(steps: seq<Step>, r: int)
    requires !Built(steps, r)
    ensures forall c :: Replay(steps)(r, c) == 0.0
  {
    if |steps| > 0 {
      var i := |steps| - 1;
      assert steps == steps[..i] + [steps[i]];
      BuiltAppend(steps[..i], steps[i]);
      UnbuiltRowsAreZero(steps[..i], r);
    }
  }

  /** The array's entries are the matrix's. */
  ghost predicate Agrees(B: array2<real>, M: Mat)
    reads B
  {
    forall r, c :: 0 <= r < B.Length0 && 0 <= c < B.Length1 ==> B[r, c] == M(r, c)
  }

  /** `B[row, :] += weight * B[other, :]`. */
  method AddScaledRow(B: array2<real>, row: nat, weight: real, other: nat)
    requires row < B.Length0 && other < B.Length0 && row != other
    modifies B
    ensures forall r, c :: 0 <= r < B.Length0 && 0 <= c < B.Length1 ==>
              B[r, c] == if r == row then old(B[r, c]) + weight * B[other, c] else old(B[r, c])
  {
    for k := 0 to B.Length1
      invariant forall r, c :: 0 <= r < B.Length0 && 0 <= c < B.Length1 && (r != row || k <= c) ==>
                  B[r, c] == old(B[r, c])
      invariant forall c :: 0 <= c < k ==> B[row, c] == old(B[row, c]) + weight * B[other, c]
    {
      B[row, k] := B[row, k] + weight * B[other, k];
    }
  }

  method PlaceRow(B: array2<real>, ghost M: Mat, i: nat, s: Step)
    requires Agrees(B, M) && 0 < i < B.Length0 == B.Length1 && 0 <= s.left <= s.slot < s.right < B.Length0
    requires forall c :: M(s.slot, c) == 0.0
    modifies B
    ensures Agrees(B, WithRow(M, s.slot, NewRow(M, s, i)))
  {
    hide NewRow;
    B[s.slot, i] := B[s.slot, i] + s.stdDev;
    if s.left != 0 {
      AddScaledRow(B, s.slot, s.leftWeight, s.left - 1);
    }
    if s.right != B.Length0 {
      AddScaledRow(B, s.slot, s.rightWeight, s.right);
    }
    forall c | 0 <= c < B.Length1 ensures NewRow(M, s, i)(c) == B[s.slot, c] {
      NewRowEntry(M, s, i, c);
    }
  }

  lemma NewRowEntry(M: Mat, s: Step, i: nat, c: int)
    requires 0 < i && 0 <= s.left
    ensures NewRow(M, s, i)(c) ==
            (if c == i then s.stdDev else 0.0) + (if s.left == 0 then 0.0 else s.leftWeight * M(s.left - 1, c)) +
            s.rightWeight * M(s.right, c)
  {
    var u, w := LeftRow(M, s.left)(c), M(s.right, c);
    assert u == if s.left == 0 then 0.0 else M(s.left - 1, c);
    assert Combination(s.leftWeight, LeftRow(M, s.left), s.rightWeight, RowOf(M, s.right))(c) ==
           Lin(s.leftWeight, u, s.rightWeight, w);
    LinIs(s.leftWeight, u, s.rightWeight, w);
  }

  lemma LinIs(a: real, u: real, b: real, w: real)
    ensures Lin(a, u, b, w) == (if u == 0.0 then 0.0 else a * u) + b * w
  {
  }

  /** The recorded plan as an explicit matrix, built row by row in place. */
  method ReplayPlan(plan: array<Step>, ghost times: seq<real>, ghost sqrt: real -> real) returns (B: array2<real>)
    requires 0 < |times| == plan.Length && IsPlan(times, sqrt, plan[..])
    ensures fresh(B) && B.Length0 == B.Length1 == plan.Length && Agrees(B, Replay(plan[..]))
  {
    var n := plan.Length;
    ghost var steps := plan[..];
    B := new real[n, n]((r, c) => 0.0);
    B[n - 1, 0] := plan[0].stdDev;
    FirstRow(steps);
    for i := 1 to n
      invariant Agrees(B, Replay(steps[..i]))
      modifies B
    {
      NextRow(times, sqrt, steps, i);
      PlaceRow(B, Replay(steps[..i]), i, plan[i]);
    }
    assert steps[..n] == steps;
  }

  /** The construction matrix B with W = B Z: each point of the grid conditioned on its neighbours,
      and B B' = min(t_r, t_s). */
  method BuildBridgeMatrix(times: seq<real>, sqrt: real -> real) returns (B: array2<real>, ghost steps: seq<Step>)
    requires Increasing(times) && |times| > 0 && IsSqrt(sqrt)
    ensures fresh(B) && B.Length0 == B.Length1 == |times|
    ensures |steps| == |times| && IsPlan(times, sqrt, steps) && Leftmost(steps) && Agrees(B, Replay(steps))
    ensures forall r, s :: 0 <= r < |times| && 0 <= s < |times| ==>
              Dot(VecOf(ArrayRow(B, r)), VecOf(ArrayRow(B, s)), |times|) == Min(times[r], times[s])
  {
    var plan := PlanBridge(times, sqrt);
    steps := plan[..];
    B := ReplayPlan(plan, times, sqrt);
    Covariance(times, sqrt, steps, B);
  }

  lemma NextRow(times: seq<real>, sqrt: real -> real, steps: seq<Step>, i: nat)
    requires |times| > 0 && 0 < i < |steps| && IsPlan(times, sqrt, steps)
    ensures 0 <= steps[i].left <= steps[i].slot < steps[i].right < |times|
    ensures forall c :: Replay(steps[..i])(steps[i].slot, c) == 0.0
    ensures Replay(steps[..i + 1]) ==
            WithRow(Replay(steps[..i]), steps[i].slot, NewRow(Replay(steps[..i]), steps[i], i))
  {
    assert BisectsAt(times, sqrt, steps, i);
    UnbuiltRowsAreZero(steps[..i], steps[i].slot);
    assert steps[..i + 1] == steps[..i] + [steps[i]];
    ReplayAppend(steps[..i], steps[i]);
  }

  lemma FirstRow(steps: seq<Step>)
    requires |steps| > 0
    ensures forall r, c :: Replay(steps[..1])(r, c) == if r == steps[0].slot && c == 0 then steps[0].stdDev else 0.0
  {
    assert steps[..1] == [] + [steps[0]];
    ReplayAppend([], steps[0]);
  }

  lemma Covariance(times: seq<real>, sqrt: real -> real, steps: seq<Step>, B: array2<real>)
    requires Increasing(times) && IsSqrt(sqrt) && |times| > 0 && |steps| == |times| && IsPlan(times, sqrt, steps)
    requires B.Length0 == B.Length1 == |times| && Agrees(B, Replay(steps))
    ensures forall r, s :: 0 <= r < |times| && 0 <= s < |times| ==>
              Dot(VecOf(ArrayRow(B, r)), VecOf(ArrayRow(B, s)), |times|) == Min(times[r], times[s])
  {
    var M := Replay(steps);
    PlanFillsEachSlotOnce(times, sqrt, steps);
    assert steps[..|times|] == steps;
    ReplayBridges(times, sqrt, steps, |times|);
    forall r: nat, s: nat | r < |times| && s < |times|
      ensures Dot(VecOf(ArrayRow(B, r)), VecOf(ArrayRow(B, s)), |times|) == Min(times[r], times[s])
    {
      DotExt(VecOf(ArrayRow(B, r)), VecOf(ArrayRow(B, s)), RowOf(M, r), RowOf(M, s), |times|);
    }
  }

  // ----- differenced along time and standardized ----------------------------------------------

  /** Row `i` of the matrix less the row before it. */
  ghost function IncrementRow(M: Mat, i: int): Vec {
    Combination(1.0, RowOf(M, i), -1.0, LeftRow(M, i))
  }

  /** The rows and the zero row at time 0 have Brownian covariance. */
  ghost predicate HasBrownianCovariance(M: Mat, times: seq<real>) {
    forall r, s :: 0 <= r < |times| && 0 <= s < |times| ==>
      Dot(RowOf(M, r), RowOf(M, s), |times|) == Min(times[r], times[s])
  }

  lemma LeftRowDot(M: Mat, times: seq<real>, i: int, j: int)
    requires Increasing(times) && HasBrownianCovariance(M, times) && 0 <= i < |times| && 0 <= j < |times|
    ensures Dot(LeftRow(M, i), LeftRow(M, j), |times|) == Min(LeftTime(times, i), LeftTime(times, j))
    ensures Dot(LeftRow(M, i), RowOf(M, j), |times|) == Min(LeftTime(times, i), times[j])
    ensures Dot(RowOf(M, j), LeftRow(M, i), |times|) == Min(LeftTime(times, i), times[j])
  {
    if i == 0 {
      DotTail(ZeroVec(), LeftRow(M, j), 0, |times|);
      DotTail(ZeroVec(), RowOf(M, j), 0, |times|);
    }
    if j == 0 {
      DotTail(LeftRow(M, i), ZeroVec(), 0, |times|);
    }
    DotSymmetric(RowOf(M, j), LeftRow(M, i), |times|);
  }

  /** Increments over disjoint intervals are orthogonal; one over an interval has its length. */
  lemma IncrementDot(M: Mat, times: seq<real>, i: int, j: int)
    requires Increasing(times) && HasBrownianCovariance(M, times) && 0 <= i < |times| && 0 <= j < |times|
    ensures Dot(IncrementRow(M, i), IncrementRow(M, j), |times|) ==
            if i == j then times[i] - LeftTime(times, i) else 0.0
  {
    var n, x, y := |times|, IncrementRow(M, i), IncrementRow(M, j);
    DotLinear(x, 1.0, RowOf(M, j), -1.0, LeftRow(M, j), y, n);
    DotSymmetric(x, RowOf(M, j), n);
    DotSymmetric(x, LeftRow(M, j), n);
    DotLinear(RowOf(M, j), 1.0, RowOf(M, i), -1.0, LeftRow(M, i), x, n);
    DotLinear(LeftRow(M, j), 1.0, RowOf(M, i), -1.0, LeftRow(M, i), x, n);
    LeftRowDot(M, times, i, j);
    LeftRowDot(M, times, j, i);
    assert LeftTime(times, i) < times[i] && LeftTime(times, j) < times[j];
    assert i < j ==> times[i] <= LeftTime(times, j);
    assert j < i ==> times[j] <= LeftTime(times, i);
  }

  /** Row `i` of the matrix less the row before it, from the array. */
  function DifferencedRow(B: array2<real>, i: nat): (x: seq<real>)
    requires i < B.Length0
    reads B
    ensures |x| == B.Length1
    ensures forall c :: 0 <= c < |x| ==> x[c] == B[i, c] - (if i == 0 then 0.0 else B[i - 1, c])
  {
    seq(B.Length1, c requires 0 <= c < B.Length1 reads B => B[i, c] - (if i == 0 then 0.0 else B[i - 1, c]))
  }

  function DividedRow(x: seq<real>, r: real): (y: seq<real>)
    requires r != 0.0
    ensures |y| == |x| && ScalesTo(VecOf(y), r, VecOf(x), |x|)
  {
    seq(|x|, c requires 0 <= c < |x| => x[c] / r)
  }

  /** The bridge differenced along time, each row over the root of its interval. */
  function StandardizedIncrements(B: array2<real>, roots: seq<real>): (A: seq<seq<real>>)
    requires B.Length0 == B.Length1 == |roots| && forall i :: 0 <= i < |roots| ==> roots[i] != 0.0
    reads B
    ensures |A| == |roots| && forall i :: 0 <= i < |A| ==> |A[i]| == |A|
  {
    seq(|roots|, i requires 0 <= i < |roots| reads B => DividedRow(DifferencedRow(B, i), roots[i]))
  }

  /** The square roots of the grid's interval lengths. */
  function IntervalRoots(timeGrid: seq<real>, sqrt: real -> real): seq<real>
    requires |timeGrid| > 0
  {
    seq(|timeGrid| - 1, i requires 0 <= i < |timeGrid| - 1 => sqrt(timeGrid[i + 1] - timeGrid[i]))
  }

  /** The bridged increments' matrix A: the bridge differenced along time, each row over the square
      root of its interval. The rows are orthonormal, so A keeps independent normals independent
      and standard. `timeGrid` starts at 0. */
  method BridgeIncrementsMatrix(timeGrid: seq<real>, sqrt: real -> real)
    returns (A: seq<seq<real>>, ghost steps: seq<Step>)
    requires |timeGrid| > 1 && timeGrid[0] == 0.0 && IsSqrt(sqrt)
    requires forall i, j :: 0 <= i < j < |timeGrid| ==> timeGrid[i] < timeGrid[j]
    ensures |A| == |steps| == |timeGrid| - 1 && (forall i :: 0 <= i < |A| ==> |A[i]| == |A|)
    ensures IsPlan(timeGrid[1..], sqrt, steps) && Leftmost(steps)
    ensures forall i :: 0 <= i < |A| ==>
              ScalesTo(VecOf(A[i]), IntervalRoots(timeGrid, sqrt)[i], IncrementRow(Replay(steps), i), |A|)
    ensures forall i, j :: 0 <= i < |A| && 0 <= j < |A| ==>
              Dot(VecOf(A[i]), VecOf(A[j]), |A|) == if i == j then 1.0 else 0.0
  {
    var times, roots := timeGrid[1..], IntervalRoots(timeGrid, sqrt);
    var B;
    B, steps := BuildBridgeMatrix(times, sqrt);
    RootsOfIntervals(timeGrid, sqrt);
    A := DifferenceAndStandardize(B, Replay(steps), times, roots);
  }

  method DifferenceAndStandardize(B: array2<real>, ghost M: Mat, ghost times: seq<real>, roots: seq<real>)
    returns (A: seq<seq<real>>)
    requires Increasing(times) && AreRoots(times, roots) && B.Length0 == B.Length1 == |times| && Agrees(B, M)
    requires forall r, s :: 0 <= r < |times| && 0 <= s < |times| ==>
               Dot(VecOf(ArrayRow(B, r)), VecOf(ArrayRow(B, s)), |times|) == Min(times[r], times[s])
    ensures |A| == |times| && forall i :: 0 <= i < |A| ==> |A[i]| == |A|
    ensures forall i :: 0 <= i < |A| ==> ScalesTo(VecOf(A[i]), roots[i], IncrementRow(M, i), |A|)
    ensures forall i, j :: 0 <= i < |A| && 0 <= j < |A| ==>
              Dot(VecOf(A[i]), VecOf(A[j]), |A|) == if i == j then 1.0 else 0.0
  {
    A := StandardizedIncrements(B, roots);
    AgreesCovariance(B, M, times);
    OrthonormalRows(B, M, times, roots, A);
  }

  lemma OrthonormalRows(B: array2<real>, M: Mat, times: seq<real>, roots: seq<real>, A: seq<seq<real>>)
    requires Increasing(times) && HasBrownianCovariance(M, times) && AreRoots(times, roots)
    requires B.Length0 == B.Length1 == |times| && Agrees(B, M) && A == StandardizedIncrements(B, roots)
    ensures forall i :: 0 <= i < |A| ==> ScalesTo(VecOf(A[i]), roots[i], IncrementRow(M, i), |A|)
    ensures forall i, j :: 0 <= i < |A| && 0 <= j < |A| ==>
              Dot(VecOf(A[i]), VecOf(A[j]), |A|) == if i == j then 1.0 else 0.0
  {
    forall i | 0 <= i < |A| ensures ScalesTo(VecOf(A[i]), roots[i], IncrementRow(M, i), |A|) {
      StandardizedRow(B, M, roots, A, i);
    }
    forall i, j | 0 <= i < |A| && 0 <= j < |A|
      ensures Dot(VecOf(A[i]), VecOf(A[j]), |A|) == if i == j then 1.0 else 0.0
    {
      OrthonormalPair(M, times, VecOf(A[i]), VecOf(A[j]), roots[i], roots[j], i, j);
    }
  }

  lemma RootsOfIntervals(timeGrid: seq<real>, sqrt: real -> real)
    requires |timeGrid| > 1 && timeGrid[0] == 0.0 && IsSqrt(sqrt)
    requires forall i, j :: 0 <= i < j < |timeGrid| ==> timeGrid[i] < timeGrid[j]
    ensures AreRoots(timeGrid[1..], IntervalRoots(timeGrid, sqrt))
  {
    var times, roots := timeGrid[1..], IntervalRoots(timeGrid, sqrt);
    forall i | 0 <= i < |times| ensures IsRoot(roots[i], times[i] - LeftTime(times, i)) {
      assert times[i] - LeftTime(times, i) == timeGrid[i + 1] - timeGrid[i];
      PositiveRoot(sqrt, timeGrid[i + 1] - timeGrid[i]);
    }
  }

  lemma PositiveRoot(sqrt: real -> real, d: real)
    requires IsSqrt(sqrt) && d > 0.0
    ensures IsRoot(sqrt(d), d)
  {
  }

  ghost predicate IsRoot(r: real, d: real) {
    r > 0.0 && r * r == d
  }

  ghost predicate AreRoots(times: seq<real>, roots: seq<real>) {
    && |roots| == |times|
    && forall i :: 0 <= i < |times| ==> IsRoot(roots[i], times[i] - LeftTime(times, i))
  }

  /** `v` times `p` is `x` on the first `n` entries. */
  ghost predicate ScalesTo(v: Vec, p: real, x: Vec, n: nat) {
    forall c :: 0 <= c < n ==> x(c) == Lin(p, v(c), 0.0, 0.0)
  }

  lemma StandardizedRow(B: array2<real>, M: Mat, roots: seq<real>, A: seq<seq<real>>, i: nat)
    requires B.Length0 == B.Length1 == |roots| && Agrees(B, M)
    requires (forall i :: 0 <= i < |roots| ==> roots[i] != 0.0) && A == StandardizedIncrements(B, roots)
    requires i < |A|
    ensures ScalesTo(VecOf(A[i]), roots[i], IncrementRow(M, i), |A|)
  {
    var x := DifferencedRow(B, i);
    assert A[i] == DividedRow(x, roots[i]);
    forall c | 0 <= c < |A| ensures VecOf(x)(c) == IncrementRow(M, i)(c) {
      IncrementEntry(M, i, c);
    }
    ScalesToExt(VecOf(A[i]), roots[i], VecOf(x), IncrementRow(M, i), |A|);
  }

  lemma ScalesToExt(v: Vec, p: real, x: Vec, y: Vec, n: nat)
    requires ScalesTo(v, p, x, n) && forall c :: 0 <= c < n ==> x(c) == y(c)
    ensures ScalesTo(v, p, y, n)
  {
  }

  lemma AgreesCovariance(B: array2<real>, M: Mat, times: seq<real>)
    requires B.Length0 == B.Length1 == |times| && Agrees(B, M)
    requires forall r, s :: 0 <= r < |times| && 0 <= s < |times| ==>
               Dot(VecOf(ArrayRow(B, r)), VecOf(ArrayRow(B, s)), |times|) == Min(times[r], times[s])
    ensures HasBrownianCovariance(M, times)
  {
    forall r: nat, s: nat | r < |times| && s < |times|
      ensures Dot(RowOf(M, r), RowOf(M, s), |times|) == Min(times[r], times[s])
    {
      DotExt(VecOf(ArrayRow(B, r)), VecOf(ArrayRow(B, s)), RowOf(M, r), RowOf(M, s), |times|);
    }
  }

  lemma OrthonormalPair(M: Mat, times: seq<real>, u: Vec, v: Vec, p: real, q: real, i: nat, j: nat)
    requires Increasing(times) && HasBrownianCovariance(M, times) && i < |times| && j < |times| && (i == j ==> p == q)
    requires IsRoot(p, times[i] - LeftTime(times, i)) && q > 0.0
    requires ScalesTo(u, p, IncrementRow(M, i), |times|) && ScalesTo(v, q, IncrementRow(M, j), |times|)
    ensures Dot(u, v, |times|) == if i == j then 1.0 else 0.0
  {
    IncrementDot(M, times, i, j);
    DividedPair(u, v, IncrementRow(M, i), IncrementRow(M, j), p, q, times[i] - LeftTime(times, i), i == j, |times|);
  }

  lemma DividedPair(u: Vec, v: Vec, x: Vec, y: Vec, p: real, q: real, d: real, same: bool, n: nat)
    requires ScalesTo(u, p, x, n) && ScalesTo(v, q, y, n) && IsRoot(p, d) && q > 0.0 && (same ==> p == q)
    requires Dot(x, y, n) == if same then d else 0.0
    ensures Dot(u, v, n) == if same then 1.0 else 0.0
  {
    ScaledDot(u, v, x, y, p, q, n);
    OneOrNone(Dot(u, v, n), p, q, d, same);
  }

  lemma ScaledDot(u: Vec, v: Vec, x: Vec, y: Vec, p: real, q: real, n: nat)
    requires ScalesTo(u, p, x, n) && ScalesTo(v, q, y, n)
    ensures Dot(x, y, n) == q * (p * Dot(u, v, n))
  {
    DotOfMultiple(x, v, q, y, n);
    DotSymmetric(x, v, n);
    DotOfMultiple(v, u, p, x, n);
    DotSymmetric(v, u, n);
  }

  lemma DotOfMultiple(x: Vec, v: Vec, q: real, y: Vec, n: nat)
    requires ScalesTo(v, q, y, n)
    ensures Dot(x, y, n) == q * Dot(x, v, n)
  {
    DotLinear(x, q, v, 0.0, ZeroVec(), y, n);
  }

  lemma OneOrNone(x: real, p: real, q: real, d: real, same: bool)
    requires IsRoot(p, d) && q > 0.0 && (same ==> p == q)
    requires q * (p * x) == if same then d else 0.0
    ensures x == if same then 1.0 else 0.0
  {
    assert (p * q) * x == q * (p * x);
    assert p * q > 0.0;
    if same {
      Cancel(x, 1.0, p * q);
    } else {
      Cancel(x, 0.0, p * q);
    }
  }

  lemma IncrementEntry(M: Mat, i: int, c: int)
    requires 0 <= i
    ensures IncrementRow(M, i)(c) == M(i, c) - (if i == 0 then 0.0 else M(i - 1, c))
  {
  }
}
