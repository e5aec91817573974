/** The time covered by a list of intervals, swept in order (demos/benchmark_reporting.py,
    union_seconds). Instants are whole nanoseconds. */
module IntervalUnion {

  /** [left, right): no instant where right is not past left. */
  datatype Interval = Interval(left: int, right: int)

  function Larger(a: int, b: int): int {
    if a >= b then a else b
  }

  function Smaller(a: int, b: int): int {
    if a <= b then a else b
  }

  predicate Holds(i: Interval, t: int) {
    i.left <= t < i.right
  }

  /** Some interval of the list holds the instant. */
  predicate HeldBy(s: seq<Interval>, t: int) {
    exists i :: i in s && Holds(i, t)
  }

  /** The instants of [start, end) that some interval holds. */
  function Covered(intervals: seq<Interval>, start: int, end: int): set<int> {
    set t | start <= t < end && HeldBy(intervals, t)
  }

  function Instants(a: int, b: int): set<int> {
    set t | a <= t < b && Holds(Interval(a, b), t)
  }

  lemma {:induction false} InstantsCount(a: int, b: int)
    ensures |Instants(a, b)| == Larger(0, b - a)
    decreases b - a
  {
    if a < b {
      InstantsCount(a, b - 1);
      assert Instants(a, b) == Instants(a, b - 1) + {b - 1};
    } else {
      assert Instants(a, b) == {};
    }
  }

  // ----- clipping and sorting -----------------------------------------------------------------

  /** The part within [start, end) of each interval that reaches into it. */
  function Clipped(intervals: seq<Interval>, start: int, end: int): seq<Interval> {
    if intervals == [] then []
    else
      var i, rest := intervals[|intervals| - 1], Clipped(intervals[..|intervals| - 1], start, end);
      if i.right > start && i.left < end then rest + [Interval(Larger(i.left, start), Smaller(i.right, end))]
      else rest
  }

  predicate Before(a: Interval, b: Interval) {
    a.left < b.left || (a.left == b.left && a.right <= b.right)
  }

  predicate Ordered(s: seq<Interval>) {
    forall i, j :: 0 <= i < j < |s| ==> Before(s[i], s[j])
  }

  lemma PrependOrdered(x: Interval, s: seq<Interval>)
    requires Ordered(s) && forall y :: y in s ==> Before(x, y)
    ensures Ordered([x] + s)
  {
    forall i, j | 0 <= i < j < |[x] + s| ensures Before(([x] + s)[i], ([x] + s)[j]) {
      assert ([x] + s)[j] == s[j - 1] && s[j - 1] in s;
      if i > 0 {
        assert ([x] + s)[i] == s[i - 1];
      }
    }
  }

  lemma HeadFirst(s: seq<Interval>)
    requires Ordered(s) && s != []
    ensures Ordered(s[1..]) && forall y :: y in s ==> Before(s[0], y)
  {
  }

  function Insert(x: Interval, s: seq<Interval>): (r: seq<Interval>)
    requires Ordered(s)
    ensures Ordered(r) && forall y :: y in r <==> y in s || y == x
  {
    if s == [] then [x]
    else
      HeadFirst(s);
      if Before(x, s[0]) then
        PrependOrdered(x, s);
        [x] + s
      else
        var r := Insert(x, s[1..]);
        PrependOrdered(s[0], r);
        [s[0]] + r
  }

  /** `sorted`. */
  function SortedIntervals(s: seq<Interval>): (r: seq<Interval>)
    ensures Ordered(r) && forall y :: y in r <==> y in s
  {
    if s == [] then [] else Insert(s[|s| - 1], SortedIntervals(s[..|s| - 1]))
  }

  lemma {:induction false} ClippedHolds(intervals: seq<Interval>, start: int, end: int, t: int)
    ensures HeldBy(Clipped(intervals, start, end), t) <==> start <= t < end && HeldBy(intervals, t)
  {
    if intervals != [] {
      var init, i := intervals[..|intervals| - 1], intervals[|intervals| - 1];
      assert intervals == init + [i];
      ClippedHolds(init, start, end, t);
      HeldNext(init, i, t);
      HeldNext(Clipped(init, start, end), Interval(Larger(i.left, start), Smaller(i.right, end)), t);
    }
  }

  lemma HeldNext(s: seq<Interval>, i: Interval, t: int)
    ensures HeldBy(s + [i], t) <==> HeldBy(s, t) || Holds(i, t)
  {
    assert i in s + [i];
    assert forall x :: x in s + [i] <==> x in s || x == i;
  }

  lemma SortingKeeps(s: seq<Interval>, t: int)
    ensures HeldBy(SortedIntervals(s), t) <==> HeldBy(s, t)
  {
  }

  // ----- the sweep ----------------------------------------------------------------------------

  /** `previous` is the furthest end so far, from `start` on. */
  ghost predicate Furthest(s: seq<Interval>, start: int, previous: int) {
    && (forall i :: i in s ==> i.right <= previous)
    && previous >= start
    && (previous == start || exists i :: i in s && i.right == previous)
  }

  /** In order of their left ends, an interval adds the instants from the furthest end on. */
  lemma SweepAdds(s: seq<Interval>, x: Interval, start: int, end: int, previous: int)
    requires Furthest(s, start, previous) && x.left >= start && x.right <= end
    requires forall i :: i in s ==> i.left <= x.left
    ensures Covered(s + [x], start, end) == Covered(s, start, end) + Instants(Larger(x.left, previous), x.right)
    ensures Covered(s, start, end) !! Instants(Larger(x.left, previous), x.right)
  {
    forall t ensures t in Covered(s + [x], start, end) <==>
                     t in Covered(s, start, end) || t in Instants(Larger(x.left, previous), x.right)
    {
      HeldNext(s, x, t);
    }
  }

  lemma FurthestNext(s: seq<Interval>, x: Interval, start: int, previous: int)
    requires Furthest(s, start, previous)
    ensures Furthest(s + [x], start, Larger(previous, x.right))
  {
    assert x in s + [x];
    assert forall i :: i in s + [x] ==> i in s || i == x;
    assert forall i :: i in s ==> i in s + [x];
  }

  /** One step of the sweep. */
  lemma NextSwept(s: seq<Interval>, x: Interval, start: int, end: int, total: int, previous: int)
    requires Furthest(s, start, previous) && x.left >= start && x.right <= end
    requires forall i :: i in s ==> i.left <= x.left
    requires total == |Covered(s, start, end)|
    ensures total + Larger(0, x.right - Larger(x.left, previous)) == |Covered(s + [x], start, end)|
    ensures Furthest(s + [x], start, Larger(previous, x.right))
  {
    SweepAdds(s, x, start, end, previous);
    InstantsCount(Larger(x.left, previous), x.right);
    FurthestNext(s, x, start, previous);
  }

  lemma PrefixBefore(s: seq<Interval>, i: nat)
    requires Ordered(s) && i < |s|
    ensures s[..i + 1] == s[..i] + [s[i]]
    ensures forall x :: x in s[..i] ==> x.left <= s[i].left
  {
    forall x | x in s[..i] ensures x.left <= s[i].left {
      var h :| 0 <= h < i && s[..i][h] == x;
      assert Before(s[h], s[i]);
    }
  }

  /** `union_seconds`, in nanoseconds: the number of instants of [start, end) that at least one interval
      holds, however they overlap, nest, repeat or reach outside. */
  method UnionNanoseconds(intervals: seq<Interval>, start: int, end: int) returns (total: int)
    ensures total == |Covered(intervals, start, end)|
  {
    total := 0;
    var previous := start;
    var swept := SortedIntervals(Clipped(intervals, start, end));
    ClippedBounds(intervals, start, end);
    assert Covered([], start, end) == {};
    for i := 0 to |swept|
      invariant total == |Covered(swept[..i], start, end)|
      invariant Furthest(swept[..i], start, previous)
    {
      var x := swept[i];
      assert x in swept;
      PrefixBefore(swept, i);
      NextSwept(swept[..i], x, start, end, total, previous);
      total := total + Larger(0, x.right - Larger(x.left, previous));
      previous := Larger(previous, x.right);
    }
    assert swept[..|swept|] == swept;
    SweptIsCovered(intervals, start, end);
  }

  lemma {:induction false} ClippedBounds(intervals: seq<Interval>, start: int, end: int)
    ensures forall x :: x in Clipped(intervals, start, end) ==> x.left >= start && x.right <= end
  {
    if intervals != [] {
      ClippedBounds(intervals[..|intervals| - 1], start, end);
    }
  }

  lemma SweptIsCovered(intervals: seq<Interval>, start: int, end: int)
    ensures Covered(SortedIntervals(Clipped(intervals, start, end)), start, end) == Covered(intervals, start, end)
  {
    forall t ensures t in Covered(SortedIntervals(Clipped(intervals, start, end)), start, end) <==>
                     t in Covered(intervals, start, end)
    {
      SortingKeeps(Clipped(intervals, start, end), t);
      ClippedHolds(intervals, start, end, t);
    }
  }
}
