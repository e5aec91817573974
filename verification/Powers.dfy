/** Powers of two as reals, and the binade of a real. */
module Powers {

  function Pow2(e: int): (p: real)
    ensures p > 0.0
    decreases if e < 0 then -e else e
  {
    if e == 0 then 1.0 else if e > 0 then 2.0 * Pow2(e - 1) else Pow2(e + 1) / 2.0
  }

  lemma Pow2Next(e: int)
    ensures Pow2(e + 1) == 2.0 * Pow2(e)
  {
  }

  /** A product, named so that it is matched by name and not by arithmetic. */
  function Times(a: real, b: real): real {
    a * b
  }

  lemma TimesGrows(a: real, x: real, y: real)
    requires a > 0.0 && x < y
    ensures Times(a, x) < Times(a, y)
  {
    assert a * (y - x) > 0.0;
  }

  lemma {:induction false} Pow2Add(a: int, b: int)
    ensures Pow2(a + b) == Times(Pow2(a), Pow2(b))
    decreases if b < 0 then -b else b
  {
    if b > 0 {
      Pow2Add(a, b - 1);
      Pow2Next(a + b - 1);
      Pow2Next(b - 1);
      DoubleProduct(Pow2(a), Pow2(b - 1), Pow2(b));
    } else if b < 0 {
      Pow2Add(a, b + 1);
      Pow2Next(a + b);
      Pow2Next(b);
      DoubleProduct(Pow2(a), Pow2(b), Pow2(b + 1));
    } else {
      assert Times(Pow2(a), 1.0) == Pow2(a);
    }
  }

  lemma DoubleProduct(p: real, q: real, q': real)
    requires q' == 2.0 * q
    ensures Times(p, q') == 2.0 * Times(p, q)
  {
    assert p * (2.0 * q) == 2.0 * (p * q);
  }

  lemma {:induction false} Pow2Grows(a: int, b: int)
    requires a < b
    ensures Pow2(a) < Pow2(b)
    ensures 2.0 * Pow2(a) <= Pow2(b)
    decreases b - a
  {
    Pow2Next(b - 1);
    if a < b - 1 {
      Pow2Grows(a, b - 1);
    }
  }

  lemma Pow2Inverse(e: int)
    ensures Times(Pow2(e), Pow2(-e)) == 1.0
  {
    Pow2Add(e, -e);
  }

  function IntPow2(n: nat): (p: int)
    ensures p > 0
  {
    if n == 0 then 1 else 2 * IntPow2(n - 1)
  }

  lemma {:induction false} Pow2IsInt(n: nat)
    ensures Pow2(n) == IntPow2(n) as real
  {
    if n > 0 {
      Pow2IsInt(n - 1);
    }
  }

  /** A larger power is a whole number of smaller ones. */
  lemma MultipleOf(k: int, a: int, b: int) returns (j: int)
    requires a <= b
    ensures Times(k as real, Pow2(b)) == Times(j as real, Pow2(a))
    ensures j == k * IntPow2(b - a)
  {
    var p := IntPow2(b - a);
    j := k * p;
    Pow2Add(b - a, a);
    Pow2IsInt(b - a);
    CastMul(k, p);
    Regroup(k as real, p as real, Pow2(a), Pow2(b), j as real);
  }

  lemma Regroup(k: real, p: real, c: real, b: real, j: real)
    requires b == Times(p, c) && j == k * p
    ensures Times(k, b) == Times(j, c)
  {
    assert k * (p * c) == (k * p) * c;
  }

  lemma {:induction false} CastMul(a: int, b: nat)
    ensures a as real * b as real == (a * b) as real
  {
    if b > 0 {
      CastMul(a, b - 1);
      assert a as real * b as real == a as real * (b - 1) as real + a as real;
      assert a * b == a * (b - 1) + a;
    }
  }

  function Abs(x: real): real {
    if x < 0.0 then -x else x
  }

  /** |x| is in [2^(e-1), 2^e). */
  predicate InBinade(x: real, e: int) {
    Pow2(e - 1) <= Abs(x) < Pow2(e)
  }

  /** The exponent of a magnitude of at least a half ... */
  function UpExponent(a: real): (e: int)
    requires a >= 0.5
    ensures InBinade(a, e)
    decreases a.Floor
  {
    if a < 1.0 then
      assert Pow2(-1) == 0.5;
      0
    else
      var e := UpExponent(a / 2.0);
      Pow2Next(e - 1);
      Pow2Next(e);
      e + 1
  }

  /** ... and of one below 1. */
  function DownExponent(a: real): (e: int)
    requires 0.0 < a < 1.0
    ensures InBinade(a, e)
    decreases (1.0 / a).Floor
  {
    if a >= 0.5 then
      assert Pow2(-1) == 0.5;
      0
    else
      Doubled(a);
      var e := DownExponent(a * 2.0);
      Pow2Next(e - 1);
      Pow2Next(e - 2);
      e - 1
  }

  lemma Doubled(a: real)
    requires 0.0 < a < 0.5
    ensures (1.0 / (a * 2.0)).Floor < (1.0 / a).Floor
  {
    var b := 1.0 / a;
    assert b * a == 1.0;
    assert b > 2.0 by {
      assert b <= 2.0 ==> b * a <= 2.0 * a;
    }
    assert 1.0 / (a * 2.0) == b / 2.0 by {
      assert (b / 2.0) * (a * 2.0) == b * a;
    }
  }

  /** The exponent `frexp` gives: the binade of `x`, and 0 for 0. */
  function Exponent(x: real): (e: int)
    ensures x == 0.0 ==> e == 0
    ensures x != 0.0 ==> InBinade(x, e)
  {
    if x == 0.0 then 0 else if Abs(x) < 1.0 then DownExponent(Abs(x)) else UpExponent(Abs(x))
  }

  /** A real has one binade. */
  lemma BinadeUnique(x: real, e: int, f: int)
    requires InBinade(x, e) && InBinade(x, f)
    ensures e == f
  {
    if e < f - 1 {
      Pow2Grows(e, f - 1);
    }
    if f < e - 1 {
      Pow2Grows(f, e - 1);
    }
  }

  lemma ExponentIs(x: real, e: int)
    requires InBinade(x, e)
    ensures Exponent(x) == e
  {
    BinadeUnique(x, e, Exponent(x));
  }

  /** Below a power of two, the exponent is at most its own. */
  lemma ExponentAtMost(x: real, e: int)
    requires Abs(x) < Pow2(e) && x != 0.0
    ensures Exponent(x) <= e
  {
    if e < Exponent(x) - 1 {
      Pow2Grows(e, Exponent(x) - 1);
    }
  }

  /** Scaling by a power of two moves the exponent by it. */
  lemma ExponentScaled(x: real, k: int)
    requires x != 0.0
    ensures Times(x, Pow2(k)) != 0.0 && Exponent(Times(x, Pow2(k))) == Exponent(x) + k
  {
    var e := Exponent(x);
    Pow2Add(e, k);
    Pow2Add(e - 1, k);
    ScaleBounds(Pow2(e - 1), Pow2(e), Pow2(k), x);
    assert InBinade(Times(x, Pow2(k)), e + k);
    ExponentIs(Times(x, Pow2(k)), e + k);
  }

  lemma ScaleBounds(lo: real, hi: real, p: real, x: real)
    requires p > 0.0 && lo <= Abs(x) < hi
    ensures Times(lo, p) <= Abs(Times(x, p)) < Times(hi, p)
    ensures Abs(Times(x, p)) == Times(Abs(x), p)
  {
  }
}
