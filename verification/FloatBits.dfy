/** The exponent of a float read from its 32-bit words, and powers of two built from theirs
    (engine/precision/grid.py). Words are naturals below 2^32: masking the sign is the remainder by
    2^31, a shift right the quotient by a power of two. Layouts are those of section 3.4 of
    IEEE 754-2019. */
module FloatBits {
  import opened Powers

  type Word = w: int | 0 <= w < 0x1_0000_0000

  // ----- the count of leading zeros -----------------------------------------------------------

  /** XLA's `clz` of a 32-bit word: 32 for zero. */
  function Clz(w: Word): (n: int)
    ensures 0 <= n <= 32 && (n == 32 <==> w == 0)
    ensures w != 0 ==> IntPow2(31 - n) <= w < IntPow2(32 - n)
  {
    WordBound();
    ClzFrom(w, WORD_BITS)
  }

  const WORD_BITS := 32

  lemma WordBound()
    ensures IntPow2(WORD_BITS) == 0x1_0000_0000
  {
    WordBounds();
  }

  lemma WordBounds()
    ensures IntPow2(32) == 0x1_0000_0000 && IntPow2(31) == 0x8000_0000
    ensures IntPow2(23) == 0x80_0000 && IntPow2(20) == 0x10_0000
    ensures IntPow2(52) == 0x10_0000_0000_0000
  {
    assert IntPow2(8) == 256;
    assert IntPow2(16) == 0x1_0000;
    assert IntPow2(20) == 0x10_0000;
    assert IntPow2(23) == 0x80_0000;
    assert IntPow2(31) == 0x8000_0000 by {
      assert IntPow2(27) == 0x800_0000;
    }
    assert IntPow2(36) == 16 * 0x1_0000_0000;
    assert IntPow2(40) == 256 * 0x1_0000_0000;
    assert IntPow2(44) == 0x1000 * 0x1_0000_0000;
    assert IntPow2(48) == 0x1_0000 * 0x1_0000_0000;
  }

  /** Leading zeros within the lowest `width` bits, the bits above already seen to be zero. */
  function ClzFrom(w: Word, width: nat): (r: int)
    requires width <= 32 && w < IntPow2(width)
    ensures 32 - width <= r <= 32 && (r == 32 <==> w == 0)
    ensures w != 0 ==> IntPow2(31 - r) <= w < IntPow2(32 - r)
  {
    if width == 0 then 32 else if w >= IntPow2(width - 1) then 32 - width else ClzFrom(w, width - 1)
  }

  /** A whole number of 2^s, by its leading bit. */
  lemma WholeInBinade(k: int, a: nat, s: int)
    requires IntPow2(a) <= k < IntPow2(a + 1)
    ensures InBinade(Times(k as real, Pow2(s)), a + 1 + s)
    ensures Times(k as real, Pow2(s)) > 0.0
  {
    Pow2Add(a, s);
    Pow2Add(a + 1, s);
    Pow2IsInt(a);
    Pow2IsInt(a + 1);
    Scaled(IntPow2(a) as real, k as real, IntPow2(a + 1) as real, Pow2(s));
  }

  lemma Scaled(lo: real, k: real, hi: real, p: real)
    requires 0.0 < lo <= k < hi && p > 0.0
    ensures Times(lo, p) <= Times(k, p) < Times(hi, p) && Times(k, p) > 0.0
  {
  }

  // ----- float32 ------------------------------------------------------------------------------

  predicate Negative(w: Word) {
    w >= 0x8000_0000
  }

  function Masked(w: Word): Word {
    w % 0x8000_0000
  }

  function Signed(negative: bool, x: real): real {
    if negative then -x else x
  }

  predicate Finite32(bits: Word) {
    Masked(bits) / 0x80_0000 != 0xff
  }

  /** The field a value is spaced by: subnormals share the spacing of the first normals. */
  function UnitField(field: int): int {
    if field == 0 then 1 else field
  }

  ghost function Magnitude32(field: int, fraction: int): real {
    var whole := if field == 0 then fraction else 0x80_0000 + fraction;
    Times(whole as real, Pow2(UnitField(field) - 150))
  }

  /** The number a binary32 encoding stands for. */
  ghost function Value32(bits: Word): real
    requires Finite32(bits)
  {
    Signed(Negative(bits), Magnitude32(Masked(bits) / 0x80_0000, Masked(bits) % 0x80_0000))
  }

  /** The sign bit alone negates. */
  lemma SignBitNegates(bits: Word)
    requires bits < 0x8000_0000 && Finite32(bits)
    ensures Finite32(bits + 0x8000_0000)
    ensures 0.0 <= Value32(bits) == -Value32(bits + 0x8000_0000)
  {
    assert Masked(bits + 0x8000_0000) == Masked(bits) == bits;
    hide Pow2;
    NonnegativeMagnitude(Masked(bits) / 0x80_0000, Masked(bits) % 0x80_0000);
  }

  lemma NonnegativeMagnitude(field: int, fraction: int)
    requires 0 <= field && 0 <= fraction
    ensures Magnitude32(field, fraction) >= 0.0
  {
  }

  lemma SignKeepsBinade(negative: bool, m: real, e: int)
    requires m > 0.0 && InBinade(m, e)
    ensures Signed(negative, m) != 0.0 && Exponent(Signed(negative, m)) == e
  {
    ExponentIs(Signed(negative, m), e);
  }

  /** `_frexp_exponent` of a float32. */
  function Frexp32(bits: Word): int {
    var masked := Masked(bits);
    var field := masked / 0x80_0000;
    var subnormal := -117 - Clz(masked % 0x80_0000);
    var exponent := if field == 0 then subnormal else field - 126;
    if field == 0xff || masked == 0 then 0 else exponent
  }

  lemma Binade32(field: int, fraction: Word)
    requires 0 <= field && fraction < 0x80_0000 && (field > 0 || fraction > 0)
    ensures InBinade(Magnitude32(field, fraction), if field == 0 then -117 - Clz(fraction) else field - 126)
    ensures Magnitude32(field, fraction) > 0.0
  {
    WordBounds();
    assert IntPow2(24) == 0x100_0000;
    hide IntPow2, Times;
    if field == 0 {
      WholeInBinade(fraction, 31 - Clz(fraction), UnitField(field) - 150);
    } else {
      WholeInBinade(0x80_0000 + fraction, 23, field - 150);
    }
  }

  lemma NoMagnitude(field: int, fraction: int)
    requires field == 0 && fraction == 0
    ensures Magnitude32(field, fraction) == 0.0
  {
  }

  lemma FieldOrFraction(masked: nat, unit: nat)
    requires unit > 0
    ensures masked > 0 <==> masked / unit > 0 || masked % unit > 0
    ensures 0 <= masked / unit && 0 <= masked % unit < unit
  {
  }

  /** For every finite encoding, subnormals included: the exponent of its value. */
  lemma Frexp32IsExponent(bits: Word)
    requires Finite32(bits)
    ensures Frexp32(bits) == Exponent(Value32(bits))
    ensures Value32(bits) == 0.0 <==> Masked(bits) == 0
  {
    var field, fraction := Masked(bits) / 0x80_0000, Masked(bits) % 0x80_0000;
    if Masked(bits) == 0 {
      NoMagnitude(field, fraction);
    } else {
      FieldOrFraction(Masked(bits), 0x80_0000);
      Binade32(field, fraction);
      SignKeepsBinade(Negative(bits), Magnitude32(field, fraction), Frexp32(bits));
    }
  }

  /** `pow2` in float32: the biased exponent shifted into its field. */
  function Pow2Bits32(k: int): int {
    (k + 127) * 0x80_0000
  }

  lemma Pow2Bits32Is(k: int)
    requires -126 <= k <= 127
    ensures 0 <= Pow2Bits32(k) < 0x1_0000_0000 && Finite32(Pow2Bits32(k))
    ensures Value32(Pow2Bits32(k)) == Pow2(k)
  {
    var bits := Pow2Bits32(k);
    assert Masked(bits) == bits && bits / 0x80_0000 == k + 127 && bits % 0x80_0000 == 0;
    WordBounds();
    LoneBit(0x80_0000, 23, k);
  }

  lemma LoneBit(bit: int, n: nat, k: int)
    requires bit == IntPow2(n)
    ensures Times(bit as real, Pow2(k - n)) == Pow2(k)
  {
    Pow2Add(n, k - n);
    Pow2IsInt(n);
  }

  // ----- float64, in two words ----------------------------------------------------------------

  predicate Finite64(high: Word) {
    Masked(high) / 0x10_0000 != 0x7ff
  }

  ghost function Magnitude64(field: int, fraction: int): real {
    var whole := if field == 0 then fraction else 0x10_0000_0000_0000 + fraction;
    Times(whole as real, Pow2(UnitField(field) - 1075))
  }

  /** The number a binary64 encoding stands for, its low and high words. */
  ghost function Value64(low: Word, high: Word): real
    requires Finite64(high)
  {
    Signed(Negative(high), Magnitude64(Masked(high) / 0x10_0000, (Masked(high) % 0x10_0000) * 0x1_0000_0000 + low))
  }

  /** `_frexp_exponent` of a float64. */
  function Frexp64(low: Word, high: Word): int {
    var masked := Masked(high);
    var field, fraction := masked / 0x10_0000, masked % 0x10_0000;
    var exponent := if field == 0 then SubnormalExponent(low, fraction) else field - 1022;
    if field == 0x7ff || (masked == 0 && low == 0) then 0 else exponent
  }

  function SubnormalExponent(low: Word, fraction: Word): int {
    if fraction != 0 then -1010 - Clz(fraction) else -1042 - Clz(low)
  }

  /** A high word's leading bit is the pair's. */
  lemma HighWordLeads(fraction: int, low: Word, a: nat)
    requires IntPow2(a) <= fraction < IntPow2(a + 1)
    ensures IntPow2(a + 32) <= fraction * 0x1_0000_0000 + low < IntPow2(a + 33)
  {
    WordBounds();
    IntPow2Add(a, 32);
    IntPow2Add(a + 1, 32);
  }

  lemma {:induction false} IntPow2Add(a: nat, b: nat)
    ensures IntPow2(a + b) == IntPow2(a) * IntPow2(b)
  {
    if b > 0 {
      IntPow2Add(a, b - 1);
    }
  }

  lemma SubnormalMagnitude(field: int, whole: int, a: nat)
    requires field == 0 && IntPow2(a) <= whole < IntPow2(a + 1)
    ensures InBinade(Magnitude64(field, whole), a - 1073)
    ensures Magnitude64(field, whole) > 0.0
  {
    WholeInBinade(whole, a, UnitField(field) - 1075);
  }

  lemma HighSubnormal(field: int, low: Word, fraction: Word, whole: int)
    requires field == 0 && whole == fraction * 0x1_0000_0000 + low && fraction != 0
    ensures InBinade(Magnitude64(field, whole), -1010 - Clz(fraction))
    ensures Magnitude64(field, whole) > 0.0
  {
    var a := 31 - Clz(fraction);
    HighWordLeads(fraction, low, a);
    assert IntPow2(a + 32) <= whole < IntPow2(a + 33);
    SubnormalMagnitude(field, whole, a + 32);
  }

  lemma NoMagnitude64(field: int, whole: int)
    requires field == 0 && whole == 0
    ensures Magnitude64(field, whole) == 0.0
  {
  }

  lemma NormalMagnitude(field: int, fraction: int)
    requires field > 0 && 0 <= fraction < 0x10_0000_0000_0000
    ensures InBinade(Magnitude64(field, fraction), field - 1022)
    ensures Magnitude64(field, fraction) > 0.0
  {
    WordBounds();
    WholeInBinade(0x10_0000_0000_0000 + fraction, 52, field - 1075);
  }

  lemma Binade64(field: int, low: Word, fraction: Word, whole: int)
    requires 0 <= field && whole == fraction * 0x1_0000_0000 + low && fraction < 0x10_0000
    requires field > 0 || fraction > 0 || low > 0
    ensures InBinade(Magnitude64(field, whole), if field == 0 then SubnormalExponent(low, fraction) else field - 1022)
    ensures Magnitude64(field, whole) > 0.0
  {
    if field > 0 {
      NormalMagnitude(field, whole);
    } else if fraction > 0 {
      HighSubnormal(field, low, fraction, whole);
    } else {
      SubnormalMagnitude(field, low, 31 - Clz(low));
    }
  }

  lemma FieldsExponent(negative: bool, field: int, low: Word, fraction: Word, whole: int, e: int)
    requires 0 <= field && whole == fraction * 0x1_0000_0000 + low && fraction < 0x10_0000
    requires e == if field == 0 && fraction == 0 && low == 0 then 0
                  else if field == 0 then SubnormalExponent(low, fraction) else field - 1022
    ensures Exponent(Signed(negative, Magnitude64(field, whole))) == e
    ensures Signed(negative, Magnitude64(field, whole)) == 0.0 <==> field == 0 && fraction == 0 && low == 0
  {
    if field == 0 && fraction == 0 && low == 0 {
      NoMagnitude64(field, whole);
    } else {
      Binade64(field, low, fraction, whole);
      SignKeepsBinade(negative, Magnitude64(field, whole), e);
    }
  }

  lemma Frexp64IsExponent(low: Word, high: Word)
    requires Finite64(high)
    ensures Frexp64(low, high) == Exponent(Value64(low, high))
    ensures Value64(low, high) == 0.0 <==> Masked(high) == 0 && low == 0
  {
    var field, fraction := Masked(high) / 0x10_0000, Masked(high) % 0x10_0000;
    FieldOrFraction(Masked(high), 0x10_0000);
    FieldsExponent(Negative(high), field, low, fraction, fraction * 0x1_0000_0000 + low, Frexp64(low, high));
  }

  /** `pow2` in float64: the high word; the low one is 0. */
  function Pow2High64(k: int): int {
    (k + 1023) * 0x10_0000
  }

  lemma Pow2High64Is(k: int)
    requires -1022 <= k <= 1023
    ensures 0 <= Pow2High64(k) < 0x1_0000_0000 && Finite64(Pow2High64(k))
    ensures Value64(0, Pow2High64(k)) == Pow2(k)
  {
    var high := Pow2High64(k);
    assert Masked(high) == high && high / 0x10_0000 == k + 1023 && high % 0x10_0000 == 0;
    WordBounds();
    LoneBit(0x10_0000_0000_0000, 52, k);
  }
}
