/** A swaption helper's legs, its proRata corrections and model value, and the padding that stacks
    helpers of different lengths (engine/calibration/lgm.py). Curves, the normal CDF and the root finder
    are parameters. A helper's parallel arrays are modelled as sequences of coupons. */
module SwaptionHelpers {
  import opened LinearAlgebra
  import opened Powers
  import opened Sums
  import opened HullWhite
  import opened Wrappers

  datatype Fixed = Fixed(pay: real, accrual: real)

  /** `owner` is the fixed coupon a floating one is mapped to, -1 for none; `lambda2` its weight there,
      the rest going to the coupon before. */
  datatype Floating = Floating(pay: real, start: real, end: real, accrual: real, forecastStart: real,
                               forecastEnd: real, spanning: real, owner: int, lambda2: real)

  /** At the money; at the money in a stack, which marks it with a NaN; or struck at a rate. */
  datatype Strike = AtTheMoney | NotANumber | Struck(rate: real)

  /** `last` is the fixed coupon the notional is repaid with. */
  datatype Helper = Helper(fixed: seq<Fixed>, floating: seq<Floating>, last: nat, strike: Strike)

  predicate Valid(h: Helper) {
    0 < |h.floating| && h.last < |h.fixed|
  }

  datatype Curves = Curves(disc: Fn, index: Fn)

  ghost predicate Positive(c: Curves) {
    (forall t :: c.disc(t) > 0.0) && (forall t :: c.index(t) > 0.0)
  }

  /** A quotient of discount factors, annuities or their sums; a zero divisor is not modelled. */
  function Over(x: real, y: real): real {
    if y == 0.0 then 0.0 else x / y
  }

  // ----- legs ---------------------------------------------------------------------------------

  function FloatAmount(c: Curves, f: Floating): real {
    Times(Over(Over(c.index(f.forecastStart), c.index(f.forecastEnd)) - 1.0, f.spanning), f.accrual)
  }

  function FlatAmount(c: Curves, f: Floating): real {
    Over(c.disc(f.start), c.disc(f.end)) - 1.0
  }

  function Accrued(c: Curves, h: Helper): Entries {
    j => if 0 <= j < |h.fixed| then Times(c.disc(h.fixed[j].pay), h.fixed[j].accrual) else 0.0
  }

  function Paid(c: Curves, h: Helper): Entries {
    k => if 0 <= k < |h.floating| then Times(FloatAmount(c, h.floating[k]), c.disc(h.floating[k].pay)) else 0.0
  }

  function Annuity(c: Curves, h: Helper): real {
    Sum(Accrued(c, h), |h.fixed|)
  }

  function Forward(c: Curves, h: Helper): real {
    Over(Sum(Paid(c, h), |h.floating|), Annuity(c, h))
  }

  function StartDiscount(c: Curves, h: Helper): real
    requires Valid(h)
  {
    c.disc(h.floating[0].start)
  }

  /** A coupon forecast over the period it spans pays its accrual at the index curve's simple forward rate. */
  lemma CouponPaysForward(c: Curves, f: Floating, rate: real)
    requires c.index(f.forecastEnd) != 0.0 && f.spanning != 0.0
    requires c.index(f.forecastStart) == Times(c.index(f.forecastEnd), 1.0 + Times(rate, f.spanning))
    ensures FloatAmount(c, f) == Times(rate, f.accrual)
  {
    var q := Over(c.index(f.forecastStart), c.index(f.forecastEnd));
    assert q * c.index(f.forecastEnd) == c.index(f.forecastStart);
    Cancel(q, 1.0 + Times(rate, f.spanning), c.index(f.forecastEnd));
    var r := Over(q - 1.0, f.spanning);
    assert r * f.spanning == q - 1.0;
    Cancel(r, rate, f.spanning);
  }

  // ----- the proRata corrections --------------------------------------------------------------

  /** What a floating coupon is worth above its flat amount. */
  function Correction(c: Curves, f: Floating): real {
    Times(FloatAmount(c, f) - FlatAmount(c, f), c.disc(f.pay))
  }

  /** A floating coupon's weight on its owner, or on the fixed coupon before. */
  function Lambda(f: Floating, own: bool): real {
    if f.owner < 0 then 0.0 else if own then f.lambda2 else 1.0 - f.lambda2
  }

  function Weighted(c: Curves, f: Floating, own: bool): real {
    Times(Correction(c, f), Lambda(f, own))
  }

  /** The weighted corrections mapped to fixed coupon `j`. */
  function Mapped(c: Curves, floating: seq<Floating>, own: bool, j: int): Entries {
    k => if 0 <= k < |floating| && floating[k].owner == j then Weighted(c, floating[k], own) else 0.0
  }

  function SumMapped(c: Curves, h: Helper, own: bool, j: int): real {
    Sum(Mapped(c, h.floating, own, j), |h.floating|)
  }

  /** What the corrections add to fixed coupon `j`: sum2 of its own and sum1 of the next one's. */
  function MappedTo(c: Curves, h: Helper, j: int): real {
    SumMapped(c, h, true, j) + if j + 1 < |h.fixed| then SumMapped(c, h, false, j + 1) else 0.0
  }

  /** S_j. */
  function Amount(c: Curves, h: Helper, j: int): real
    requires 0 <= j < |h.fixed|
  {
    Over(MappedTo(c, h, j), c.disc(h.fixed[j].pay))
  }

  /** S_m1, at the start. */
  function StartAmount(c: Curves, h: Helper): real
    requires Valid(h)
  {
    Over(SumMapped(c, h, false, 0), StartDiscount(c, h))
  }

  // ----- conservation -------------------------------------------------------------------------

  /** The corrections of the floating coupons owned by the first `n` fixed ones. */
  function Owned(c: Curves, floating: seq<Floating>, n: int): Entries {
    k => if 0 <= k < |floating| && 0 <= floating[k].owner < n then Correction(c, floating[k]) else 0.0
  }

  /** Both weights of what is mapped to coupon `j`. */
  lemma BothWeights(c: Curves, h: Helper, j: nat)
    ensures Sum(Owned(c, h.floating, j + 1), |h.floating|)
            == Sum(Owned(c, h.floating, j), |h.floating|)
               + (SumMapped(c, h, false, j) + SumMapped(c, h, true, j))
  {
    var m1, m2 := Mapped(c, h.floating, false, j), Mapped(c, h.floating, true, j);
    var both: Entries := k => m1(k) + m2(k);
    SumAdds(m1, m2, both, |h.floating|);
    forall k | 0 <= k < |h.floating|
      ensures Owned(c, h.floating, j + 1)(k) == Owned(c, h.floating, j)(k) + both(k)
    {
      WeightsAddUp(c, h.floating[k]);
    }
    SumAdds(Owned(c, h.floating, j), both, Owned(c, h.floating, j + 1), |h.floating|);
  }

  lemma WeightsAddUp(c: Curves, f: Floating)
    ensures f.owner >= 0 ==> Weighted(c, f, false) + Weighted(c, f, true) == Correction(c, f)
  {
    var x, l := Correction(c, f), f.lambda2;
    assert Times(x, 1.0 - l) + Times(x, l) == x;
  }

  /** S_j D_j. */
  function Worth(c: Curves, h: Helper): Entries {
    j => if 0 <= j < |h.fixed| then Times(Amount(c, h, j), c.disc(h.fixed[j].pay)) else 0.0
  }

  lemma OverBack(x: real, y: real)
    requires y != 0.0
    ensures Times(Over(x, y), y) == x
  {
  }

  lemma WorthIs(c: Curves, h: Helper, j: nat)
    requires Positive(c) && j < |h.fixed|
    ensures Worth(c, h)(j) == MappedTo(c, h, j)
  {
    OverBack(MappedTo(c, h, j), c.disc(h.fixed[j].pay));
  }

  lemma {:induction false} WorthOfFirst(c: Curves, h: Helper, n: nat)
    requires Valid(h) && Positive(c) && n < |h.fixed|
    ensures Sum(Worth(c, h), n) + SumMapped(c, h, false, 0)
            == Sum(Owned(c, h.floating, n), |h.floating|) + SumMapped(c, h, false, n)
  {
    if n == 0 {
      SumTail(Owned(c, h.floating, 0), 0, |h.floating|);
    } else {
      WorthOfFirst(c, h, n - 1);
      BothWeights(c, h, n - 1);
      SumLast(Worth(c, h), n - 1);
      WorthIs(c, h, n - 1);
    }
  }

  /** The mapping moves the corrections without losing any: the worth of all amounts is that of every
      floating coupon owned by a fixed one. */
  lemma ProRataConserves(c: Curves, h: Helper)
    requires Valid(h) && Positive(c)
    ensures Sum(Worth(c, h), |h.fixed|) + Times(StartAmount(c, h), StartDiscount(c, h))
            == Sum(Owned(c, h.floating, |h.fixed|), |h.floating|)
  {
    var n := |h.fixed| - 1;
    WorthOfFirst(c, h, n);
    BothWeights(c, h, n);
    SumLast(Worth(c, h), n);
    WorthIs(c, h, n);
    OverBack(SumMapped(c, h, false, 0), StartDiscount(c, h));
  }

  /** What of a floating coupon's correction falls on fixed coupon `j`: its weight on its owner and the rest on
      the one before, which is the start, -1, for the first. */
  function ShareOn(f: Floating, j: int): real {
    if f.owner >= 0 && f.owner == j then f.lambda2
    else if f.owner >= 0 && f.owner == j + 1 then 1.0 - f.lambda2
    else 0.0
  }

  function Shared(c: Curves, h: Helper, j: int): Entries {
    k => if 0 <= k < |h.floating| then Times(Correction(c, h.floating[k]), ShareOn(h.floating[k], j)) else 0.0
  }

  /** Every S_j, and S_m1 at the start, is worth its shares of the corrections. */
  lemma CorrectionsAreShared(c: Curves, h: Helper, j: int)
    requires Valid(h) && OwnersWithin(h) && Positive(c) && -1 <= j < |h.fixed|
    ensures (if j < 0 then Times(StartAmount(c, h), StartDiscount(c, h)) else Worth(c, h)(j))
            == Sum(Shared(c, h, j), |h.floating|)
  {
    var n := |h.floating|;
    var own, before := Mapped(c, h.floating, true, j), Mapped(c, h.floating, false, j + 1);
    forall k | 0 <= k < n ensures Shared(c, h, j)(k) == own(k) + before(k) {
      TimesZero(Correction(c, h.floating[k]));
    }
    SumAdds(own, before, Shared(c, h, j), n);
    if j < 0 {
      SumTail(own, 0, n);
      OverBack(SumMapped(c, h, false, 0), StartDiscount(c, h));
    } else {
      WorthIs(c, h, j);
      if j + 1 == |h.fixed| {
        SumTail(before, 0, n);
      }
    }
  }

  // ----- market and model value ---------------------------------------------------------------

  function Clamp(x: real, lo: real, hi: real): real {
    if x > hi then hi else if x < lo then lo else x
  }

  /** The helper's strike: at the money, or its own within `band` of the forward. */
  function StrikeRate(c: Curves, h: Helper, band: real): real {
    match h.strike
    case Struck(rate) => Clamp(rate, Forward(c, h) - band, Forward(c, h) + band)
    case _ => Forward(c, h)
  }

  predicate Receiver(c: Curves, h: Helper, band: real) {
    h.strike.AtTheMoney? || StrikeRate(c, h, band) <= Forward(c, h)
  }

  /** A struck helper keeps its strike where that is within the band around the forward and takes the band's
      nearer end otherwise; any helper is a receiver exactly when it is struck no higher than the forward. */
  lemma StrikeIsNearest(c: Curves, h: Helper, band: real, other: real)
    requires band >= 0.0
    ensures var k, forward := StrikeRate(c, h, band), Forward(c, h);
            && forward - band <= k <= forward + band
            && (h.strike.Struck? && forward - band <= other <= forward + band ==>
                  Abs(k - h.strike.rate) <= Abs(other - h.strike.rate))
            && (!h.strike.Struck? ==> k == forward)
            && (Receiver(c, h, band) <==> k <= forward)
  {
  }

  /** Bachelier's formula: of the forward, the strike, the standard deviation and whether it is a call. */
  type Bachelier = (real, real, real, bool) -> real

  function MarketValue(c: Curves, h: Helper, bachelier: Bachelier, deviation: real, band: real): real {
    MarketOn(c, h, bachelier, deviation, StrikeRate(c, h, band), Receiver(c, h, band))
  }

  /** A receiver's or a payer's market value. */
  function MarketOn(c: Curves, h: Helper, bachelier: Bachelier, deviation: real, strike: real, receiver: bool): real {
    Times(Annuity(c, h), bachelier(Forward(c, h), strike, deviation, !receiver))
  }

  /** The formula's parity, and its intrinsic value at a zero deviation. */
  ghost predicate IsBachelier(bachelier: Bachelier) {
    && (forall f, k, deviation :: HasParity(bachelier, f, k, deviation))
    && (forall f, k, call :: IsIntrinsic(bachelier, f, k, call))
  }

  ghost predicate HasParity(bachelier: Bachelier, f: real, k: real, deviation: real) {
    bachelier(f, k, deviation, true) - bachelier(f, k, deviation, false) == f - k
  }

  ghost predicate IsIntrinsic(bachelier: Bachelier, f: real, k: real, call: bool) {
    var payoff := if call then f - k else k - f;
    bachelier(f, k, 0.0, call) == if payoff > 0.0 then payoff else 0.0
  }

  /** Every helper is out of the money or at it: without volatility its market value is 0. */
  lemma NoIntrinsicValue(c: Curves, h: Helper, bachelier: Bachelier, band: real)
    requires IsBachelier(bachelier) && band >= 0.0
    ensures MarketValue(c, h, bachelier, 0.0, band) == 0.0
  {
    StrikeIsNearest(c, h, band, Forward(c, h));
    assert IsIntrinsic(bachelier, Forward(c, h), StrikeRate(c, h, band), !Receiver(c, h, band));
    TimesZero(Annuity(c, h));
  }

  /** An option is worth more the more uncertain it is. */
  ghost predicate GrowsWithDeviation(bachelier: Bachelier) {
    forall f, k, s, t, call :: 0.0 <= s < t ==> GrowsBetween(bachelier, f, k, s, t, call)
  }

  ghost predicate GrowsBetween(bachelier: Bachelier, f: real, k: real, s: real, t: real, call: bool) {
    bachelier(f, k, s, call) < bachelier(f, k, t, call)
  }

  /** So is a helper, at the same strike. */
  lemma MarketGrows(c: Curves, h: Helper, bachelier: Bachelier, s: real, t: real, strike: real, receiver: bool)
    requires GrowsWithDeviation(bachelier) && 0.0 <= s < t && Annuity(c, h) > 0.0
    ensures MarketOn(c, h, bachelier, s, strike, receiver) < MarketOn(c, h, bachelier, t, strike, receiver)
  {
    var p, q := bachelier(Forward(c, h), strike, s, !receiver), bachelier(Forward(c, h), strike, t, !receiver);
    assert GrowsBetween(bachelier, Forward(c, h), strike, s, t, !receiver);
    TimesGrows(Annuity(c, h), p, q);
  }

  /** The market's receiver less its payer is the forward swap. */
  lemma MarketParity(c: Curves, h: Helper, bachelier: Bachelier, deviation: real, strike: real)
    requires IsBachelier(bachelier)
    ensures MarketOn(c, h, bachelier, deviation, strike, true) - MarketOn(c, h, bachelier, deviation, strike, false)
            == Times(Annuity(c, h), strike - Forward(c, h))
  {
    var f, a := Forward(c, h), Annuity(c, h);
    var call, put := bachelier(f, strike, deviation, true), bachelier(f, strike, deviation, false);
    assert HasParity(bachelier, f, strike, deviation);
    assert strike - f == put - call;
    assert a * (put - call) == a * put - a * call;
  }

  /** The model's H, the functions its price is made of, and the root finder behind y*. */
  datatype Model = Model(accumulated: Fn, exp: Fn, cdf: Fn, sqrt: Fn, root: Fn -> real)

  /** A root finder sees a function only through its values. */
  ghost predicate Extensional(root: Fn -> real) {
    forall f: Fn, g: Fn :: SameEverywhere(f, g) ==> root(f) == root(g)
  }

  ghost predicate SameEverywhere(f: Fn, g: Fn) {
    forall y :: f(y) == g(y)
  }

  function DeltaH(m: Model, h: Helper, j: nat): real
    requires Valid(h) && j < |h.fixed|
  {
    m.accumulated(h.fixed[j].pay) - m.accumulated(h.floating[0].start)
  }

  /** The discounted amount paid with fixed coupon `j`. */
  function Cash(c: Curves, h: Helper, strike: real, j: nat): real
    requires j < |h.fixed|
  {
    Times(Times(h.fixed[j].accrual, strike) - Amount(c, h, j), c.disc(h.fixed[j].pay))
  }

  /** The amounts weighted by a function of dH. */
  function CashTerms(m: Model, c: Curves, h: Helper, strike: real, g: Fn): Entries
    requires Valid(h)
  {
    j => if 0 <= j < |h.fixed| then Times(Cash(c, h, strike, j), g(DeltaH(m, h, j))) else 0.0
  }

  /** Amounts, the correction at the start, the notional repaid and the notional received, each weighted:
      the one by a function of dH, the other three by values. */
  function Swap(m: Model, c: Curves, h: Helper, strike: real, g: Fn, atStart: real): real
    requires Valid(h)
  {
    Total(Sum(CashTerms(m, c, h, strike, g), |h.fixed|), StartAmount(c, h), StartDiscount(c, h), atStart,
          c.disc(h.fixed[h.last].pay), g(DeltaH(m, h, h.last)))
  }

  function Total(cash: real, startAmount: real, d0: real, atStart: real, dLast: real, atLast: real): real {
    cash - startAmount * d0 * atStart + dLast * atLast - d0 * atStart
  }

  function Bond(m: Model, y: real, zeta: real): Fn {
    dh => m.exp(-Times(dh, y) - 0.5 * Times(Times(dh, dh), zeta))
  }

  /** `_y_star_helper`: the underlying as a function of the state. */
  function Underlying(m: Model, c: Curves, h: Helper, strike: real, zeta: real): Fn
    requires Valid(h)
  {
    y => Swap(m, c, h, strike, Bond(m, y, zeta), 1.0)
  }

  function Probability(m: Model, w: real, y: real, zeta: real): Fn {
    dh => m.cdf(Argument(m, w, y, zeta, dh))
  }

  function Argument(m: Model, w: real, y: real, zeta: real, dh: real): real {
    Over(Times(w, y + Times(dh, zeta)), m.sqrt(zeta))
  }

  function Side(receiver: bool): real {
    if receiver then 1.0 else -1.0
  }

  /** A receiver's or a payer's price as a function of where the exercise boundary is put. */
  function Price(m: Model, c: Curves, h: Helper, strike: real, receiver: bool, zeta: real): Fn
    requires Valid(h)
  {
    y => Times(Side(receiver), Weighed(m, c, h, strike, Probability(m, Side(receiver), y, zeta)))
  }

  /** The swap with one function weighting all its amounts. */
  function Weighed(m: Model, c: Curves, h: Helper, strike: real, g: Fn): real
    requires Valid(h)
  {
    Swap(m, c, h, strike, g, g(0.0))
  }

  /** `_analytic_lgm`: the price with the boundary at y*. */
  function OptionValue(m: Model, c: Curves, h: Helper, strike: real, receiver: bool, zeta: real): real
    requires Valid(h)
  {
    Price(m, c, h, strike, receiver, zeta)(m.root(Underlying(m, c, h, strike, zeta)))
  }

  function ModelValue(m: Model, c: Curves, h: Helper, band: real, zeta: real): real
    requires Valid(h)
  {
    OptionValue(m, c, h, StrikeRate(c, h, band), Receiver(c, h, band), zeta)
  }

  // ----- padding ------------------------------------------------------------------------------

  function PadFixed(h: Helper): Fixed
    requires Valid(h)
  {
    Fixed(h.fixed[|h.fixed| - 1].pay, 0.0)
  }

  function PadFloating(h: Helper): Floating
    requires Valid(h)
  {
    var last := h.floating[|h.floating| - 1];
    Floating(last.pay, last.end, last.end, 0.0, last.forecastEnd, last.forecastEnd, 1.0, -1, 0.0)
  }

  function Repeat<T>(x: T, n: nat): (r: seq<T>)
    ensures |r| == n && forall i :: 0 <= i < n ==> r[i] == x
  {
    seq(n, i => x)
  }

  /** `marked`: whether the stack marks a helper at the money with a NaN. */
  function Padded(h: Helper, fixed: nat, floating: nat, marked: bool): Helper
    requires Valid(h) && |h.fixed| <= fixed && |h.floating| <= floating
  {
    Helper(h.fixed + Repeat(PadFixed(h), fixed - |h.fixed|),
           h.floating + Repeat(PadFloating(h), floating - |h.floating|),
           h.last, if marked && h.strike.AtTheMoney? then NotANumber else h.strike)
  }

  /** No floating coupon is mapped past the fixed ones. */
  predicate OwnersWithin(h: Helper) {
    forall k :: 0 <= k < |h.floating| ==> h.floating[k].owner < |h.fixed|
  }

  /** `p` is `h` with padding after its coupons. */
  predicate IsPadded(h: Helper, p: Helper) {
    && Valid(h) && Valid(p) && OwnersWithin(h)
    && |h.fixed| <= |p.fixed| && |h.floating| <= |p.floating| && p.last == h.last
    && (forall j :: 0 <= j < |h.fixed| ==> p.fixed[j] == h.fixed[j])
    && (forall j :: |h.fixed| <= j < |p.fixed| ==> p.fixed[j].accrual == 0.0)
    && (forall k :: 0 <= k < |h.floating| ==> p.floating[k] == h.floating[k])
    && (forall k :: |h.floating| <= k < |p.floating| ==> p.floating[k].owner < 0 && p.floating[k].accrual == 0.0)
    && (p.strike == h.strike || (p.strike.NotANumber? && h.strike.AtTheMoney?))
  }

  lemma PaddedIsPadded(h: Helper, fixed: nat, floating: nat, marked: bool)
    requires Valid(h) && OwnersWithin(h) && |h.fixed| <= fixed && |h.floating| <= floating
    ensures IsPadded(h, Padded(h, fixed, floating, marked))
  {
  }

  lemma TimesZero(x: real)
    ensures Times(x, 0.0) == 0.0 && Times(0.0, x) == 0.0
  {
  }

  lemma PaddedMapped(c: Curves, h: Helper, p: Helper, own: bool, j: nat)
    requires IsPadded(h, p)
    ensures SumMapped(c, p, own, j) == SumMapped(c, h, own, j)
    ensures j >= |h.fixed| ==> SumMapped(c, p, own, j) == 0.0
  {
    var f, g := Mapped(c, p.floating, own, j), Mapped(c, h.floating, own, j);
    SumTail(f, |h.floating|, |p.floating|);
    SumExt(f, g, |h.floating|);
    if j >= |h.fixed| {
      SumTail(g, 0, |h.floating|);
    }
  }

  lemma PaddedMappedTo(c: Curves, h: Helper, p: Helper, j: nat)
    requires IsPadded(h, p)
    ensures MappedTo(c, p, j) == if j < |h.fixed| then MappedTo(c, h, j) else 0.0
  {
    PaddedMapped(c, h, p, true, j);
    PaddedMapped(c, h, p, false, j + 1);
  }

  lemma PaddedLegs(c: Curves, h: Helper, p: Helper)
    requires IsPadded(h, p)
    ensures Annuity(c, p) == Annuity(c, h) && Forward(c, p) == Forward(c, h)
    ensures StartDiscount(c, p) == StartDiscount(c, h) && StartAmount(c, p) == StartAmount(c, h)
  {
    PaddedAccrued(c, h, p);
    PaddedPaid(c, h, p);
    PaddedMapped(c, h, p, false, 0);
  }

  lemma PaddedAccrued(c: Curves, h: Helper, p: Helper)
    requires IsPadded(h, p)
    ensures Annuity(c, p) == Annuity(c, h)
  {
    forall j | |h.fixed| <= j < |p.fixed| ensures Accrued(c, p)(j) == 0.0 {
      TimesZero(c.disc(p.fixed[j].pay));
    }
    SumTail(Accrued(c, p), |h.fixed|, |p.fixed|);
    SumExt(Accrued(c, p), Accrued(c, h), |h.fixed|);
  }

  lemma PaddedPaid(c: Curves, h: Helper, p: Helper)
    requires IsPadded(h, p)
    ensures Sum(Paid(c, p), |p.floating|) == Sum(Paid(c, h), |h.floating|)
  {
    forall k | |h.floating| <= k < |p.floating| ensures Paid(c, p)(k) == 0.0 {
      NothingAccrued(c, p.floating[k]);
    }
    SumTail(Paid(c, p), |h.floating|, |p.floating|);
    SumExt(Paid(c, p), Paid(c, h), |h.floating|);
  }

  lemma NothingAccrued(c: Curves, f: Floating)
    requires f.accrual == 0.0
    ensures Times(FloatAmount(c, f), c.disc(f.pay)) == 0.0
  {
    TimesZero(Over(Over(c.index(f.forecastStart), c.index(f.forecastEnd)) - 1.0, f.spanning));
    TimesZero(c.disc(f.pay));
  }

  lemma PaddedCash(c: Curves, h: Helper, p: Helper, strike: real, j: nat)
    requires IsPadded(h, p) && j < |p.fixed|
    ensures Cash(c, p, strike, j) == if j < |h.fixed| then Cash(c, h, strike, j) else 0.0
  {
    PaddedMappedTo(c, h, p, j);
    if j >= |h.fixed| {
      TimesZero(strike);
      TimesZero(c.disc(p.fixed[j].pay));
    }
  }

  lemma PaddedDeltaH(m: Model, h: Helper, p: Helper, j: nat)
    requires IsPadded(h, p) && j < |h.fixed|
    ensures DeltaH(m, p, j) == DeltaH(m, h, j)
  {
    assert p.fixed[j] == h.fixed[j] && p.floating[0] == h.floating[0];
  }

  lemma PaddedSwap(m: Model, c: Curves, h: Helper, p: Helper, strike: real, g: Fn, atStart: real)
    requires IsPadded(h, p)
    ensures Swap(m, c, p, strike, g, atStart) == Swap(m, c, h, strike, g, atStart)
  {
    PaddedLegs(c, h, p);
    PaddedCashTerms(m, c, h, p, strike, g);
    PaddedDeltaH(m, h, p, h.last);
    assert p.fixed[h.last] == h.fixed[h.last];
  }

  lemma PaddedCashTerms(m: Model, c: Curves, h: Helper, p: Helper, strike: real, g: Fn)
    requires IsPadded(h, p)
    ensures Sum(CashTerms(m, c, p, strike, g), |p.fixed|) == Sum(CashTerms(m, c, h, strike, g), |h.fixed|)
  {
    var t, u := CashTerms(m, c, p, strike, g), CashTerms(m, c, h, strike, g);
    forall j | 0 <= j < |p.fixed|
      ensures j < |h.fixed| ==> t(j) == u(j)
      ensures j >= |h.fixed| ==> t(j) == 0.0
    {
      PaddedCash(c, h, p, strike, j);
      if j < |h.fixed| {
        PaddedDeltaH(m, h, p, j);
      } else {
        TimesZero(g(DeltaH(m, p, j)));
      }
    }
    SumTail(t, |h.fixed|, |p.fixed|);
    SumExt(t, u, |h.fixed|);
  }

  lemma PaddedStrike(c: Curves, h: Helper, p: Helper, band: real)
    requires IsPadded(h, p)
    ensures StrikeRate(c, p, band) == StrikeRate(c, h, band)
    ensures Receiver(c, p, band) == Receiver(c, h, band)
  {
    PaddedLegs(c, h, p);
  }

  /** Padding a helper changes neither its market value nor its model value, whatever the volatility,
      the strike band and the variance at its expiry. */
  lemma PaddingIsInert(m: Model, c: Curves, h: Helper, p: Helper, bachelier: Bachelier,
                       deviation: real, band: real, zeta: real)
    requires IsPadded(h, p) && Extensional(m.root)
    ensures MarketValue(c, p, bachelier, deviation, band) == MarketValue(c, h, bachelier, deviation, band)
    ensures ModelValue(m, c, p, band, zeta) == ModelValue(m, c, h, band, zeta)
  {
    PaddedLegs(c, h, p);
    PaddedStrike(c, h, p, band);
    var strike := StrikeRate(c, h, band);
    var f, g := Underlying(m, c, p, strike, zeta), Underlying(m, c, h, strike, zeta);
    forall y ensures f(y) == g(y) {
      PaddedSwap(m, c, h, p, strike, Bond(m, y, zeta), 1.0);
    }
    assert SameEverywhere(f, g);
    var phi := Probability(m, Side(Receiver(c, h, band)), m.root(g), zeta);
    PaddedSwap(m, c, h, p, strike, phi, phi(0.0));
  }

  // ----- a stack of helpers -------------------------------------------------------------------

  function MostFixed(basket: seq<Helper>): (n: nat)
    ensures forall i :: 0 <= i < |basket| ==> |basket[i].fixed| <= n
  {
    if basket == [] then 0
    else
      var n := MostFixed(basket[..|basket| - 1]);
      if |basket[|basket| - 1].fixed| > n then |basket[|basket| - 1].fixed| else n
  }

  function MostFloating(basket: seq<Helper>): (n: nat)
    ensures forall i :: 0 <= i < |basket| ==> |basket[i].floating| <= n
  {
    if basket == [] then 0
    else
      var n := MostFloating(basket[..|basket| - 1]);
      if |basket[|basket| - 1].floating| > n then |basket[|basket| - 1].floating| else n
  }

  /** `stack_helpers`: strikes are left out of the stack only where every helper is at the money. */
  function Stacked(basket: seq<Helper>): (r: seq<Helper>)
    requires forall i :: 0 <= i < |basket| ==> Valid(basket[i])
    ensures |r| == |basket|
  {
    var marked := exists i :: 0 <= i < |basket| && !basket[i].strike.AtTheMoney?;
    seq(|basket|, i requires 0 <= i < |basket| =>
        Padded(basket[i], MostFixed(basket), MostFloating(basket), marked))
  }

  lemma StackedIsPadded(basket: seq<Helper>, i: nat)
    requires forall k :: 0 <= k < |basket| ==> Valid(basket[k]) && OwnersWithin(basket[k])
    requires i < |basket|
    ensures var p := Stacked(basket)[i];
            IsPadded(basket[i], p) && |p.fixed| == MostFixed(basket) && |p.floating| == MostFloating(basket)
  {
    var marked := exists k :: 0 <= k < |basket| && !basket[k].strike.AtTheMoney?;
    PaddedIsPadded(basket[i], MostFixed(basket), MostFloating(basket), marked);
  }

  /** A stack's strikes are one array where any of its helpers is struck, and none otherwise. */
  lemma StackIsUniform(basket: seq<Helper>, i: nat)
    requires forall k :: 0 <= k < |basket| ==> Valid(basket[k])
    requires i < |basket|
    ensures Stacked(basket)[i].strike.AtTheMoney? <==> forall k :: 0 <= k < |basket| ==> basket[k].strike.AtTheMoney?
  {
  }

  /** A stack is rectangular, and each of its helpers is worth what the basket's is, in the market and
      in the model. */
  lemma StackingKeepsValues(m: Model, c: Curves, basket: seq<Helper>, bachelier: Bachelier, i: nat,
                            deviation: real, band: real, zeta: real)
    requires forall k :: 0 <= k < |basket| ==> Valid(basket[k]) && OwnersWithin(basket[k])
    requires i < |basket| && Extensional(m.root)
    ensures var p := Stacked(basket)[i];
            && |p.fixed| == MostFixed(basket) && |p.floating| == MostFloating(basket) && Valid(p)
            && MarketValue(c, p, bachelier, deviation, band) == MarketValue(c, basket[i], bachelier, deviation, band)
            && ModelValue(m, c, p, band, zeta) == ModelValue(m, c, basket[i], band, zeta)
  {
    StackedIsPadded(basket, i);
    PaddingIsInert(m, c, basket[i], Stacked(basket)[i], bachelier, deviation, band, zeta);
  }

  // ----- the proRata mapping ------------------------------------------------------------------

  /** Floating coupons per fixed one, rounded to the nearest whole number and at least 1. */
  function PerFixed(floating: nat, fixed: nat): (r: nat)
    requires fixed > 0
    ensures r >= 1
  {
    var nearest := (2 * floating + fixed) / (2 * fixed);
    if nearest < 1 then 1 else nearest
  }

  /** The nearest whole number of coupons per fixed one, the larger of two as near, where that is one or more;
      an exact multiple is kept, and then every coupon is owned. */
  lemma PerFixedIsNearest(floating: nat, fixed: nat, k: nat)
    requires fixed > 0
    ensures var excess: int := 2 * (PerFixed(floating, fixed) * fixed - floating);
            if 2 * floating < fixed then PerFixed(floating, fixed) == 1
            else -excess < fixed && excess <= fixed
    ensures k > 0 && floating == k * fixed ==> PerFixed(floating, fixed) == k
  {
    var r := (2 * floating + fixed) / (2 * fixed);
    assert 2 * floating + fixed == r * (2 * fixed) + (2 * floating + fixed) % (2 * fixed);
    assert r * (2 * fixed) == 2 * (r * fixed);
    if r == 0 {
      assert r * fixed == 0;
    } else {
      WholeOrder(fixed, 1, r);
    }
    if k > 0 && floating == k * fixed {
      assert 2 * floating == k * (2 * fixed);
      RemainderIs(2 * floating + fixed, 2 * fixed, k, fixed);
      SameProduct(fixed, r, k);
    }
  }

  lemma SameProduct(d: nat, x: nat, y: nat)
    requires d > 0 && x * (2 * d) == y * (2 * d)
    ensures x == y
  {
    if x < y {
      WholeOrder(2 * d, x + 1, y);
    } else if y < x {
      WholeOrder(2 * d, y + 1, x);
    }
  }

  /** Coupon `k`'s owner and weight under `ratio` coupons per owner, `mapped` coupons in all. */
  function OwnerOf(k: nat, ratio: nat, mapped: nat): int
    requires ratio > 0
  {
    if k < mapped then k / ratio else -1
  }

  function WeightOf(k: nat, ratio: nat, mapped: nat): real
    requires ratio > 0
  {
    if k < mapped then (k % ratio + 1) as real / ratio as real else 0.0
  }

  /** The loop of `build_basket` that fills owners and weights in place. */
  method MapOwners(floating: nat, fixed: nat) returns (owner: array<int>, lambda2: array<real>)
    requires fixed > 0
    ensures fresh(owner) && fresh(lambda2) && owner.Length == lambda2.Length == floating
    ensures var ratio := PerFixed(floating, fixed);
            forall k :: 0 <= k < floating ==>
              && owner[k] == OwnerOf(k, ratio, ratio * fixed)
              && lambda2[k] == WeightOf(k, ratio, ratio * fixed)
  {
    var ratio := PerFixed(floating, fixed);
    owner := new int[floating](_ => -1);
    lambda2 := new real[floating](_ => 0.0);
    var mapped := if floating < ratio * fixed then floating else ratio * fixed;
    for k := 0 to mapped
      invariant forall i :: 0 <= i < k ==> owner[i] == i / ratio
      invariant forall i :: 0 <= i < k ==> lambda2[i] == (i % ratio + 1) as real / ratio as real
      invariant forall i :: k <= i < floating ==> owner[i] == -1 && lambda2[i] == 0.0
    {
      owner[k], lambda2[k] := k / ratio, (k % ratio + 1) as real / ratio as real;
    }
  }

  /** Every coupon is mapped within the fixed schedule or not at all, with a weight of at most 1; the
      last of each owner's coupons lies wholly on its owner. */
  lemma OwnersAreFixedCoupons(floating: nat, fixed: nat, k: nat)
    requires fixed > 0
    ensures var ratio := PerFixed(floating, fixed);
            var o, w := OwnerOf(k, ratio, ratio * fixed), WeightOf(k, ratio, ratio * fixed);
            && -1 <= o < fixed && (o == -1 <==> k >= ratio * fixed)
            && (o >= 0 ==> 0.0 < w <= 1.0 && (w == 1.0 <==> (k + 1) % ratio == 0))
  {
    var ratio := PerFixed(floating, fixed);
    if k < ratio * fixed {
      QuotientWithin(k, ratio, fixed);
      Share(k % ratio + 1, ratio);
      NextRemainder(k, ratio);
    }
  }

  lemma WholeOrder(a: nat, x: int, y: int)
    requires x <= y
    ensures a * x <= a * y
  {
    assert a * (y - x) >= 0;
  }

  lemma QuotientWithin(k: nat, ratio: nat, fixed: nat)
    requires ratio > 0 && k < ratio * fixed
    ensures 0 <= k / ratio < fixed
  {
    var q, r := k / ratio, k % ratio;
    assert k == ratio * q + r;
    if q >= fixed {
      WholeOrder(ratio, fixed, q);
    }
  }

  lemma NextRemainder(k: nat, ratio: nat)
    requires ratio > 0
    ensures (k + 1) % ratio == 0 <==> k % ratio + 1 == ratio
  {
    var q, r := k / ratio, k % ratio;
    assert k == ratio * q + r;
    if r + 1 == ratio {
      assert ratio * (q + 1) == ratio * q + ratio;
      RemainderIs(k + 1, ratio, q + 1, 0);
    } else {
      RemainderIs(k + 1, ratio, q, r + 1);
    }
  }

  lemma RemainderIs(k: nat, d: nat, q: nat, r: nat)
    requires 0 <= r < d && k == d * q + r
    ensures k % d == r
  {
    var q', r' := k / d, k % d;
    assert k == d * q' + r';
    SameQuotient(d, q, r, q', r');
  }

  lemma SameQuotient(d: nat, q: int, r: nat, q': int, r': nat)
    requires r < d && r' < d && d * q + r == d * q' + r'
    ensures r == r'
  {
    assert d * (q + 1) == d * q + d && d * (q' + 1) == d * q' + d;
    if q < q' {
      WholeOrder(d, q + 1, q');
    } else if q' < q {
      WholeOrder(d, q' + 1, q);
    }
  }

  lemma Share(a: nat, b: nat)
    requires 0 < a <= b
    ensures 0.0 < a as real / b as real <= 1.0
    ensures a as real / b as real == 1.0 <==> a == b
  {
    var q, d := a as real / b as real, b as real;
    assert q * d == a as real;
    ProductOrder(0.0, q, d);
    ProductOrder(q, 1.0, d);
    ProductOrder(1.0, q, d);
  }

  // ----- parity -------------------------------------------------------------------------------

  /** Floating coupons follow each other, are paid when they end, are all mapped, and end with the last
      fixed coupon. */
  predicate Regular(h: Helper) {
    && Valid(h)
    && (forall k :: 0 <= k < |h.floating| ==>
          h.floating[k].pay == h.floating[k].end && 0 <= h.floating[k].owner < |h.fixed|)
    && (forall k :: 0 < k < |h.floating| ==> h.floating[k].start == h.floating[k - 1].end)
    && h.floating[|h.floating| - 1].end == h.fixed[h.last].pay
  }

  /** A floating coupon's flat amount, discounted. */
  function Flat(c: Curves, h: Helper): Entries {
    k => if 0 <= k < |h.floating| then Times(FlatAmount(c, h.floating[k]), c.disc(h.floating[k].pay)) else 0.0
  }

  lemma FlatIs(c: Curves, f: Floating)
    requires Positive(c) && f.pay == f.end
    ensures Times(FlatAmount(c, f), c.disc(f.pay)) == c.disc(f.start) - c.disc(f.end)
  {
    var p, q := c.disc(f.start), c.disc(f.end);
    assert Over(p, q) * q == p;
    assert (Over(p, q) - 1.0) * q == Over(p, q) * q - q;
  }

  /** The flat amounts telescope to the discount at the start less that at the end. */
  lemma {:induction false} FlatTelescopes(c: Curves, h: Helper, n: nat)
    requires Regular(h) && Positive(c) && 0 < n <= |h.floating|
    ensures Sum(Flat(c, h), n) == StartDiscount(c, h) - c.disc(h.floating[n - 1].end)
  {
    SumLast(Flat(c, h), n - 1);
    FlatIs(c, h.floating[n - 1]);
    if n > 1 {
      FlatTelescopes(c, h, n - 1);
      assert h.floating[n - 1].start == h.floating[n - 2].end;
    }
  }

  /** All corrections: the floating leg less its flat value. */
  lemma OwnedIsLegLessFlat(c: Curves, h: Helper)
    requires Regular(h) && Positive(c)
    ensures Sum(Owned(c, h.floating, |h.fixed|), |h.floating|)
            == Sum(Paid(c, h), |h.floating|) - (StartDiscount(c, h) - c.disc(h.fixed[h.last].pay))
  {
    forall k | 0 <= k < |h.floating| ensures Paid(c, h)(k) == Owned(c, h.floating, |h.fixed|)(k) + Flat(c, h)(k) {
      CorrectionSplits(c, h.floating[k]);
    }
    SumAdds(Owned(c, h.floating, |h.fixed|), Flat(c, h), Paid(c, h), |h.floating|);
    FlatTelescopes(c, h, |h.floating|);
  }

  lemma CorrectionSplits(c: Curves, f: Floating)
    ensures Times(FloatAmount(c, f), c.disc(f.pay)) == Correction(c, f) + Times(FlatAmount(c, f), c.disc(f.pay))
  {
    var a, b, q := FloatAmount(c, f), FlatAmount(c, f), c.disc(f.pay);
    assert a * q == (a - b) * q + b * q;
  }

  lemma WorthIsLegLessFlat(c: Curves, h: Helper)
    requires Regular(h) && Positive(c)
    ensures Sum(Worth(c, h), |h.fixed|) + Times(StartAmount(c, h), StartDiscount(c, h))
            == Sum(Paid(c, h), |h.floating|) - (StartDiscount(c, h) - c.disc(h.fixed[h.last].pay))
  {
    ProRataConserves(c, h);
    OwnedIsLegLessFlat(c, h);
  }

  function Everywhere(dh: real): real {
    1.0
  }

  ghost predicate TermScales(u: Entries, v: Entries, k: real, j: int) {
    v(j) == u(j) * k
  }

  lemma TermsScale(u: Entries, v: Entries, k: real, n: nat)
    requires forall j :: 0 <= j < n ==> TermScales(u, v, k, j)
    ensures Sum(v, n) == Times(Sum(u, n), k)
  {
    forall j | 0 <= j < n ensures v(j) == u(j) * k {
      assert TermScales(u, v, k, j);
    }
    SumScaled(u, k, v, n);
  }

  /** The fixed leg at the strike less the worth of the corrections. */
  lemma CashIsLegLessWorth(m: Model, c: Curves, h: Helper, strike: real)
    requires Valid(h)
    ensures Sum(CashTerms(m, c, h, strike, Everywhere), |h.fixed|)
            == Times(Annuity(c, h), strike) - Sum(Worth(c, h), |h.fixed|)
  {
    var accrued, leg := Accrued(c, h), FixedLeg(c, h, strike);
    forall j | 0 <= j < |h.fixed|
      ensures leg(j) == CashTerms(m, c, h, strike, Everywhere)(j) + Worth(c, h)(j)
      ensures TermScales(accrued, leg, strike, j)
    {
      LegSplits(m, c, h, strike, j);
    }
    TermsScale(accrued, leg, strike, |h.fixed|);
    SumAdds(CashTerms(m, c, h, strike, Everywhere), Worth(c, h), leg, |h.fixed|);
  }

  /** The fixed leg at a rate, coupon by coupon. */
  function FixedLeg(c: Curves, h: Helper, strike: real): Entries {
    j => if 0 <= j < |h.fixed| then LegTerm(c, h.fixed[j], strike) else 0.0
  }

  function LegTerm(c: Curves, f: Fixed, strike: real): real {
    Times(Times(c.disc(f.pay), f.accrual), strike)
  }

  lemma LegSplits(m: Model, c: Curves, h: Helper, strike: real, j: nat)
    requires Valid(h) && j < |h.fixed|
    ensures FixedLeg(c, h, strike)(j) == CashTerms(m, c, h, strike, Everywhere)(j) + Worth(c, h)(j)
    ensures TermScales(Accrued(c, h), FixedLeg(c, h, strike), strike, j)
  {
    CertainCash(m, c, h, strike, j);
    CashSplits(h.fixed[j].accrual, strike, Amount(c, h, j), c.disc(h.fixed[j].pay));
  }

  lemma CertainCash(m: Model, c: Curves, h: Helper, strike: real, j: nat)
    requires Valid(h) && j < |h.fixed|
    ensures CashTerms(m, c, h, strike, Everywhere)(j) == Cash(c, h, strike, j)
  {
    assert Everywhere(DeltaH(m, h, j)) == 1.0;
    SignedTimes(Cash(c, h, strike, j));
  }

  lemma CashSplits(accrual: real, strike: real, amount: real, d: real)
    ensures Times(Times(d, accrual), strike) == Times(Times(accrual, strike) - amount, d) + Times(amount, d)
  {
    var x := accrual * strike;
    assert (x - amount) * d == x * d - amount * d;
    assert d * accrual * strike == x * d;
  }

  /** With certain exercise the model's underlying is the swap itself: the corrections put the index
      curve's forward into the discount curve's bonds, and what remains is annuity times strike less
      forward. */
  lemma SwapIsAnnuity(m: Model, c: Curves, h: Helper, strike: real)
    requires Regular(h) && Positive(c) && Annuity(c, h) != 0.0
    ensures Swap(m, c, h, strike, Everywhere, 1.0) == Times(Annuity(c, h), strike - Forward(c, h))
  {
    hide Sum, Total, Times, Over, CashTerms;
    CashIsLegLessWorth(m, c, h, strike);
    WorthIsLegLessFlat(c, h);
    CertainSwap(m, c, h, strike);
    var cash, annuity, paid := Sum(CashTerms(m, c, h, strike, Everywhere), |h.fixed|), Annuity(c, h),
                               Sum(Paid(c, h), |h.floating|);
    assert Forward(c, h) == Over(paid, annuity);
    SwapAlgebra(cash, annuity, strike, Sum(Worth(c, h), |h.fixed|), StartAmount(c, h), StartDiscount(c, h),
                c.disc(h.fixed[h.last].pay), paid);
  }

  lemma CertainSwap(m: Model, c: Curves, h: Helper, strike: real)
    requires Valid(h)
    ensures Swap(m, c, h, strike, Everywhere, 1.0)
            == Total(Sum(CashTerms(m, c, h, strike, Everywhere), |h.fixed|), StartAmount(c, h), StartDiscount(c, h),
                     1.0, c.disc(h.fixed[h.last].pay), 1.0)
  {
    assert Everywhere(DeltaH(m, h, h.last)) == 1.0;
  }

  lemma SwapAlgebra(cash: real, annuity: real, strike: real, worth: real, startAmount: real, d0: real, dLast: real,
                    paid: real)
    requires annuity != 0.0 && cash == Times(annuity, strike) - worth
    requires worth + Times(startAmount, d0) == paid - (d0 - dLast)
    ensures Total(cash, startAmount, d0, 1.0, dLast, 1.0) == Times(annuity, strike - Over(paid, annuity))
  {
    var f := Over(paid, annuity);
    assert f * annuity == paid;
    assert annuity * (strike - f) == annuity * strike - annuity * f;
  }

  ghost predicate AddsTo(f: Fn, g: Fn, sum: Fn) {
    forall dh :: sum(dh) == f(dh) + g(dh)
  }

  lemma CashAdds(m: Model, c: Curves, h: Helper, strike: real, f: Fn, g: Fn, sum: Fn)
    requires Valid(h) && AddsTo(f, g, sum)
    ensures Sum(CashTerms(m, c, h, strike, sum), |h.fixed|)
            == Sum(CashTerms(m, c, h, strike, f), |h.fixed|) + Sum(CashTerms(m, c, h, strike, g), |h.fixed|)
  {
    hide Cash, DeltaH, Times;
    var u, v, w := CashTerms(m, c, h, strike, f), CashTerms(m, c, h, strike, g), CashTerms(m, c, h, strike, sum);
    forall j | 0 <= j < |h.fixed| ensures w(j) == u(j) + v(j) {
      TimesAdds(Cash(c, h, strike, j), f(DeltaH(m, h, j)), g(DeltaH(m, h, j)));
    }
    SumAdds(u, v, w, |h.fixed|);
  }

  /** The swap of given cash sums and weights. */
  function TotalOf(m: Model, c: Curves, h: Helper, cash: real, atStart: real, atLast: real): real
    requires Valid(h)
  {
    Total(cash, StartAmount(c, h), StartDiscount(c, h), atStart, c.disc(h.fixed[h.last].pay), atLast)
  }

  lemma WeighedIsTotal(m: Model, c: Curves, h: Helper, strike: real, g: Fn)
    requires Valid(h)
    ensures Weighed(m, c, h, strike, g)
            == TotalOf(m, c, h, Sum(CashTerms(m, c, h, strike, g), |h.fixed|), g(0.0), g(DeltaH(m, h, h.last)))
  {
  }

  lemma SwapsAdd(m: Model, c: Curves, h: Helper, strike: real, f: Fn, g: Fn, sum: Fn)
    requires Valid(h) && AddsTo(f, g, sum)
    ensures Weighed(m, c, h, strike, sum) == Weighed(m, c, h, strike, f) + Weighed(m, c, h, strike, g)
  {
    hide Total, Sum;
    CashAdds(m, c, h, strike, f, g, sum);
    WeighedIsTotal(m, c, h, strike, f);
    WeighedIsTotal(m, c, h, strike, g);
    WeighedIsTotal(m, c, h, strike, sum);
    TotalsAdd(Sum(CashTerms(m, c, h, strike, f), |h.fixed|), Sum(CashTerms(m, c, h, strike, g), |h.fixed|),
              StartAmount(c, h), StartDiscount(c, h), c.disc(h.fixed[h.last].pay), f(0.0), g(0.0),
              f(DeltaH(m, h, h.last)), g(DeltaH(m, h, h.last)));
  }

  lemma TimesAdds(x: real, p: real, q: real)
    ensures Times(x, p + q) == Times(x, p) + Times(x, q)
  {
    assert x * (p + q) == x * p + x * q;
  }

  lemma TotalsAdd(a: real, b: real, s: real, d0: real, dLast: real, p: real, q: real, pLast: real, qLast: real)
    ensures Total(a + b, s, d0, p + q, dLast, pLast + qLast)
            == Total(a, s, d0, p, dLast, pLast) + Total(b, s, d0, q, dLast, qLast)
  {
    var x := s * d0;
    assert x * p + x * q == x * (p + q);
    assert d0 * p + d0 * q == d0 * (p + q);
    assert dLast * pLast + dLast * qLast == dLast * (pLast + qLast);
  }

  /** The normal CDF is symmetric. */
  ghost predicate IsSymmetric(cdf: Fn) {
    forall x, y :: y == -x ==> cdf(x) + cdf(y) == 1.0
  }

  lemma ProbabilitiesShare(m: Model, y: real, zeta: real)
    requires IsSymmetric(m.cdf)
    ensures AddsTo(Probability(m, 1.0, y, zeta), Probability(m, -1.0, y, zeta), Everywhere)
  {
    forall dh ensures Probability(m, 1.0, y, zeta)(dh) + Probability(m, -1.0, y, zeta)(dh) == 1.0 {
      hide Argument;
      ArgumentNegated(m, y, zeta, dh);
    }
  }

  lemma ArgumentNegated(m: Model, y: real, zeta: real, dh: real)
    ensures Argument(m, -1.0, y, zeta, dh) == -Argument(m, 1.0, y, zeta, dh)
  {
    var z := y + Times(dh, zeta);
    assert Times(-1.0, z) == -Times(1.0, z);
    OverNegated(Times(1.0, z), m.sqrt(zeta));
  }

  lemma OverNegated(x: real, d: real)
    ensures Over(-x, d) == -Over(x, d)
  {
    if d != 0.0 {
      assert Over(x, d) * d == x && Over(-x, d) * d == -x;
      NonzeroProduct(Over(x, d) + Over(-x, d), d);
      assert (Over(x, d) + Over(-x, d)) * d == 0.0;
    }
  }

  /** Receiver less payer is the forward swap, whatever the variance, the reversion and the root found: the
      parity the market's formula has on the same strike. */
  lemma ModelParity(m: Model, c: Curves, h: Helper, strike: real, zeta: real)
    requires Regular(h) && Positive(c) && Annuity(c, h) != 0.0 && IsSymmetric(m.cdf)
    ensures OptionValue(m, c, h, strike, true, zeta) - OptionValue(m, c, h, strike, false, zeta)
            == Times(Annuity(c, h), strike - Forward(c, h))
  {
    var y := m.root(Underlying(m, c, h, strike, zeta));
    var f, g := Probability(m, 1.0, y, zeta), Probability(m, -1.0, y, zeta);
    ProbabilitiesShare(m, y, zeta);
    SwapsAdd(m, c, h, strike, f, g, Everywhere);
    SwapIsAnnuity(m, c, h, strike);
    SignedTimes(Weighed(m, c, h, strike, f));
    SignedTimes(Weighed(m, c, h, strike, g));
  }

  lemma SignedTimes(x: real)
    ensures Times(1.0, x) == x && Times(x, 1.0) == x && Times(-1.0, x) == -x
  {
  }
}
