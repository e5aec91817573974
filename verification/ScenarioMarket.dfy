/** The simulated market as one linear map of the state (engine/market_simulation/scenario_market.py):
    its layout, its evaluation in difference form, and the curve, numeraire and spot formulas it stands
    for. A date is an index; H, zeta, the curves, exp and the log of the floor are parameters. */
module ScenarioMarket {
  import opened LinearAlgebra
  import opened Powers
  import opened Paths

  type Fn = real -> real

  /** A currency's rates: its LGM's H and zeta, and its curve's log discount factor. */
  datatype Rates = Rates(accumulated: Fn, zeta: Fn, logDiscount: Fn)

  /** The components in state order: rates, then FX, then equity. */
  datatype Model = Model(ir: seq<Rates>, fx: nat, equity: nat)

  function Dimension(m: Model): nat {
    |m.ir| + m.fx + m.equity
  }

  /** A curve to simulate: the state of its currency and its log discount factor today. */
  datatype Target = Target(state: nat, logDiscount: Fn)

  /** The dates' times and each date's tenors. */
  datatype Grid = Grid(times: int -> real, tenors: (int, int) -> real, tenorCount: nat)

  // ----- the formulas -------------------------------------------------------------------------

  /** `log_discount_split`: ln P(t, t + tau) at z = 0 ... */
  function CurveLevel(target: Fn, r: Rates, t: real, tau: real): real {
    var H, H' := r.accumulated(t), r.accumulated(t + tau);
    target(t + tau) - target(t) - 0.5 * Times(Times(H', H') - Times(H, H), r.zeta(t))
  }

  /** ... and its slope in z. */
  function CurveSlope(r: Rates, t: real, tau: real): real {
    -(r.accumulated(t + tau) - r.accumulated(t))
  }

  /** `log_numeraire_split`. */
  function NumeraireLevel(r: Rates, t: real): real {
    0.5 * Times(Times(r.accumulated(t), r.accumulated(t)), r.zeta(t)) - r.logDiscount(t)
  }

  function Floored(x: real, floor: real): (r: real)
    ensures r >= floor && r >= x && (r == floor || r == x)
  {
    if x < floor then floor else x
  }

  /** `implied_log_discounts`. */
  function ImpliedLogDiscount(target: Fn, r: Rates, t: real, tau: real, z: real, floor: real): real {
    Floored(CurveLevel(target, r, t, tau) + Times(CurveSlope(r, t, tau), z), floor)
  }

  function LogNumeraire(r: Rates, t: real, z: real): real {
    NumeraireLevel(r, t) + Times(r.accumulated(t), z)
  }

  /** A bond of any curve, deflated by the numeraire, is the curve's own forward discount factor today times
      the numeraire curve's, times the exponential martingale of H(t + tau): what H is at the date cancels. On
      the numeraire's own curve the date's discount factor cancels too. */
  lemma DeflatedBond(target: Fn, r: Rates, t: real, tau: real, z: real)
    ensures var H' := r.accumulated(t + tau);
            CurveLevel(target, r, t, tau) + Times(CurveSlope(r, t, tau), z) - LogNumeraire(r, t, z)
            == target(t + tau) - target(t) + r.logDiscount(t) - Times(H', z) - 0.5 * Times(Times(H', H'), r.zeta(t))
  {
    CompleteSquare(r.accumulated(t), r.accumulated(t + tau), r.zeta(t), z);
  }

  lemma CompleteSquare(H: real, H': real, zeta: real, z: real)
    ensures -0.5 * Times(Times(H', H') - Times(H, H), zeta) + Times(-(H' - H), z)
            - (0.5 * Times(Times(H, H), zeta) + Times(H, z))
            == -Times(H', z) - 0.5 * Times(Times(H', H'), zeta)
  {
    assert (H' * H' - H * H) * zeta == H' * H' * zeta - H * H * zeta;
    assert -(H' - H) * z == H * z - H' * z;
  }

  // ----- the layout ---------------------------------------------------------------------------

  /** One column of the map: its level on each date and its loading on each date and state. */
  datatype Column = Column(level: int -> real, loading: Mat)

  /** `column`: a slope on one state, none on the others. */
  function OnState(level: int -> real, state: nat, slope: int -> real): Column {
    Column(level, (date, i) => if i == state then slope(date) else 0.0)
  }

  function CurveColumn(m: Model, g: Grid, target: Target, tenor: int): Column
    requires target.state < |m.ir|
  {
    var r := m.ir[target.state];
    OnState(date => CurveLevel(target.logDiscount, r, g.times(date), g.tenors(date, tenor)), target.state,
            date => CurveSlope(r, g.times(date), g.tenors(date, tenor)))
  }

  function NumeraireColumn(m: Model, g: Grid): Column
    requires |m.ir| > 0
  {
    OnState(date => NumeraireLevel(m.ir[0], g.times(date)), 0, date => m.ir[0].accumulated(g.times(date)))
  }

  function SpotColumn(state: nat): Column {
    OnState(date => 0.0, state, date => 1.0)
  }

  predicate ValidTargets(m: Model, targets: seq<Target>) {
    |m.ir| > 0 && forall k :: 0 <= k < |targets| ==> targets[k].state < |m.ir|
  }

  /** The columns of one curve, tenor by tenor. */
  function Block(m: Model, g: Grid, target: Target): (r: seq<Column>)
    requires target.state < |m.ir|
    ensures |r| == g.tenorCount && forall n :: 0 <= n < |r| ==> r[n] == CurveColumn(m, g, target, n)
  {
    seq(g.tenorCount, n requires 0 <= n < g.tenorCount => CurveColumn(m, g, target, n))
  }

  /** How many columns `n` curves take. */
  function Width(g: Grid, n: nat): nat {
    n * g.tenorCount
  }

  /** The columns of curve `k` are those from k K on. */
  ghost predicate CurveAt(m: Model, g: Grid, targets: seq<Target>, columns: seq<Column>, k: nat)
    requires ValidTargets(m, targets) && k < |targets|
  {
    && Width(g, k) + g.tenorCount <= |columns|
    && forall n :: 0 <= n < g.tenorCount ==> columns[Width(g, k) + n] == CurveColumn(m, g, targets[k], n)
  }

  lemma WidthNext(g: Grid, n: nat)
    ensures Width(g, n + 1) == Width(g, n) + g.tenorCount
  {
  }

  lemma {:induction false} WidthOrder(g: Grid, k: nat, n: nat)
    requires k <= n
    ensures Width(g, k) <= Width(g, n)
  {
    if k < n {
      WidthOrder(g, k, n - 1);
      WidthNext(g, n - 1);
    }
  }

  lemma CurveStays(m: Model, g: Grid, targets: seq<Target>, columns: seq<Column>, more: seq<Column>, k: nat)
    requires ValidTargets(m, targets) && k < |targets| && CurveAt(m, g, targets, columns, k)
    ensures CurveAt(m, g, targets, columns + more, k)
  {
  }

  lemma CurveAppended(m: Model, g: Grid, targets: seq<Target>, columns: seq<Column>, k: nat)
    requires ValidTargets(m, targets) && k < |targets| && |columns| == Width(g, k)
    ensures CurveAt(m, g, targets, columns + Block(m, g, targets[k]), k)
  {
    var more := Block(m, g, targets[k]);
    forall n | 0 <= n < g.tenorCount
      ensures (columns + more)[Width(g, k) + n] == CurveColumn(m, g, targets[k], n)
    {
      assert (columns + more)[Width(g, k) + n] == more[n];
    }
  }

  /** The spots' columns follow the one at `start`. */
  ghost predicate SpotAt(m: Model, start: nat, columns: seq<Column>, j: nat) {
    start + 1 + j < |columns| && columns[start + 1 + j] == SpotColumn(|m.ir| + j)
  }

  ghost predicate IsLayout(m: Model, g: Grid, targets: seq<Target>, columns: seq<Column>)
    requires ValidTargets(m, targets)
  {
    var curves := Width(g, |targets|);
    && |columns| == curves + 1 + m.fx + m.equity
    && (forall k :: 0 <= k < |targets| ==> CurveAt(m, g, targets, columns, k))
    && columns[curves] == NumeraireColumn(m, g)
    && (forall j :: 0 <= j < m.fx + m.equity ==> SpotAt(m, curves, columns, j))
  }

  /** `_layout`: the curves' columns, the domestic numeraire's, and every spot's, in that order. */
  method Layout(m: Model, g: Grid, targets: seq<Target>) returns (columns: seq<Column>)
    requires ValidTargets(m, targets)
    ensures IsLayout(m, g, targets, columns)
  {
    hide CurveColumn, NumeraireColumn, SpotColumn, CurveAt;
    columns := [];
    for k := 0 to |targets|
      invariant |columns| == Width(g, k)
      invariant forall h :: 0 <= h < k ==> CurveAt(m, g, targets, columns, h)
    {
      CurveAppended(m, g, targets, columns, k);
      forall h | 0 <= h < k ensures CurveAt(m, g, targets, columns + Block(m, g, targets[k]), h) {
        CurveStays(m, g, targets, columns, Block(m, g, targets[k]), h);
      }
      WidthNext(g, k);
      columns := columns + Block(m, g, targets[k]);
    }
    ghost var curves, start := columns, Width(g, |targets|);
    columns := columns + [NumeraireColumn(m, g)];
    for j := 0 to m.fx + m.equity
      invariant |columns| == start + 1 + j
      invariant curves + [NumeraireColumn(m, g)] <= columns
      invariant forall h :: 0 <= h < j ==> SpotAt(m, start, columns, h)
    {
      var more := columns + [SpotColumn(|m.ir| + j)];
      forall h | 0 <= h <= j ensures SpotAt(m, start, more, h) {
        assert h < j ==> SpotAt(m, start, columns, h);
      }
      columns := more;
    }
    forall k | 0 <= k < |targets| ensures CurveAt(m, g, targets, columns, k) {
      CurveStays(m, g, targets, curves, columns[|curves|..], k);
      assert curves + columns[|curves|..] == columns;
    }
  }

  // ----- one product for the whole market -----------------------------------------------------

  /** A state's deviation from the mean in units of the scale. */
  function DeviationOf(x: Vec, mean: Vec, scale: Vec): Vec {
    i => Times(x(i) - mean(i), Inverse(scale(i)))
  }

  function ScaledLoading(c: Column, date: int, scale: Vec): Vec {
    i => Times(c.loading(date, i), scale(i))
  }

  /** A column's level at the mean state. */
  function MeanLevel(c: Column, date: int, mean: Vec, d: nat): real {
    c.level(date) + Dot(mean, RowOf(c.loading, date), d)
  }

  /** A column's value in difference form: the level at the mean, and the product of the deviation with
      the scaled loadings. */
  function Value(c: Column, date: int, x: Vec, mean: Vec, scale: Vec, d: nat): real {
    MeanLevel(c, date, mean, d) + Dot(DeviationOf(x, mean, scale), ScaledLoading(c, date, scale), d)
  }

  /** The difference form is the plain linear map, for every mean and every choice of non-zero scales. */
  lemma ValueIsLinear(c: Column, date: int, x: Vec, mean: Vec, scale: Vec, d: nat)
    requires forall i :: 0 <= i < d ==> scale(i) != 0.0
    ensures Value(c, date, x, mean, scale, d) == c.level(date) + Dot(x, RowOf(c.loading, date), d)
  {
    var row, dev, load := RowOf(c.loading, date), DeviationOf(x, mean, scale), ScaledLoading(c, date, scale);
    var moved: Vec := i => x(i) - mean(i);
    forall i | 0 <= i < d ensures ScaledProduct(dev(i), load(i), moved(i), row(i), 1.0) {
      Rescale(x(i) - mean(i), Inverse(scale(i)), row(i), scale(i));
    }
    DotTermwise(dev, load, moved, row, 1.0, d);
    forall i | 0 <= i < d ensures x(i) == mean(i) + moved(i) {
    }
    DotOfSum(row, mean, moved, x, d);
    DotSymmetric(row, mean, d);
    DotSymmetric(row, moved, d);
    DotSymmetric(row, x, d);
  }

  lemma Rescale(a: real, inverse: real, load: real, scale: real)
    requires scale * inverse == 1.0
    ensures ScaledProduct(Times(a, inverse), Times(load, scale), a, load, 1.0)
  {
    assert (a * inverse) * (load * scale) == (a * load) * (scale * inverse);
  }

  /** A column on one state reads only that state. */
  lemma OnStateReads(level: int -> real, state: nat, slope: int -> real, date: int, x: Vec, d: nat)
    requires state < d
    ensures Dot(x, RowOf(OnState(level, state, slope).loading, date), d) == Times(slope(date), x(state))
  {
    var zero: Vec := i => 0.0;
    var row, bumped := RowOf(OnState(level, state, slope).loading, date), Bumped(zero, state, slope(date));
    forall i | 0 <= i < d ensures row(i) == bumped(i) {
    }
    DotExt(x, row, x, bumped, d);
    DotSymmetric(x, bumped, d);
    DotBumped(zero, state, slope(date), x, d);
    DotTail(zero, x, 0, d);
  }

  // ----- the market -----------------------------------------------------------------------------

  /** Every column's value on one date of one path. */
  function Values(columns: seq<Column>, date: int, x: Vec, mean: Vec, scale: Vec, d: nat): (r: seq<real>)
    ensures |r| == |columns|
    ensures forall c :: 0 <= c < |columns| ==> r[c] == Value(columns[c], date, x, mean, scale, d)
  {
    seq(|columns|, c requires 0 <= c < |columns| => Value(columns[c], date, x, mean, scale, d))
  }

  /** A market on one date of one path: log discount factors curve by curve, numeraire and spots. */
  datatype Market = Market(logs: seq<seq<real>>, numeraire: real, fx: seq<real>, equity: seq<real>)

  /** The values of curve `k`, cut out of all columns' and floored. */
  function CurveLogs(values: seq<real>, g: Grid, k: nat, floor: real): (r: seq<real>)
    requires Width(g, k + 1) <= |values|
    ensures |r| == g.tenorCount
    ensures forall n :: 0 <= n < |r| ==> r[n] == Floored(values[Width(g, k) + n], floor)
  {
    WidthNext(g, k);
    var cut := values[Width(g, k)..Width(g, k + 1)];
    seq(g.tenorCount, n requires 0 <= n < g.tenorCount => Floored(cut[n], floor))
  }

  /** `_market_values`: the columns cut into curves, floored, and spots, exponentiated. */
  function MarketValues(values: seq<real>, g: Grid, curves: nat, fx: nat, equity: nat, floor: real, exp: Fn): Market
    requires |values| == Width(g, curves) + 1 + fx + equity
  {
    var start := Width(g, curves);
    Market(seq(curves, k requires 0 <= k < curves => (WidthOrder(g, k + 1, curves); CurveLogs(values, g, k, floor))),
           exp(values[start]), Spots(values, start, fx, exp), Spots(values, start + fx, equity, exp))
  }

  /** The exponentials of the `n` values after `start`. */
  function Spots(values: seq<real>, start: nat, n: nat, exp: Fn): (r: seq<real>)
    requires start + 1 + n <= |values|
    ensures |r| == n && forall j :: 0 <= j < n ==> r[j] == exp(values[start + 1 + j])
  {
    seq(n, j requires 0 <= j < n => exp(values[start + 1 + j]))
  }

  /** The market the formulas give, curve by curve and spot by spot. */
  function MarketByFormula(m: Model, g: Grid, targets: seq<Target>, date: int, x: Vec, floor: real, exp: Fn): Market
    requires ValidTargets(m, targets)
  {
    Market(seq(|targets|, k requires 0 <= k < |targets| => ImpliedLogs(m, g, targets[k], date, x, floor)),
           exp(LogNumeraire(m.ir[0], g.times(date), x(0))),
           StateSpots(|m.ir|, m.fx, x, exp), StateSpots(|m.ir| + m.fx, m.equity, x, exp))
  }

  function ImpliedLogs(m: Model, g: Grid, target: Target, date: int, x: Vec, floor: real): (r: seq<real>)
    requires target.state < |m.ir|
    ensures |r| == g.tenorCount
  {
    seq(g.tenorCount, n requires 0 <= n < g.tenorCount =>
        ImpliedLogDiscount(target.logDiscount, m.ir[target.state], g.times(date), g.tenors(date, n),
                           x(target.state), floor))
  }

  function StateSpots(first: nat, n: nat, x: Vec, exp: Fn): (r: seq<real>)
    ensures |r| == n && forall j :: 0 <= j < n ==> r[j] == exp(x(first + j))
  {
    seq(n, j requires 0 <= j < n => exp(x(first + j)))
  }

  lemma CurveValue(m: Model, g: Grid, target: Target, n: int, date: int, x: Vec, mean: Vec, scale: Vec)
    requires target.state < |m.ir| && forall i :: 0 <= i < Dimension(m) ==> scale(i) != 0.0
    ensures var r, t, tau := m.ir[target.state], g.times(date), g.tenors(date, n);
            Value(CurveColumn(m, g, target, n), date, x, mean, scale, Dimension(m))
            == CurveLevel(target.logDiscount, r, t, tau) + Times(CurveSlope(r, t, tau), x(target.state))
  {
    var r := m.ir[target.state];
    ValueIsLinear(CurveColumn(m, g, target, n), date, x, mean, scale, Dimension(m));
    OnStateReads(date => CurveLevel(target.logDiscount, r, g.times(date), g.tenors(date, n)), target.state,
                 date => CurveSlope(r, g.times(date), g.tenors(date, n)), date, x, Dimension(m));
  }

  lemma NumeraireValue(m: Model, g: Grid, date: int, x: Vec, mean: Vec, scale: Vec)
    requires |m.ir| > 0 && forall i :: 0 <= i < Dimension(m) ==> scale(i) != 0.0
    ensures Value(NumeraireColumn(m, g), date, x, mean, scale, Dimension(m))
            == LogNumeraire(m.ir[0], g.times(date), x(0))
  {
    ValueIsLinear(NumeraireColumn(m, g), date, x, mean, scale, Dimension(m));
    OnStateReads(date => NumeraireLevel(m.ir[0], g.times(date)), 0, date => m.ir[0].accumulated(g.times(date)),
                 date, x, Dimension(m));
  }

  lemma SpotValue(m: Model, state: nat, date: int, x: Vec, mean: Vec, scale: Vec)
    requires state < Dimension(m) && forall i :: 0 <= i < Dimension(m) ==> scale(i) != 0.0
    ensures Value(SpotColumn(state), date, x, mean, scale, Dimension(m)) == x(state)
  {
    ValueIsLinear(SpotColumn(state), date, x, mean, scale, Dimension(m));
    OnStateReads(date => 0.0, state, date => 1.0, date, x, Dimension(m));
  }

  // ----- the fused market is the one of the formulas ------------------------------------------

  /** Value `n` of curve `k` is the formula's, not yet floored. */
  ghost predicate CurveMeasured(m: Model, g: Grid, targets: seq<Target>, values: seq<real>, date: int, x: Vec,
                                k: nat, n: nat)
    requires ValidTargets(m, targets) && k < |targets|
  {
    var r, t, tau := m.ir[targets[k].state], g.times(date), g.tenors(date, n);
    && Width(g, k) + n < |values|
    && values[Width(g, k) + n]
       == CurveLevel(targets[k].logDiscount, r, t, tau) + Times(CurveSlope(r, t, tau), x(targets[k].state))
  }

  ghost predicate SpotMeasured(m: Model, values: seq<real>, start: nat, x: Vec, j: nat) {
    start + 1 + j < |values| && values[start + 1 + j] == x(|m.ir| + j)
  }

  /** All values are the formulas'. */
  ghost predicate Measured(m: Model, g: Grid, targets: seq<Target>, values: seq<real>, date: int, x: Vec)
    requires ValidTargets(m, targets)
  {
    var start := Width(g, |targets|);
    && |values| == start + 1 + m.fx + m.equity
    && (forall k, n :: 0 <= k < |targets| && 0 <= n < g.tenorCount ==>
          CurveMeasured(m, g, targets, values, date, x, k, n))
    && values[start] == LogNumeraire(m.ir[0], g.times(date), x(0))
    && (forall j :: 0 <= j < m.fx + m.equity ==> SpotMeasured(m, values, start, x, j))
  }

  lemma ValuesAreMeasured(m: Model, g: Grid, targets: seq<Target>, columns: seq<Column>, date: int, x: Vec,
                          mean: Vec, scale: Vec, values: seq<real>)
    requires ValidTargets(m, targets) && IsLayout(m, g, targets, columns)
    requires forall i :: 0 <= i < Dimension(m) ==> scale(i) != 0.0
    requires values == Values(columns, date, x, mean, scale, Dimension(m))
    ensures Measured(m, g, targets, values, date, x)
  {
    forall k: nat, n: nat | k < |targets| && n < g.tenorCount
      ensures CurveMeasured(m, g, targets, values, date, x, k, n)
    {
      assert CurveAt(m, g, targets, columns, k);
      CurveValue(m, g, targets[k], n, date, x, mean, scale);
    }
    NumeraireValue(m, g, date, x, mean, scale);
    forall j: nat | j < m.fx + m.equity ensures SpotMeasured(m, values, Width(g, |targets|), x, j) {
      assert SpotAt(m, Width(g, |targets|), columns, j);
      SpotValue(m, |m.ir| + j, date, x, mean, scale);
    }
  }

  lemma CurveIsImplied(m: Model, g: Grid, targets: seq<Target>, values: seq<real>, date: int, x: Vec, floor: real,
                       k: nat)
    requires ValidTargets(m, targets) && Measured(m, g, targets, values, date, x) && k < |targets|
    ensures Width(g, k + 1) <= |values|
    ensures CurveLogs(values, g, k, floor) == ImpliedLogs(m, g, targets[k], date, x, floor)
  {
    WidthOrder(g, k + 1, |targets|);
    var fused, implied := CurveLogs(values, g, k, floor), ImpliedLogs(m, g, targets[k], date, x, floor);
    forall n | 0 <= n < g.tenorCount ensures fused[n] == implied[n] {
      assert CurveMeasured(m, g, targets, values, date, x, k, n);
    }
  }

  lemma SpotsAreStates(m: Model, values: seq<real>, start: nat, x: Vec, exp: Fn, first: nat, n: nat)
    requires forall j :: 0 <= j < first + n ==> SpotMeasured(m, values, start, x, j)
    requires start + first + 1 + n <= |values|
    ensures Spots(values, start + first, n, exp) == StateSpots(|m.ir| + first, n, x, exp)
  {
    var fused, states := Spots(values, start + first, n, exp), StateSpots(|m.ir| + first, n, x, exp);
    forall j | 0 <= j < n ensures fused[j] == states[j] {
      assert SpotMeasured(m, values, start, x, first + j);
    }
  }

  lemma MeasuredMarket(m: Model, g: Grid, targets: seq<Target>, values: seq<real>, date: int, x: Vec, floor: real,
                       exp: Fn)
    requires ValidTargets(m, targets) && Measured(m, g, targets, values, date, x)
    ensures MarketValues(values, g, |targets|, m.fx, m.equity, floor, exp)
            == MarketByFormula(m, g, targets, date, x, floor, exp)
  {
    hide CurveMeasured, SpotMeasured, ImpliedLogs, LogNumeraire;
    var fused := MarketValues(values, g, |targets|, m.fx, m.equity, floor, exp);
    var formula := MarketByFormula(m, g, targets, date, x, floor, exp);
    forall k | 0 <= k < |targets| ensures fused.logs[k] == formula.logs[k] {
      CurveIsImplied(m, g, targets, values, date, x, floor, k);
    }
    SpotsAreStates(m, values, Width(g, |targets|), x, exp, 0, m.fx);
    SpotsAreStates(m, values, Width(g, |targets|), x, exp, m.fx, m.equity);
  }

  /** On every date and path, whatever the state, the mean and the non-zero scales it is measured by, the
      fused map gives the market of the formulas: each curve's log discount factors floored, the domestic
      numeraire, and every FX and equity spot. */
  lemma FusedMarketIsByFormula(m: Model, g: Grid, targets: seq<Target>, columns: seq<Column>, date: int, x: Vec,
                               mean: Vec, scale: Vec, floor: real, exp: Fn)
    requires ValidTargets(m, targets) && IsLayout(m, g, targets, columns)
    requires forall i :: 0 <= i < Dimension(m) ==> scale(i) != 0.0
    ensures MarketValues(Values(columns, date, x, mean, scale, Dimension(m)), g, |targets|, m.fx, m.equity, floor, exp)
            == MarketByFormula(m, g, targets, date, x, floor, exp)
  {
    var values := Values(columns, date, x, mean, scale, Dimension(m));
    ValuesAreMeasured(m, g, targets, columns, date, x, mean, scale, values);
    MeasuredMarket(m, g, targets, values, date, x, floor, exp);
  }

  /** The formulas read a state only in its own components. */
  lemma FormulaReadsState(m: Model, g: Grid, targets: seq<Target>, date: int, x: Vec, x': Vec, floor: real, exp: Fn)
    requires ValidTargets(m, targets) && forall i :: 0 <= i < Dimension(m) ==> x(i) == x'(i)
    ensures MarketByFormula(m, g, targets, date, x, floor, exp) == MarketByFormula(m, g, targets, date, x', floor, exp)
  {
    var a := MarketByFormula(m, g, targets, date, x, floor, exp);
    var b := MarketByFormula(m, g, targets, date, x', floor, exp);
    assert a.fx == b.fx;
    assert a.equity == b.equity;
    forall k | 0 <= k < |targets| ensures a.logs[k] == b.logs[k] {
      assert x(targets[k].state) == x'(targets[k].state);
    }
  }

  /** From noise to market: simulated in difference form and fused into one map, a path's market on every
      date is that of the formulas on the state of the direct recursion. */
  lemma SimulatedMarketIsByFormula(m: Model, g: Grid, targets: seq<Target>, columns: seq<Column>, steps: seq<Step>,
                                   initial: Vec, scales: seq<Vec>, noise: seq<Vec>, i: nat, floor: real, exp: Fn)
    requires ValidTargets(m, targets) && IsLayout(m, g, targets, columns)
    requires i <= |steps| == |noise| && |scales| == |steps| + 1 && NonzeroScales(scales, Dimension(m))
    ensures var d := Dimension(m);
            var x := StateAt(steps, initial, scales, noise, d, i);
            MarketValues(Values(columns, i, x, MeanAt(steps, initial, d, i), scales[i], d), g, |targets|,
                         m.fx, m.equity, floor, exp)
            == MarketByFormula(m, g, targets, i, DirectAt(steps, initial, noise, d, i), floor, exp)
  {
    var d := Dimension(m);
    var x := StateAt(steps, initial, scales, noise, d, i);
    forall r | 0 <= r < d ensures scales[i](r) != 0.0 {
      assert NonzeroAt(scales, i, r);
    }
    FusedMarketIsByFormula(m, g, targets, columns, i, x, MeanAt(steps, initial, d, i), scales[i], floor, exp);
    DifferenceFormIsDirect(steps, initial, scales, noise, d, i);
    FormulaReadsState(m, g, targets, i, x, DirectAt(steps, initial, noise, d, i), floor, exp);
  }
}
