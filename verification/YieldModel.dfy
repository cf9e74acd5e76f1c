/** Yield quantiles and NDVI downscaling (agri/yield_model.py). */
module YieldModel {
  import opened Wrappers
  import opened Sums
  import opened Sorting

  datatype YieldError = Unordered | NegativeYield | NoDistribution | NdviOutOfRange | RainfallOutOfRange | BadCap | EmptySample

  datatype Prediction = Prediction(p50: real, p25: real, p10: real)

  /** The constructor's rules: ordered quantiles, none negative. */
  function Checked(p50: real, p25: real, p10: real): (r: Result<Prediction, YieldError>)
    ensures r == Err(Unordered) <==> p50 < p25 || p25 < p10
    ensures r == Err(NegativeYield) <==> p50 >= p25 >= p10 && p10 < 0.0
    ensures r.Ok? <==> p50 >= p25 >= p10 >= 0.0
    ensures r.Ok? ==> r.value.p50 == p50 && r.value.p25 == p25 && r.value.p10 == p10
  {
    if !(p50 >= p25 >= p10) then Err(Unordered)
    else if p10 < 0.0 then Err(NegativeYield)
    else Ok(Prediction(p50, p25, p10))
  }

  predicate Valid(p: Prediction) {
    p.p50 >= p.p25 >= p.p10 >= 0.0
  }

  // ----------------------------------------------------------------- downscaling

  function CountBelow(values: seq<real>, x: real): nat {
    if values == [] then 0
    else CountBelow(values[..|values| - 1], x) + (if values[|values| - 1] < x then 1 else 0)
  }

  function CountEqual(values: seq<real>, x: real): nat {
    if values == [] then 0
    else CountEqual(values[..|values| - 1], x) + (if values[|values| - 1] == x then 1 else 0)
  }

  /** Mid-rank percentile: everything below, and half of everything equal. */
  function Percentile(values: seq<real>, x: real): real
    requires values != []
  {
    (CountBelow(values, x) as real + CountEqual(values, x) as real / 2.0) / |values| as real
  }

  function Factor(percentile: real, maxAdjustment: real): real {
    1.0 + maxAdjustment * (2.0 * percentile - 1.0)
  }

  function Times(y: real, factor: real): real {
    y * factor
  }

  function Downscaled(district: Prediction, plot: real, values: seq<real>, maxAdjustment: real)
    : Result<(Prediction, real), YieldError>
  {
    if values == [] then Err(NoDistribution)
    else if !(-1.0 <= plot <= 1.0) then Err(NdviOutOfRange)
    else if !(0.0 < maxAdjustment <= 1.0) then Err(BadCap)
    else
      var percentile := Percentile(values, plot);
      var factor := Factor(percentile, maxAdjustment);
      match Checked(Times(district.p50, factor), Times(district.p25, factor), Times(district.p10, factor))
      case Err(e) => Err(e)
      case Ok(p) => Ok((p, percentile))
  }

  lemma {:induction false} CountsBounded(values: seq<real>, x: real)
    ensures CountBelow(values, x) + CountEqual(values, x) <= |values|
  {
    if values != [] {
      CountsBounded(values[..|values| - 1], x);
    }
  }

  lemma {:induction false} CountsMonotone(values: seq<real>, x: real, y: real)
    requires x < y
    ensures CountBelow(values, x) + CountEqual(values, x) <= CountBelow(values, y)
  {
    if values != [] {
      CountsMonotone(values[..|values| - 1], x, y);
    }
  }

  lemma PercentileBounds(values: seq<real>, x: real)
    requires values != []
    ensures 0.0 <= Percentile(values, x) <= 1.0
  {
    CountsBounded(values, x);
    var n, m := |values| as real, CountBelow(values, x) as real + CountEqual(values, x) as real / 2.0;
    assert 0.0 <= m <= n;
    DivideOrder(0.0, m, n);
    DivideOrder(m, n, n);
  }

  /** A greener plot never ranks lower. */
  lemma PercentileMonotone(values: seq<real>, x: real, y: real)
    requires values != [] && x <= y
    ensures Percentile(values, x) <= Percentile(values, y)
  {
    if x < y {
      CountsMonotone(values, x, y);
      var n := |values| as real;
      DivideOrder(CountBelow(values, x) as real + CountEqual(values, x) as real / 2.0,
                  CountBelow(values, y) as real + CountEqual(values, y) as real / 2.0, n);
    }
  }

  lemma FactorBounds(percentile: real, maxAdjustment: real)
    requires 0.0 <= percentile <= 1.0 && 0.0 < maxAdjustment <= 1.0
    ensures 0.0 <= 1.0 - maxAdjustment <= Factor(percentile, maxAdjustment) <= 1.0 + maxAdjustment
  {
    var t := 2.0 * percentile - 1.0;
    assert -1.0 <= t <= 1.0;
    assert maxAdjustment * t <= maxAdjustment && maxAdjustment * t >= -maxAdjustment;
  }

  lemma TimesOrder(y: real, f: real, g: real)
    requires y >= 0.0 && f <= g
    ensures Times(y, f) <= Times(y, g)
  {
  }

  lemma TimesKeepsOrder(a: real, b: real, factor: real)
    requires a >= b >= 0.0 && factor >= 0.0
    ensures Times(a, factor) >= Times(b, factor) >= 0.0
  {
  }

  /** One of a prediction's three quantiles. */
  datatype Level = Median | Quarter | Tenth

  function At(y: Prediction, level: Level): real {
    match level
    case Median => y.p50
    case Quarter => y.p25
    case Tenth => y.p10
  }

  /** Downscaling a valid district figure within the source's own input checks always succeeds: the
      constructor check cannot fire, and the factor stays within one plus or minus the cap. */
  lemma DownscaleSucceeds(district: Prediction, plot: real, values: seq<real>, maxAdjustment: real)
    requires Valid(district) && values != [] && -1.0 <= plot <= 1.0 && 0.0 < maxAdjustment <= 1.0
    ensures Downscaled(district, plot, values, maxAdjustment).Ok?
    ensures var (p, percentile) := Downscaled(district, plot, values, maxAdjustment).value;
            var factor := Factor(percentile, maxAdjustment);
            && Valid(p)
            && percentile == Percentile(values, plot)
            && p == Prediction(Times(district.p50, factor), Times(district.p25, factor), Times(district.p10, factor))
            && 1.0 - maxAdjustment <= factor <= 1.0 + maxAdjustment
  {
    hide Percentile, Factor, Times;
    var percentile := Percentile(values, plot);
    PercentileBounds(values, plot);
    FactorBounds(percentile, maxAdjustment);
    var factor := Factor(percentile, maxAdjustment);
    TimesKeepsOrder(district.p50, district.p25, factor);
    TimesKeepsOrder(district.p25, district.p10, factor);
  }

  lemma FactorMonotone(p: real, q: real, maxAdjustment: real)
    requires p <= q && maxAdjustment > 0.0
    ensures Factor(p, maxAdjustment) <= Factor(q, maxAdjustment)
  {
    assert maxAdjustment * (2.0 * q - 1.0) - maxAdjustment * (2.0 * p - 1.0) == maxAdjustment * (2.0 * (q - p));
    assert maxAdjustment * (2.0 * (q - p)) >= 0.0;
  }

  /** A greener plot is never allocated less, at any of the three quantiles. */
  lemma DownscaleMonotone(district: Prediction, x: real, y: real, values: seq<real>, maxAdjustment: real)
    requires Valid(district) && values != [] && 0.0 < maxAdjustment <= 1.0 && -1.0 <= x <= y <= 1.0
    ensures var a, b := Downscaled(district, x, values, maxAdjustment), Downscaled(district, y, values, maxAdjustment);
            && a.Ok? && b.Ok? && a.value.1 <= b.value.1
            && a.value.0.p50 <= b.value.0.p50 && a.value.0.p25 <= b.value.0.p25 && a.value.0.p10 <= b.value.0.p10
  {
    hide Percentile, Factor, Downscaled, Times;
    DownscaleSucceeds(district, x, values, maxAdjustment);
    DownscaleSucceeds(district, y, values, maxAdjustment);
    PercentileMonotone(values, x, y);
    FactorMonotone(Percentile(values, x), Percentile(values, y), maxAdjustment);
    var f, g := Factor(Percentile(values, x), maxAdjustment), Factor(Percentile(values, y), maxAdjustment);
    TimesOrder(district.p50, f, g);
    TimesOrder(district.p25, f, g);
    TimesOrder(district.p10, f, g);
  }

  // ---------------------------------------------------------------- conservation

  /** Twice the mid-rank of x: one per value below, a half-pair per equal value. */
  function Rank2(values: seq<real>, x: real): int {
    2 * CountBelow(values, x) + CountEqual(values, x)
  }

  function Ranks(plots: seq<real>, values: seq<real>): int {
    if plots == [] then 0 else Ranks(plots[..|plots| - 1], values) + Rank2(values, plots[|plots| - 1])
  }

  function CountAbove(values: seq<real>, x: real): nat {
    if values == [] then 0
    else CountAbove(values[..|values| - 1], x) + (if values[|values| - 1] > x then 1 else 0)
  }

  lemma {:induction false} Trichotomy(values: seq<real>, x: real)
    ensures CountBelow(values, x) + CountEqual(values, x) + CountAbove(values, x) == |values|
  {
    if values != [] {
      Trichotomy(values[..|values| - 1], x);
    }
  }

  /** One more value x in the population lifts every rank above it by two and every tie by one. */
  lemma {:induction false} RanksAgainstMore(plots: seq<real>, values: seq<real>, x: real)
    ensures Ranks(plots, values + [x]) == Ranks(plots, values) + 2 * CountAbove(plots, x) + CountEqual(plots, x)
  {
    assert (values + [x])[..|values|] == values;
    if plots != [] {
      RanksAgainstMore(plots[..|plots| - 1], values, x);
    }
  }

  /** Over a population ranked against itself, ties included, twice the mid-ranks total n^2. */
  lemma {:induction false} RanksTotal(values: seq<real>)
    ensures Ranks(values, values) == |values| * |values|
  {
    if values != [] {
      var k := |values| - 1;
      var front, x := values[..k], values[k];
      assert values == front + [x];
      RanksTotal(front);
      RanksAgainstMore(front, front, x);
      Trichotomy(front, x);
      assert Rank2(values, x) == 2 * CountBelow(front, x) + CountEqual(front, x) + 1;
    }
  }

  function Factors(plots: seq<real>, values: seq<real>, maxAdjustment: real): (r: seq<real>)
    requires values != []
    ensures |r| == |plots|
    ensures forall i :: 0 <= i < |plots| ==> r[i] == Factor(Percentile(values, plots[i]), maxAdjustment)
  {
    seq(|plots|, i requires 0 <= i < |plots| => Factor(Percentile(values, plots[i]), maxAdjustment))
  }

  lemma FactorFromRank(values: seq<real>, x: real, maxAdjustment: real)
    requires values != []
    ensures Factor(Percentile(values, x), maxAdjustment) * |values| as real
         == |values| as real + maxAdjustment * (Rank2(values, x) - |values|) as real
  {
    var n := |values| as real;
    var p := Percentile(values, x);
    assert 2.0 * (p * n) == Rank2(values, x) as real;
    assert (1.0 + maxAdjustment * (2.0 * p - 1.0)) * n == n + maxAdjustment * (2.0 * (p * n) - n);
  }

  lemma {:induction false} FactorsFromRanks(plots: seq<real>, values: seq<real>, maxAdjustment: real)
    requires values != []
    ensures Sum(Factors(plots, values, maxAdjustment)) * |values| as real
         == |plots| as real * |values| as real + maxAdjustment * (Ranks(plots, values) - |plots| * |values|) as real
  {
    hide Factor, Percentile, Rank2;
    var n := |values| as real;
    if plots != [] {
      var k := |plots| - 1;
      FactorsFromRanks(plots[..k], values, maxAdjustment);
      assert Factors(plots, values, maxAdjustment)[..k] == Factors(plots[..k], values, maxAdjustment);
      var s, f := Sum(Factors(plots[..k], values, maxAdjustment)), Factor(Percentile(values, plots[k]), maxAdjustment);
      FactorFromRank(values, plots[k], maxAdjustment);
      FactorsStep(s, f, n, maxAdjustment, k, |values|, Ranks(plots[..k], values), Rank2(values, plots[k]));
    } else {
      assert Sum([]) * n == 0.0;
    }
  }

  lemma FactorsStep(s: real, f: real, n: real, m: real, k: nat, size: nat, ranks: int, rank: int)
    requires n == size as real
    requires s * n == k as real * n + m * (ranks - k * size) as real
    requires f * n == n + m * (rank - size) as real
    ensures (s + f) * n == (k + 1) as real * n + m * (ranks + rank - (k + 1) * size) as real
  {
    assert (k + 1) * size == k * size + size;
    assert (s + f) * n == s * n + f * n;
    var a, b := (ranks - k * size) as real, (rank - size) as real;
    assert (ranks + rank - (k + 1) * size) as real == a + b;
    assert m * (a + b) == m * a + m * b;
    assert (k + 1) as real * n == k as real * n + n;
  }

  /** Conservation: over all n plots of the district's own list, ties included, the factors add up
      to n, so the plot figures add up to n times the district figure. */
  lemma DownscalingConserves(values: seq<real>, maxAdjustment: real)
    requires values != []
    ensures Sum(Factors(values, values, maxAdjustment)) == |values| as real
  {
    hide Factors, Ranks, Sum;
    FactorsFromRanks(values, values, maxAdjustment);
    RanksTotal(values);
    var n, s := |values| as real, Sum(Factors(values, values, maxAdjustment));
    assert maxAdjustment * 0 as real == 0.0;
    assert (s - n) * n == s * n - n * n == 0.0;
  }

  /** The same for the figures handed out: at each quantile they total n times the district's figure. */
  lemma AllocationTotal(district: Prediction, level: Level, values: seq<real>, maxAdjustment: real, figures: seq<real>)
    requires Valid(district) && values != [] && 0.0 < maxAdjustment <= 1.0
    requires forall i :: 0 <= i < |values| ==> -1.0 <= values[i] <= 1.0
    requires |figures| == |values|
    requires forall i :: 0 <= i < |values| ==>
      Downscaled(district, values[i], values, maxAdjustment).Ok?
      && figures[i] == At(Downscaled(district, values[i], values, maxAdjustment).value.0, level)
    ensures Sum(figures) == |values| as real * At(district, level)
  {
    hide Sum, Factor, Percentile, Valid, Downscaled;
    var factors := Factors(values, values, maxAdjustment);
    forall i | 0 <= i < |values|
      ensures figures[i] == At(district, level) * factors[i]
    {
      DownscaleSucceeds(district, values[i], values, maxAdjustment);
    }
    ScaledTotal(figures, factors, At(district, level));
    DownscalingConserves(values, maxAdjustment);
  }

  lemma ScaledTotal(figures: seq<real>, factors: seq<real>, x: real)
    requires |figures| == |factors| && forall i :: 0 <= i < |factors| ==> figures[i] == x * factors[i]
    ensures Sum(figures) == Sum(factors) * x
  {
    hide Sum;
    SumLinear(figures, factors, factors, x, 0.0);
  }

  // -------------------------------------------------------------------- quantiles

  function Ceiling(x: real): (r: int)
    ensures x <= r as real < x + 1.0
  {
    -((-x).Floor)
  }

  /** The exact rank q*n a quantile asks for. */
  function RankOf(q: real, n: nat): real {
    q * n as real
  }

  /** Position of the nearest rank t in a sorted sample of n. */
  function QuantileIndex(n: nat, t: real): (i: int)
    requires n > 0
    ensures 0 <= i < n
    ensures 0.0 < t <= n as real ==> i as real < t <= (i + 1) as real
  {
    var i := Ceiling(t) - 1;
    var capped := if i < n - 1 then i else n - 1;
    if capped > 0 then capped else 0
  }

  function Quantile(ordered: seq<real>, q: real): (r: Result<real, YieldError>)
    ensures r == Err(EmptySample) <==> ordered == []
  {
    if ordered == [] then Err(EmptySample) else Ok(ordered[QuantileIndex(|ordered|, RankOf(q, |ordered|))])
  }

  lemma {:induction false} BelowAtMostIndex(ordered: seq<real>, i: nat)
    requires Sorted(ordered, RealLe) && i < |ordered|
    ensures CountBelow(ordered, ordered[i]) <= i
    ensures CountBelow(ordered, ordered[i]) + CountEqual(ordered, ordered[i]) >= i + 1
  {
    var k := |ordered| - 1;
    if i < k {
      assert RealLe(ordered[i], ordered[k]);
      BelowAtMostIndex(ordered[..k], i);
    } else {
      CountsUpTo(ordered[..k], ordered[k]);
    }
  }

  lemma {:induction false} CountsUpTo(values: seq<real>, x: real)
    requires forall j :: 0 <= j < |values| ==> values[j] <= x
    ensures CountBelow(values, x) + CountEqual(values, x) == |values|
  {
    if values != [] {
      CountsUpTo(values[..|values| - 1], x);
    }
  }

  /** The nearest-rank quantile is the value at which the sample's cumulative share first reaches q. */
  lemma QuantileIsNearestRank(ordered: seq<real>, q: real)
    requires Sorted(ordered, RealLe) && ordered != [] && 0.0 < q <= 1.0
    ensures var x := Quantile(ordered, q).value;
            CountBelow(ordered, x) as real < RankOf(q, |ordered|) <= (CountBelow(ordered, x) + CountEqual(ordered, x)) as real
  {
    hide QuantileIndex, RankOf;
    var n := |ordered|;
    RankBounds(q, 1.0, n);
    BelowAtMostIndex(ordered, QuantileIndex(n, RankOf(q, n)));
  }

  lemma RankBounds(q: real, q': real, n: nat)
    requires q <= q' && n > 0
    ensures RankOf(q, n) <= RankOf(q', n)
    ensures q > 0.0 ==> RankOf(q, n) > 0.0
    ensures RankOf(1.0, n) == n as real
  {
  }

  lemma QuantileMonotone(ordered: seq<real>, q: real, q': real)
    requires Sorted(ordered, RealLe) && ordered != [] && q <= q'
    ensures Quantile(ordered, q).value <= Quantile(ordered, q').value
  {
    hide RankOf;
    var n := |ordered|;
    RankBounds(q, q', n);
    var i, j := QuantileIndex(n, RankOf(q, n)), QuantileIndex(n, RankOf(q', n));
    assert i <= j;
    assert i < j ==> RealLe(ordered[i], ordered[j]);
  }

  datatype Model = Model(intercept: real, ndvi: real, rainfall: real, residuals: seq<real>)

  function Floored(x: real): real {
    if x > 0.0 then x else 0.0
  }

  function Centre(model: Model, ndvi: real, rainfall: real): real {
    model.intercept + model.ndvi * ndvi + model.rainfall * rainfall
  }

  /** Prediction from the fitted line and the residual quantiles at 0.50, 0.25 and 0.10. */
  function Predicted(model: Model, ndvi: real, rainfall: real): Result<Prediction, YieldError> {
    if !(-1.0 <= ndvi <= 1.0) then Err(NdviOutOfRange)
    else if !(0.0 <= rainfall <= 1.0) then Err(RainfallOutOfRange)
    else if model.residuals == [] then Err(EmptySample)
    else
      var centre := Centre(model, ndvi, rainfall);
      Checked(Floored(centre + Quantile(model.residuals, 0.50).value),
              Floored(centre + Quantile(model.residuals, 0.25).value),
              Floored(centre + Quantile(model.residuals, 0.10).value))
  }

  /** A fitted model (sorted residuals) always meets the P50 >= P25 >= P10 >= 0 contract, and so
      does every plot figure downscaled from it. */
  lemma PredictionContract(model: Model, ndvi: real, rainfall: real, plot: real, values: seq<real>, maxAdjustment: real)
    requires model.residuals != [] && Sorted(model.residuals, RealLe)
    requires -1.0 <= ndvi <= 1.0 && 0.0 <= rainfall <= 1.0
    requires values != [] && -1.0 <= plot <= 1.0 && 0.0 < maxAdjustment <= 1.0
    ensures Predicted(model, ndvi, rainfall).Ok? && Valid(Predicted(model, ndvi, rainfall).value)
    ensures var r := Downscaled(Predicted(model, ndvi, rainfall).value, plot, values, maxAdjustment);
            r.Ok? && Valid(r.value.0)
  {
    hide Quantile, Percentile, Factor, Centre;
    QuantileMonotone(model.residuals, 0.10, 0.25);
    QuantileMonotone(model.residuals, 0.25, 0.50);
    DownscaleSucceeds(Predicted(model, ndvi, rainfall).value, plot, values, maxAdjustment);
  }

  // -------------------------------------------------- what the figures are made of

  /** The line passes through the intercept and rises by its coefficients. */
  lemma CentreIsAffine(model: Model, ndvi: real, rainfall: real, d: real)
    ensures Centre(model, 0.0, 0.0) == model.intercept
    ensures Centre(model, ndvi + d, rainfall) - Centre(model, ndvi, rainfall) == model.ndvi * d
    ensures Centre(model, ndvi, rainfall + d) - Centre(model, ndvi, rainfall) == model.rainfall * d
  {
    assert model.ndvi * (ndvi + d) == model.ndvi * ndvi + model.ndvi * d;
    assert model.rainfall * (rainfall + d) == model.rainfall * rainfall + model.rainfall * d;
  }

  /** y is the line's value plus the residual whose cumulative share first reaches one part in `parts`
      times `share`, floored at zero. */
  ghost predicate LineAndResidual(model: Model, ndvi: real, rainfall: real, share: nat, parts: nat, y: real) {
    exists x ::
      && x in model.residuals
      && parts * CountBelow(model.residuals, x) < share * |model.residuals|
      && share * |model.residuals| <= parts * (CountBelow(model.residuals, x) + CountEqual(model.residuals, x))
      && y >= 0.0 && y >= Centre(model, ndvi, rainfall) + x
      && (y == 0.0 || y == Centre(model, ndvi, rainfall) + x)
  }

  lemma QuantileIsResidual(model: Model, ndvi: real, rainfall: real, q: real, share: nat, parts: nat)
    requires model.residuals != [] && Sorted(model.residuals, RealLe)
    requires 0.0 < q <= 1.0 && parts > 0 && q * parts as real == share as real
    ensures LineAndResidual(model, ndvi, rainfall, share, parts, Floored(Centre(model, ndvi, rainfall) + Quantile(model.residuals, q).value))
  {
    hide Centre, CountBelow, CountEqual, QuantileIndex;
    var n := |model.residuals|;
    var x := Quantile(model.residuals, q).value;
    QuantileIsNearestRank(model.residuals, q);
    var below, upto := CountBelow(model.residuals, x), CountBelow(model.residuals, x) + CountEqual(model.residuals, x);
    RankTimes(q, n, share, parts, below, upto);
  }

  lemma RankTimes(q: real, n: nat, share: nat, parts: nat, below: nat, upto: nat)
    requires parts > 0 && q * parts as real == share as real
    requires below as real < RankOf(q, n) <= upto as real
    ensures parts * below < share * n <= parts * upto
  {
    var p, r := parts as real, RankOf(q, n);
    RankProduct(q, n as real, p, share as real);
    hide RankOf;
    ScaledRank(below as real, r, upto as real, p);
    ProductCast(below, parts);
    ProductCast(upto, parts);
    ProductCast(share, n);
  }

  lemma RankProduct(q: real, n: real, p: real, s: real)
    requires q * p == s
    ensures q * n * p == s * n
  {
    assert q * n * p == q * p * n;
  }

  lemma ProductCast(a: nat, b: nat)
    ensures a as real * b as real == (a * b) as real
  {
  }

  lemma ScaledRank(x: real, r: real, y: real, p: real)
    requires x < r <= y && p > 0.0
    ensures x * p < r * p <= y * p
  {
  }

  /** The three figures are the line plus the residuals at one half, one quarter and one tenth. */
  lemma PredictionQuantiles(model: Model, ndvi: real, rainfall: real)
    requires Sorted(model.residuals, RealLe) && Predicted(model, ndvi, rainfall).Ok?
    ensures var p := Predicted(model, ndvi, rainfall).value;
            && LineAndResidual(model, ndvi, rainfall, 1, 2, p.p50)
            && LineAndResidual(model, ndvi, rainfall, 1, 4, p.p25)
            && LineAndResidual(model, ndvi, rainfall, 1, 10, p.p10)
  {
    hide Centre, Floored, Quantile, LineAndResidual;
    QuantileIsResidual(model, ndvi, rainfall, 0.50, 1, 2);
    QuantileIsResidual(model, ndvi, rainfall, 0.25, 1, 4);
    QuantileIsResidual(model, ndvi, rainfall, 0.10, 1, 10);
  }

  /** A fitted model refuses exactly the readings out of range. */
  lemma PredictionRefuses(model: Model, ndvi: real, rainfall: real)
    requires model.residuals != [] && Sorted(model.residuals, RealLe)
    ensures var r := Predicted(model, ndvi, rainfall);
            && (r == Err(NdviOutOfRange) <==> ndvi < -1.0 || ndvi > 1.0)
            && (r == Err(RainfallOutOfRange) <==> -1.0 <= ndvi <= 1.0 && (rainfall < 0.0 || rainfall > 1.0))
            && (r.Ok? <==> -1.0 <= ndvi <= 1.0 && 0.0 <= rainfall <= 1.0)
  {
    hide Quantile, Centre;
    QuantileMonotone(model.residuals, 0.10, 0.25);
    QuantileMonotone(model.residuals, 0.25, 0.50);
  }

  /** A valid district figure is refused exactly for an empty district list, a plot reading or a cap out
      of range. */
  lemma DownscaleRefuses(district: Prediction, plot: real, values: seq<real>, maxAdjustment: real)
    requires Valid(district)
    ensures var r := Downscaled(district, plot, values, maxAdjustment);
            && (r.Ok? <==> values != [] && -1.0 <= plot <= 1.0 && 0.0 < maxAdjustment <= 1.0)
            && (r == Err(NoDistribution) <==> values == [])
            && (r == Err(NdviOutOfRange) <==> values != [] && (plot < -1.0 || plot > 1.0))
            && (r == Err(BadCap) <==> values != [] && -1.0 <= plot <= 1.0 && (maxAdjustment <= 0.0 || maxAdjustment > 1.0))
  {
    hide Percentile, Factor;
    if values != [] && -1.0 <= plot <= 1.0 && 0.0 < maxAdjustment <= 1.0 {
      DownscaleSucceeds(district, plot, values, maxAdjustment);
    }
  }

  lemma {:induction false} CountsArePositions(values: seq<real>, x: real)
    ensures CountBelow(values, x) == |set i | 0 <= i < |values| && values[i] < x|
    ensures CountEqual(values, x) == |set i | 0 <= i < |values| && values[i] == x|
  {
    if values != [] {
      var k := |values| - 1;
      CountsArePositions(values[..k], x);
      BelowPositions(values, x);
      EqualPositions(values, x);
    }
  }

  lemma BelowPositions(values: seq<real>, x: real)
    requires values != []
    ensures var (k, front) := (|values| - 1, values[..|values| - 1]);
            |set i | 0 <= i < |values| && values[i] < x|
            == |set i | 0 <= i < |front| && front[i] < x| + (if values[k] < x then 1 else 0)
  {
    var k, front := |values| - 1, values[..|values| - 1];
    var before := set i | 0 <= i < |front| && front[i] < x;
    assert (set i | 0 <= i < |values| && values[i] < x) == if values[k] < x then before + {k} else before;
  }

  lemma EqualPositions(values: seq<real>, x: real)
    requires values != []
    ensures var (k, front) := (|values| - 1, values[..|values| - 1]);
            |set i | 0 <= i < |values| && values[i] == x|
            == |set i | 0 <= i < |front| && front[i] == x| + (if values[k] == x then 1 else 0)
  {
    var k, front := |values| - 1, values[..|values| - 1];
    var before := set i | 0 <= i < |front| && front[i] == x;
    assert (set i | 0 <= i < |values| && values[i] == x) == if values[k] == x then before + {k} else before;
  }

  /** A plot with as many of the district's plots below it as above takes the district's figure unchanged. */
  lemma MiddleIsUnchanged(values: seq<real>, x: real, maxAdjustment: real)
    requires values != [] && CountBelow(values, x) == CountAbove(values, x)
    ensures Factor(Percentile(values, x), maxAdjustment) == 1.0
  {
    hide CountBelow, CountEqual, CountAbove, Percentile, Factor;
    Trichotomy(values, x);
    FactorFromRank(values, x, maxAdjustment);
    OnlyOne(Factor(Percentile(values, x), maxAdjustment), |values| as real, maxAdjustment, (Rank2(values, x) - |values|) as real);
  }

  lemma OnlyOne(f: real, n: real, cap: real, over: real)
    requires n > 0.0 && over == 0.0 && f * n == n + cap * over
    ensures f == 1.0
  {
    assert (f - 1.0) * n == 0.0;
  }

  /** Of two plots with as many ties, the one d places higher takes 2 * cap * d / n more of the figure. */
  lemma FactorByPlaces(values: seq<real>, x: real, y: real, maxAdjustment: real)
    requires values != [] && CountEqual(values, x) == CountEqual(values, y)
    ensures (Factor(Percentile(values, y), maxAdjustment) - Factor(Percentile(values, x), maxAdjustment)) * |values| as real
         == 2.0 * maxAdjustment * (CountBelow(values, y) as real - CountBelow(values, x) as real)
  {
    hide CountBelow, CountEqual, Percentile, Factor;
    var n := |values| as real;
    FactorFromRank(values, x, maxAdjustment);
    FactorFromRank(values, y, maxAdjustment);
    var f, g := Factor(Percentile(values, x), maxAdjustment), Factor(Percentile(values, y), maxAdjustment);
    var b, c := CountBelow(values, x) as real, CountBelow(values, y) as real;
    var e := CountEqual(values, x) as real - n;
    assert (g - f) * n == g * n - f * n == maxAdjustment * (2.0 * c + e) - maxAdjustment * (2.0 * b + e);
    assert maxAdjustment * (2.0 * c + e) - maxAdjustment * (2.0 * b + e) == 2.0 * maxAdjustment * (c - b);
  }
}
