/** The log-logistic fit behind SPEI and the standardised value it gives (agri/drought.py). */
module Drought {
  import opened Wrappers
  import opened Sums
  import opened Sorting

  const INDEX_LIMIT := 3.09
  const TINY_SPREAD := 0.000000000001
  const TINY_PROBABILITY := 0.0000000001

  datatype DroughtError = BadTimescale | LengthMismatch | ShortRecord | TooFewValues | NoSpread | ShapeTooSmall | BadScale

  datatype Fit = Fit(beta: real, alpha: real, loc: real)

  datatype Index = Index(value: real, timescaleMonths: int, calendarMonth: int, fittedOn: nat)

  /** The special functions, known only by what the index needs of them. */
  datatype Numerics = Numerics(gamma: real -> real, pow: (real, real) -> real, quantile: real -> real)

  ghost predicate Sound(num: Numerics) {
    && (forall x :: x > 0.0 ==> num.gamma(x) > 0.0)
    && (forall x, y :: x > 0.0 ==> num.pow(x, y) > 0.0)
  }

  /** What monotonicity needs on top: x^y grows with x for y > 0, and quantiles grow with p. */
  ghost predicate Monotone(num: Numerics) {
    && (forall x, x', y :: 0.0 < x <= x' && y > 0.0 ==> num.pow(x, y) <= num.pow(x', y))
    && (forall p, p' :: 0.0 < p <= p' < 1.0 ==> num.quantile(p) <= num.quantile(p'))
  }

  // ------------------------------------------- probability-weighted moments

  /** Weight of the j-th smallest of n values (j from 1) in the k-th moment: numerator and denominator. */
  function WeightNum(k: nat, n: nat, j: nat): int {
    if k == 0 then 1 else if k == 1 then n - j else (n - j) * (n - j - 1)
  }

  function WeightDen(k: nat, n: nat): (r: int)
    requires n >= 4
    ensures r > 0
  {
    if k == 0 then 1 else if k == 1 then n - 1 else Product(n - 1, n - 2)
  }

  function Product(a: int, b: int): (r: int)
    ensures a > 0 && b > 0 ==> r > 0
    ensures r == a * b
  {
    a * b
  }

  function Weight(k: nat, n: nat, j: nat): real
    requires n >= 4
  {
    WeightNum(k, n, j) as real / WeightDen(k, n) as real
  }

  function Weights(k: nat, n: nat): (r: seq<real>)
    requires n >= 4
    ensures |r| == n
    ensures forall i :: 0 <= i < n ==> r[i] == Weight(k, n, i + 1)
  {
    seq(n, i requires 0 <= i < n => Weight(k, n, i + 1))
  }

  function Terms(k: nat, ordered: seq<real>): (r: seq<real>)
    requires |ordered| >= 4
    ensures |r| == |ordered|
    ensures forall i :: 0 <= i < |ordered| ==> r[i] == Weighted(ordered[i], k, |ordered|, i + 1)
  {
    seq(|ordered|, i requires 0 <= i < |ordered| => Weighted(ordered[i], k, |ordered|, i + 1))
  }

  function Weighted(x: real, k: nat, n: nat, j: nat): real
    requires n >= 4
  {
    x * WeightNum(k, n, j) as real / WeightDen(k, n) as real
  }

  lemma WeightedIsProduct(x: real, k: nat, n: nat, j: nat)
    requires n >= 4
    ensures Weighted(x, k, n, j) == Weight(k, n, j) * x
  {
    hide WeightNum, WeightDen;
    var a, d := WeightNum(k, n, j) as real, WeightDen(k, n) as real;
    assert x * a / d == a / d * x;
  }

  function Moment(k: nat, ordered: seq<real>): real
    requires |ordered| >= 4
  {
    Sum(Terms(k, ordered)) / |ordered| as real
  }

  /** w0 - 2*w1. */
  function Gap(values: seq<real>): real
    requires |values| >= 4
  {
    var ordered := Sort(values, RealLe);
    Moment(0, ordered) - 2.0 * Moment(1, ordered)
  }

  /** 6*w1 - w0 - 6*w2, the denominator of the shape estimate. */
  function Spread(values: seq<real>): real
    requires |values| >= 4
  {
    var ordered := Sort(values, RealLe);
    6.0 * Moment(1, ordered) - Moment(0, ordered) - 6.0 * Moment(2, ordered)
  }

  /** g1 and g2: gamma at 1 + 1/beta and at 1 - 1/beta. */
  function G1(beta: real, num: Numerics): real
    requires beta > 1.0
  {
    num.gamma(1.0 + 1.0 / beta)
  }

  function G2(beta: real, num: Numerics): real
    requires beta > 1.0
  {
    num.gamma(1.0 - 1.0 / beta)
  }

  function AlphaOf(gap: real, beta: real, g1: real, g2: real): real
    requires g1 > 0.0 && g2 > 0.0
  {
    assert g1 * g2 > 0.0;
    gap * beta / (g1 * g2)
  }

  function LocOf(w0: real, alpha: real, g1: real, g2: real): real {
    w0 - alpha * g1 * g2
  }

  /** The fit once the shape is known. */
  function FitWith(w0: real, gap: real, beta: real, num: Numerics): Result<Fit, DroughtError>
    requires Sound(num)
  {
    if beta <= 1.0 then Err(ShapeTooSmall)
    else
      GammaPositive(beta, num);
      var g1, g2 := G1(beta, num), G2(beta, num);
      var alpha := AlphaOf(gap, beta, g1, g2);
      Ok(Fit(beta, alpha, LocOf(w0, alpha, g1, g2)))
  }

  /** The fit from w0, the gap w0 - 2*w1 and the spread 6*w1 - w0 - 6*w2. */
  function FitOf(w0: real, gap: real, spread: real, num: Numerics): Result<Fit, DroughtError>
    requires Sound(num)
  {
    if Abs(spread) < TINY_SPREAD then Err(NoSpread) else FitWith(w0, gap, -gap / spread, num)
  }

  lemma GammaArguments(beta: real)
    requires beta > 1.0
    ensures 1.0 + 1.0 / beta > 0.0 && 1.0 - 1.0 / beta > 0.0
  {
    assert 1.0 / beta < 1.0;
  }

  lemma GammaPositive(beta: real, num: Numerics)
    requires beta > 1.0 && Sound(num)
    ensures G1(beta, num) > 0.0 && G2(beta, num) > 0.0
  {
    GammaArguments(beta);
  }

  function FitPwm(values: seq<real>, num: Numerics): Result<Fit, DroughtError>
    requires Sound(num)
  {
    if |values| < 4 then Err(TooFewValues)
    else
      var ordered := Sort(values, RealLe);
      FitOf(Moment(0, ordered), Gap(values), Spread(values), num)
  }

  /** The method of moments: the fit's mean is the sample's, its second L-moment is the gap, and its
      shape is the ratio of gap to spread. */
  lemma FitMatchesMoments(values: seq<real>, num: Numerics)
    requires Sound(num) && FitPwm(values, num).Ok?
    ensures |values| >= 4
    ensures var f := FitPwm(values, num).value;
            f.beta > 1.0 && f.beta * Spread(values) == -Gap(values)
            && var scaled := f.alpha * num.gamma(1.0 + 1.0 / f.beta) * num.gamma(1.0 - 1.0 / f.beta);
               && f.loc + scaled == Moment(0, Sort(values, RealLe))
               && scaled == f.beta * Gap(values)
  {
    hide Moment, Gap, Spread, Sort, AlphaOf, LocOf, Sound;
    var f := FitPwm(values, num).value;
    var w0, gap, spread := Moment(0, Sort(values, RealLe)), Gap(values), Spread(values);
    assert FitOf(w0, gap, spread, num) == Ok(f) && spread != 0.0;
    ShapeRatio(gap, spread);
    GammaPositive(f.beta, num);
    var g1, g2 := G1(f.beta, num), G2(f.beta, num);
    AlphaMatches(w0, gap, f.beta, g1, g2);
    assert g1 == num.gamma(1.0 + 1.0 / f.beta) && g2 == num.gamma(1.0 - 1.0 / f.beta);
    assert f.alpha == AlphaOf(gap, f.beta, g1, g2) && f.loc == LocOf(w0, f.alpha, g1, g2);
  }

  lemma ShapeRatio(gap: real, spread: real)
    requires spread != 0.0
    ensures -gap / spread * spread == -gap
  {
  }

  lemma AlphaMatches(w0: real, gap: real, beta: real, g1: real, g2: real)
    requires g1 > 0.0 && g2 > 0.0
    ensures var alpha := AlphaOf(gap, beta, g1, g2);
            alpha * g1 * g2 == beta * gap && LocOf(w0, alpha, g1, g2) + alpha * g1 * g2 == w0
  {
    var g := g1 * g2;
    assert g > 0.0;
    var alpha := gap * beta / g;
    assert alpha * g == gap * beta;
    assert alpha * g1 * g2 == alpha * g;
  }

  lemma TermsPrefix(k: nat, ordered: seq<real>, i: nat)
    requires |ordered| >= 4 && i < |ordered|
    ensures Sum(Terms(k, ordered)[..i + 1]) == Sum(Terms(k, ordered)[..i]) + Weighted(ordered[i], k, |ordered|, i + 1)
  {
    hide Weighted;
    assert Terms(k, ordered)[..i + 1][..i] == Terms(k, ordered)[..i];
  }

  lemma AllTerms(k: nat, ordered: seq<real>)
    requires |ordered| >= 4
    ensures Moment(k, ordered) == Sum(Terms(k, ordered)[..|ordered|]) / |ordered| as real
  {
    hide Terms;
    assert Terms(k, ordered)[..|ordered|] == Terms(k, ordered);
  }

  lemma FirstMomentTerm(x: real, n: nat, j: nat)
    requires n >= 4
    ensures Weighted(x, 0, n, j) == x
  {
    var one := 1 as real;
    assert x * one / one == x;
  }

  /** The moment loop and the two guards of `_log_logistic_fit_pwm`. */
  method LogLogisticFit(values: seq<real>, num: Numerics) returns (r: Result<Fit, DroughtError>)
    requires Sound(num)
    ensures r == FitPwm(values, num)
  {
    hide Weighted, WeightNum, WeightDen, Sort, Sound, FitOf, Terms;
    var ordered := Sort(values, RealLe);
    var n := |ordered|;
    if n < 4 {
      return Err(TooFewValues);
    }
    var w0, w1, w2 := 0.0, 0.0, 0.0;
    for i := 0 to n
      invariant w0 == Sum(Terms(0, ordered)[..i])
      invariant w1 == Sum(Terms(1, ordered)[..i])
      invariant w2 == Sum(Terms(2, ordered)[..i])
    {
      TermsPrefix(0, ordered, i);
      TermsPrefix(1, ordered, i);
      TermsPrefix(2, ordered, i);
      FirstMomentTerm(ordered[i], n, i + 1);
      w0 := w0 + ordered[i];
      w1 := w1 + Weighted(ordered[i], 1, n, i + 1);
      w2 := w2 + Weighted(ordered[i], 2, n, i + 1);
    }
    AllTerms(0, ordered);
    AllTerms(1, ordered);
    AllTerms(2, ordered);
    w0, w1, w2 := w0 / n as real, w1 / n as real, w2 / n as real;
    r := FitOf(w0, w0 - 2.0 * w1, 6.0 * w1 - w0 - 6.0 * w2, num);
  }

  // ------------------------------------------------ the weights sum to n/(k+1)

  /** The integer sum of the first m numerators. */
  function NumeratorSum(k: nat, n: nat, m: nat): int {
    if m == 0 then 0 else NumeratorSum(k, n, m - 1) + WeightNum(k, n, m)
  }

  lemma {:induction false} WeightsPrefix(k: nat, n: nat, m: nat)
    requires n >= 4 && m <= n
    ensures Sum(Weights(k, n)[..m]) * WeightDen(k, n) as real == NumeratorSum(k, n, m) as real
  {
    hide WeightNum, WeightDen;
    if m > 0 {
      WeightsPrefix(k, n, m - 1);
      var w, d := Weights(k, n), WeightDen(k, n) as real;
      assert w[..m][..m - 1] == w[..m - 1];
      var before, last := Sum(w[..m - 1]), Weight(k, n, m);
      assert last * d == WeightNum(k, n, m) as real;
      assert (before + last) * d == before * d + last * d;
    }
  }

  lemma {:induction false} LinearNumerators(n: nat, m: nat)
    ensures 2 * NumeratorSum(1, n, m) == 2 * m * n - m * (m + 1)
  {
    if m > 0 {
      LinearNumerators(n, m - 1);
    }
  }

  lemma CubicStep(n: int, m: int)
    ensures (n - m + 1) * (n - m) * (n - m - 1) - (n - m) * (n - m - 1) * (n - m - 2) == 3 * ((n - m) * (n - m - 1))
  {
  }

  lemma {:induction false} QuadraticNumerators(n: nat, m: nat)
    ensures 3 * NumeratorSum(2, n, m) == n * (n - 1) * (n - 2) - (n - m) * (n - m - 1) * (n - m - 2)
  {
    if m > 0 {
      QuadraticNumerators(n, m - 1);
      CubicStep(n, m);
    }
  }

  lemma CancelFactor(x: real, y: real, d: real)
    requires d != 0.0 && x * d == y * d
    ensures x == y
  {
    assert (x - y) * d == 0.0;
  }

  lemma HalfOf(n: nat, sum: int, x: real)
    requires n >= 4 && 2 * sum == 2 * n * n - n * (n + 1) && x * (n - 1) as real == sum as real
    ensures x == n as real / 2.0
  {
    assert 2 * sum == n * (n - 1);
    var d := (n - 1) as real;
    assert 2.0 * sum as real == n as real * d;
    assert (n as real / 2.0) * d == sum as real;
    CancelFactor(x, n as real / 2.0, d);
  }

  lemma ThirdOf(n: nat, sum: int, x: real)
    requires n >= 4 && 3 * sum == n * (n - 1) * (n - 2) && x * Product(n - 1, n - 2) as real == sum as real
    ensures x == n as real / 3.0
  {
    var p := Product(n - 1, n - 2);
    assert n * (n - 1) * (n - 2) == n * p;
    assert 3 * sum == n * p;
    assert 3.0 * sum as real == n as real * p as real;
    assert (n as real / 3.0) * p as real == sum as real;
    CancelFactor(x, n as real / 3.0, p as real);
  }

  /** The unbiased weights add up to n, n/2 and n/3. */
  lemma WeightsTotal(k: nat, n: nat)
    requires n >= 4 && k <= 2
    ensures Sum(Weights(k, n)) == n as real / (k + 1) as real
  {
    hide Weights, NumeratorSum, Sum, WeightNum;
    assert Weights(k, n)[..n] == Weights(k, n);
    WeightsPrefix(k, n, n);
    if k == 0 {
      UnitNumerators(n, n);
    } else if k == 1 {
      LinearNumerators(n, n);
      HalfOf(n, NumeratorSum(1, n, n), Sum(Weights(1, n)));
    } else {
      QuadraticNumerators(n, n);
      assert (n - n) * (n - n - 1) * (n - n - 2) == 0;
      ThirdOf(n, NumeratorSum(2, n, n), Sum(Weights(2, n)));
    }
  }

  lemma {:induction false} UnitNumerators(n: nat, m: nat)
    ensures NumeratorSum(0, n, m) == m
  {
    if m > 0 {
      UnitNumerators(n, m - 1);
    }
  }

  // ----------------------------------------------------------- affine invariance

  function Scale(c: real, x: real): real {
    c * x
  }

  function Shifted(c: real, s: real, x: real): real {
    Scale(c, x) + s
  }

  function Affine(c: real, s: real): real -> real {
    x => Shifted(c, s, x)
  }

  lemma ScaleOrder(c: real, x: real, y: real)
    requires c > 0.0
    ensures Scale(c, x) <= Scale(c, y) <==> x <= y
  {
    assert c * y - c * x == c * (y - x);
    if x < y {
      assert c * (y - x) > 0.0;
    } else if y < x {
      assert c * (x - y) > 0.0;
    }
  }

  lemma AffineKeepsOrder(c: real, s: real)
    requires c > 0.0
    ensures forall x, y :: RealLe(Affine(c, s)(x), Affine(c, s)(y)) <==> RealLe(x, y)
  {
    hide Scale;
    forall x, y
      ensures RealLe(Affine(c, s)(x), Affine(c, s)(y)) <==> RealLe(x, y)
    {
      ScaleOrder(c, x, y);
      assert Affine(c, s)(x) == Scale(c, x) + s && Affine(c, s)(y) == Scale(c, y) + s;
    }
  }

  lemma AffineTerm(x: real, c: real, s: real, k: nat, n: nat, j: nat)
    requires n >= 4
    ensures Weighted(Shifted(c, s, x), k, n, j) == c * Weighted(x, k, n, j) + s * Weight(k, n, j)
  {
    hide Weighted, Weight;
    WeightedIsProduct(c * x + s, k, n, j);
    WeightedIsProduct(x, k, n, j);
    var w := Weight(k, n, j);
    assert w * (c * x + s) == c * (w * x) + s * w;
  }

  lemma AffineTerms(k: nat, ordered: seq<real>, c: real, s: real)
    requires |ordered| >= 4
    ensures Sum(Terms(k, Map(ordered, Affine(c, s)))) == c * Sum(Terms(k, ordered)) + s * Sum(Weights(k, |ordered|))
  {
    hide Weighted, Weight, Sum, Terms, Weights, Map, Shifted;
    var n := |ordered|;
    var mapped := Map(ordered, Affine(c, s));
    forall i | 0 <= i < n
      ensures Terms(k, mapped)[i] == c * Terms(k, ordered)[i] + s * Weights(k, n)[i]
    {
      AffineTerm(ordered[i], c, s, k, n, i + 1);
      assert mapped[i] == Affine(c, s)(ordered[i]) == Shifted(c, s, ordered[i]);
      assert Terms(k, mapped)[i] == Weighted(mapped[i], k, n, i + 1);
      assert Terms(k, ordered)[i] == Weighted(ordered[i], k, n, i + 1);
      assert Weights(k, n)[i] == Weight(k, n, i + 1);
    }
    SumLinear(Terms(k, mapped), Terms(k, ordered), Weights(k, n), c, s);
  }

  lemma CancelQuotient(x: real, n: real)
    requires n != 0.0
    ensures (x * n) / n == x
  {
  }

  lemma AffineQuotient(t: real, n: real, k: real, c: real, s: real)
    requires n > 0.0 && k > 0.0
    ensures (c * t + s * (n / k)) / n == Scale(c, t / n) + s / k
  {
    var u, v := t / n, s / k;
    assert u * n == t && v * k == s;
    assert s * (n / k) == v * n by {
      assert (n / k) * k == n;
      assert s * (n / k) == v * (k * (n / k));
    }
    assert c * t == (c * u) * n;
    assert (c * u + v) * n == c * t + s * (n / k);
    CancelQuotient(c * u + v, n);
  }

  /** Moments of a rescaled and shifted sample. */
  lemma AffineMoment(k: nat, ordered: seq<real>, c: real, s: real)
    requires |ordered| >= 4 && k <= 2
    ensures Moment(k, Map(ordered, Affine(c, s))) == Scale(c, Moment(k, ordered)) + s / (k + 1) as real
  {
    hide Sum, Terms, Weights, Map, Affine, Scale;
    AffineTerms(k, ordered, c, s);
    WeightsTotal(k, |ordered|);
    AffineQuotient(Sum(Terms(k, ordered)), |ordered| as real, (k + 1) as real, c, s);
  }

  lemma LinearParts(w0: real, w1: real, w2: real, c: real, s: real)
    ensures var v0, v1, v2 := Scale(c, w0) + s / 1 as real, Scale(c, w1) + s / 2 as real, Scale(c, w2) + s / 3 as real;
            && v0 == Shifted(c, s, w0)
            && v0 - 2.0 * v1 == Scale(c, w0 - 2.0 * w1)
            && 6.0 * v1 - v0 - 6.0 * v2 == Scale(c, 6.0 * w1 - w0 - 6.0 * w2)
  {
    assert 1 as real == 1.0 && 2 as real == 2.0 && 3 as real == 3.0;
  }

  /** Gap and spread scale with the sample, so the absolute guard on the spread is not scale-free. */
  lemma AffineSpread(values: seq<real>, c: real, s: real)
    requires |values| >= 4 && c > 0.0
    ensures var mapped := Map(values, Affine(c, s));
            && Spread(mapped) == Scale(c, Spread(values))
            && Gap(mapped) == Scale(c, Gap(values))
            && Moment(0, Sort(mapped, RealLe)) == Shifted(c, s, Moment(0, Sort(values, RealLe)))
  {
    hide Moment, Sort, Affine, Map, Scale, Shifted;
    AffineKeepsOrder(c, s);
    MapSort(values, Affine(c, s), RealLe, RealLe);
    var ordered := Sort(values, RealLe);
    AffineMoment(0, ordered, c, s);
    AffineMoment(1, ordered, c, s);
    AffineMoment(2, ordered, c, s);
    CombineParts(values, Map(values, Affine(c, s)), c, s);
  }

  lemma CombineParts(values: seq<real>, mapped: seq<real>, c: real, s: real)
    requires |values| == |mapped| >= 4
    requires var (v, m) := (Sort(values, RealLe), Sort(mapped, RealLe));
             && Moment(0, m) == Scale(c, Moment(0, v)) + s / 1 as real
             && Moment(1, m) == Scale(c, Moment(1, v)) + s / 2 as real
             && Moment(2, m) == Scale(c, Moment(2, v)) + s / 3 as real
    ensures Spread(mapped) == Scale(c, Spread(values)) && Gap(mapped) == Scale(c, Gap(values))
    ensures Moment(0, Sort(mapped, RealLe)) == Shifted(c, s, Moment(0, Sort(values, RealLe)))
  {
    hide Moment, Sort, Scale, Shifted;
    var ordered := Sort(values, RealLe);
    LinearParts(Moment(0, ordered), Moment(1, ordered), Moment(2, ordered), c, s);
  }

  /** What a fit becomes when the sample is rescaled and shifted. */
  function Rescaled(fit: Result<Fit, DroughtError>, c: real, s: real): Result<Fit, DroughtError> {
    match fit
    case Ok(f) => Ok(Fit(f.beta, Scale(c, f.alpha), Shifted(c, s, f.loc)))
    case Err(e) => Err(e)
  }

  lemma ScaledBeta(gap: real, spread: real, c: real)
    requires c > 0.0 && Abs(spread) >= TINY_SPREAD && Abs(Scale(c, spread)) >= TINY_SPREAD
    ensures -Scale(c, gap) / Scale(c, spread) == -gap / spread
  {
    var x := -gap / spread;
    assert x * spread == -gap;
    assert x * (c * spread) == -(c * gap);
    CancelQuotient(x, c * spread);
  }

  lemma ScaledAlpha(gap: real, beta: real, g1: real, g2: real, c: real)
    requires g1 > 0.0 && g2 > 0.0
    ensures AlphaOf(Scale(c, gap), beta, g1, g2) == Scale(c, AlphaOf(gap, beta, g1, g2))
  {
    var g := g1 * g2;
    assert g > 0.0;
    var x := gap * beta / g;
    assert x * g == gap * beta;
    assert (c * x) * g == (c * gap) * beta;
    CancelQuotient(c * x, g);
  }

  lemma ScaledLocation(w0: real, alpha: real, g1: real, g2: real, c: real, s: real)
    ensures LocOf(Shifted(c, s, w0), Scale(c, alpha), g1, g2) == Shifted(c, s, LocOf(w0, alpha, g1, g2))
  {
  }

  lemma AffineFitWith(w0: real, gap: real, beta: real, c: real, s: real, num: Numerics)
    requires Sound(num) && c > 0.0
    ensures FitWith(Shifted(c, s, w0), Scale(c, gap), beta, num) == Rescaled(FitWith(w0, gap, beta, num), c, s)
  {
    hide Scale, Shifted, G1, G2, AlphaOf, LocOf, Sound;
    if beta > 1.0 {
      GammaPositive(beta, num);
      var g1, g2 := G1(beta, num), G2(beta, num);
      ScaledAlpha(gap, beta, g1, g2, c);
      ScaledLocation(w0, AlphaOf(gap, beta, g1, g2), g1, g2, c, s);
    }
  }

  /** The fit of affinely related moments: beta is unchanged, alpha scales, the location scales and shifts. */
  lemma AffineFit(w0: real, gap: real, spread: real, c: real, s: real, num: Numerics)
    requires Sound(num) && c > 0.0
    requires (Abs(Scale(c, spread)) < TINY_SPREAD) == (Abs(spread) < TINY_SPREAD)
    ensures FitOf(Shifted(c, s, w0), Scale(c, gap), Scale(c, spread), num) == Rescaled(FitOf(w0, gap, spread, num), c, s)
  {
    hide Abs, Scale, Shifted, FitWith, Sound, Rescaled;
    if Abs(spread) >= TINY_SPREAD {
      ScaledBeta(gap, spread, c);
      NonZero(spread);
      AffineFitWith(w0, gap, -gap / spread, c, s, num);
    } else {
      ErrorsCarryOver(NoSpread, c, s);
    }
  }

  lemma ErrorsCarryOver(e: DroughtError, c: real, s: real)
    ensures Rescaled(Err(e), c, s) == Err(e)
  {
  }

  lemma NonZero(d: real)
    requires Abs(d) >= TINY_SPREAD
    ensures d != 0.0
  {
  }

  predicate Spreadless(values: seq<real>, c: real)
    requires |values| >= 4
  {
    Abs(Scale(c, Spread(values))) < TINY_SPREAD
  }

  /** The absolute spread guard decides the sample and the rescaled sample the same way. */
  predicate GuardAgrees(values: seq<real>, c: real) {
    |values| >= 4 ==> (Spreadless(values, c) <==> Abs(Spread(values)) < TINY_SPREAD)
  }

  /** A month's fit follows its sample through any rescaling and shift exactly when the
      absolute spread guard decides both the same way. */
  lemma FitFollowsSample(values: seq<real>, c: real, s: real, num: Numerics)
    requires Sound(num) && c > 0.0
    ensures FitPwm(Map(values, Affine(c, s)), num) == Rescaled(FitPwm(values, num), c, s) <==> GuardAgrees(values, c)
  {
    hide Moment, Sort, Affine, Abs, Map, Gap, Spread, Scale, Shifted;
    if |values| >= 4 {
      AffineSpread(values, c, s);
      if GuardAgrees(values, c) {
        AffineFit(Moment(0, Sort(values, RealLe)), Gap(values), Spread(values), c, s, num);
      }
    }
  }

  // -------------------------------------------------- the scale is always positive

  /** 2j - n - 1 times the j-th smallest: (n - 1) * n times (w0 - 2*w1). */
  function Dispersion(ordered: seq<real>, n: nat): real {
    if ordered == [] then 0.0
    else
      var j := |ordered|;
      Dispersion(ordered[..j - 1], n) + (2 * j - n - 1) as real * ordered[j - 1]
  }

  /** Lowering n by one adds every value once more. */
  lemma {:induction false} DispersionStep(ordered: seq<real>, n: nat)
    requires n > 0
    ensures Dispersion(ordered, n) == Dispersion(ordered, n - 1) - Sum(ordered)
  {
    if ordered != [] {
      var k := |ordered| - 1;
      DispersionStep(ordered[..k], n);
      var a := (2 * |ordered| - n - 1) as real;
      assert (2 * |ordered| - (n - 1) - 1) as real * ordered[k] == (a + 1.0) * ordered[k] == a * ordered[k] + ordered[k];
    }
  }

  lemma {:induction false} SumAtMostLast(ordered: seq<real>, x: real)
    requires forall i :: 0 <= i < |ordered| ==> ordered[i] <= x
    ensures Sum(ordered) <= |ordered| as real * x
  {
    if ordered != [] {
      SumAtMostLast(ordered[..|ordered| - 1], x);
    }
  }

  /** Ascending values put the larger weight on the larger value. */
  lemma {:induction false} DispersionNonNegative(ordered: seq<real>)
    requires Sorted(ordered, RealLe)
    ensures Dispersion(ordered, |ordered|) >= 0.0
  {
    if ordered != [] {
      var k := |ordered| - 1;
      var front, x := ordered[..k], ordered[k];
      DispersionNonNegative(front);
      DispersionStep(front, |ordered|);
      assert forall i :: 0 <= i < k ==> RealLe(ordered[i], x);
      SumAtMostLast(front, x);
      assert (2 * |ordered| - |ordered| - 1) as real * x == k as real * x;
    }
  }

  lemma DispersionTerm(x: real, n: nat, j: nat)
    requires n >= 4
    ensures (2 * j - n - 1) as real * x == (n - 1) as real * (Weighted(x, 0, n, j) - 2.0 * Weighted(x, 1, n, j))
  {
    FirstMomentTerm(x, n, j);
    var d, a := (n - 1) as real, (n - j) as real;
    assert Weighted(x, 1, n, j) * d == x * a;
    assert d * (x - 2.0 * Weighted(x, 1, n, j)) == d * x - 2.0 * (Weighted(x, 1, n, j) * d);
    assert (2 * j - n - 1) as real == d - 2.0 * a;
  }

  lemma SumOfNothing(ordered: seq<real>)
    requires |ordered| >= 4
    ensures Sum(Terms(0, ordered)[..0]) == Sum(Terms(1, ordered)[..0]) == 0.0
  {
    hide Weighted;
  }

  lemma {:induction false} DispersionIsGap(ordered: seq<real>, m: nat)
    requires |ordered| >= 4 && m <= |ordered|
    ensures Dispersion(ordered[..m], |ordered|)
         == (|ordered| - 1) as real * (Sum(Terms(0, ordered)[..m]) - 2.0 * Sum(Terms(1, ordered)[..m]))
  {
    hide Weighted, Terms, Sum;
    if m == 0 {
      SumOfNothing(ordered);
    } else {
      var n := |ordered|;
      DispersionIsGap(ordered, m - 1);
      TermsPrefix(0, ordered, m - 1);
      TermsPrefix(1, ordered, m - 1);
      DispersionTerm(ordered[m - 1], n, m);
      assert ordered[..m][..m - 1] == ordered[..m - 1];
      var d, s0, s1 := (n - 1) as real, Sum(Terms(0, ordered)[..m - 1]), Sum(Terms(1, ordered)[..m - 1]);
      var t0, t1 := Weighted(ordered[m - 1], 0, n, m), Weighted(ordered[m - 1], 1, n, m);
      assert d * ((s0 + t0) - 2.0 * (s1 + t1)) == d * (s0 - 2.0 * s1) + d * (t0 - 2.0 * t1);
    }
  }

  lemma RealLePreorder()
    ensures TotalPreorder(RealLe)
    ensures Antisymmetric(RealLe)
  {
  }

  lemma GapArithmetic(dispersion: real, s0: real, s1: real, n: nat)
    requires n >= 4 && dispersion >= 0.0 && dispersion == (n - 1) as real * (s0 - 2.0 * s1)
    ensures s0 / n as real - 2.0 * (s1 / n as real) >= 0.0
  {
    var x := s0 - 2.0 * s1;
    ProductSign(x, (n - 1) as real);
    assert s0 / n as real - 2.0 * (s1 / n as real) == x / n as real;
  }

  lemma GapNonNegative(values: seq<real>)
    requires |values| >= 4
    ensures Gap(values) >= 0.0
  {
    hide Sort, Terms, Dispersion;
    var ordered := Sort(values, RealLe);
    var n := |ordered|;
    RealLePreorder();
    SortSorted(values, RealLe);
    DispersionNonNegative(ordered);
    DispersionIsGap(ordered, n);
    assert ordered[..n] == ordered;
    AllTerms(0, ordered);
    AllTerms(1, ordered);
    GapArithmetic(Dispersion(ordered, n), Sum(Terms(0, ordered)[..n]), Sum(Terms(1, ordered)[..n]), n);
  }

  lemma QuotientSign(gap: real, spread: real)
    requires spread != 0.0 && gap >= 0.0
    ensures -gap / spread > 1.0 ==> gap > 0.0
  {
    if gap == 0.0 {
      assert -gap / spread == 0.0;
    }
  }

  lemma AlphaSign(gap: real, beta: real, g1: real, g2: real)
    requires gap > 0.0 && beta > 1.0 && g1 > 0.0 && g2 > 0.0
    ensures AlphaOf(gap, beta, g1, g2) > 0.0
  {
    assert g1 * g2 > 0.0 && gap * beta > 0.0;
  }

  /** A successful fit always has beta > 1 and a positive scale: the CDF's own scale guard never fires. */
  lemma FitScalePositive(values: seq<real>, num: Numerics)
    requires Sound(num) && FitPwm(values, num).Ok?
    ensures FitPwm(values, num).value.beta > 1.0
    ensures FitPwm(values, num).value.alpha > 0.0
  {
    hide Sort, Moment, Gap, Spread, G1, G2, AlphaOf, Sound;
    GapNonNegative(values);
    NonZero(Spread(values));
    QuotientSign(Gap(values), Spread(values));
    var beta := -Gap(values) / Spread(values);
    GammaPositive(beta, num);
    AlphaSign(Gap(values), beta, G1(beta, num), G2(beta, num));
  }

  // ---------------------------------------------------------------- when a fit exists

  /** The coefficient of the j-th smallest value in gap + spread, up to 2/((n - 1) * (n - 2)). */
  function TiltNum(n: nat, j: nat): int {
    (n - j) * (3 * j - n - 1)
  }

  /** The first m values under those coefficients. */
  function Tilt(ordered: seq<real>, m: nat): real
    requires m <= |ordered|
  {
    if m == 0 then 0.0 else Tilt(ordered, m - 1) + TiltNum(|ordered|, m) as real * ordered[m - 1]
  }

  /** What the rise from the i-th to the next smallest value counts. */
  function RiseNum(n: nat, i: nat): int {
    i * ((n - i) * (n - i - 1))
  }

  /** The rises among the first m values. */
  function Rises(ordered: seq<real>, m: nat): real
    requires 0 < m <= |ordered|
  {
    if m == 1 then 0.0 else Rises(ordered, m - 1) + Scale(RiseNum(|ordered|, m - 1) as real, ordered[m - 1] - ordered[m - 2])
  }

  lemma RiseStep(n: nat, m: nat)
    ensures RiseNum(n, m + 1) == RiseNum(n, m) - TiltNum(n, m + 1)
  {
    var k := n - m;
    assert (m + 1) * ((k - 1) * (k - 2)) == m * (k * (k - 1)) - (k - 1) * (3 * m + 3 - n - 1);
  }

  lemma RiseFactors(n: nat, i: nat)
    requires 0 < i < n
    ensures RiseNum(n, i) >= 0
    ensures RiseNum(n, i) > 0 <==> i < n - 1
  {
    if i < n - 1 {
      ProductPositive(n - i, n - i - 1);
      ProductPositive(i, (n - i) * (n - i - 1));
    }
  }

  lemma ProductPositive(a: int, b: int)
    requires a > 0 && b > 0
    ensures a * b > 0
  {
  }

  lemma PartsStep(before: real, a: real, b: real, x: real, y: real)
    ensures before + b * y + Scale(a - b, y) == before + Scale(a, x) + Scale(a, y - x)
    ensures a == 0.0 ==> Scale(a, x) == Scale(a, y - x) == 0.0
  {
    assert (a - b) * y == a * y - b * y;
    assert a * (y - x) == a * y - a * x;
  }

  /** Summation by parts. */
  lemma {:induction false} TiltByParts(ordered: seq<real>, m: nat)
    requires 0 < m <= |ordered|
    ensures Tilt(ordered, m) + Scale(RiseNum(|ordered|, m) as real, ordered[m - 1]) == Rises(ordered, m)
  {
    hide RiseNum, TiltNum, Scale;
    var n, y := |ordered|, ordered[m - 1];
    RiseStep(n, m - 1);
    var a, b := RiseNum(n, m - 1) as real, TiltNum(n, m) as real;
    assert RiseNum(n, m) as real == a - b;
    if m == 1 {
      NoRise(n);
      PartsStep(0.0, a, b, y, y);
    } else {
      TiltByParts(ordered, m - 1);
      PartsStep(Tilt(ordered, m - 1), a, b, ordered[m - 2], y);
    }
  }

  lemma NoRise(n: nat)
    ensures RiseNum(n, 0) == 0
  {
  }

  lemma ScaleOfRise(a: int, rise: real)
    requires a >= 0 && rise >= 0.0
    ensures Scale(a as real, rise) >= 0.0
    ensures Scale(a as real, rise) == 0.0 <==> a == 0 || rise == 0.0
  {
    if a > 0 && rise > 0.0 {
      ScaleOrder(a as real, rise, 0.0);
      assert Scale(a as real, 0.0) == 0.0;
    }
  }

  /** Ascending values never fall, and rise in the count unless all but the largest are equal. */
  lemma {:induction false} RisesSign(ordered: seq<real>, m: nat)
    requires Sorted(ordered, RealLe) && 0 < m <= |ordered| && |ordered| >= 2
    ensures Rises(ordered, m) >= 0.0
    ensures Rises(ordered, m) == 0.0 <==> ordered[0] == ordered[if m == |ordered| then m - 2 else m - 1]
  {
    hide RiseNum, Scale;
    if m > 1 {
      RisesSign(ordered, m - 1);
      assert RealLe(ordered[m - 2], ordered[m - 1]) && RealLe(ordered[0], ordered[m - 2]);
      RiseFactors(|ordered|, m - 1);
      ScaleOfRise(RiseNum(|ordered|, m - 1), ordered[m - 1] - ordered[m - 2]);
    }
  }

  lemma TiltTerm(x: real, n: nat, j: nat)
    requires n >= 4
    ensures TiltNum(n, j) as real * x == Product(n - 1, n - 2) as real * (2.0 * Weighted(x, 1, n, j) - 3.0 * Weighted(x, 2, n, j))
  {
    var d, e, a, b := (n - 1) as real, (n - 2) as real, (n - j) as real, (n - j - 1) as real;
    var u, v := Weighted(x, 1, n, j), Weighted(x, 2, n, j);
    TiltFactors(n, j);
    assert u * d == x * a;
    assert v * Product(n - 1, n - 2) as real == x * ((n - j) * (n - j - 1)) as real;
    TiltProducts(x, u, v, d, e, a, b);
  }

  lemma TiltFactors(n: nat, j: nat)
    ensures Product(n - 1, n - 2) as real == (n - 1) as real * (n - 2) as real
    ensures ((n - j) * (n - j - 1)) as real == (n - j) as real * (n - j - 1) as real
    ensures TiltNum(n, j) as real == (n - j) as real * (2.0 * (n - 2) as real - 3.0 * (n - j - 1) as real)
  {
  }

  lemma TiltProducts(x: real, u: real, v: real, d: real, e: real, a: real, b: real)
    requires u * d == x * a && v * (d * e) == x * (a * b)
    ensures (a * (2.0 * e - 3.0 * b)) * x == (d * e) * (2.0 * u - 3.0 * v)
  {
    assert (d * e) * u == (u * d) * e == x * a * e;
    assert (d * e) * v == x * (a * b);
  }

  function TiltOf(n: nat, s1: real, s2: real): real {
    Product(n - 1, n - 2) as real * (2.0 * s1 - 3.0 * s2)
  }

  lemma {:induction false} TiltIsSum(ordered: seq<real>, m: nat)
    requires |ordered| >= 4 && m <= |ordered|
    ensures Tilt(ordered, m) == TiltOf(|ordered|, Sum(Terms(1, ordered)[..m]), Sum(Terms(2, ordered)[..m]))
  {
    hide Weighted, Terms, TiltNum, Product, Sum;
    var n := |ordered|;
    var d := Product(n - 1, n - 2) as real;
    if m == 0 {
      EmptySum();
    } else {
      TiltIsSum(ordered, m - 1);
      TermsPrefix(1, ordered, m - 1);
      TermsPrefix(2, ordered, m - 1);
      TiltTerm(ordered[m - 1], n, m);
      FactorOut(d, Sum(Terms(1, ordered)[..m - 1]), Sum(Terms(2, ordered)[..m - 1]),
                Weighted(ordered[m - 1], 1, n, m), Weighted(ordered[m - 1], 2, n, m));
    }
  }

  lemma EmptySum()
    ensures Sum([]) == 0.0
  {
  }

  lemma FactorOut(d: real, s: real, t: real, u: real, v: real)
    ensures d * (2.0 * (s + u) - 3.0 * (t + v)) == d * (2.0 * s - 3.0 * t) + d * (2.0 * u - 3.0 * v)
  {
  }

  lemma LastTilt(ordered: seq<real>)
    requires ordered != []
    ensures Tilt(ordered, |ordered|) == Rises(ordered, |ordered|)
  {
    var n := |ordered|;
    TiltByParts(ordered, n);
    assert RiseNum(n, n) == 0;
    assert Scale(0 as real, ordered[n - 1]) == 0.0;
  }

  lemma HeadroomArithmetic(tilt: real, s1: real, s2: real, n: nat)
    requires n >= 4 && tilt >= 0.0 && tilt == TiltOf(n, s1, s2)
    ensures 4.0 * (s1 / n as real) - 6.0 * (s2 / n as real) >= 0.0
    ensures 4.0 * (s1 / n as real) - 6.0 * (s2 / n as real) == 0.0 <==> tilt == 0.0
  {
    var x := 2.0 * s1 - 3.0 * s2;
    var d, w := Product(n - 1, n - 2) as real, n as real;
    ProductSign(x, d);
    ProductSign(-x, d);
    assert d * -x == -(d * x);
    assert 4.0 * (s1 / w) - 6.0 * (s2 / w) == 2.0 * (x / w);
    DivideOrder(0.0, x, w);
  }

  lemma MomentHeadroom(ordered: seq<real>)
    requires |ordered| >= 4 && Rises(ordered, |ordered|) >= 0.0
    ensures 4.0 * Moment(1, ordered) - 6.0 * Moment(2, ordered) >= 0.0
    ensures 4.0 * Moment(1, ordered) - 6.0 * Moment(2, ordered) == 0.0 <==> Rises(ordered, |ordered|) == 0.0
  {
    hide Terms, Tilt, Rises, Product, Sum, TiltOf;
    var n := |ordered|;
    LastTilt(ordered);
    TiltIsSum(ordered, n);
    AllTerms(1, ordered);
    AllTerms(2, ordered);
    HeadroomArithmetic(Tilt(ordered, n), Sum(Terms(1, ordered)[..n]), Sum(Terms(2, ordered)[..n]), n);
  }

  /** The gap never falls short of minus the spread, and equals it exactly when all values but the
      largest are equal: the third sample L-moment against the second. */
  lemma GapCoversSpread(values: seq<real>)
    requires |values| >= 4
    ensures var ordered := Sort(values, RealLe);
            && Gap(values) + Spread(values) >= 0.0
            && (Gap(values) + Spread(values) == 0.0 <==> ordered[0] == ordered[|values| - 2])
  {
    hide Sort, Moment, Rises;
    var ordered := Sort(values, RealLe);
    RealLePreorder();
    SortSorted(values, RealLe);
    RisesSign(ordered, |ordered|);
    MomentHeadroom(ordered);
  }

  /** A sample that the fit accepts: enough values, a positive third L-moment that clears the guard, and
      not all values but the largest equal. */
  predicate Fittable(values: seq<real>) {
    && |values| >= 4
    && Spread(values) <= -TINY_SPREAD
    && Sort(values, RealLe)[0] != Sort(values, RealLe)[|values| - 2]
  }

  lemma ShapeAboveOne(gap: real, spread: real)
    requires gap >= 0.0 && spread != 0.0
    ensures -gap / spread > 1.0 <==> spread < 0.0 && gap + spread > 0.0
  {
    var beta := -gap / spread;
    assert beta * spread == -gap;
    if spread < 0.0 {
      assert (beta - 1.0) * -spread == gap + spread;
      ProductSign(beta - 1.0, -spread);
      ProductSign(1.0 - beta, -spread);
      assert -spread * (1.0 - beta) == -(gap + spread);
    } else {
      assert (-beta) * spread == gap;
      ProductSign(-beta, spread);
    }
  }

  /** Exactly when a fit exists: the sample must be skewed to the right by more than the guard. Every other
      sample of four or more values is refused, with either message, however long it is. */
  lemma FitExists(values: seq<real>, num: Numerics)
    requires Sound(num)
    ensures FitPwm(values, num).Ok? <==> Fittable(values)
    ensures FitPwm(values, num) == Err(ShapeTooSmall)
       <==> |values| >= 4 && Abs(Spread(values)) >= TINY_SPREAD && !Fittable(values)
  {
    hide Sort, Moment, Gap, Spread, G1, G2, AlphaOf, LocOf, Sound;
    if |values| >= 4 {
      GapNonNegative(values);
      GapCoversSpread(values);
      if Abs(Spread(values)) >= TINY_SPREAD {
        NonZero(Spread(values));
        ShapeAboveOne(Gap(values), Spread(values));
      }
    }
  }

  /** n values: one that falls short by depth, all others 0. */
  function DryYear(n: nat, depth: real): (r: seq<real>)
    requires n > 0
    ensures |r| == n
  {
    [-depth] + seq(n - 1, _ => 0.0)
  }

  lemma FirstWeight(x: real, k: nat, n: nat)
    requires n >= 4 && k <= 2
    ensures Weighted(x, k, n, 1) == x
  {
    var d := WeightDen(k, n) as real;
    assert x * d / d == x;
  }

  lemma ZeroTerm(k: nat, n: nat, j: nat)
    requires n >= 4
    ensures Weighted(0.0, k, n, j) == 0.0
  {
    hide WeightNum, WeightDen;
    assert 0.0 * WeightNum(k, n, j) as real == 0.0;
  }

  lemma DryMoment(k: nat, n: nat, depth: real)
    requires n >= 4 && k <= 2
    ensures Moment(k, DryYear(n, depth)) == -depth / n as real
  {
    hide Weighted, Sum;
    var terms := Terms(k, DryYear(n, depth));
    FirstWeight(-depth, k, n);
    forall i | 1 <= i < n
      ensures terms[i] == 0.0
    {
      ZeroTerm(k, n, i + 1);
    }
    assert terms == [-depth] + terms[1..];
    SumConcat([-depth], terms[1..]);
    SumConstant([-depth], -depth);
    SumConstant(terms[1..], 0.0);
  }

  lemma DrySpread(n: nat, depth: real)
    requires n >= 4 && depth > 0.0
    ensures Spread(DryYear(n, depth)) == depth / n as real
  {
    hide Moment, Sort;
    RealLePreorder();
    SortOfSorted(DryYear(n, depth), RealLe);
    DryMoment(0, n, depth);
    DryMoment(1, n, depth);
    DryMoment(2, n, depth);
    assert -depth / n as real == -(depth / n as real);
  }

  /** However many years the record has: one dry year below an otherwise level record has no fit. */
  lemma OneDryYearRefused(n: nat, level: real, depth: real, num: Numerics)
    requires Sound(num) && n >= 4 && depth > 0.0 && depth / n as real >= TINY_SPREAD
    ensures FitPwm(Map(DryYear(n, depth), Affine(1.0, level)), num) == Err(ShapeTooSmall)
  {
    hide Sort, Moment, Affine, Map, DryYear, FitPwm, Sound, Gap, Spread;
    DrySpread(n, depth);
    AffineSpread(DryYear(n, depth), 1.0, level);
    assert Scale(1.0, depth / n as real) == depth / n as real;
    FitExists(Map(DryYear(n, depth), Affine(1.0, level)), num);
  }

  // ------------------------------------------------------------------ the index

  function Cdf(x: real, fit: Fit, num: Numerics): real
    requires fit.alpha > 0.0 && Sound(num)
  {
    var z := x - fit.loc;
    if z <= 0.0 then 0.0
    else
      assert fit.alpha / z > 0.0;
      1.0 / (1.0 + num.pow(fit.alpha / z, fit.beta))
  }

  function Max(x: real, y: real): real {
    if y > x then y else x
  }

  function Min(x: real, y: real): real {
    if y < x then y else x
  }

  function Standardise(h: real, num: Numerics): (r: real)
    ensures -INDEX_LIMIT <= r <= INDEX_LIMIT
  {
    var p := Min(Max(h, TINY_PROBABILITY), 1.0 - TINY_PROBABILITY);
    Max(-INDEX_LIMIT, Min(INDEX_LIMIT, num.quantile(p)))
  }

  lemma StandardiseMonotone(h: real, h': real, num: Numerics)
    requires Monotone(num) && h <= h'
    ensures Standardise(h, num) <= Standardise(h', num)
  {
    var p := Min(Max(h, TINY_PROBABILITY), 1.0 - TINY_PROBABILITY);
    var p' := Min(Max(h', TINY_PROBABILITY), 1.0 - TINY_PROBABILITY);
    assert 0.0 < p <= p' < 1.0;
  }

  lemma QuotientOrder(a: real, z: real, z': real)
    requires a > 0.0 && 0.0 < z <= z'
    ensures 0.0 < a / z' <= a / z
  {
    var u, v := a / z, a / z';
    assert u * z == a && v * z' == a;
    assert v > 0.0;
    assert v * z' >= v * z;
    if v > u {
      assert v * z > u * z;
    }
  }

  lemma ReciprocalOrder(x: real, y: real)
    requires 0.0 < x <= y
    ensures 0.0 < 1.0 / (1.0 + y) <= 1.0 / (1.0 + x)
  {
    QuotientOrder(1.0, 1.0 + x, 1.0 + y);
  }

  lemma CdfMonotone(x: real, x': real, fit: Fit, num: Numerics)
    requires Sound(num) && Monotone(num) && fit.alpha > 0.0 && fit.beta > 0.0 && x <= x'
    ensures Cdf(x, fit, num) <= Cdf(x', fit, num)
  {
    var z, z' := x - fit.loc, x' - fit.loc;
    if z' > 0.0 {
      if z > 0.0 {
        QuotientOrder(fit.alpha, z, z');
        ReciprocalOrder(num.pow(fit.alpha / z', fit.beta), num.pow(fit.alpha / z, fit.beta));
      } else {
        assert fit.alpha / z' > 0.0;
        ReciprocalOrder(num.pow(fit.alpha / z', fit.beta), num.pow(fit.alpha / z', fit.beta));
      }
    }
  }

  lemma ScaledArgument(alpha: real, z: real, c: real)
    requires c > 0.0 && z > 0.0
    ensures Scale(c, z) > 0.0 && Scale(c, alpha) / Scale(c, z) == alpha / z
  {
    assert c * z > 0.0;
    var x := alpha / z;
    assert x * z == alpha;
    assert x * (c * z) == c * alpha;
    CancelQuotient(x, c * z);
  }

  lemma ScaleSign(c: real, z: real)
    requires c > 0.0
    ensures Scale(c, z) > 0.0 <==> z > 0.0
  {
    ScaleOrder(c, z, 0.0);
    assert Scale(c, 0.0) == 0.0;
  }

  lemma ShiftedDifference(c: real, s: real, x: real, y: real)
    ensures Shifted(c, s, x) - Shifted(c, s, y) == Scale(c, x - y)
  {
  }

  /** The fitted probability does not change when data and fit are rescaled and shifted together. */
  lemma CdfInvariant(x: real, fit: Fit, c: real, s: real, num: Numerics)
    requires Sound(num) && c > 0.0 && fit.alpha > 0.0
    ensures Scale(c, fit.alpha) > 0.0
    ensures Cdf(Shifted(c, s, x), Fit(fit.beta, Scale(c, fit.alpha), Shifted(c, s, fit.loc)), num) == Cdf(x, fit, num)
  {
    hide Scale, Shifted, Sound;
    ShiftedDifference(c, s, x, fit.loc);
    var z := x - fit.loc;
    ScaleSign(c, z);
    ScaleSign(c, fit.alpha);
    if z > 0.0 {
      ScaledArgument(fit.alpha, z, c);
    }
  }

  /** The log-logistic odds: above the location, the chance of more is (alpha / (x - loc))^beta times
      the chance of at most x; at or below the location nothing is left of it. */
  lemma CdfOdds(x: real, fit: Fit, num: Numerics)
    requires fit.alpha > 0.0 && Sound(num)
    ensures var F := Cdf(x, fit, num);
            && (x <= fit.loc <==> F == 0.0)
            && (x > fit.loc ==> 0.0 < F < 1.0 && 1.0 - F == F * num.pow(fit.alpha / (x - fit.loc), fit.beta))
  {
    if x > fit.loc {
      assert fit.alpha / (x - fit.loc) > 0.0;
      var p := num.pow(fit.alpha / (x - fit.loc), fit.beta);
      assert p > 0.0;
      var F := 1.0 / (1.0 + p);
      assert F * (1.0 + p) == 1.0;
      assert F * (1.0 + p) == F + F * p;
    }
  }

  /** The index is the normal quantile of the probability kept inside its clip, itself clipped to 3.09. */
  lemma StandardiseExactly(h: real, num: Numerics)
    ensures var p := if h < 0.0000000001 then 0.0000000001 else if h > 0.9999999999 then 0.9999999999 else h;
            && (num.quantile(p) > 3.09 ==> Standardise(h, num) == 3.09)
            && (num.quantile(p) < -3.09 ==> Standardise(h, num) == -3.09)
            && (-3.09 <= num.quantile(p) <= 3.09 ==> Standardise(h, num) == num.quantile(p))
  {
  }
}
