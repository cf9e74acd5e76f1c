/** The golden-section loop of fit_temperature (agri/crop.py), with its cached evaluations. */
module GoldenSection {
  /** g is the golden ratio's reciprocal, known only through g*g == 1 - g. */
  predicate Golden(g: real) {
    0.0 < g < 1.0 && g * g == 1.0 - g
  }

  function Width(low: real, high: real): real {
    if high >= low then high - low else low - high
  }

  function Pow(g: real, n: nat): real {
    if n == 0 then 1.0 else g * Pow(g, n - 1)
  }

  /** The two probes: c and d in the source. */
  function LeftProbe(g: real, low: real, high: real): real {
    high - g * (high - low)
  }

  function RightProbe(g: real, low: real, high: real): real {
    low + g * (high - low)
  }

  /** A width after n steps. */
  function Shrunk(g: real, n: nat, width: real): real {
    Pow(g, n) * width
  }

  /** What the loop keeps: both probes sit at their golden positions and both values are current. */
  ghost predicate Bracket(nll: real -> real, g: real, low: real, high: real, c: real, d: real, fc: real, fd: real) {
    && c == LeftProbe(g, low, high)
    && d == RightProbe(g, low, high)
    && fc == nll(c)
    && fd == nll(d)
  }

  /** nll falls strictly down to m and rises strictly after it, on [low, high]. */
  ghost predicate Unimodal(nll: real -> real, low: real, high: real, m: real) {
    && low <= m <= high
    && (forall x, y :: low <= x < y <= m ==> nll(x) > nll(y))
    && (forall x, y :: m <= x < y <= high ==> nll(x) < nll(y))
  }

  /** Bernoulli: g^n is at most 1/(1 + n(1-g)), stated without division. */
  lemma {:induction false} Bernoulli(g: real, n: nat)
    requires 0.0 < g < 1.0
    ensures Pow(g, n) > 0.0
    ensures Pow(g, n) * (1.0 + n as real * (1.0 - g)) <= 1.0
  {
    if n > 0 {
      Bernoulli(g, n - 1);
      var p, k, h := Pow(g, n - 1), (n - 1) as real, 1.0 - g;
      assert g * (1.0 + (k + 1.0) * h) <= 1.0 + k * h by {
        assert g == 1.0 - h;
        assert (1.0 - h) * (1.0 + (k + 1.0) * h) == 1.0 + k * h - (k + 1.0) * h * h;
        assert (k + 1.0) * h * h >= 0.0;
      }
      assert p * (g * (1.0 + (k + 1.0) * h)) <= p * (1.0 + k * h);
      assert g * p * (1.0 + n as real * h) == p * (g * (1.0 + (k + 1.0) * h));
    }
  }

  lemma MulLe(x: real, y: real, z: real)
    requires x <= y && z >= 0.0
    ensures x * z <= y * z && z * x <= z * y
  {
  }

  lemma SmallEnough(p: real, k: real, h: real, width: real, tolerance: real)
    requires p > 0.0 && h > 0.0 && tolerance > 0.0
    requires p * (1.0 + k * h) <= 1.0
    requires width <= k * (tolerance * h)
    ensures p * width <= tolerance
  {
    MulLe(width, k * (tolerance * h), p);
    assert p * (k * (tolerance * h)) == tolerance * (p * (1.0 + k * h) - p);
    MulLe(p * (1.0 + k * h) - p, 1.0, tolerance);
  }

  /** Enough steps shrink any width to any positive tolerance. */
  lemma EnoughSteps(g: real, width: real, tolerance: real) returns (n: nat)
    requires 0.0 < g < 1.0 && width >= 0.0 && tolerance > 0.0
    ensures Pow(g, n) * width <= tolerance
  {
    hide Pow;
    var h := 1.0 - g;
    var unit := tolerance * h;
    assert unit > 0.0;
    var x := width / unit;
    n := x.Floor + 1;
    Bernoulli(g, n);
    MulLe(x, n as real, unit);
    assert x * unit == width;
    SmallEnough(Pow(g, n), n as real, h, width, tolerance);
  }

  lemma {:induction false} PowDecreases(g: real, i: nat, j: nat)
    requires 0.0 < g < 1.0 && i <= j
    ensures 0.0 < Pow(g, j) <= Pow(g, i)
    decreases j
  {
    if i < j {
      PowDecreases(g, i, j - 1);
      MulLe(g, 1.0, Pow(g, j - 1));
    } else {
      PowPositive(g, j);
    }
  }

  lemma {:induction false} PowPositive(g: real, n: nat)
    requires g > 0.0
    ensures Pow(g, n) > 0.0
  {
    if n > 0 {
      PowPositive(g, n - 1);
    }
  }

  /** Dropping the part right of d: the old left probe is the new right probe. */
  lemma ShrinkRight(g: real, low: real, high: real, n: nat, width0: real)
    requires Golden(g) && Width(low, high) == Shrunk(g, n, width0)
    ensures var d := RightProbe(g, low, high);
            && RightProbe(g, low, d) == LeftProbe(g, low, high)
            && Width(low, d) == Shrunk(g, n + 1, width0)
  {
    var w := high - low;
    assert g * (g * w) == (g * g) * w == (1.0 - g) * w;
    ScaledWidth(g, Pow(g, n), width0, low, high, low, RightProbe(g, low, high));
  }

  /** Dropping the part left of c: the old right probe is the new left probe. */
  lemma ShrinkLeft(g: real, low: real, high: real, n: nat, width0: real)
    requires Golden(g) && Width(low, high) == Shrunk(g, n, width0)
    ensures var c := LeftProbe(g, low, high);
            && LeftProbe(g, c, high) == RightProbe(g, low, high)
            && Width(c, high) == Shrunk(g, n + 1, width0)
  {
    var w := high - low;
    assert g * (g * w) == (g * g) * w == (1.0 - g) * w;
    ScaledWidth(g, Pow(g, n), width0, low, high, LeftProbe(g, low, high), high);
  }

  lemma ScaledWidth(g: real, p: real, width0: real, low: real, high: real, low': real, high': real)
    requires g > 0.0 && Width(low, high) == p * width0
    requires high' - low' == g * (high - low)
    ensures Width(low', high') == (g * p) * width0
  {
    assert Width(low', high') == g * Width(low, high);
    assert g * (p * width0) == (g * p) * width0;
  }

  lemma AboveHalf(g: real)
    requires Golden(g)
    ensures g > 0.5
  {
    assert (g - 0.5) * (g + 1.5) == g * g + g - 0.75 == 0.25;
  }

  lemma ProbesInOrder(g: real, low: real, high: real)
    requires Golden(g) && low < high
    ensures low < LeftProbe(g, low, high) < RightProbe(g, low, high) < high
  {
    var w := high - low;
    AboveHalf(g);
    assert (g - 0.5) * w > 0.0;
    assert (1.0 - g) * w > 0.0;
    assert RightProbe(g, low, high) - LeftProbe(g, low, high) == 2.0 * ((g - 0.5) * w);
    assert high - RightProbe(g, low, high) == LeftProbe(g, low, high) - low == (1.0 - g) * w;
  }

  /** Comparing the two probes never discards the minimiser of a unimodal function. */
  lemma MinimiserKept(nll: real -> real, g: real, low0: real, high0: real, low: real, high: real, m: real)
    requires Golden(g) && low0 <= low < high <= high0
    requires Unimodal(nll, low0, high0, m) && low <= m <= high
    ensures var c, d := LeftProbe(g, low, high), RightProbe(g, low, high);
            if nll(c) < nll(d) then m <= d else c <= m
  {
    hide LeftProbe, RightProbe;
    ProbesInOrder(g, low, high);
  }

  /** The loop: it stops for every tolerance > 0, after the first number of steps that brings the
      bracket within tolerance, and the midpoint is within tolerance/2 of a unimodal minimiser. */
  method Minimise(nll: real -> real, low0: real, high0: real, g: real, tolerance: real)
    returns (midpoint: real, ghost steps: nat)
    requires Golden(g) && tolerance > 0.0
    ensures Shrunk(g, steps, Width(low0, high0)) <= tolerance
    ensures forall n: nat :: n < steps ==> Shrunk(g, n, Width(low0, high0)) > tolerance
    ensures low0 <= high0 ==> low0 <= midpoint <= high0
    ensures forall m :: Unimodal(nll, low0, high0, m) ==> Width(midpoint, m) <= tolerance / 2.0
  {
    hide LeftProbe, RightProbe, Shrunk, Unimodal, Golden;
    var low, high := low0, high0;
    var c := LeftProbe(g, low, high);
    var d := RightProbe(g, low, high);
    var fc, fd := nll(c), nll(d);
    ghost var width0 := Width(low0, high0);
    ghost var bound := StepBound(g, width0, tolerance);
    steps := 0;
    forall m | Unimodal(nll, low0, high0, m)
      ensures low0 <= m <= high0
    {
      UnimodalNeedsOrder(nll, low0, high0, m);
    }
    while Width(low, high) > tolerance
      invariant Bracket(nll, g, low, high, c, d, fc, fd)
      invariant Width(low, high) == Shrunk(g, steps, width0)
      invariant forall n: nat :: n < steps ==> Shrunk(g, n, width0) > tolerance
      invariant low0 <= high0 ==> low0 <= low <= high <= high0
      invariant forall m :: Unimodal(nll, low0, high0, m) ==> low <= m <= high
      invariant steps <= bound
      decreases bound - steps
    {
      ShrinkRight(g, low, high, steps, width0);
      ShrinkLeft(g, low, high, steps, width0);
      if low0 <= high0 {
        ProbesInOrder(g, low, high);
        forall m | Unimodal(nll, low0, high0, m)
          ensures if fc < fd then low <= m <= d else c <= m <= high
        {
          MinimiserKept(nll, g, low0, high0, low, high, m);
        }
      }
      if fc < fd {
        high, d, fd := d, c, fc;
        c := LeftProbe(g, low, high);
        fc := nll(c);
      } else {
        low, c, fc := c, d, fd;
        d := RightProbe(g, low, high);
        fd := nll(d);
      }
      steps := steps + 1;
    }
    midpoint := (low + high) / 2.0;
  }

  lemma StepBound(g: real, width: real, tolerance: real) returns (n: nat)
    requires Golden(g) && width >= 0.0 && tolerance > 0.0
    ensures Shrunk(g, 0, width) == width
    ensures forall k: nat :: k >= n ==> Shrunk(g, k, width) <= tolerance
  {
    n := EnoughSteps(g, width, tolerance);
    forall k: nat | k >= n
      ensures Shrunk(g, k, width) <= tolerance
    {
      PowDecreases(g, n, k);
      MulLe(Pow(g, k), Pow(g, n), width);
    }
  }

  lemma UnimodalNeedsOrder(nll: real -> real, low: real, high: real, m: real)
    requires Unimodal(nll, low, high, m)
    ensures low <= m <= high
  {
  }
}
