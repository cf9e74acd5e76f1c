/** When the objective of fit_temperature is unimodal (agri/crop.py). */
module Calibration {
  import opened CropForest
  import GoldenSection
  import opened Sums

  function Scale(x: real, y: real): real {
    x * y
  }

  /** The exponential law at two arguments. */
  predicate Adds(num: Numerics, x: real, y: real) {
    num.exp(x + y) == Scale(num.exp(x), num.exp(y))
  }

  /** A point between two others, s of the way. */
  function Mix(x: real, y: real, s: real): real {
    Scale(1.0 - s, x) + Scale(s, y)
  }

  /** The exponential lies below its chord, strictly between two different arguments. */
  predicate BelowChord(num: Numerics, x: real, y: real, s: real) {
    && num.exp(Mix(x, y, s)) <= Mix(num.exp(x), num.exp(y), s)
    && (x != y && 0.0 < s < 1.0 ==> num.exp(Mix(x, y, s)) < Mix(num.exp(x), num.exp(y), s))
  }

  /** What is assumed of the exponential and the logarithm on top of their order. */
  ghost predicate Exponential(num: Numerics) {
    && Sound(num)
    && (forall x: real :: num.log(num.exp(x)) == x)
    && (forall x: real :: x > 0.0 ==> num.exp(num.log(x)) == x)
    && (forall x: real, y: real :: Adds(num, x, y))
    && forall x: real, y: real, s: real :: 0.0 <= s <= 1.0 ==> BelowChord(num, x, y, s)
  }

  lemma IsSound(num: Numerics)
    requires Exponential(num)
    ensures Sound(num)
  {
  }

  lemma ExpAdds(num: Numerics, x: real, y: real)
    requires Exponential(num)
    ensures num.exp(x + y) == Scale(num.exp(x), num.exp(y)) && num.exp(x) > 0.0
  {
    assert Adds(num, x, y);
  }

  lemma LogExp(num: Numerics, x: real)
    requires Exponential(num)
    ensures num.log(num.exp(x)) == x
    ensures x > 0.0 ==> num.exp(num.log(x)) == x
  {
  }

  lemma Idempotent(e: real)
    requires e > 0.0 && e == Scale(e, e)
    ensures e == 1.0
  {
    assert e * (e - 1.0) == 0.0;
  }

  lemma ExpZero(num: Numerics)
    requires Exponential(num)
    ensures num.exp(0.0) == 1.0
  {
    hide Exponential, Scale;
    ExpAdds(num, 0.0, 0.0);
    Idempotent(num.exp(0.0));
  }

  lemma ExpMinus(num: Numerics, x: real)
    requires Exponential(num)
    ensures Scale(num.exp(x), num.exp(-x)) == 1.0 && num.exp(x) > 0.0 && num.exp(-x) > 0.0
  {
    hide Exponential, Scale;
    ExpZero(num);
    ExpAdds(num, x, -x);
    ExpAdds(num, -x, x);
  }

  lemma LogProduct(num: Numerics, x: real, y: real)
    requires Exponential(num) && x > 0.0 && y > 0.0
    ensures Scale(x, y) > 0.0 && num.log(Scale(x, y)) == num.log(x) + num.log(y)
  {
    hide Exponential, Scale;
    ExpAdds(num, num.log(x), num.log(y));
    ExpAdds(num, num.log(x) + num.log(y), 0.0);
    LogExp(num, x);
    LogExp(num, y);
    LogExp(num, num.log(x) + num.log(y));
  }

  lemma LogInverse(num: Numerics, x: real, y: real)
    requires Exponential(num) && x > 0.0 && y > 0.0 && Scale(x, y) == 1.0
    ensures num.log(x) == -num.log(y)
  {
    hide Exponential, Scale;
    LogProduct(num, x, y);
    ExpZero(num);
    LogExp(num, 0.0);
  }

  lemma LogOrder(num: Numerics, x: real, y: real)
    requires Sound(num) && x > 0.0 && y > 0.0
    ensures num.log(x) <= num.log(y) <==> x <= y
  {
  }

  // --------------------------------------------------- one row's loss, as a function of 1/T

  /** How far class j's logit lies above the target's, before the temperature divides it. */
  function Lead(p: seq<real>, num: Numerics, target: nat, j: nat): real
    requires target < |p| && j < |p|
  {
    num.log(AtLeastFloor(p[j])) - num.log(AtLeastFloor(p[target]))
  }

  /** The odds of every class against the target, at inverse temperature beta. */
  function Odds(p: seq<real>, num: Numerics, target: nat, beta: real): (r: seq<real>)
    requires target < |p|
    ensures |r| == |p|
    ensures forall j :: 0 <= j < |p| ==> r[j] == num.exp(Scale(beta, Lead(p, num, target, j)))
  {
    seq(|p|, j requires 0 <= j < |p| => num.exp(Scale(beta, Lead(p, num, target, j))))
  }

  /** One over the target's share. */
  function Excess(p: seq<real>, num: Numerics, target: nat, beta: real): (r: real)
    requires target < |p| && Sound(num)
    ensures r > 0.0
  {
    PositiveSum(Odds(p, num, target, beta));
    Sum(Odds(p, num, target, beta))
  }

  lemma ScaleAdds(x: real, y: real, c: real)
    ensures Scale(x + y, c) == Scale(x, c) + Scale(y, c) && Scale(c, x + y) == Scale(c, x) + Scale(c, y)
    ensures Scale(c, 0.0) == Scale(0.0, c) == 0.0
  {
  }

  lemma {:induction false} ScaledSum(s: seq<real>, t: seq<real>, c: real)
    requires |s| == |t| && forall i :: 0 <= i < |s| ==> t[i] == Scale(c, s[i])
    ensures Sum(t) == Scale(c, Sum(s))
  {
    hide Scale;
    if s == [] {
      ScaleAdds(0.0, 0.0, c);
    } else {
      var n := |s| - 1;
      ScaledSum(s[..n], t[..n], c);
      ScaleAdds(Sum(s[..n]), s[n], c);
    }
  }

  lemma QuotientDifference(x: real, y: real, t: real)
    requires t > 0.0
    ensures x / t == y / t + Scale(1.0 / t, x - y)
  {
    assert x / t == (1.0 / t) * x && y / t == (1.0 / t) * y;
  }

  /** Shifting the exponent of every class by the same amount cancels in the share. */
  lemma OddsTerm(p: seq<real>, temperature: real, num: Numerics, target: nat, j: nat, peak: real)
    requires target < |p| && j < |p| && temperature > 0.0 && Exponential(num)
    ensures num.exp(Logit(p[j], temperature, num) - peak)
         == Scale(num.exp(Logit(p[target], temperature, num) - peak), num.exp(Scale(1.0 / temperature, Lead(p, num, target, j))))
  {
    hide AtLeastFloor, Exponential, Scale;
    var x, y := num.log(AtLeastFloor(p[j])), num.log(AtLeastFloor(p[target]));
    QuotientDifference(x, y, temperature);
    ExpAdds(num, Logit(p[target], temperature, num) - peak, Scale(1.0 / temperature, x - y));
    SumOfExponents(Logit(p[target], temperature, num), peak, Scale(1.0 / temperature, x - y), Logit(p[j], temperature, num));
  }

  lemma SumOfExponents(x: real, peak: real, d: real, y: real)
    requires y == x + d
    ensures x - peak + d == y - peak
  {
  }

  /** The calibrated share of the target is one over the excess. */
  lemma ShareIsInverse(p: seq<real>, temperature: real, num: Numerics, target: nat)
    requires target < |p| && temperature > 0.0 && Exponential(num)
    ensures Scale(Scaled(p, temperature, num)[target], Excess(p, num, target, 1.0 / temperature)) == 1.0
    ensures Scaled(p, temperature, num)[target] > 0.0
  {
    IsSound(num);
    hide Exponential, Logit, Lead, Scale, Peak, Sum, Odds;
    var logits := Logits(p, temperature, num);
    var peak := Peak(logits);
    var e := Exponentiated(logits, peak, num);
    PositiveSum(e);
    assert e[target] > 0.0;
    ExponentiatedSum(p, temperature, num, target);
    CancelShare(e[target], Sum(Odds(p, num, target, 1.0 / temperature)), Sum(e));
  }

  lemma ExponentiatedSum(p: seq<real>, temperature: real, num: Numerics, target: nat)
    requires target < |p| && temperature > 0.0 && Exponential(num)
    ensures var e := Exponentiated(Logits(p, temperature, num), Peak(Logits(p, temperature, num)), num);
            Sum(e) == Scale(e[target], Sum(Odds(p, num, target, 1.0 / temperature)))
  {
    hide Exponential, Logit, Lead, Scale, Peak, Sum;
    var peak := Peak(Logits(p, temperature, num));
    var e, odds := Exponentiated(Logits(p, temperature, num), peak, num), Odds(p, num, target, 1.0 / temperature);
    forall j | 0 <= j < |p|
      ensures e[j] == Scale(e[target], odds[j])
    {
      OddsTerm(p, temperature, num, target, j, peak);
    }
    ScaledSum(odds, e, e[target]);
  }

  lemma UnitFactor(x: real, total: real)
    requires total > 0.0 && x * total == total
    ensures x == 1.0
  {
    assert (x - 1.0) * total == 0.0;
  }

  lemma SwapFactors(q: real, odds: real, total: real)
    ensures (q * odds) * total == Scale(q * total, odds)
  {
  }

  lemma CancelShare(x: real, odds: real, total: real)
    requires total > 0.0 && x > 0.0 && total == Scale(x, odds)
    ensures Scale(x / total, odds) == 1.0 && x / total > 0.0
  {
    var q := x / total;
    assert q * total == x;
    SwapFactors(q, odds, total);
    assert Scale(q * total, odds) == Scale(x, odds);
    UnitFactor(q * odds, total);
  }

  lemma ShareRatio(p: seq<real>, temperature: real, num: Numerics, i: nat, j: nat)
    requires i < |p| && j < |p| && temperature > 0.0 && Exponential(num)
    ensures Sound(num) && Scaled(p, temperature, num)[i] > 0.0 && Scaled(p, temperature, num)[j] > 0.0
    ensures Scaled(p, temperature, num)[j] == Scale(Scaled(p, temperature, num)[i], num.exp(Scale(1.0 / temperature, Lead(p, num, i, j))))
  {
    hide Exponential, Logit, Lead, Scale, Peak, Sum, Sound, Odds;
    IsSound(num);
    ShareIsInverse(p, temperature, num, i);
    ShareIsInverse(p, temperature, num, j);
    ExponentiatedTerms(p, temperature, num, i, j);
  }

  lemma ExponentiatedTerms(p: seq<real>, temperature: real, num: Numerics, i: nat, j: nat)
    requires i < |p| && j < |p| && temperature > 0.0 && Exponential(num)
    ensures Sound(num)
    ensures Scaled(p, temperature, num)[j] == Scale(Scaled(p, temperature, num)[i], num.exp(Scale(1.0 / temperature, Lead(p, num, i, j))))
  {
    hide Exponential, Logit, Lead, Scale, Peak, Sum, Sound;
    IsSound(num);
    var logits := Logits(p, temperature, num);
    var peak := Peak(logits);
    var e := Exponentiated(logits, peak, num);
    PositiveSum(e);
    OddsTerm(p, temperature, num, i, j, peak);
    DivideFactor(e[i], num.exp(Scale(1.0 / temperature, Lead(p, num, i, j))), Sum(e));
  }

  lemma DivideFactor(x: real, odds: real, total: real)
    requires total > 0.0
    ensures Scale(x, odds) / total == Scale(x / total, odds)
  {
    assert (x * odds) / total == (x / total) * odds;
  }

  /** What the temperature does: between two classes above the floor it divides the difference of the
      logarithms of the averaged vote; at 1 it leaves the vote alone. */
  lemma TemperatureDividesLogOdds(forest: Forest, row: map<string, real>, num: Numerics, i: nat, j: nat)
    requires Valid(forest) && forest.temperature > 0.0 && Exponential(num) && AllVote(forest.trees, |forest.crops|, row)
    requires i < |forest.crops| && j < |forest.crops|
    requires var p := Averaged(forest.trees, |forest.crops|, row); p[i] > FLOOR && p[j] > FLOOR
    ensures Sound(num)
    ensures var p, r := Averaged(forest.trees, |forest.crops|, row), CalibratedVote(forest, row, num);
            && r[i] > 0.0 && r[j] > 0.0
            && Scale(forest.temperature, num.log(r[j]) - num.log(r[i])) == num.log(p[j]) - num.log(p[i])
  {
    hide Exponential, Scaled, Averaged, Sound, AllVote, Scale;
    IsSound(num);
    var p, t := Averaged(forest.trees, |forest.crops|, row), forest.temperature;
    if t == 1.0 {
      ScaleByOne(num.log(p[j]) - num.log(p[i]));
    } else {
      ScaledLogOdds(p, t, num, i, j);
    }
  }

  lemma ScaledLogOdds(p: seq<real>, t: real, num: Numerics, i: nat, j: nat)
    requires i < |p| && j < |p| && p[i] > FLOOR && p[j] > FLOOR && t > 0.0 && Exponential(num)
    ensures Sound(num)
    ensures var r := Scaled(p, t, num);
            r[i] > 0.0 && r[j] > 0.0 && Scale(t, num.log(r[j]) - num.log(r[i])) == num.log(p[j]) - num.log(p[i])
  {
    hide Exponential, Scaled, Sound, Scale;
    IsSound(num);
    var d := Scale(1.0 / t, Lead(p, num, i, j));
    ShareRatio(p, t, num, i, j);
    ExpPositive(num, d);
    LogProduct(num, Scaled(p, t, num)[i], num.exp(d));
    LogExp(num, d);
    ScaleBack(t, Lead(p, num, i, j));
  }

  lemma ScaleByOne(x: real)
    ensures Scale(1.0, x) == x
  {
  }

  lemma ExpPositive(num: Numerics, x: real)
    requires Exponential(num)
    ensures num.exp(x) > 0.0
  {
  }

  lemma ScaleBack(t: real, x: real)
    requires t > 0.0
    ensures Scale(t, Scale(1.0 / t, x)) == x
  {
    assert t * (1.0 / t) == 1.0;
    assert t * ((1.0 / t) * x) == (t * (1.0 / t)) * x;
  }

  // ------------------------------------------------------------------------ convexity

  lemma ExpBelowChord(num: Numerics, x: real, y: real, s: real)
    requires Exponential(num) && 0.0 <= s <= 1.0
    ensures BelowChord(num, x, y, s)
  {
  }

  /** The odds at a mixed inverse temperature, against the mixed logarithms of the excesses. */
  lemma OddsBelow(num: Numerics, d: real, b1: real, b2: real, s: real, a1: real, a2: real)
    requires Exponential(num) && 0.0 <= s <= 1.0
    ensures Scale(num.exp(Scale(Mix(b1, b2, s), d)), num.exp(-Mix(a1, a2, s)))
         <= Mix(Scale(num.exp(Scale(b1, d)), num.exp(-a1)), Scale(num.exp(Scale(b2, d)), num.exp(-a2)), s)
    ensures 0.0 < s < 1.0 && Scale(b1, d) - a1 != Scale(b2, d) - a2 ==>
      Scale(num.exp(Scale(Mix(b1, b2, s), d)), num.exp(-Mix(a1, a2, s)))
        < Mix(Scale(num.exp(Scale(b1, d)), num.exp(-a1)), Scale(num.exp(Scale(b2, d)), num.exp(-a2)), s)
  {
    hide Exponential, Scale, Mix;
    var x, y := Scale(b1, d) - a1, Scale(b2, d) - a2;
    ExpBelowChord(num, x, y, s);
    ExpAdds(num, Scale(b1, d), -a1);
    ExpAdds(num, Scale(b2, d), -a2);
    ExpAdds(num, Scale(Mix(b1, b2, s), d), -Mix(a1, a2, s));
    MixedExponent(d, b1, b2, s, a1, a2);
    assert Scale(b1, d) + -a1 == x && Scale(b2, d) + -a2 == y;
    assert Scale(Mix(b1, b2, s), d) + -Mix(a1, a2, s) == Mix(x, y, s);
  }

  lemma MixedExponent(d: real, b1: real, b2: real, s: real, a1: real, a2: real)
    ensures Scale(Mix(b1, b2, s), d) - Mix(a1, a2, s) == Mix(Scale(b1, d) - a1, Scale(b2, d) - a2, s)
  {
    assert ((1.0 - s) * b1 + s * b2) * d == (1.0 - s) * (b1 * d) + s * (b2 * d);
    assert (1.0 - s) * (b1 * d - a1) == (1.0 - s) * (b1 * d) - (1.0 - s) * a1;
    assert s * (b2 * d - a2) == s * (b2 * d) - s * a2;
  }

  /** Entry j is at most a mix, or strictly below it. */
  predicate MixedAt(u: seq<real>, v: seq<real>, w: seq<real>, c: real, a: real, b: real, s: real, j: nat, strict: bool)
    requires |u| == |v| == |w| && j < |u|
  {
    var x, y := Scale(u[j], c), Mix(Scale(v[j], a), Scale(w[j], b), s);
    if strict then x < y else x <= y
  }

  /** Pointwise at most a mix, so the sums are; strictly if one entry is. */
  lemma {:induction false} SumBelowMix(u: seq<real>, v: seq<real>, w: seq<real>, c: real, a: real, b: real, s: real)
    requires |u| == |v| == |w| && forall j: nat :: j < |u| ==> MixedAt(u, v, w, c, a, b, s, j, false)
    ensures Scale(Sum(u), c) <= Mix(Scale(Sum(v), a), Scale(Sum(w), b), s)
    ensures (exists j: nat :: j < |u| && MixedAt(u, v, w, c, a, b, s, j, true)) ==> Scale(Sum(u), c) < Mix(Scale(Sum(v), a), Scale(Sum(w), b), s)
  {
    hide Scale, Mix;
    if u == [] {
      ScaleAdds(0.0, 0.0, c);
      ScaleAdds(0.0, 0.0, a);
      ScaleAdds(0.0, 0.0, b);
      MixOfSame(0.0, s);
    } else {
      var n := |u| - 1;
      forall j: nat | j < n
        ensures MixedAt(u[..n], v[..n], w[..n], c, a, b, s, j, false)
        ensures MixedAt(u, v, w, c, a, b, s, j, true) ==> MixedAt(u[..n], v[..n], w[..n], c, a, b, s, j, true)
      {
        assert MixedAt(u, v, w, c, a, b, s, j, false);
      }
      SumBelowMix(u[..n], v[..n], w[..n], c, a, b, s);
      assert MixedAt(u, v, w, c, a, b, s, n, false);
      ScaleAdds(Sum(u[..n]), u[n], c);
      ScaleAdds(Sum(v[..n]), v[n], a);
      ScaleAdds(Sum(w[..n]), w[n], b);
      MixLinear(Scale(Sum(v[..n]), a), Scale(v[n], a), Scale(Sum(w[..n]), b), Scale(w[n], b), s);
    }
  }

  lemma MixLinear(v: real, x: real, w: real, y: real, s: real)
    ensures Mix(v + x, w + y, s) == Mix(v, w, s) + Mix(x, y, s)
  {
    ScaleAdds(v, x, 1.0 - s);
    ScaleAdds(w, y, s);
  }

  lemma MixOfSame(x: real, s: real)
    ensures Mix(x, x, s) == x
  {
  }

  /** Some class is not as likely as the target: the row says something about the temperature. */
  predicate Telling(p: seq<real>, num: Numerics, target: nat)
    requires target < |p|
  {
    exists j :: 0 <= j < |p| && Lead(p, num, target, j) != 0.0
  }

  function RowLoss(p: seq<real>, num: Numerics, target: nat, beta: real): real
    requires target < |p| && Sound(num)
  {
    num.log(Excess(p, num, target, beta))
  }

  lemma MixedOdds(p: seq<real>, num: Numerics, target: nat, b1: real, b2: real, s: real, a1: real, a2: real, j: nat)
    requires target < |p| && j < |p| && Exponential(num) && 0.0 <= s <= 1.0
    ensures var (u, v, w) := (Odds(p, num, target, Mix(b1, b2, s)), Odds(p, num, target, b1), Odds(p, num, target, b2));
            && MixedAt(u, v, w, num.exp(-Mix(a1, a2, s)), num.exp(-a1), num.exp(-a2), s, j, false)
            && (0.0 < s < 1.0 && Scale(b1, Lead(p, num, target, j)) - a1 != Scale(b2, Lead(p, num, target, j)) - a2 ==>
                  MixedAt(u, v, w, num.exp(-Mix(a1, a2, s)), num.exp(-a1), num.exp(-a2), s, j, true))
  {
    hide Lead, Scale, Mix, Exponential;
    OddsBelow(num, Lead(p, num, target, j), b1, b2, s, a1, a2);
  }

  lemma RowSumBelow(p: seq<real>, num: Numerics, target: nat, b1: real, b2: real, s: real, a1: real, a2: real)
    requires target < |p| && Exponential(num) && 0.0 <= s <= 1.0
    ensures var (u, v, w) := (Odds(p, num, target, Mix(b1, b2, s)), Odds(p, num, target, b1), Odds(p, num, target, b2));
            var (x, y) := (Scale(Sum(u), num.exp(-Mix(a1, a2, s))), Mix(Scale(Sum(v), num.exp(-a1)), Scale(Sum(w), num.exp(-a2)), s));
            x <= y && (Telling(p, num, target) && b1 != b2 && 0.0 < s < 1.0 ==> x < y)
  {
    hide Lead, Scale, Mix, Exponential, Telling, MixedAt, Sum;
    var u, v, w := Odds(p, num, target, Mix(b1, b2, s)), Odds(p, num, target, b1), Odds(p, num, target, b2);
    var c, c1, c2 := num.exp(-Mix(a1, a2, s)), num.exp(-a1), num.exp(-a2);
    forall j: nat | j < |p|
      ensures MixedAt(u, v, w, c, c1, c2, s, j, false)
    {
      MixedOdds(p, num, target, b1, b2, s, a1, a2, j);
    }
    if Telling(p, num, target) && b1 != b2 && 0.0 < s < 1.0 {
      var j := DifferentExponent(p, num, target, b1, b2, a1, a2);
      MixedOdds(p, num, target, b1, b2, s, a1, a2, j);
    }
    SumBelowMix(u, v, w, c, c1, c2, s);
  }

  /** One row's loss is convex in the inverse temperature, strictly if the row is telling. */
  lemma RowLossConvex(p: seq<real>, num: Numerics, target: nat, b1: real, b2: real, s: real)
    requires target < |p| && Exponential(num) && 0.0 <= s <= 1.0
    ensures RowLoss(p, num, target, Mix(b1, b2, s)) <= Mix(RowLoss(p, num, target, b1), RowLoss(p, num, target, b2), s)
    ensures Telling(p, num, target) && b1 != b2 && 0.0 < s < 1.0 ==>
      RowLoss(p, num, target, Mix(b1, b2, s)) < Mix(RowLoss(p, num, target, b1), RowLoss(p, num, target, b2), s)
  {
    hide Scale, Mix, Sum, Exponential, Sound, Telling, Odds;
    IsSound(num);
    var a1, a2 := RowLoss(p, num, target, b1), RowLoss(p, num, target, b2);
    RowSumBelow(p, num, target, b1, b2, s, a1, a2);
    InverseOfExcess(num, Excess(p, num, target, b1), a1);
    InverseOfExcess(num, Excess(p, num, target, b2), a2);
    MixOfSame(1.0, s);
    BelowExponent(num, Excess(p, num, target, Mix(b1, b2, s)), Mix(a1, a2, s));
  }

  lemma DifferentExponent(p: seq<real>, num: Numerics, target: nat, b1: real, b2: real, a1: real, a2: real) returns (j: nat)
    requires target < |p| && Telling(p, num, target) && b1 != b2
    ensures j < |p| && Scale(b1, Lead(p, num, target, j)) - a1 != Scale(b2, Lead(p, num, target, j)) - a2
  {
    if a1 != a2 {
      j := target;
      assert Lead(p, num, target, target) == 0.0;
      assert Scale(b1, 0.0) == Scale(b2, 0.0) == 0.0;
    } else {
      var k :| 0 <= k < |p| && Lead(p, num, target, k) != 0.0;
      j := k;
      DifferentProducts(b1, b2, Lead(p, num, target, k));
    }
  }

  lemma DifferentProducts(x: real, y: real, d: real)
    requires x != y && d != 0.0
    ensures Scale(x, d) != Scale(y, d)
  {
    assert x * d - y * d == (x - y) * d;
  }

  lemma InverseOfExcess(num: Numerics, e: real, a: real)
    requires Exponential(num) && e > 0.0 && a == num.log(e)
    ensures Scale(e, num.exp(-a)) == 1.0
  {
    hide Exponential, Scale;
    LogExp(num, e);
    ExpMinus(num, a);
  }

  lemma BelowExponent(num: Numerics, e: real, a: real)
    requires Exponential(num) && e > 0.0
    ensures Scale(e, num.exp(-a)) <= 1.0 ==> num.log(e) <= a
    ensures Scale(e, num.exp(-a)) < 1.0 ==> num.log(e) < a
  {
    IsSound(num);
    hide Exponential, Scale;
    ExpMinus(num, a);
    LogExp(num, a);
    DivideOut(e, num.exp(a), num.exp(-a));
    LogOrder(num, e, num.exp(a));
    LogOrder(num, num.exp(a), e);
  }

  lemma DivideOut(e: real, x: real, y: real)
    requires y > 0.0 && Scale(x, y) == 1.0
    ensures Scale(e, y) <= 1.0 ==> e <= x
    ensures Scale(e, y) < 1.0 ==> e < x
  {
    assert (x - e) * y == 1.0 - e * y;
    if x < e {
      assert (e - x) * y > 0.0;
    }
    if x == e {
      assert e * y == 1.0;
    }
  }

  // ----------------------------------------------------------------- the whole objective

  /** Every row has an entry for its target. */
  ghost predicate Targets(raw: seq<seq<real>>, encoded: seq<nat>) {
    |raw| == |encoded| && forall i :: 0 <= i < |raw| ==> encoded[i] < |raw[i]|
  }

  lemma FrontTargets(raw: seq<seq<real>>, encoded: seq<nat>)
    requires raw != [] && Targets(raw, encoded)
    ensures var k := |raw| - 1;
            |encoded| == k + 1 && encoded[k] < |raw[k]| && Targets(raw[..k], encoded[..k])
  {
  }

  /** The labels' negative log likelihood without the floor, at inverse temperature beta. */
  ghost function Loss(raw: seq<seq<real>>, encoded: seq<nat>, num: Numerics, beta: real): real
    requires Targets(raw, encoded) && Sound(num)
  {
    if raw == [] then 0.0
    else
      var k := |raw| - 1;
      Loss(raw[..k], encoded[..k], num, beta) + RowLoss(raw[k], num, encoded[k], beta)
  }

  ghost predicate SomeTelling(raw: seq<seq<real>>, encoded: seq<nat>, num: Numerics)
    requires Targets(raw, encoded)
  {
    exists i :: 0 <= i < |raw| && Telling(raw[i], num, encoded[i])
  }

  lemma LossStep(raw: seq<seq<real>>, encoded: seq<nat>, num: Numerics, beta: real)
    requires raw != [] && Targets(raw, encoded) && Sound(num)
    ensures var k := |raw| - 1;
            Loss(raw, encoded, num, beta) == Loss(raw[..k], encoded[..k], num, beta) + RowLoss(raw[k], num, encoded[k], beta)
  {
  }

  /** The loss at a mixed inverse temperature against the mixed losses. */
  ghost predicate LossBelow(raw: seq<seq<real>>, encoded: seq<nat>, num: Numerics, b1: real, b2: real, s: real, strict: bool)
    requires Targets(raw, encoded) && Sound(num)
  {
    var x, y := Loss(raw, encoded, num, Mix(b1, b2, s)), Mix(Loss(raw, encoded, num, b1), Loss(raw, encoded, num, b2), s);
    if strict then x < y else x <= y
  }

  lemma LossStepBelow(raw: seq<seq<real>>, encoded: seq<nat>, num: Numerics, b1: real, b2: real, s: real)
    requires raw != [] && Targets(raw, encoded) && Exponential(num) && 0.0 <= s <= 1.0 && Sound(num)
    requires var k := |raw| - 1; Targets(raw[..k], encoded[..k]) && LossBelow(raw[..k], encoded[..k], num, b1, b2, s, false)
    ensures LossBelow(raw, encoded, num, b1, b2, s, false)
    ensures var k := |raw| - 1;
            LossBelow(raw[..k], encoded[..k], num, b1, b2, s, true) || (Telling(raw[k], num, encoded[k]) && b1 != b2 && 0.0 < s < 1.0)
            ==> LossBelow(raw, encoded, num, b1, b2, s, true)
  {
    hide Mix, Scale, RowLoss, Telling, Exponential, Sound, Loss;
    var k := |raw| - 1;
    RowLossConvex(raw[k], num, encoded[k], b1, b2, s);
    CombineMix(Loss(raw[..k], encoded[..k], num, Mix(b1, b2, s)), RowLoss(raw[k], num, encoded[k], Mix(b1, b2, s)),
               Loss(raw[..k], encoded[..k], num, b1), RowLoss(raw[k], num, encoded[k], b1),
               Loss(raw[..k], encoded[..k], num, b2), RowLoss(raw[k], num, encoded[k], b2), s);
    LossStep(raw, encoded, num, b1);
    LossStep(raw, encoded, num, b2);
    LossStep(raw, encoded, num, Mix(b1, b2, s));
  }

  lemma {:induction false} LossConvex(raw: seq<seq<real>>, encoded: seq<nat>, num: Numerics, b1: real, b2: real, s: real)
    requires Targets(raw, encoded) && Exponential(num) && 0.0 <= s <= 1.0
    ensures Sound(num) && LossBelow(raw, encoded, num, b1, b2, s, false)
    ensures SomeTelling(raw, encoded, num) && b1 != b2 && 0.0 < s < 1.0 ==> LossBelow(raw, encoded, num, b1, b2, s, true)
  {
    IsSound(num);
    if raw == [] {
      hide Mix, Exponential, Sound;
      MixOfSame(0.0, s);
    } else {
      hide LossBelow, SomeTelling, Telling, Exponential, Sound, Targets;
      var k := |raw| - 1;
      FrontTargets(raw, encoded);
      LossConvex(raw[..k], encoded[..k], num, b1, b2, s);
      LossStepBelow(raw, encoded, num, b1, b2, s);
      if SomeTelling(raw, encoded, num) {
        TellingSplits(raw, encoded, num);
      }
    }
  }

  lemma CombineMix(u: real, x: real, v: real, y: real, w: real, z: real, s: real)
    requires u <= Mix(v, w, s) && x <= Mix(y, z, s)
    ensures u + x <= Mix(v + y, w + z, s)
    ensures u < Mix(v, w, s) || x < Mix(y, z, s) ==> u + x < Mix(v + y, w + z, s)
  {
    hide Mix;
    MixLinear(v, y, w, z, s);
  }

  lemma TellingSplits(raw: seq<seq<real>>, encoded: seq<nat>, num: Numerics)
    requires raw != [] && Targets(raw, encoded) && SomeTelling(raw, encoded, num)
    ensures var k := |raw| - 1;
            SomeTelling(raw[..k], encoded[..k], num) || Telling(raw[k], num, encoded[k])
  {
    hide Telling;
    var k := |raw| - 1;
    var i :| 0 <= i < |raw| && Telling(raw[i], num, encoded[i]);
    if i < k {
      assert Telling(raw[..k][i], num, encoded[..k][i]);
    }
  }

  /** No target's share falls below the floor at this temperature. */
  ghost predicate AboveFloor(raw: seq<seq<real>>, encoded: seq<nat>, num: Numerics, temperature: real)
    requires Targets(raw, encoded) && Sound(num) && temperature > 0.0
  {
    forall i :: 0 <= i < |raw| ==> Scaled(raw[i], temperature, num)[encoded[i]] >= FLOOR
  }

  lemma {:induction false} NllIsLoss(raw: seq<seq<real>>, encoded: seq<nat>, num: Numerics, temperature: real)
    requires Targets(raw, encoded) && Exponential(num) && temperature > 0.0
    requires AboveFloor(raw, encoded, num, temperature)
    ensures Nll(raw, encoded, temperature, num) == Loss(raw, encoded, num, 1.0 / temperature)
  {
    hide Scaled, Excess, Exponential;
    IsSound(num);
    if raw != [] {
      var k := |raw| - 1;
      NllIsLoss(raw[..k], encoded[..k], num, temperature);
      var share, e := Scaled(raw[k], temperature, num)[encoded[k]], Excess(raw[k], num, encoded[k], 1.0 / temperature);
      ShareIsInverse(raw[k], temperature, num, encoded[k]);
      assert AtLeastFloor(share) == share;
      LogInverse(num, share, e);
    }
  }

  /** A share that clears the floor at two temperatures clears it in between. */
  lemma FloorBetween(raw: seq<seq<real>>, encoded: seq<nat>, num: Numerics, low: real, high: real, t: real)
    requires Targets(raw, encoded) && Exponential(num) && 0.0 < low <= t <= high
    requires AboveFloor(raw, encoded, num, low) && AboveFloor(raw, encoded, num, high)
    ensures AboveFloor(raw, encoded, num, t)
  {
    hide Scaled, Excess, Exponential, RowLoss;
    IsSound(num);
    forall i | 0 <= i < |raw|
      ensures Scaled(raw[i], t, num)[encoded[i]] >= FLOOR
    {
      assert Scaled(raw[i], low, num)[encoded[i]] >= FLOOR && Scaled(raw[i], high, num)[encoded[i]] >= FLOOR;
      ShareBetween(raw[i], encoded[i], num, low, high, t);
    }
  }

  lemma ShareBetween(p: seq<real>, target: nat, num: Numerics, low: real, high: real, t: real)
    requires target < |p| && Exponential(num) && 0.0 < low <= t <= high
    requires Scaled(p, low, num)[target] >= FLOOR && Scaled(p, high, num)[target] >= FLOOR
    ensures Scaled(p, t, num)[target] >= FLOOR
  {
    hide Scaled, Excess, Exponential, Mix;
    IsSound(num);
    var s := BetweenInverses(low, high, t);
    ShareIsInverse(p, low, num, target);
    ShareIsInverse(p, high, num, target);
    ShareIsInverse(p, t, num, target);
    RowLossConvex(p, num, target, 1.0 / low, 1.0 / high, s);
    var x, y, e := Excess(p, num, target, 1.0 / low), Excess(p, num, target, 1.0 / high), Excess(p, num, target, 1.0 / t);
    CeilingOfShare(Scaled(p, low, num)[target], x);
    CeilingOfShare(Scaled(p, high, num)[target], y);
    CeilingOfShare(Scaled(p, t, num)[target], e);
    var limit := num.log(1.0 / FLOOR);
    LogOrder(num, x, 1.0 / FLOOR);
    LogOrder(num, y, 1.0 / FLOOR);
    LogOrder(num, e, 1.0 / FLOOR);
    MixAtMost(num.log(x), num.log(y), s, limit);
  }

  lemma CeilingOfShare(share: real, excess: real)
    requires Scale(share, excess) == 1.0 && excess > 0.0
    ensures share >= FLOOR <==> excess <= 1.0 / FLOOR
  {
    hide Scale;
    FactorOrder(FLOOR, share, excess);
    FloorInverse(excess);
  }

  lemma FactorOrder(x: real, y: real, f: real)
    requires f > 0.0
    ensures x <= y <==> Scale(x, f) <= Scale(y, f)
  {
    ScaleAdds(y, -x, f);
    assert Scale(-x, f) == -Scale(x, f);
    if y > x {
      assert (y - x) * f > 0.0;
    } else if y < x {
      assert (x - y) * f > 0.0;
    }
  }

  lemma FloorInverse(excess: real)
    ensures Scale(FLOOR, excess) <= 1.0 <==> excess <= 1.0 / FLOOR
  {
    assert 1.0 / FLOOR == 1000000000000.0;
  }

  lemma MixAtMost(x: real, y: real, s: real, limit: real)
    requires 0.0 <= s <= 1.0 && x <= limit && y <= limit
    ensures Mix(x, y, s) <= limit
  {
    hide Scale;
    ScaleLe(1.0 - s, x, limit);
    ScaleLe(s, y, limit);
    MixOfSame(limit, s);
  }

  lemma ScaleLe(f: real, x: real, y: real)
    requires f >= 0.0 && x <= y
    ensures Scale(f, x) <= Scale(f, y)
  {
    assert f * (y - x) >= 0.0;
  }

  /** Where 1/t lies between 1/x and 1/y. */
  lemma BetweenInverses(x: real, y: real, t: real) returns (s: real)
    requires 0.0 < x <= t <= y
    ensures 0.0 <= s <= 1.0 && 1.0 / t == Mix(1.0 / x, 1.0 / y, s)
    ensures x < t < y ==> 0.0 < s < 1.0 && 1.0 / x != 1.0 / y
  {
    if x == y {
      s := 0.0;
    } else {
      InverseOrder(x, t);
      InverseOrder(t, y);
      InverseOrder(x, y);
      s := Fraction(1.0 / x, 1.0 / y, 1.0 / t);
    }
  }

  lemma InverseOrder(x: real, y: real)
    requires 0.0 < x <= y
    ensures 1.0 / y <= 1.0 / x
    ensures x < y ==> 1.0 / y < 1.0 / x
  {
    var p, q := 1.0 / x, 1.0 / y;
    assert p > 0.0 && q > 0.0;
    assert p * x == 1.0 && q * y == 1.0;
    assert (p - q) * x == 1.0 - q * x == q * (y - x);
    if x < y {
      PositiveQuotient(p - q, x, q, y - x);
    } else {
      assert p == q;
    }
  }

  lemma PositiveQuotient(d: real, x: real, q: real, w: real)
    requires x > 0.0 && q > 0.0 && w > 0.0 && d * x == q * w
    ensures d > 0.0
  {
    assert q * w > 0.0;
  }

  lemma Fraction(p: real, q: real, r: real) returns (s: real)
    requires q < p && q <= r <= p
    ensures 0.0 <= s <= 1.0 && r == Mix(p, q, s)
    ensures q < r < p ==> 0.0 < s < 1.0
  {
    var d := p - q;
    s := (p - r) / d;
    DivideOrder(0.0, p - r, d);
    DivideOrder(p - r, d, d);
    assert s * d == p - r;
    MixIsStep(p, q, s);
  }

  lemma MixIsStep(p: real, q: real, s: real)
    ensures Mix(p, q, s) == p - s * (p - q)
  {
  }

  /** A temperature that is best within the bounds. */
  ghost predicate Best(raw: seq<seq<real>>, encoded: seq<nat>, num: Numerics, low: real, high: real, m: real)
    requires raw != [] && Targets(raw, encoded) && Sound(num)
  {
    low <= m <= high && forall t :: low <= t <= high ==> Objective(raw, encoded, num)(m) <= Objective(raw, encoded, num)(t)
  }

  /** Strictly between two temperatures the objective is below one of their two values. */
  lemma ObjectiveDips(raw: seq<seq<real>>, encoded: seq<nat>, num: Numerics, x: real, y: real, t: real)
    requires raw != [] && Targets(raw, encoded) && Exponential(num)
    requires 0.0 < x < t < y && AboveFloor(raw, encoded, num, x) && AboveFloor(raw, encoded, num, y) && SomeTelling(raw, encoded, num)
    ensures Objective(raw, encoded, num)(t) < Objective(raw, encoded, num)(x) || Objective(raw, encoded, num)(t) < Objective(raw, encoded, num)(y)
  {
    hide Nll, Loss, Exponential, AboveFloor, SomeTelling, Mix;
    IsSound(num);
    FloorBetween(raw, encoded, num, x, y, t);
    NllIsLoss(raw, encoded, num, x);
    NllIsLoss(raw, encoded, num, y);
    NllIsLoss(raw, encoded, num, t);
    var s := BetweenInverses(x, y, t);
    LossConvex(raw, encoded, num, 1.0 / x, 1.0 / y, s);
    var fx, fy, ft := Nll(raw, encoded, x, num), Nll(raw, encoded, y, num), Nll(raw, encoded, t, num);
    MixAtMost(fx, fy, s, if fx < fy then fy else fx);
    var n := |raw| as real;
    DivideOrder(ft, fx, n);
    DivideOrder(ft, fy, n);
  }

  /** If no target's share falls below the floor at the two bounds, and some row tells anything, a best
      temperature makes the objective unimodal: the search finds it within half its tolerance. */
  lemma BestIsUnimodal(raw: seq<seq<real>>, encoded: seq<nat>, num: Numerics, low: real, high: real, m: real)
    requires raw != [] && Targets(raw, encoded) && Exponential(num)
    requires 0.0 < low <= high && AboveFloor(raw, encoded, num, low) && AboveFloor(raw, encoded, num, high)
    requires SomeTelling(raw, encoded, num) && Best(raw, encoded, num, low, high, m)
    ensures GoldenSection.Unimodal(Objective(raw, encoded, num), low, high, m)
  {
    hide Objective, Exponential, AboveFloor, SomeTelling;
    IsSound(num);
    var f := Objective(raw, encoded, num);
    forall x, y | low <= x < y <= m
      ensures f(x) > f(y)
    {
      FallsTowards(raw, encoded, num, low, high, m, x, y);
    }
    forall x, y | m <= x < y <= high
      ensures f(x) < f(y)
    {
      FallsTowards(raw, encoded, num, low, high, m, y, x);
    }
  }

  lemma FallsTowards(raw: seq<seq<real>>, encoded: seq<nat>, num: Numerics, low: real, high: real, m: real, far: real, near: real)
    requires raw != [] && Targets(raw, encoded) && Exponential(num)
    requires 0.0 < low <= high && AboveFloor(raw, encoded, num, low) && AboveFloor(raw, encoded, num, high)
    requires SomeTelling(raw, encoded, num) && Best(raw, encoded, num, low, high, m)
    requires low <= far < near <= m || m <= near < far <= high
    ensures Objective(raw, encoded, num)(near) < Objective(raw, encoded, num)(far)
  {
    hide Objective, Exponential, AboveFloor, SomeTelling;
    IsSound(num);
    FloorBetween(raw, encoded, num, low, high, m);
    FloorBetween(raw, encoded, num, low, high, far);
    var t := if near == m then (far + m) / 2.0 else near;
    if far < m {
      ObjectiveDips(raw, encoded, num, far, m, t);
    } else {
      ObjectiveDips(raw, encoded, num, m, far, t);
    }
  }

  // ------------------------------------------------------------ what the floor can do

  /** Two rows: the first votes for its label, the second is certain of the other class. */
  function Rows(): (r: seq<seq<real>>)
    ensures |r| == 2 && r[0] == [0.9, 0.1] && r[1] == [1.0, 0.0]
  {
    [[0.9, 0.1], [1.0, 0.0]]
  }

  function RowTargets(): (r: seq<nat>)
    ensures |r| == 2 && r[0] == 0 && r[1] == 1
  {
    [0, 1]
  }

  lemma RowsHaveTargets()
    ensures Targets(Rows(), RowTargets())
  {
  }

  /** Odds of one class against the other at T = 1/2, 1 and 2. */
  lemma OddsAt(num: Numerics, d: real, g: real, root: real)
    requires Exponential(num) && num.exp(d) == g && root > 0.0 && Scale(root, root) == g
    ensures num.exp(Scale(2.0, d)) == Scale(g, g) && num.exp(Scale(1.0, d)) == g && num.exp(Scale(0.5, d)) == root
  {
    hide Exponential;
    ExpAdds(num, d, d);
    ExpAdds(num, Scale(0.5, d), Scale(0.5, d));
    assert Scale(2.0, d) == d + d && Scale(1.0, d) == d && Scale(0.5, d) + Scale(0.5, d) == d;
    PositiveRoot(num.exp(Scale(0.5, d)), root);
  }

  lemma PositiveRoot(x: real, y: real)
    requires x > 0.0 && y > 0.0 && Scale(x, x) == Scale(y, y)
    ensures x == y
  {
    assert (x - y) * (x + y) == 0.0;
  }

  lemma RatioOfLogs(num: Numerics, x: real, y: real, g: real)
    requires Exponential(num) && x > 0.0 && y > 0.0 && Scale(g, y) == x
    ensures num.exp(num.log(x) - num.log(y)) == g
  {
    hide Exponential;
    ExpAdds(num, num.log(x) - num.log(y), num.log(y));
    LogExp(num, x);
    LogExp(num, y);
    SameFactor(num.exp(num.log(x) - num.log(y)), g, y);
  }

  lemma SameFactor(x: real, y: real, f: real)
    requires f > 0.0 && Scale(x, f) == Scale(y, f)
    ensures x == y
  {
    assert (x - y) * f == 0.0;
  }

  lemma TwoTerms(o: seq<real>)
    requires |o| == 2
    ensures Sum(o) == o[0] + o[1]
  {
    assert o[..1] == [o[0]];
    assert Sum([o[0]]) == Sum([]) + o[0];
  }

  lemma TwoClassShare(p: seq<real>, target: nat, temperature: real, num: Numerics, odds: real)
    requires |p| == 2 && target < 2 && temperature > 0.0 && Exponential(num)
    requires num.exp(Scale(1.0 / temperature, Lead(p, num, target, 1 - target))) == odds
    ensures Scale(Scaled(p, temperature, num)[target], 1.0 + odds) == 1.0
  {
    hide Exponential, Scaled;
    ShareIsInverse(p, temperature, num, target);
    var o := Odds(p, num, target, 1.0 / temperature);
    assert Lead(p, num, target, target) == 0.0;
    assert Scale(1.0 / temperature, 0.0) == 0.0;
    ExpZero(num);
    TwoTerms(o);
  }

  lemma FirstShares(num: Numerics)
    requires Exponential(num)
    ensures Scaled(Rows()[0], 0.5, num)[0] == 81.0 / 82.0
    ensures Scaled(Rows()[0], 1.0, num)[0] == 0.9
    ensures Scaled(Rows()[0], 2.0, num)[0] == 0.75
  {
    hide Exponential, Scaled;
    RatioOfLogs(num, 0.1, 0.9, 1.0 / 9.0);
    OddsAt(num, Lead(Rows()[0], num, 0, 1), 1.0 / 9.0, 1.0 / 3.0);
    assert Scale(1.0 / 9.0, 1.0 / 9.0) == 1.0 / 81.0;
    assert 1.0 / 0.5 == 2.0;
    TwoClassShare(Rows()[0], 0, 0.5, num, 1.0 / 81.0);
    TwoClassShare(Rows()[0], 0, 1.0, num, 1.0 / 9.0);
    TwoClassShare(Rows()[0], 0, 2.0, num, 1.0 / 3.0);
  }

  /** Odds of the first class against the second in the second row. */
  lemma SecondOdds(num: Numerics)
    requires Exponential(num)
    ensures num.exp(Scale(2.0, Lead(Rows()[1], num, 1, 0))) == Scale(1000000000000.0, 1000000000000.0)
    ensures num.exp(Scale(1.0, Lead(Rows()[1], num, 1, 0))) == 1000000000000.0
    ensures num.exp(Scale(0.5, Lead(Rows()[1], num, 1, 0))) == 1000000.0
  {
    hide Exponential, Scale, Rows;
    LargeProducts();
    RatioOfLogs(num, 1.0, FLOOR, 1000000000000.0);
    OddsAt(num, Lead(Rows()[1], num, 1, 0), 1000000000000.0, 1000000.0);
  }

  /** While the odds are large the floor replaces the share. */
  lemma FlooredShare(num: Numerics, temperature: real, odds: real)
    requires Exponential(num) && temperature > 0.0 && odds >= 1000000000000.0
    requires num.exp(Scale(1.0 / temperature, Lead(Rows()[1], num, 1, 0))) == odds
    ensures Sound(num) && Scaled(Rows()[1], temperature, num)[1] < FLOOR
  {
    hide Exponential, Scaled, Scale, Sound, Rows;
    IsSound(num);
    TwoClassShare(Rows()[1], 1, temperature, num, odds);
    SmallShare(Scaled(Rows()[1], temperature, num)[1], odds);
  }

  lemma WarmShare(num: Numerics)
    requires Exponential(num) && num.exp(Scale(0.5, Lead(Rows()[1], num, 1, 0))) == 1000000.0
    ensures Sound(num) && Scaled(Rows()[1], 2.0, num)[1] == 1.0 / 1000001.0
  {
    hide Exponential, Scaled, Scale, Sound, Rows, Lead;
    IsSound(num);
    assert 1.0 / 2.0 == 0.5;
    LargeProducts();
    TwoClassShare(Rows()[1], 1, 2.0, num, 1000000.0);
    SameFactor(Scaled(Rows()[1], 2.0, num)[1], 1.0 / 1000001.0, 1000001.0);
  }

  lemma SecondShares(num: Numerics)
    requires Exponential(num)
    ensures Sound(num)
    ensures Scaled(Rows()[1], 0.5, num)[1] < FLOOR && Scaled(Rows()[1], 1.0, num)[1] < FLOOR
    ensures Scaled(Rows()[1], 2.0, num)[1] == 1.0 / 1000001.0
  {
    hide Exponential, Scaled, Scale, Sound, Rows, Lead;
    SecondOdds(num);
    LargeProducts();
    assert 1.0 / 0.5 == 2.0 && 1.0 / 1.0 == 1.0;
    FlooredShare(num, 0.5, Scale(1000000000000.0, 1000000000000.0));
    FlooredShare(num, 1.0, 1000000000000.0);
    WarmShare(num);
  }

  lemma LargeProducts()
    ensures Scale(1000000.0, 1000000.0) == 1000000000000.0 && Scale(1000000000000.0, FLOOR) == 1.0
    ensures Scale(1000000000000.0, 1000000000000.0) >= 1000000000000.0
    ensures Scale(1.0 / 1000001.0, 1000001.0) == 1.0
  {
  }

  lemma SmallShare(share: real, odds: real)
    requires odds >= 1000000000000.0 && Scale(share, 1.0 + odds) == 1.0
    ensures share < FLOOR
  {
    assert FLOOR * (1.0 + odds) > 1.0;
    assert share >= FLOOR ==> share * (1.0 + odds) >= FLOOR * (1.0 + odds);
  }

  lemma TwoRowNll(temperature: real, num: Numerics)
    requires Sound(num) && temperature > 0.0
    ensures Nll(Rows(), RowTargets(), temperature, num)
         == -num.log(AtLeastFloor(Scaled(Rows()[0], temperature, num)[0])) - num.log(AtLeastFloor(Scaled(Rows()[1], temperature, num)[1]))
  {
    hide Scaled, AtLeastFloor;
    assert Rows()[..1] == [Rows()[0]] && RowTargets()[..1] == [0] && [Rows()[0]][..0] == [] && [0][..0] == [];
    assert Nll([Rows()[0]], [0], temperature, num) == -num.log(AtLeastFloor(Scaled(Rows()[0], temperature, num)[0]));
  }

  /** The losses in between T = 1/2 and T = 2, up to the number of rows. */
  lemma RowsRiseAndFall(num: Numerics)
    requires Exponential(num)
    ensures Sound(num)
    ensures Nll(Rows(), RowTargets(), 0.5, num) < Nll(Rows(), RowTargets(), 1.0, num)
    ensures Nll(Rows(), RowTargets(), 2.0, num) < Nll(Rows(), RowTargets(), 1.0, num)
  {
    IsSound(num);
    hide Exponential, Scaled, Nll, Scale;
    FirstShares(num);
    SecondShares(num);
    TwoRowNll(0.5, num);
    TwoRowNll(1.0, num);
    TwoRowNll(2.0, num);
    var q := 1.0 / 1000001.0;
    LogProduct(num, 0.75, q);
    LogProduct(num, 0.9, FLOOR);
    ProductsInOrder();
    LogsInOrder(num, Scale(0.9, FLOOR), Scale(0.75, q));
    LogsInOrder(num, 81.0 / 82.0, 0.9);
    LogsInOrder(num, 0.9, 81.0 / 82.0);
  }

  lemma LogsInOrder(num: Numerics, x: real, y: real)
    requires Sound(num) && x > 0.0
    ensures x < y ==> num.log(x) < num.log(y)
  {
  }

  lemma ProductsInOrder()
    ensures 0.0 < Scale(0.9, FLOOR) < Scale(0.75, 1.0 / 1000001.0)
  {
  }

  lemma NotUnimodal(f: real -> real, low: real, high: real, m: real)
    requires low <= 0.5 && 2.0 <= high && f(0.5) < f(1.0) && f(2.0) < f(1.0)
    ensures !GoldenSection.Unimodal(f, low, high, m)
  {
  }

  lemma ObjectiveAt(raw: seq<seq<real>>, encoded: seq<nat>, num: Numerics, t: real)
    requires raw != [] && Targets(raw, encoded) && Sound(num) && t > 0.0
    ensures Objective(raw, encoded, num)(t) == Nll(raw, encoded, t, num) / |raw| as real
  {
  }

  lemma ObjectiveRisesAndFalls(num: Numerics)
    requires Exponential(num)
    ensures Sound(num) && Targets(Rows(), RowTargets())
    ensures Objective(Rows(), RowTargets(), num)(0.5) < Objective(Rows(), RowTargets(), num)(1.0)
    ensures Objective(Rows(), RowTargets(), num)(2.0) < Objective(Rows(), RowTargets(), num)(1.0)
  {
    RowsRiseAndFall(num);
    RowsHaveTargets();
    hide Exponential, Sound, Nll, Objective, Rows, RowTargets, Targets;
    ObjectiveAt(Rows(), RowTargets(), num, 0.5);
    ObjectiveAt(Rows(), RowTargets(), num, 1.0);
    ObjectiveAt(Rows(), RowTargets(), num, 2.0);
  }

  /** The floor makes the objective rise and fall again: with these two rows it is unimodal about no
      temperature, within any bounds that include 1/2 and 2. */
  lemma FloorBreaksUnimodality(num: Numerics, low: real, high: real, m: real)
    requires Exponential(num) && 0.0 < low <= 0.5 && high >= 2.0
    ensures Sound(num) && !GoldenSection.Unimodal(Objective(Rows(), RowTargets(), num), low, high, m)
  {
    hide Exponential, Sound, Nll, Objective, GoldenSection.Unimodal;
    ObjectiveRisesAndFalls(num);
    NotUnimodal(Objective(Rows(), RowTargets(), num), low, high, m);
  }
}
