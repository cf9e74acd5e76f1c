/** Gini impurity and the gain of a split (agri/crop.py), over class counts. */
module Gini {
  import opened Sums

  function Total(counts: seq<nat>): nat {
    if counts == [] then 0 else Total(counts[..|counts| - 1]) + counts[|counts| - 1]
  }

  function Share(c: nat, total: nat): real
    requires total > 0
  {
    c as real / total as real
  }

  function SquaredShares(counts: seq<nat>, total: nat): real
    requires total > 0
  {
    if counts == [] then 0.0
    else
      var x := Share(counts[|counts| - 1], total);
      SquaredShares(counts[..|counts| - 1], total) + x * x
  }

  function Impurity(counts: seq<nat>): real {
    if Total(counts) == 0 then 0.0 else 1.0 - SquaredShares(counts, Total(counts))
  }

  /** Parent impurity minus the size-weighted impurity of the two sides. */
  function Gain(parent: seq<nat>, left: seq<nat>, right: seq<nat>): real
    requires Total(left) + Total(right) > 0
  {
    var total := Total(left) + Total(right);
    Impurity(parent) - (Share(Total(left), total) * Impurity(left) + Share(Total(right), total) * Impurity(right))
  }

  // ------------------------------------------------------------- the exact gain

  function Squares(counts: seq<nat>): nat {
    if counts == [] then 0
    else Squares(counts[..|counts| - 1]) + counts[|counts| - 1] * counts[|counts| - 1]
  }

  /** The sum over classes of (R*l - L*r)^2: how far the two sides are from being proportional. */
  function Disproportion(left: seq<nat>, right: seq<nat>, sizeL: nat, sizeR: nat): nat
    requires |left| == |right|
  {
    if left == [] then 0
    else
      var k := |left| - 1;
      var d := sizeR * left[k] - sizeL * right[k];
      Disproportion(left[..k], right[..k], sizeL, sizeR) + Square(d)
  }

  function Square(d: int): (r: nat)
    ensures r == d * d
    ensures r == 0 <==> d == 0
  {
    assert d * d >= 0;
    d * d
  }

  ghost predicate Adds(parent: seq<nat>, left: seq<nat>, right: seq<nat>) {
    && |parent| == |left| == |right|
    && forall i :: 0 <= i < |parent| ==> parent[i] == left[i] + right[i]
  }

  lemma {:induction false} AddsTotal(parent: seq<nat>, left: seq<nat>, right: seq<nat>)
    requires Adds(parent, left, right)
    ensures Total(parent) == Total(left) + Total(right)
  {
    if parent != [] {
      var k := |parent| - 1;
      AddsTotal(parent[..k], left[..k], right[..k]);
    }
  }

  lemma OneClass(sizeL: nat, sizeR: nat, l: nat, r: nat)
    ensures sizeR * (sizeL + sizeR) * (l * l) + sizeL * (sizeL + sizeR) * (r * r)
         == sizeL * sizeR * ((l + r) * (l + r)) + Square(sizeR * l - sizeL * r)
  {
  }

  lemma Distribute3(x: int, y: int, z: int, a: int, a': int, b: int, b': int, c: int, c': int)
    ensures x * (a + a') + y * (b + b') == (x * a + y * b) + (x * a' + y * b')
    ensures z * (c + c') == z * c + z * c'
  {
  }

  /** Titu's inequality as an identity: what the split gains is exactly the disproportion. */
  lemma {:induction false} SquaresIdentity(parent: seq<nat>, left: seq<nat>, right: seq<nat>, sizeL: nat, sizeR: nat)
    requires Adds(parent, left, right)
    ensures sizeR * (sizeL + sizeR) * Squares(left) + sizeL * (sizeL + sizeR) * Squares(right)
         == sizeL * sizeR * Squares(parent) + Disproportion(left, right, sizeL, sizeR)
  {
    hide Square;
    if parent != [] {
      var k := |parent| - 1;
      var l, r := left[k], right[k];
      SquaresIdentity(parent[..k], left[..k], right[..k], sizeL, sizeR);
      OneClass(sizeL, sizeR, l, r);
      Distribute3(sizeR * (sizeL + sizeR), sizeL * (sizeL + sizeR), sizeL * sizeR,
                  Squares(left[..k]), l * l, Squares(right[..k]), r * r,
                  Squares(parent[..k]), (l + r) * (l + r));
    }
  }

  lemma ShareSquared(c: nat, total: nat)
    requires total > 0
    ensures Share(c, total) * Share(c, total) * (total * total) as real == (c * c) as real
  {
    var x := Share(c, total);
    assert x * total as real == c as real;
    assert x * x * (total as real * total as real) == (x * total as real) * (x * total as real);
  }

  lemma {:induction false} SharesFromSquares(counts: seq<nat>, total: nat)
    requires total > 0
    ensures SquaredShares(counts, total) * (total * total) as real == Squares(counts) as real
  {
    hide Share;
    if counts != [] {
      var k := |counts| - 1;
      SharesFromSquares(counts[..k], total);
      ShareSquared(counts[k], total);
      var x := Share(counts[k], total);
      var n2 := (total * total) as real;
      assert (SquaredShares(counts[..k], total) + x * x) * n2 == SquaredShares(counts[..k], total) * n2 + x * x * n2;
    }
  }

  lemma FractionsOfOne(l: real, r: real, n: real)
    requires n > 0.0 && l + r == n
    ensures l / n + r / n == 1.0
    ensures (l / n) * n == l && (r / n) * n == r
  {
    assert (l + r) / n == l / n + r / n;
  }

  /** The gain's common denominator, and the numerator over it. */
  function Denominator(l: real, r: real, n: real): real {
    n * n * (l * r)
  }

  function Numerator(l: real, r: real, n: real, qp: real, ql: real, qr: real): real {
    r * n * ql + l * n * qr - l * r * qp
  }

  /** Pure arithmetic behind GainFormula. */
  lemma GainArithmetic(sp: real, sl: real, sr: real, l: real, r: real, n: real, qp: real, ql: real, qr: real)
    requires l > 0.0 && r > 0.0 && n == l + r
    requires sp * (n * n) == qp && sl * (l * l) == ql && sr * (r * r) == qr
    ensures ((1.0 - sp) - (l / n * (1.0 - sl) + r / n * (1.0 - sr))) * Denominator(l, r, n) == Numerator(l, r, n, qp, ql, qr)
  {
    var x, y := l / n, r / n;
    FractionsOfOne(l, r, n);
    var gain := (1.0 - sp) - (x * (1.0 - sl) + y * (1.0 - sr));
    assert gain == x * sl + y * sr - sp;
    assert (x * sl) * (n * n * (l * r)) == (x * n) * (sl * l) * (n * r) == r * n * (sl * (l * l));
    assert (y * sr) * (n * n * (l * r)) == (y * n) * (sr * r) * (n * l) == l * n * (sr * (r * r));
    assert sp * (n * n * (l * r)) == l * r * (sp * (n * n));
    var m := n * n * (l * r);
    assert gain * m == (x * sl) * m + (y * sr) * m - sp * m;
  }

  lemma GainUnfolded(parent: seq<nat>, left: seq<nat>, right: seq<nat>)
    requires Total(left) > 0 && Total(right) > 0 && Total(parent) == Total(left) + Total(right)
    ensures var l, r, n := Total(left) as real, Total(right) as real, Total(parent) as real;
            var sp, sl, sr := SquaredShares(parent, Total(parent)), SquaredShares(left, Total(left)), SquaredShares(right, Total(right));
            Gain(parent, left, right) == (1.0 - sp) - (l / n * (1.0 - sl) + r / n * (1.0 - sr))
  {
    hide SquaredShares, Total;
  }

  lemma GainFormula(parent: seq<nat>, left: seq<nat>, right: seq<nat>)
    requires Adds(parent, left, right) && Total(left) > 0 && Total(right) > 0
    ensures var l, r, n := Total(left), Total(right), Total(left) + Total(right);
            Gain(parent, left, right) * (n * n * (l * r)) as real == Disproportion(left, right, l, r) as real
  {
    hide Gain, Impurity, SquaredShares, Squares, Disproportion, Total, Share;
    var l, r := Total(left), Total(right);
    var n := l + r;
    AddsTotal(parent, left, right);
    SharesFromSquares(parent, n);
    SharesFromSquares(left, l);
    SharesFromSquares(right, r);
    GainUnfolded(parent, left, right);
    SquaresIdentity(parent, left, right, l, r);
    GainCombined(Gain(parent, left, right), SquaredShares(parent, n), SquaredShares(left, l), SquaredShares(right, r),
                 l, r, n, Squares(parent), Squares(left), Squares(right), Disproportion(left, right, l, r));
  }

  lemma GainCombined(gain: real, sp: real, sl: real, sr: real, l: nat, r: nat, n: nat, qp: nat, ql: nat, qr: nat, d: nat)
    requires l > 0 && r > 0 && n == l + r
    requires gain == (1.0 - sp) - (l as real / n as real * (1.0 - sl) + r as real / n as real * (1.0 - sr))
    requires sp * (n * n) as real == qp as real && sl * (l * l) as real == ql as real && sr * (r * r) as real == qr as real
    requires r * (l + r) * ql + l * (l + r) * qr == l * r * qp + d
    ensures gain * (n * n * (l * r)) as real == d as real
  {
    hide Denominator, Numerator;
    Casts(l, r, n, qp, ql, qr);
    SquareCast(n);
    SquareCast(l);
    SquareCast(r);
    GainArithmetic(sp, sl, sr, l as real, r as real, n as real, qp as real, ql as real, qr as real);
  }

  lemma SquareCast(n: nat)
    ensures n as real * n as real == (n * n) as real
  {
  }

  lemma Casts(l: nat, r: nat, n: nat, qp: nat, ql: nat, qr: nat)
    requires n == l + r
    ensures Numerator(l as real, r as real, n as real, qp as real, ql as real, qr as real)
         == (r * (l + r) * ql + l * (l + r) * qr - l * r * qp) as real
    ensures Denominator(l as real, r as real, n as real) == (n * n * (l * r)) as real
  {
  }

  /** The two sides show every class in the same proportion. */
  ghost predicate Proportional(left: seq<nat>, right: seq<nat>, sizeL: nat, sizeR: nat)
    requires |left| == |right|
  {
    forall i :: 0 <= i < |left| ==> sizeR * left[i] == sizeL * right[i]
  }

  lemma {:induction false} DisproportionZero(left: seq<nat>, right: seq<nat>, sizeL: nat, sizeR: nat)
    requires |left| == |right|
    ensures Disproportion(left, right, sizeL, sizeR) == 0 <==> Proportional(left, right, sizeL, sizeR)
  {
    if left != [] {
      var k := |left| - 1;
      DisproportionZero(left[..k], right[..k], sizeL, sizeR);
      assert Square(sizeR * left[k] - sizeL * right[k]) == 0 <==> sizeR * left[k] == sizeL * right[k];
      if Proportional(left[..k], right[..k], sizeL, sizeR) {
        assert forall i :: 0 <= i < k ==> left[i] == left[..k][i] && right[i] == right[..k][i];
      }
      if Proportional(left, right, sizeL, sizeR) {
        assert Proportional(left[..k], right[..k], sizeL, sizeR);
      }
    }
  }

  /** No split has negative gain, and a split gains nothing exactly when its sides are proportional. */
  lemma GainNonNegative(parent: seq<nat>, left: seq<nat>, right: seq<nat>)
    requires Adds(parent, left, right) && Total(left) > 0 && Total(right) > 0
    ensures Gain(parent, left, right) >= 0.0
    ensures Gain(parent, left, right) == 0.0 <==> Proportional(left, right, Total(left), Total(right))
  {
    hide Gain, Disproportion, Proportional;
    var l, r := Total(left), Total(right);
    var n := l + r;
    GainFormula(parent, left, right);
    DisproportionZero(left, right, l, r);
    var m := (n * n * (l * r)) as real;
    assert m > 0.0 by {
      assert n * n > 0 && l * r > 0;
      assert n * n * (l * r) > 0;
    }
    ProductSign(Gain(parent, left, right), m);
  }
}
