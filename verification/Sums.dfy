/** Reals: absolute value, and finite sums accumulated left to right as the source's loops do. */
module Sums {
  function Abs(r: real): real {
    if r < 0.0 then -r else r
  }

  /** A positive factor does not change the sign. */
  lemma ProductSign(x: real, factor: real)
    requires factor > 0.0
    ensures x * factor >= 0.0 <==> x >= 0.0
    ensures x * factor == 0.0 <==> x == 0.0
  {
  }

  function Sum(s: seq<real>): real {
    if s == [] then 0.0 else Sum(s[..|s| - 1]) + s[|s| - 1]
  }

  lemma SumAppend(s: seq<real>, x: real)
    ensures Sum(s + [x]) == Sum(s) + x
  {
    assert (s + [x])[..|s|] == s;
  }

  lemma {:induction false} SumConcat(s: seq<real>, t: seq<real>)
    ensures Sum(s + t) == Sum(s) + Sum(t)
  {
    if t == [] {
      assert s + t == s;
    } else {
      SumConcat(s, t[..|t| - 1]);
      assert (s + t)[..|s + t| - 1] == s + t[..|t| - 1];
    }
  }

  /** A prefix total splits a range total off the end. */
  lemma SumRange(s: seq<real>, lo: nat, hi: nat)
    requires lo <= hi <= |s|
    ensures Sum(s[..hi]) - Sum(s[..lo]) == Sum(s[lo..hi])
  {
    assert s[..hi] == s[..lo] + s[lo..hi];
    SumConcat(s[..lo], s[lo..hi]);
  }

  /** Summation is linear: t = c*s + d*u pointwise gives the same for the sums. */
  lemma {:induction false} SumLinear(t: seq<real>, s: seq<real>, u: seq<real>, c: real, d: real)
    requires |t| == |s| == |u|
    requires forall i :: 0 <= i < |t| ==> t[i] == c * s[i] + d * u[i]
    ensures Sum(t) == c * Sum(s) + d * Sum(u)
  {
    if t != [] {
      var n := |t| - 1;
      SumLinear(t[..n], s[..n], u[..n], c, d);
      assert t[n] == c * s[n] + d * u[n];
      assert Sum(t) == (c * Sum(s[..n]) + d * Sum(u[..n])) + (c * s[n] + d * u[n]);
    }
  }

  lemma {:induction false} SumAdd(t: seq<real>, s: seq<real>, u: seq<real>)
    requires |t| == |s| == |u|
    requires forall i :: 0 <= i < |t| ==> t[i] == s[i] + u[i]
    ensures Sum(t) == Sum(s) + Sum(u)
  {
    if t != [] {
      var n := |t| - 1;
      SumAdd(t[..n], s[..n], u[..n]);
    }
  }

  lemma {:induction false} SumConstant(s: seq<real>, x: real)
    requires forall i :: 0 <= i < |s| ==> s[i] == x
    ensures Sum(s) == |s| as real * x
  {
    if s != [] {
      SumConstant(s[..|s| - 1], x);
    }
  }

  lemma {:induction false} SumMonotone(s: seq<real>, t: seq<real>)
    requires |s| == |t|
    requires forall i :: 0 <= i < |s| ==> s[i] <= t[i]
    ensures Sum(s) <= Sum(t)
  {
    if s != [] {
      SumMonotone(s[..|s| - 1], t[..|s| - 1]);
    }
  }

  /** A sum of non-negative terms is non-negative, and zero only if every term is. */
  lemma {:induction false} SumNonNegative(s: seq<real>)
    requires forall i :: 0 <= i < |s| ==> s[i] >= 0.0
    ensures Sum(s) >= 0.0
    ensures Sum(s) == 0.0 <==> forall i :: 0 <= i < |s| ==> s[i] == 0.0
  {
    if s != [] {
      SumNonNegative(s[..|s| - 1]);
      if Sum(s) == 0.0 {
        assert Sum(s[..|s| - 1]) == 0.0;
        forall i | 0 <= i < |s|
          ensures s[i] == 0.0
        {
          if i < |s| - 1 {
            assert s[..|s| - 1][i] == s[i];
          }
        }
      }
    }
  }

  /** Every entry divided by n > 0. */
  function Divided(v: seq<real>, n: real): (r: seq<real>)
    requires n > 0.0
    ensures |r| == |v|
    ensures forall i :: 0 <= i < |v| ==> r[i] == v[i] / n
  {
    seq(|v|, i requires 0 <= i < |v| => v[i] / n)
  }

  lemma DivideOrder(x: real, y: real, n: real)
    requires n > 0.0
    ensures x <= y ==> x / n <= y / n
    ensures x < y ==> x / n < y / n
    ensures 0.0 / n == 0.0 && n / n == 1.0
  {
  }

  lemma DivideAdds(x: real, y: real, n: real)
    requires n > 0.0
    ensures x / n + y / n == (x + y) / n
  {
  }

  lemma {:induction false} DividedSum(v: seq<real>, n: real)
    requires n > 0.0
    ensures Sum(Divided(v, n)) == Sum(v) / n
  {
    if v == [] {
      DivideOrder(0.0, 0.0, n);
    } else {
      var k := |v| - 1;
      DividedSum(v[..k], n);
      assert Divided(v, n)[..k] == Divided(v[..k], n);
      DivideAdds(Sum(v[..k]), v[k], n);
    }
  }
}
