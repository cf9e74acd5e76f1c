/** The summed-area table of tile_features (tools/train_crop.py), one band at a time. */
module BoxMean {
  import opened Sequences
  import opened Sums

  type Grid = seq<seq<real>>

  ghost predicate Rect(a: Grid, h: nat, w: nat) {
    |a| == h && forall p :: 0 <= p < h ==> |a[p]| == w
  }

  predicate Between(r: int, p: int, q: int) {
    p <= r <= q || q <= r <= p
  }

  /** The coordinate inside that is nearest to p: it lies between p and every other one. */
  function Clamp(p: int, size: nat): (r: nat)
    requires size > 0
    ensures r < size
    ensures forall q :: 0 <= q < size ==> Between(r, p, q)
  {
    if p < 0 then 0 else if p >= size then size - 1 else p
  }

  /** The edge-clamped pixel: any coordinates, the nearest one inside. */
  function At(a: Grid, h: nat, w: nat, p: int, q: int): real
    requires Rect(a, h, w) && h > 0 && w > 0
  {
    a[Clamp(p, h)][Clamp(q, w)]
  }

  // -------------------------------------------------------------- the fast form

  /** np.pad(mode="edge") by radius + 1 before and radius after, on both axes. */
  function Pad(a: Grid, h: nat, w: nat, radius: nat): (g: Grid)
    requires Rect(a, h, w) && h > 0 && w > 0
    ensures Rect(g, h + 2 * radius + 1, w + 2 * radius + 1)
    ensures forall p, q :: 0 <= p < |g| && 0 <= q < |g[p]| ==> g[p][q] == At(a, h, w, p - radius - 1, q - radius - 1)
  {
    seq(h + 2 * radius + 1, p requires 0 <= p < h + 2 * radius + 1 =>
      seq(w + 2 * radius + 1, q requires 0 <= q < w + 2 * radius + 1 => At(a, h, w, p - radius - 1, q - radius - 1)))
  }

  function AddRows(s: seq<real>, t: seq<real>): (r: seq<real>)
    requires |s| == |t|
    ensures |r| == |s|
    ensures forall q :: 0 <= q < |s| ==> r[q] == s[q] + t[q]
  {
    seq(|s|, q requires 0 <= q < |s| => s[q] + t[q])
  }

  /** Running sums down the rows. */
  function CumulateRows(g: Grid, w: nat): (r: Grid)
    requires Rect(g, |g|, w)
    ensures Rect(r, |g|, w)
  {
    if g == [] then []
    else
      var k := |g| - 1;
      var above := CumulateRows(g[..k], w);
      above + [if k == 0 then g[0] else AddRows(above[k - 1], g[k])]
  }

  /** Running sums along one row. */
  function Cumulate(v: seq<real>): (r: seq<real>)
    ensures |r| == |v|
  {
    if v == [] then []
    else
      var k := |v| - 1;
      var before := Cumulate(v[..k]);
      before + [if k == 0 then v[0] else before[k - 1] + v[k]]
  }

  /** pad.cumsum(1).cumsum(2). */
  function Table(g: Grid, w: nat): (r: Grid)
    requires Rect(g, |g|, w)
    ensures Rect(r, |g|, w)
  {
    var down := CumulateRows(g, w);
    seq(|g|, p requires 0 <= p < |g| => Cumulate(down[p]))
  }

  function Side(radius: nat): nat {
    2 * radius + 1
  }

  /** Four lookups per output pixel. */
  function FourLookups(cs: Grid, i: nat, j: nat, k: nat): real
    requires i + k < |cs| && forall p :: 0 <= p < |cs| ==> j + k < |cs[p]|
  {
    cs[i + k][j + k] - cs[i][j + k] - cs[i + k][j] + cs[i][j]
  }

  function BoxMean(a: Grid, h: nat, w: nat, radius: nat): (r: Grid)
    requires Rect(a, h, w) && h > 0 && w > 0
    ensures Rect(r, h, w)
  {
    var k := Side(radius);
    var cs := Table(Pad(a, h, w, radius), w + 2 * radius + 1);
    seq(h, i requires 0 <= i < h => seq(w, j requires 0 <= j < w => FourLookups(cs, i, j, k) / (k * k) as real))
  }

  // -------------------------------------------------------------- the naive form

  /** The (2r+1) x (2r+1) window around (i, j), row by row, edge-clamped. */
  function WindowRows(a: Grid, h: nat, w: nat, radius: nat, i: nat, j: nat): (r: Grid)
    requires Rect(a, h, w) && h > 0 && w > 0
    ensures Rect(r, 2 * radius + 1, 2 * radius + 1)
    ensures forall d, e :: 0 <= d <= 2 * radius && 0 <= e <= 2 * radius ==>
      r[d][e] == At(a, h, w, i - radius + d, j - radius + e)
  {
    seq(Side(radius), d requires 0 <= d < Side(radius) =>
      seq(Side(radius), e requires 0 <= e < Side(radius) => At(a, h, w, i - radius + d, j - radius + e)))
  }

  function Window(a: Grid, h: nat, w: nat, radius: nat, i: nat, j: nat): seq<real>
    requires Rect(a, h, w) && h > 0 && w > 0
  {
    Flatten(WindowRows(a, h, w, radius, i, j))
  }

  // -------------------------------------------------------- table = block totals

  lemma {:induction false} CumulateIsPrefix(v: seq<real>, q: nat)
    requires q < |v|
    ensures Cumulate(v)[q] == Sum(v[..q + 1])
  {
    var k := |v| - 1;
    if q < k {
      CumulateIsPrefix(v[..k], q);
      assert v[..k][..q + 1] == v[..q + 1];
    } else {
      assert v[..k + 1] == v;
      if k > 0 {
        CumulateIsPrefix(v[..k], k - 1);
        assert v[..k][..k] == v[..k];
      } else {
        assert v[..0] == [];
      }
    }
  }

  function RowSums(g: Grid, lo: nat, hi: nat): (r: seq<real>)
    requires lo <= hi && forall p :: 0 <= p < |g| ==> hi <= |g[p]|
    ensures |r| == |g|
    ensures forall p :: 0 <= p < |g| ==> r[p] == Sum(g[p][lo..hi])
  {
    seq(|g|, p requires 0 <= p < |g| => Sum(g[p][lo..hi]))
  }

  lemma FrontRows(g: Grid, w: nat, p: nat)
    requires Rect(g, |g|, w) && p + 1 < |g|
    ensures CumulateRows(g, w)[p] == CumulateRows(g[..|g| - 1], w)[p]
  {
  }

  lemma LastRow(g: Grid, w: nat)
    requires Rect(g, |g|, w) && |g| >= 2
    ensures CumulateRows(g, w)[|g| - 1] == AddRows(CumulateRows(g, w)[|g| - 2], g[|g| - 1])
  {
  }

  lemma {:induction false} DownPrefix(g: Grid, w: nat, p: nat, n: nat)
    requires Rect(g, |g|, w) && p < |g| && n <= w
    ensures Sum(CumulateRows(g, w)[p][..n]) == Sum(RowSums(g, 0, n)[..p + 1])
    decreases |g|, p
  {
    hide Sum, CumulateRows, RowSums;
    var sums := RowSums(g, 0, n);
    if p + 1 < |g| {
      FrontRows(g, w, p);
      DownPrefix(g[..|g| - 1], w, p, n);
      assert RowSums(g[..|g| - 1], 0, n)[..p + 1] == sums[..p + 1];
    } else if p == 0 {
      FirstRow(g, w);
      assert sums[..1] == [Sum(g[0][0..n])];
      SumAppend([], sums[0]);
      SumConstant([], 0.0);
      assert [] + [sums[0]] == [sums[0]] && g[0][0..n] == g[0][..n];
    } else {
      DownPrefix(g, w, p - 1, n);
      LastRow(g, w);
      var above := CumulateRows(g, w)[p - 1];
      SumAdd(AddRows(above, g[p])[..n], above[..n], g[p][..n]);
      assert sums[..p + 1] == sums[..p] + [sums[p]];
      SumAppend(sums[..p], sums[p]);
      assert g[p][0..n] == g[p][..n];
    }
  }

  lemma FirstRow(g: Grid, w: nat)
    requires Rect(g, 1, w)
    ensures CumulateRows(g, w)[0] == g[0]
  {
  }

  /** A table entry is the total of everything above and to the left, itself included. */
  lemma TableIsBlock(g: Grid, w: nat, p: nat, q: nat)
    requires Rect(g, |g|, w) && p < |g| && q < w
    ensures Table(g, w)[p][q] == Sum(RowSums(g, 0, q + 1)[..p + 1])
  {
    CumulateIsPrefix(CumulateRows(g, w)[p], q);
    DownPrefix(g, w, p, q + 1);
  }

  /** Inclusion-exclusion: four corners of the table give the block between them. */
  lemma CornersGiveBlock(g: Grid, w: nat, i: nat, j: nat, k: nat)
    requires Rect(g, |g|, w) && i + k < |g| && j + k < w
    ensures FourLookups(Table(g, w), i, j, k) == Sum(RowSums(g, j + 1, j + k + 1)[i + 1..i + k + 1])
  {
    hide Table, RowSums, Sum;
    TableIsBlock(g, w, i + k, j + k);
    TableIsBlock(g, w, i, j + k);
    TableIsBlock(g, w, i + k, j);
    TableIsBlock(g, w, i, j);
    ColumnsBetween(g, j + 1, j + k + 1, i + k + 1);
    ColumnsBetween(g, j + 1, j + k + 1, i + 1);
    SumRange(RowSums(g, j + 1, j + k + 1), i + 1, i + k + 1);
  }

  lemma ColumnsBetween(g: Grid, lo: nat, hi: nat, m: nat)
    requires lo <= hi && m <= |g| && forall p :: 0 <= p < |g| ==> hi <= |g[p]|
    ensures Sum(RowSums(g, 0, hi)[..m]) == Sum(RowSums(g, lo, hi)[..m]) + Sum(RowSums(g, 0, lo)[..m])
  {
    hide Sum, RowSums;
    var all, middle, left := RowSums(g, 0, hi), RowSums(g, lo, hi), RowSums(g, 0, lo);
    forall p | 0 <= p < m
      ensures all[..m][p] == middle[..m][p] + left[..m][p]
    {
      SumRange(g[p], lo, hi);
      assert g[p][0..hi] == g[p][..hi] && g[p][0..lo] == g[p][..lo];
    }
    SumAdd(all[..m], middle[..m], left[..m]);
  }

  lemma {:induction false} FlattenTotal(rows: Grid, sums: seq<real>)
    requires |sums| == |rows| && forall d :: 0 <= d < |rows| ==> sums[d] == Sum(rows[d])
    ensures Sum(Flatten(rows)) == Sum(sums)
  {
    if rows != [] {
      var k := |rows| - 1;
      FlattenTotal(rows[..k], sums[..k]);
      SumConcat(Flatten(rows[..k]), rows[k]);
    }
  }

  /** The four-lookup total is the naive window total, at every pixel and radius. */
  lemma FastEqualsNaive(a: Grid, h: nat, w: nat, radius: nat, i: nat, j: nat)
    requires Rect(a, h, w) && i < h && j < w
    ensures BoxMean(a, h, w, radius)[i][j] == Sum(Window(a, h, w, radius, i, j)) / (Side(radius) * Side(radius)) as real
  {
    hide Table, RowSums, Clamp;
    var k := Side(radius);
    var g := Pad(a, h, w, radius);
    CornersGiveBlock(g, w + 2 * radius + 1, i, j, k);
    var rows := WindowRows(a, h, w, radius, i, j);
    var sums := RowSums(g, j + 1, j + k + 1)[i + 1..i + k + 1];
    forall d | 0 <= d < k
      ensures sums[d] == Sum(rows[d])
    {
      var slice := g[i + 1 + d][j + 1..j + k + 1];
      forall e | 0 <= e < k
        ensures slice[e] == rows[d][e]
      {
        assert slice[e] == g[i + 1 + d][j + 1 + e] == At(a, h, w, i - radius + d, j - radius + e);
      }
      assert slice == rows[d];
    }
    FlattenTotal(rows, sums);
  }

  // ------------------------------------------------------- the local deviation

  function Sq(x: real): real {
    x * x
  }

  lemma SqSign(x: real)
    ensures Sq(x) >= 0.0
    ensures Sq(x) == 0.0 <==> x == 0.0
  {
    if x > 0.0 {
      ProductSign(x, x);
    } else if x < 0.0 {
      var y := -x;
      ProductSign(y, y);
      assert x * x == y * y;
    }
  }

  function Squared(v: seq<real>): (r: seq<real>)
    ensures |r| == |v|
    ensures forall i :: 0 <= i < |v| ==> r[i] == Sq(v[i])
  {
    seq(|v|, i requires 0 <= i < |v| => Sq(v[i]))
  }

  function SquaredGrid(a: Grid, h: nat, w: nat): (r: Grid)
    requires Rect(a, h, w)
    ensures Rect(r, h, w)
    ensures forall p :: 0 <= p < h ==> r[p] == Squared(a[p])
  {
    seq(h, p requires 0 <= p < h => Squared(a[p]))
  }

  /** The sum of (v_i - x)^2. */
  function Deviations(v: seq<real>, x: real): real {
    if v == [] then 0.0
    else
      Deviations(v[..|v| - 1], x) + Sq(v[|v| - 1] - x)
  }

  /** The same, multiplied out, from the sum of squares and the sum. */
  function Expanded(q: real, s: real, n: nat, x: real): real {
    q - 2.0 * x * s + n as real * Sq(x)
  }

  lemma {:induction false} DeviationsExpand(v: seq<real>, x: real)
    ensures Deviations(v, x) == Expanded(Sum(Squared(v)), Sum(v), |v|, x)
  {
    if v == [] {
      assert Expanded(0.0, 0.0, 0, x) == 0.0;
    } else {
      hide Expanded, Sq;
      var k := |v| - 1;
      DeviationsExpand(v[..k], x);
      assert Squared(v)[..k] == Squared(v[..k]);
      DeviationStep(Sum(Squared(v[..k])), Sum(v[..k]), k, v[k], x);
    }
  }

  lemma DeviationStep(q: real, s: real, k: nat, y: real, x: real)
    ensures Expanded(q, s, k, x) + Sq(y - x) == Expanded(q + Sq(y), s + y, k + 1, x)
  {
    assert (y - x) * (y - x) == y * y - 2.0 * x * y + x * x;
    assert (k as real + 1.0) * (x * x) == k as real * (x * x) + x * x;
    assert 2.0 * x * (s + y) == 2.0 * x * s + 2.0 * x * y;
  }

  lemma {:induction false} DeviationsSign(v: seq<real>, x: real)
    ensures Deviations(v, x) >= 0.0
    ensures Deviations(v, x) == 0.0 <==> forall i :: 0 <= i < |v| ==> v[i] == x
  {
    if v != [] {
      var k := |v| - 1;
      DeviationsSign(v[..k], x);
      SqSign(v[k] - x);
      assert forall i :: 0 <= i < k ==> v[..k][i] == v[i];
    }
  }

  /** n * sum of squares - square of sum. */
  function Scatter(v: seq<real>): real {
    |v| as real * Sum(Squared(v)) - Sum(v) * Sum(v)
  }

  lemma ScatterStep(v: seq<real>, x: real)
    ensures Scatter(v + [x]) == Scatter(v) + Deviations(v, x)
  {
    hide Sum, Deviations, Sq;
    DeviationsExpand(v, x);
    SumAppend(v, x);
    assert Squared(v + [x]) == Squared(v) + [Sq(x)];
    SumAppend(Squared(v), Sq(x));
    ScatterArithmetic(|v|, Sum(v), Sum(Squared(v)), x);
  }

  lemma ScatterArithmetic(n: nat, s: real, q: real, x: real)
    ensures (n + 1) as real * (q + Sq(x)) - (s + x) * (s + x)
         == (n as real * q - s * s) + (q - 2.0 * x * s + n as real * Sq(x))
  {
  }

  ghost predicate Constant(v: seq<real>) {
    forall i, j :: 0 <= i < |v| && 0 <= j < |v| ==> v[i] == v[j]
  }

  lemma {:induction false} ScatterSign(v: seq<real>)
    ensures Scatter(v) >= 0.0
    ensures Scatter(v) == 0.0 <==> Constant(v)
  {
    hide Scatter, Deviations;
    if v == [] {
      assert Scatter(v) == 0.0 by { EmptyScatter(); }
    } else {
      var k := |v| - 1;
      assert v == v[..k] + [v[k]];
      ScatterSign(v[..k]);
      ScatterStep(v[..k], v[k]);
      DeviationsSign(v[..k], v[k]);
      assert forall i :: 0 <= i < k ==> v[..k][i] == v[i];
    }
  }

  lemma EmptyScatter()
    ensures Scatter([]) == 0.0
  {
  }

  lemma {:induction false} FlattenSquared(rows: Grid, squares: Grid)
    requires |rows| == |squares| && forall d :: 0 <= d < |rows| ==> squares[d] == Squared(rows[d])
    ensures Flatten(squares) == Squared(Flatten(rows))
  {
    hide Sq;
    if rows != [] {
      var k := |rows| - 1;
      FlattenSquared(rows[..k], squares[..k]);
      var front := Flatten(rows[..k]);
      assert Squared(front + rows[k]) == Squared(front) + Squared(rows[k]);
    }
  }

  lemma {:induction false} FlattenLength(rows: Grid, k: nat)
    requires Rect(rows, |rows|, k)
    ensures |Flatten(rows)| == |rows| * k
  {
    if rows != [] {
      FlattenLength(rows[..|rows| - 1], k);
    }
  }

  lemma VarianceArithmetic(n: real, q: real, s: real)
    requires n > 0.0
    ensures (q / n - (s / n) * (s / n)) * (n * n) == n * q - s * s
  {
    var x, m := q / n, s / n;
    assert x * n == q && m * n == s;
    assert (x - m * m) * (n * n) == (x * n) * n - (m * n) * (m * n);
  }

  lemma FactorSign(v: real, n: real)
    requires n > 0.0
    ensures v * (n * n) >= 0.0 <==> v >= 0.0
    ensures v * (n * n) == 0.0 <==> v == 0.0
  {
    ProductSign(n, n);
    var m := n * n;
    ProductSign(v, m);
  }

  /** Over the reals the mean of squares is never below the square of the mean, so the clamp at zero
      before the square root changes nothing; the local deviation is zero exactly on a constant window. */
  lemma VarianceNonNegative(a: Grid, h: nat, w: nat, radius: nat, i: nat, j: nat)
    requires Rect(a, h, w) && i < h && j < w
    ensures var mean, sq := BoxMean(a, h, w, radius)[i][j], BoxMean(SquaredGrid(a, h, w), h, w, radius)[i][j];
            && sq - mean * mean >= 0.0
            && (sq - mean * mean == 0.0 <==> Constant(Window(a, h, w, radius, i, j)))
  {
    hide BoxMean, Clamp, Sum, Constant, Sq, Flatten, WindowRows;
    var squares := SquaredGrid(a, h, w);
    var k := Side(radius);
    FastEqualsNaive(a, h, w, radius, i, j);
    FastEqualsNaive(squares, h, w, radius, i, j);
    var rows, rows2 := WindowRows(a, h, w, radius, i, j), WindowRows(squares, h, w, radius, i, j);
    forall d | 0 <= d < k
      ensures rows2[d] == Squared(rows[d])
    {
      assert forall e :: 0 <= e < k ==> rows2[d][e] == Sq(rows[d][e]);
    }
    FlattenSquared(rows, rows2);
    FlattenLength(rows, k);
    var v := Window(a, h, w, radius, i, j);
    ScatterSign(v);
    assert |v| == k * k && k * k > 0;
    var n, mean := (k * k) as real, Sum(v) / (k * k) as real;
    VarianceArithmetic(n, Sum(Squared(v)), Sum(v));
    FactorSign(Sum(Squared(v)) / n - mean * mean, n);
  }
}
