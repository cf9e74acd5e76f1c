/** Planar polygons and Sutherland-Hodgman clipping (agri/geometry.py), over exact reals. */
module Geometry {
  import opened Sums
  import opened Wrappers

  /** Below this denominator an edge counts as parallel to the clipping line. */
  const NEAR_PARALLEL := 0.000000000001

  /** Coordinates all within this are taken for degrees. */
  const DEGREE_LIKE_LIMIT := 180.0

  datatype Point = Point(x: real, y: real)

  datatype GeometryError = TooFewVertices | ClosedRing | DegreeLike | ZeroAreas

  predicate DegreeSized(v: Point) {
    Abs(v.x) <= DEGREE_LIKE_LIMIT && Abs(v.y) <= DEGREE_LIKE_LIMIT
  }

  /** A coordinate that no angle in degrees can have. */
  predicate BeyondDegrees(v: Point) {
    v.x < -180.0 || v.x > 180.0 || v.y < -180.0 || v.y > 180.0
  }

  /** The constructor's refusals, in order. */
  function NewPolygon(vertices: seq<Point>): (r: Result<seq<Point>, GeometryError>)
    ensures r.Ok? <==> |vertices| >= 3 && vertices[0] != vertices[|vertices| - 1] && exists i :: 0 <= i < |vertices| && BeyondDegrees(vertices[i])
    ensures r.Ok? ==> r.value == vertices
    ensures r == Err(TooFewVertices) <==> |vertices| < 3
    ensures r == Err(ClosedRing) <==> |vertices| >= 3 && vertices[0] == vertices[|vertices| - 1]
    ensures r.Err? ==> r.error in {TooFewVertices, ClosedRing, DegreeLike}
  {
    if |vertices| < 3 then Err(TooFewVertices)
    else if vertices[0] == vertices[|vertices| - 1] then Err(ClosedRing)
    else if forall i :: 0 <= i < |vertices| ==> DegreeSized(vertices[i]) then Err(DegreeLike)
    else Ok(vertices)
  }

  // ------------------------------------------------------------------ shoelace

  /** Cross product of p and q seen from o. */
  function Det(o: Point, p: Point, q: Point): real {
    (p.x - o.x) * (q.y - o.y) - (q.x - o.x) * (p.y - o.y)
  }

  const ORIGIN := Point(0.0, 0.0)

  /** The shoelace sum along an open chain of points. */
  function Chain(o: Point, v: seq<Point>): real {
    if |v| < 2 then 0.0 else Chain(o, v[..|v| - 1]) + Det(o, v[|v| - 2], v[|v| - 1])
  }

  /** The shoelace sum around a closed ring. */
  function Ring(o: Point, v: seq<Point>): real {
    if v == [] then 0.0 else Chain(o, v) + Det(o, v[|v| - 1], v[0])
  }

  function SignedArea(v: seq<Point>): real {
    Ring(ORIGIN, v) / 2.0
  }

  function Area(v: seq<Point>): real {
    Abs(SignedArea(v))
  }

  function Reverse(v: seq<Point>): (r: seq<Point>)
    ensures |r| == |v|
    ensures forall i :: 0 <= i < |v| ==> r[i] == v[|v| - 1 - i]
  {
    if v == [] then [] else [v[|v| - 1]] + Reverse(v[..|v| - 1])
  }

  lemma {:induction false} ChainPrepend(o: Point, x: Point, v: seq<Point>)
    requires v != []
    ensures Chain(o, [x] + v) == Det(o, x, v[0]) + Chain(o, v)
  {
    var w := [x] + v;
    if |v| == 1 {
      assert w[..1] == [x];
    } else {
      ChainPrepend(o, x, v[..|v| - 1]);
      assert w[..|w| - 1] == [x] + v[..|v| - 1];
    }
  }

  /** Only the two end points of an open chain feel where the origin is. */
  lemma DetTranslate(o: Point, p: Point, q: Point)
    ensures Det(o, p, q) == Det(ORIGIN, p, q) + Det(ORIGIN, o, p) - Det(ORIGIN, o, q)
  {
  }

  lemma {:induction false} ChainTranslate(o: Point, v: seq<Point>)
    requires v != []
    ensures Chain(o, v) == Chain(ORIGIN, v) + Det(ORIGIN, o, v[0]) - Det(ORIGIN, o, v[|v| - 1])
  {
    if |v| > 1 {
      var p, q := v[|v| - 2], v[|v| - 1];
      ChainTranslate(o, v[..|v| - 1]);
      DetTranslate(o, p, q);
    }
  }

  /** The shoelace sum of a closed ring does not depend on the origin. */
  lemma RingTranslate(o: Point, v: seq<Point>)
    ensures Ring(o, v) == Ring(ORIGIN, v)
  {
    if v != [] {
      ChainTranslate(o, v);
      var p, q := v[|v| - 1], v[0];
      DetTranslate(o, p, q);
    }
  }

  lemma {:induction false} ChainReverse(o: Point, v: seq<Point>)
    ensures Chain(o, Reverse(v)) == -Chain(o, v)
  {
    if |v| >= 2 {
      var u, x := v[..|v| - 1], v[|v| - 1];
      ChainReverse(o, u);
      ChainPrepend(o, x, Reverse(u));
      assert Det(o, x, u[|u| - 1]) == -Det(o, u[|u| - 1], x);
    }
  }

  /** Walking the ring backwards negates the signed area, so the area is unchanged. */
  lemma ReverseNegatesArea(v: seq<Point>)
    ensures SignedArea(Reverse(v)) == -SignedArea(v)
    ensures Area(Reverse(v)) == Area(v)
  {
    ChainReverse(ORIGIN, v);
    if v != [] {
      assert Det(ORIGIN, v[0], v[|v| - 1]) == -Det(ORIGIN, v[|v| - 1], v[0]);
    }
  }

  /** Moving every vertex by the same vector leaves the signed area unchanged. */
  lemma TranslationInvariance(v: seq<Point>, w: seq<Point>, d: Point)
    requires |v| == |w|
    requires forall i :: 0 <= i < |v| ==> w[i] == Point(v[i].x + d.x, v[i].y + d.y)
    ensures SignedArea(w) == SignedArea(v)
  {
    RingTranslate(d, w);
    ShiftedChain(v, w, d);
  }

  lemma {:induction false} ShiftedChain(v: seq<Point>, w: seq<Point>, d: Point)
    requires |v| == |w|
    requires forall i :: 0 <= i < |v| ==> w[i] == Point(v[i].x + d.x, v[i].y + d.y)
    ensures Chain(d, w) == Chain(ORIGIN, v)
  {
    if |v| >= 2 {
      ShiftedChain(v[..|v| - 1], w[..|w| - 1], d);
    }
  }

  /** The accumulator loop behind `signed_area` and `intersection_area`. */
  method ShoelaceTotal(v: seq<Point>) returns (total: real)
    ensures total == Ring(ORIGIN, v)
  {
    total := 0.0;
    var n := |v|;
    var i := 0;
    while i < n
      invariant 0 <= i <= n
      invariant i < n ==> total == Chain(ORIGIN, v[..i + 1])
      invariant i == n ==> total == Ring(ORIGIN, v)
    {
      var a, b := v[i], v[Next(i, n)];
      total := total + (a.x * b.y - b.x * a.y);
      if i + 1 < n {
        assert v[..i + 2][..i + 1] == v[..i + 1];
      } else {
        assert v[..n] == v;
      }
      i := i + 1;
    }
  }

  // ------------------------------------------------------------------ clipping

  /** Position of p against the directed edge a->b: positive on the left. */
  function Cross(a: Point, b: Point, p: Point): real {
    (b.x - a.x) * (p.y - a.y) - (b.y - a.y) * (p.x - a.x)
  }

  predicate Inside(a: Point, b: Point, p: Point) {
    Cross(a, b, p) >= 0.0
  }

  function Denominator(a: Point, b: Point, p: Point, q: Point): real {
    (a.x - b.x) * (p.y - q.y) - (a.y - b.y) * (p.x - q.x)
  }

  /** Where the line a-b meets the line p-q; the end point q when they are near-parallel. */
  function Intersect(a: Point, b: Point, p: Point, q: Point): Point {
    var denominator := Denominator(a, b, p, q);
    if Abs(denominator) < NEAR_PARALLEL then q
    else
      var s := a.x * b.y - a.y * b.x;
      var t := p.x * q.y - p.y * q.x;
      Point((s * (p.x - q.x) - (a.x - b.x) * t) / denominator,
            (s * (p.y - q.y) - (a.y - b.y) * t) / denominator)
  }

  /** What the inner loop appends for one ring edge previous->current. */
  function Emit(a: Point, b: Point, previous: Point, current: Point): seq<Point> {
    if Inside(a, b, current) then
      (if !Inside(a, b, previous) then [Intersect(a, b, previous, current)] else []) + [current]
    else if Inside(a, b, previous) then [Intersect(a, b, previous, current)]
    else []
  }

  function Prev(ring: seq<Point>, i: nat): Point
    requires i < |ring|
  {
    if i == 0 then ring[|ring| - 1] else ring[i - 1]
  }

  /** The first k steps of clipping a ring against one edge. */
  function ClipPrefix(ring: seq<Point>, a: Point, b: Point, k: nat): seq<Point>
    requires k <= |ring|
  {
    if k == 0 then []
    else ClipPrefix(ring, a, b, k - 1) + Emit(a, b, Prev(ring, k - 1), ring[k - 1])
  }

  function ClipEdge(ring: seq<Point>, a: Point, b: Point): seq<Point> {
    ClipPrefix(ring, a, b, |ring|)
  }

  /** The index after i, wrapping to 0: (i + 1) mod n. */
  function Next(i: nat, n: nat): (j: nat)
    requires i < n
    ensures j < n && j == (i + 1) % n
  {
    if i + 1 == n then 0 else i + 1
  }

  function EdgeEnd(clipper: seq<Point>, i: nat): Point
    requires i < |clipper|
  {
    clipper[Next(i, |clipper|)]
  }

  /** The ring after the first k clipper edges. */
  function ClipEdges(subject: seq<Point>, clipper: seq<Point>, k: nat): seq<Point>
    requires k <= |clipper|
  {
    if k == 0 then subject
    else ClipEdge(ClipEdges(subject, clipper, k - 1), clipper[k - 1], EdgeEnd(clipper, k - 1))
  }

  /** The clipper turned counter-clockwise, as `_clip` does before its inside test. */
  function Oriented(clipper: seq<Point>): (r: seq<Point>)
    ensures |r| == |clipper|
    ensures SignedArea(r) >= 0.0
    ensures Area(r) == Area(clipper)
  {
    ReverseNegatesArea(clipper);
    if SignedArea(clipper) < 0.0 then Reverse(clipper) else clipper
  }

  function Clipped(subject: seq<Point>, clipper: seq<Point>): seq<Point> {
    ClipEdges(subject, Oriented(clipper), |clipper|)
  }

  lemma {:induction false} EmptyStaysEmpty(subject: seq<Point>, clipper: seq<Point>, i: nat, k: nat)
    requires i <= k <= |clipper|
    requires ClipEdges(subject, clipper, i) == []
    ensures ClipEdges(subject, clipper, k) == []
    decreases k
  {
    hide Emit;
    if i < k {
      EmptyStaysEmpty(subject, clipper, i, k - 1);
    }
  }

  /** The inner loop of `_clip`: one pass of the ring against one clipper edge. */
  method ClipAgainstEdge(output: seq<Point>, a: Point, b: Point) returns (clipped: seq<Point>)
    requires output != []
    ensures clipped == ClipEdge(output, a, b)
  {
    hide Cross, Intersect;
    clipped := [];
    var previous := output[|output| - 1];
    for k := 0 to |output|
      invariant k < |output| ==> previous == Prev(output, k)
      invariant clipped == ClipPrefix(output, a, b, k)
    {
      var current := output[k];
      if Inside(a, b, current) {
        if !Inside(a, b, previous) {
          clipped := clipped + [Intersect(a, b, previous, current)];
        }
        clipped := clipped + [current];
      } else if Inside(a, b, previous) {
        clipped := clipped + [Intersect(a, b, previous, current)];
      }
      previous := current;
    }
  }

  method Clip(subject: seq<Point>, clipper: seq<Point>) returns (output: seq<Point>)
    ensures output == Clipped(subject, clipper)
  {
    hide Emit, Ring, Area;
    output := subject;
    var n := |clipper|;
    var ccw := clipper;
    var total := ShoelaceTotal(clipper);
    if total / 2.0 < 0.0 {
      ccw := Reverse(clipper);
    }
    for i := 0 to n
      invariant ccw == Oriented(clipper)
      invariant output == ClipEdges(subject, ccw, i)
    {
      if output == [] {
        EmptyStaysEmpty(subject, ccw, i, n);
        return [];
      }
      output := ClipAgainstEdge(output, ccw[i], ccw[Next(i, n)]);
    }
  }

  // -------------------------------------------------- the intersection formula

  function Lerp(p: Point, q: Point, t: real): Point {
    Point(p.x + t * (q.x - p.x), p.y + t * (q.y - p.y))
  }

  lemma DenominatorIsCrossDifference(a: Point, b: Point, p: Point, q: Point)
    ensures Denominator(a, b, p, q) == Cross(a, b, q) - Cross(a, b, p)
  {
  }

  /** Multiplied out, the intersection formula is p moved towards q by Cross(p) / (Cross(p) - Cross(q)). */
  lemma IntersectNumerators(a: Point, b: Point, p: Point, q: Point)
    ensures var s := a.x * b.y - a.y * b.x;
            var t := p.x * q.y - p.y * q.x;
            var den := Denominator(a, b, p, q);
            && s * (p.x - q.x) - (a.x - b.x) * t == p.x * den - Cross(a, b, p) * (q.x - p.x)
            && s * (p.y - q.y) - (a.y - b.y) * t == p.y * den - Cross(a, b, p) * (q.y - p.y)
  {
  }

  lemma DivideOut(u: real, c: real, w: real, den: real)
    requires den != 0.0
    ensures (u * den - c * w) / den == u + (-c / den) * w
  {
    assert (u * den - c * w) / den == (u * den) / den - (c * w) / den;
    assert (c * w) / den == (c / den) * w;
  }

  lemma IntersectIsLerp(a: Point, b: Point, p: Point, q: Point)
    requires Abs(Denominator(a, b, p, q)) >= NEAR_PARALLEL
    ensures Intersect(a, b, p, q) == Lerp(p, q, -Cross(a, b, p) / Denominator(a, b, p, q))
  {
    var den := Denominator(a, b, p, q);
    IntersectNumerators(a, b, p, q);
    DivideOut(p.x, Cross(a, b, p), q.x - p.x, den);
    DivideOut(p.y, Cross(a, b, p), q.y - p.y, den);
  }

  lemma CrossOfLerp(a: Point, b: Point, p: Point, q: Point, t: real)
    ensures Cross(a, b, Lerp(p, q, t)) == Cross(a, b, p) + t * (Cross(a, b, q) - Cross(a, b, p))
  {
  }

  /** Away from the escape, the formula gives the point of segment p-q on the clipping line. */
  lemma IntersectOnLine(a: Point, b: Point, p: Point, q: Point) returns (t: real)
    requires Inside(a, b, p) != Inside(a, b, q)
    requires Abs(Denominator(a, b, p, q)) >= NEAR_PARALLEL
    ensures 0.0 <= t <= 1.0
    ensures Intersect(a, b, p, q) == Lerp(p, q, t)
    ensures Cross(a, b, Intersect(a, b, p, q)) == 0.0
  {
    var cp, cq := Cross(a, b, p), Cross(a, b, q);
    DenominatorIsCrossDifference(a, b, p, q);
    IntersectIsLerp(a, b, p, q);
    t := -cp / (cq - cp);
    CrossOfLerp(a, b, p, q, t);
    assert t * (cq - cp) == -cp;
    if cp >= 0.0 {
      assert t == cp / (cp - cq);
    }
  }

  // ----------------------------------------------------- where clipped vertices lie

  /** The half-plane u*x + v*y >= c, or > c when `open`. */
  datatype HalfPlane = HalfPlane(u: real, v: real, c: real, open: bool)

  function Height(h: HalfPlane, p: Point): real {
    h.u * p.x + h.v * p.y - h.c
  }

  predicate Holds(h: HalfPlane, p: Point) {
    if h.open then Height(h, p) > 0.0 else Height(h, p) >= 0.0
  }

  ghost predicate AllHold(h: HalfPlane, ring: seq<Point>) {
    forall i :: 0 <= i < |ring| ==> Holds(h, ring[i])
  }

  /** The clipping side of edge a->b, widened by the near-parallel tolerance. */
  function Tolerant(a: Point, b: Point): HalfPlane {
    var u, v := a.y - b.y, b.x - a.x;
    HalfPlane(u, v, u * a.x + v * a.y - NEAR_PARALLEL, true)
  }

  lemma TolerantMeaning(a: Point, b: Point, p: Point)
    ensures Holds(Tolerant(a, b), p) <==> Cross(a, b, p) > -NEAR_PARALLEL
  {
    LineForm(a.y - b.y, b.x - a.x, a.x, a.y, p.x, p.y);
    Negated(b.y - a.y, p.x - a.x);
    assert Height(Tolerant(a, b), p) == Cross(a, b, p) + NEAR_PARALLEL;
  }

  lemma LineForm(u: real, v: real, ax: real, ay: real, px: real, py: real)
    ensures u * px + v * py - (u * ax + v * ay) == v * (py - ay) + u * (px - ax)
  {
  }

  lemma Negated(x: real, y: real)
    ensures -x * y == -(x * y)
  {
  }

  /** The outer side of edge a->b, without its boundary. */
  function Beyond(a: Point, b: Point): HalfPlane {
    var u, v := b.y - a.y, a.x - b.x;
    HalfPlane(u, v, u * a.x + v * a.y, true)
  }

  lemma BeyondMeaning(a: Point, b: Point, p: Point)
    ensures Holds(Beyond(a, b), p) <==> !Inside(a, b, p)
  {
    LineForm(b.y - a.y, a.x - b.x, a.x, a.y, p.x, p.y);
    Negated(b.x - a.x, p.y - a.y);
    assert Height(Beyond(a, b), p) == -Cross(a, b, p);
  }

  lemma LerpHolds(h: HalfPlane, p: Point, q: Point, t: real)
    requires 0.0 <= t <= 1.0 && Holds(h, p) && Holds(h, q)
    ensures Holds(h, Lerp(p, q, t))
  {
    var hp, hq := Height(h, p), Height(h, q);
    assert h.u * (p.x + t * (q.x - p.x)) == h.u * p.x + t * (h.u * q.x - h.u * p.x);
    assert h.v * (p.y + t * (q.y - p.y)) == h.v * p.y + t * (h.v * q.y - h.v * p.y);
    assert Height(h, Lerp(p, q, t)) == hp + t * (hq - hp);
    MixPositive(hp, hq, t);
  }

  lemma MixPositive(x: real, y: real, t: real)
    requires 0.0 <= t <= 1.0
    ensures x >= 0.0 && y >= 0.0 ==> x + t * (y - x) >= 0.0
    ensures x > 0.0 && y > 0.0 ==> x + t * (y - x) > 0.0
  {
    assert x + t * (y - x) == (1.0 - t) * x + t * y;
    if x > 0.0 && y > 0.0 {
      assert (1.0 - t) * x >= 0.0 && t * y >= 0.0;
      assert t > 0.0 ==> t * y > 0.0;
    }
  }

  /** A half-plane holding both ends of a ring edge holds everything the edge emits. */
  lemma EmitHolds(h: HalfPlane, a: Point, b: Point, p: Point, q: Point)
    requires Holds(h, p) && Holds(h, q)
    ensures AllHold(h, Emit(a, b, p, q))
  {
    hide Holds, Cross, Intersect, Denominator;
    if Inside(a, b, p) != Inside(a, b, q) {
      if Abs(Denominator(a, b, p, q)) < NEAR_PARALLEL {
        assert Intersect(a, b, p, q) == q by { EscapeReturnsEnd(a, b, p, q); }
      } else {
        var t := IntersectOnLine(a, b, p, q);
        LerpHolds(h, p, q, t);
      }
    }
  }

  lemma EscapeReturnsEnd(a: Point, b: Point, p: Point, q: Point)
    requires Abs(Denominator(a, b, p, q)) < NEAR_PARALLEL
    ensures Intersect(a, b, p, q) == q
  {
  }

  /** Whatever one ring edge emits is on the clipping side up to the tolerance. */
  lemma EmitTolerant(a: Point, b: Point, p: Point, q: Point)
    ensures AllHold(Tolerant(a, b), Emit(a, b, p, q))
  {
    hide Holds, Cross, Intersect, Denominator, Tolerant;
    TolerantMeaning(a, b, q);
    if Inside(a, b, p) != Inside(a, b, q) {
      TolerantMeaning(a, b, Intersect(a, b, p, q));
      DenominatorIsCrossDifference(a, b, p, q);
      if Abs(Denominator(a, b, p, q)) < NEAR_PARALLEL {
        EscapeReturnsEnd(a, b, p, q);
      } else {
        var _ := IntersectOnLine(a, b, p, q);
      }
    }
  }

  lemma {:induction false} PrefixHolds(h: HalfPlane, ring: seq<Point>, a: Point, b: Point, k: nat)
    requires k <= |ring|
    requires AllHold(h, ring) || h == Tolerant(a, b)
    ensures AllHold(h, ClipPrefix(ring, a, b, k))
  {
    hide Holds, Emit, Tolerant;
    if k > 0 {
      PrefixHolds(h, ring, a, b, k - 1);
      if h == Tolerant(a, b) {
        EmitTolerant(a, b, Prev(ring, k - 1), ring[k - 1]);
      } else {
        EmitHolds(h, a, b, Prev(ring, k - 1), ring[k - 1]);
      }
    }
  }

  /** Clipping never leaves a half-plane that holds the whole ring. */
  lemma {:induction false} EdgesHold(h: HalfPlane, subject: seq<Point>, clipper: seq<Point>, i: nat, k: nat)
    requires i <= k <= |clipper|
    requires AllHold(h, ClipEdges(subject, clipper, i))
    ensures AllHold(h, ClipEdges(subject, clipper, k))
    decreases k
  {
    hide AllHold, Emit;
    if i < k {
      EdgesHold(h, subject, clipper, i, k - 1);
      var ring := ClipEdges(subject, clipper, k - 1);
      PrefixHolds(h, ring, clipper[k - 1], EdgeEnd(clipper, k - 1), |ring|);
    }
  }

  /** Any half-plane containing the whole subject contains the whole result. */
  lemma ResultInsideHull(h: HalfPlane, subject: seq<Point>, clipper: seq<Point>)
    requires AllHold(h, subject)
    ensures AllHold(h, Clipped(subject, clipper))
  {
    EdgesHold(h, subject, Oriented(clipper), 0, |clipper|);
  }

  /** Every result vertex is on the inner side of every edge of the counter-clockwise clipper,
      up to one near-parallel tolerance: the slack does not accumulate over the edges. */
  lemma ResultInsideClipper(subject: seq<Point>, clipper: seq<Point>, i: nat, v: Point)
    requires i < |clipper|
    requires v in Clipped(subject, clipper)
    ensures Cross(Oriented(clipper)[i], EdgeEnd(Oriented(clipper), i), v) > -NEAR_PARALLEL
  {
    hide Holds, Emit, Tolerant, Cross;
    var ccw := Oriented(clipper);
    var a, b := ccw[i], EdgeEnd(ccw, i);
    var ring := ClipEdges(subject, ccw, i);
    PrefixHolds(Tolerant(a, b), ring, a, b, |ring|);
    EdgesHold(Tolerant(a, b), subject, ccw, i + 1, |ccw|);
    TolerantMeaning(a, b, v);
  }

  // --------------------------------------------------- what clipping keeps and drops

  ghost predicate InsideAll(clipper: seq<Point>, p: Point) {
    forall i :: 0 <= i < |clipper| ==> Inside(clipper[i], EdgeEnd(clipper, i), p)
  }

  ghost predicate WhollyInside(clipper: seq<Point>, ring: seq<Point>) {
    forall i :: 0 <= i < |ring| ==> InsideAll(clipper, ring[i])
  }

  lemma {:induction false} PrefixKeeps(ring: seq<Point>, a: Point, b: Point, k: nat, p: Point)
    requires k <= |ring|
    requires Inside(a, b, p)
    ensures p in ring[..k] ==> p in ClipPrefix(ring, a, b, k)
  {
    hide Intersect, Cross;
    if k > 0 && p in ring[..k] {
      PrefixKeeps(ring, a, b, k - 1, p);
      assert ring[..k] == ring[..k - 1] + [ring[k - 1]];
    }
  }

  lemma InsideAllAt(clipper: seq<Point>, p: Point, i: nat)
    requires i < |clipper| && InsideAll(clipper, p)
    ensures Inside(clipper[i], EdgeEnd(clipper, i), p)
  {
  }

  lemma EdgeKeeps(ring: seq<Point>, a: Point, b: Point, p: Point)
    requires Inside(a, b, p) && p in ring
    ensures p in ClipEdge(ring, a, b)
  {
    PrefixKeeps(ring, a, b, |ring|, p);
    assert ring[..|ring|] == ring;
  }

  /** A subject vertex inside every clipper edge survives. */
  lemma {:induction false} InsideVertexSurvives(subject: seq<Point>, clipper: seq<Point>, k: nat, p: Point)
    requires k <= |clipper|
    requires p in subject && InsideAll(clipper, p)
    ensures p in ClipEdges(subject, clipper, k)
  {
    hide ClipEdge, Inside, InsideAll;
    if k > 0 {
      InsideVertexSurvives(subject, clipper, k - 1, p);
      InsideAllAt(clipper, p, k - 1);
      EdgeKeeps(ClipEdges(subject, clipper, k - 1), clipper[k - 1], EdgeEnd(clipper, k - 1), p);
    }
  }

  lemma {:induction false} PrefixIdentity(ring: seq<Point>, a: Point, b: Point, k: nat)
    requires k <= |ring|
    requires forall i :: 0 <= i < |ring| ==> Inside(a, b, ring[i])
    ensures ClipPrefix(ring, a, b, k) == ring[..k]
  {
    hide Intersect, Cross, Inside;
    if k > 0 {
      PrefixIdentity(ring, a, b, k - 1);
      assert Emit(a, b, Prev(ring, k - 1), ring[k - 1]) == [ring[k - 1]];
    }
  }

  lemma EdgeIdentity(ring: seq<Point>, a: Point, b: Point)
    requires forall i :: 0 <= i < |ring| ==> Inside(a, b, ring[i])
    ensures ClipEdge(ring, a, b) == ring
  {
    PrefixIdentity(ring, a, b, |ring|);
    assert ring[..|ring|] == ring;
  }

  lemma {:induction false} ContainedIsUntouched(subject: seq<Point>, clipper: seq<Point>, k: nat)
    requires k <= |clipper|
    requires WhollyInside(clipper, subject)
    ensures ClipEdges(subject, clipper, k) == subject
  {
    hide Inside, InsideAll, ClipEdge;
    if k > 0 {
      ContainedIsUntouched(subject, clipper, k - 1);
      forall i | 0 <= i < |subject|
        ensures Inside(clipper[k - 1], EdgeEnd(clipper, k - 1), subject[i])
      {
        InsideAllAt(clipper, subject[i], k - 1);
      }
      EdgeIdentity(subject, clipper[k - 1], EdgeEnd(clipper, k - 1));
    }
  }

  lemma {:induction false} PrefixDropsAll(ring: seq<Point>, a: Point, b: Point, k: nat)
    requires k <= |ring|
    requires AllHold(Beyond(a, b), ring)
    ensures ClipPrefix(ring, a, b, k) == []
  {
    hide Intersect, Cross, Holds, Beyond;
    if k > 0 {
      PrefixDropsAll(ring, a, b, k - 1);
      BeyondMeaning(a, b, ring[k - 1]);
      BeyondMeaning(a, b, Prev(ring, k - 1));
    }
  }

  /** A subject wholly beyond one clipper edge leaves nothing. */
  lemma SeparatedIsEmpty(subject: seq<Point>, clipper: seq<Point>, i: nat)
    requires i < |clipper|
    requires AllHold(Beyond(clipper[i], EdgeEnd(clipper, i)), subject)
    ensures ClipEdges(subject, clipper, |clipper|) == []
  {
    hide Emit, Holds, Beyond;
    var a, b := clipper[i], EdgeEnd(clipper, i);
    EdgesHold(Beyond(a, b), subject, clipper, 0, i);
    var ring := ClipEdges(subject, clipper, i);
    PrefixDropsAll(ring, a, b, |ring|);
    EmptyStaysEmpty(subject, clipper, i + 1, |clipper|);
  }

  // ----------------------------------------------------------- overlap and IoU

  function OverlapArea(a: seq<Point>, b: seq<Point>): real {
    var ring := Clipped(a, b);
    if |ring| < 3 then 0.0 else Area(ring)
  }

  method IntersectionArea(a: seq<Point>, b: seq<Point>) returns (r: real)
    ensures r == OverlapArea(a, b)
  {
    hide Ring, Clipped;
    var clipped := Clip(a, b);
    if |clipped| < 3 {
      return 0.0;
    }
    var total := ShoelaceTotal(clipped);
    r := Abs(total) / 2.0;
  }

  function OverlapRatio(areaA: real, areaB: real, overlap: real): Result<real, GeometryError> {
    var union := areaA + areaB - overlap;
    if union <= 0.0 then Err(ZeroAreas) else Ok(overlap / union)
  }

  function Iou(a: seq<Point>, b: seq<Point>): Result<real, GeometryError> {
    OverlapRatio(Area(a), Area(b), OverlapArea(a, b))
  }

  lemma RatioCases(x: real, y: real)
    requires x >= 0.0 && y > 0.0
    ensures OverlapRatio(x, y, x) == Ok(x / y)
    ensures OverlapRatio(y, x, 0.0) == OverlapRatio(x, y, 0.0) == Ok(0.0)
    ensures y / y == 1.0
  {
  }

  /** Inclusion and exclusion: the ratio is the overlap's share of the two areas less the overlap once, and
      it is refused exactly when nothing is left of them. */
  lemma IouShare(a: seq<Point>, b: seq<Point>)
    ensures Iou(a, b).Ok? <==> Area(a) + Area(b) > OverlapArea(a, b)
    ensures Iou(a, b).Err? ==> Iou(a, b).error == ZeroAreas
    ensures Iou(a, b).Ok? ==> Iou(a, b).value * (Area(a) + Area(b)) == OverlapArea(a, b) * (1.0 + Iou(a, b).value)
  {
    hide Area, OverlapArea;
    var x, o := Area(a) + Area(b), OverlapArea(a, b);
    if x > o {
      ShareOfUnion(x, o);
    }
  }

  lemma ShareOfUnion(x: real, o: real)
    requires x > o
    ensures o / (x - o) * x == o * (1.0 + o / (x - o))
  {
    var r := o / (x - o);
    assert r * (x - o) == o;
    assert r * (x - o) == r * x - r * o;
  }

  /** A polygon inside the other contributes its whole area, so the IoU is the area ratio. */
  lemma ContainedOverlap(a: seq<Point>, b: seq<Point>)
    requires |a| >= 3 && WhollyInside(Oriented(b), a)
    ensures OverlapArea(a, b) == Area(a)
    ensures Area(b) > 0.0 ==> Iou(a, b) == Ok(Area(a) / Area(b))
  {
    hide SignedArea, ClipEdges, WhollyInside, OverlapRatio;
    ContainedIsUntouched(a, Oriented(b), |b|);
    if Area(b) > 0.0 {
      RatioCases(Area(a), Area(b));
    }
  }

  /** A convex polygon overlaps itself exactly: the IoU is one. */
  lemma ConvexSelfOverlap(a: seq<Point>)
    requires |a| >= 3 && WhollyInside(Oriented(a), a) && Area(a) > 0.0
    ensures Iou(a, a) == Ok(1.0)
  {
    hide SignedArea, OverlapArea, WhollyInside, OverlapRatio;
    ContainedOverlap(a, a);
    RatioCases(Area(a), Area(a));
  }

  /** Polygons separated by an edge of the clipper do not overlap. */
  lemma SeparatedOverlap(a: seq<Point>, b: seq<Point>, i: nat)
    requires i < |b|
    requires AllHold(Beyond(Oriented(b)[i], EdgeEnd(Oriented(b), i)), a)
    ensures OverlapArea(a, b) == 0.0
    ensures Area(a) + Area(b) > 0.0 ==> Iou(a, b) == Ok(0.0)
  {
    hide SignedArea, ClipEdges, AllHold, Beyond, OverlapRatio;
    SeparatedIsEmpty(a, Oriented(b), i);
    if Area(b) > 0.0 {
      RatioCases(Area(a), Area(b));
    } else if Area(a) > 0.0 {
      RatioCases(Area(b), Area(a));
    }
  }
}
