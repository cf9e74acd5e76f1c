/** Which points the clipped polygon holds: those of the subject inside every edge of the clipper
    (agri/geometry.py). */
module ClipRegion {
  import opened ClipArea
  import opened ConvexClip
  import opened Geometry

  /** The point is on the inner side of edge i of a ring walked in the given direction. */
  predicate OnSide(left: bool, v: seq<Point>, i: nat, p: Point)
    requires i < |v|
  {
    Sided(left, Det(v[i], EdgeEnd(v, i), p)) >= 0.0
  }

  ghost predicate InRegion(left: bool, v: seq<Point>, p: Point) {
    forall i: nat :: i < |v| ==> OnSide(left, v, i, p)
  }

  // ------------------------------------------------------- the edges of a clipped ring

  /** x and y lie on the segment p-q, in that order. */
  ghost predicate PartOf(p: Point, q: Point, x: Point, y: Point) {
    exists s, t :: 0.0 <= s <= t <= 1.0 && x == Lerp(p, q, s) && y == Lerp(p, q, t)
  }

  ghost predicate PartOfSome(ring: seq<Point>, x: Point, y: Point) {
    exists k: nat :: k < |ring| && PartOf(Prev(ring, k), ring[k], x, y)
  }

  /** An edge of the clipped ring: part of an edge of the ring, or along the clipping line. */
  ghost predicate Follows(ring: seq<Point>, a: Point, b: Point, x: Point, y: Point) {
    PartOfSome(ring, x, y) || (OnLine(a, b, x) && OnLine(a, b, y))
  }

  function Before(from: Point, v: seq<Point>, i: nat): Point
    requires i < |v|
  {
    if i == 0 then from else v[i - 1]
  }

  ghost predicate AllFollow(ring: seq<Point>, a: Point, b: Point, from: Point, v: seq<Point>) {
    forall i: nat :: i < |v| ==> Follows(ring, a, b, Before(from, v, i), v[i])
  }

  lemma FollowOn(ring: seq<Point>, a: Point, b: Point, from: Point, v: seq<Point>, x: Point)
    requires AllFollow(ring, a, b, from, v) && Follows(ring, a, b, Final(v, from), x)
    ensures AllFollow(ring, a, b, from, v + [x]) && Final(v + [x], from) == x
  {
    hide Follows;
    var w := v + [x];
    forall i: nat | i < |w|
      ensures Follows(ring, a, b, Before(from, w, i), w[i])
    {
      if i < |v| {
        assert Before(from, w, i) == Before(from, v, i) && w[i] == v[i];
      } else {
        assert Before(from, w, i) == Final(v, from) && w[i] == x;
      }
    }
  }

  lemma PartAt(ring: seq<Point>, k: nat, s: real, t: real, x: Point, y: Point)
    requires k < |ring| && 0.0 <= s <= t <= 1.0 && x == Lerp(Prev(ring, k), ring[k], s) && y == Lerp(Prev(ring, k), ring[k], t)
    ensures PartOfSome(ring, x, y)
  {
    assert PartOf(Prev(ring, k), ring[k], x, y);
  }

  lemma FollowStep(ring: seq<Point>, a: Point, b: Point, from: Point, v: seq<Point>, k: nat)
    requires k < |ring| && NoEscape(ring, a, b) && AllFollow(ring, a, b, from, v)
    requires Inside(a, b, Prev(ring, k)) ==> Final(v, from) == Prev(ring, k)
    requires !Inside(a, b, Prev(ring, k)) && Inside(a, b, ring[k]) ==> OnLine(a, b, Final(v, from))
    ensures AllFollow(ring, a, b, from, v + Emit(a, b, Prev(ring, k), ring[k]))
  {
    hide Cross, Intersect, Escapes, AllFollow, Emit, PartOfSome, Lerp;
    var u, w := Prev(ring, k), ring[k];
    EmitCases(a, b, u, w);
    LerpStart(u, w);
    LerpEnd(u, w);
    if Crosses(a, b, u, w) {
      var t := HitOnEdge(a, b, u, w);
      var x := Intersect(a, b, u, w);
      assert CleanEdge(a, b, u, w);
      HitNearLine(a, b, u, w);
      if Inside(a, b, u) {
        PartAt(ring, k, 0.0, t, u, x);
        FollowOn(ring, a, b, from, v, x);
      } else {
        PartAt(ring, k, t, 1.0, x, w);
        FollowOn(ring, a, b, from, v, x);
        FollowOn(ring, a, b, from, v + [x], w);
        assert v + [x] + [w] == v + [x, w];
      }
    } else if Inside(a, b, w) {
      PartAt(ring, k, 0.0, 1.0, u, w);
      FollowOn(ring, a, b, from, v, w);
    } else {
      assert v + [] == v;
    }
  }

  lemma {:induction false} PrefixFollows(ring: seq<Point>, a: Point, b: Point, k: nat)
    requires k <= |ring| && ring != [] && NoEscape(ring, a, b)
    ensures AllFollow(ring, a, b, LastHit(ring, a, b, 0), ClipPrefix(ring, a, b, k))
  {
    hide Inside, Intersect, Emit, Follows, NoEscape, ClipEdge, OnLine, LastHit;
    if k > 0 {
      PrefixFollows(ring, a, b, k - 1);
      StandsAt(ring, a, b, k - 1);
      LastHitFinal(ring, a, b, k - 1);
      FollowStep(ring, a, b, LastHit(ring, a, b, 0), ClipPrefix(ring, a, b, k - 1), k - 1);
    }
  }

  /** A pass stands at its vertex while inside, and on the line when it is about to enter. */
  lemma StandsAt(ring: seq<Point>, a: Point, b: Point, k: nat)
    requires k < |ring| && NoEscape(ring, a, b)
    ensures Inside(a, b, Prev(ring, k)) ==> LastHit(ring, a, b, k) == Prev(ring, k)
    ensures !Inside(a, b, Prev(ring, k)) && Inside(a, b, ring[k]) ==> OnLine(a, b, LastHit(ring, a, b, k))
  {
    hide Cross, Intersect, Emit, Walk, Escapes, LastHit, ClipEdge;
    PrefixWalks(ORIGIN, ring, a, b, k);
    if !Inside(a, b, Prev(ring, k)) && Inside(a, b, ring[k]) {
      var j := ChordStart(ring, a, b, k);
      assert CleanEdge(a, b, Prev(ring, j), ring[j]);
      HitNearLine(a, b, Prev(ring, j), ring[j]);
    }
  }

  lemma LastHitAtStart(ring: seq<Point>, a: Point, b: Point)
    requires ring != [] && ClipEdge(ring, a, b) != []
    ensures LastHit(ring, a, b, 0) == ClipEdge(ring, a, b)[|ClipEdge(ring, a, b)| - 1]
  {
    hide ClipEdge;
    PrefixStep(ring, a, b, 0);
  }

  lemma EdgeFollows(ring: seq<Point>, a: Point, b: Point, i: nat)
    requires NoEscape(ring, a, b) && i < |ClipEdge(ring, a, b)|
    ensures Follows(ring, a, b, ClipEdge(ring, a, b)[i], EdgeEnd(ClipEdge(ring, a, b), i))
  {
    hide Follows, Emit, NoEscape;
    PrefixFollows(ring, a, b, |ring|);
    var c := ClipEdge(ring, a, b);
    var j := Next(i, |c|);
    LastHitAtStart(ring, a, b);
    assert Follows(ring, a, b, Before(c[|c| - 1], c, j), c[j]);
  }

  // --------------------------------------------------------------- what a pass keeps

  lemma PartTurns(left: bool, p: Point, q: Point, x: Point, y: Point, z: Point)
    requires PartOf(p, q, x, y) && Sided(left, Det(p, q, z)) >= 0.0
    ensures Sided(left, Det(x, y, z)) >= 0.0
  {
    hide Det, Lerp;
    var s, t :| 0.0 <= s <= t <= 1.0 && x == Lerp(p, q, s) && y == Lerp(p, q, t);
    SubSegment(p, q, s, t, z);
    if left {
      ScaledSign(t - s, Det(p, q, z));
    } else {
      ScaledSign(t - s, -Det(p, q, z));
      TimesNegated(t - s, Det(p, q, z));
    }
  }

  lemma ScaledSign(f: real, x: real)
    requires f >= 0.0 && x >= 0.0
    ensures Times(f, x) >= 0.0
  {
  }

  lemma SubSegment(p: Point, q: Point, s: real, t: real, z: Point)
    ensures Det(Lerp(p, q, s), Lerp(p, q, t), z) == Times(t - s, Det(p, q, z))
  {
    hide Det, Lerp, Times;
    var x, y := Lerp(p, q, s), Lerp(p, q, t);
    DetOfLerp(p, q, s, y, z);
    DetCycle(p, y, z);
    DetCycle(q, y, z);
    DetCycle(y, z, p);
    DetCycle(y, z, q);
    DetOfLerp(p, q, t, z, p);
    DetOfLerp(p, q, t, z, q);
    DetCycle(p, z, p);
    DetCycle(q, z, q);
    DetSwap(p, q, z);
    DetCycle(q, z, p);
    DetCycle(p, z, q);
    DetCycle(z, q, p);
    SegmentProducts(s, t, Det(p, q, z));
  }

  lemma SegmentProducts(s: real, t: real, d: real)
    ensures (1.0 - s) * ((1.0 - t) * 0.0 + t * d) + s * ((1.0 - t) * -d + t * 0.0) == Times(t - s, d)
  {
  }

  lemma AlongLine(a: Point, b: Point, x: Point, y: Point, z: Point)
    requires a != b && OnLine(a, b, x) && OnLine(a, b, y)
    ensures Det(x, y, z) == Times(Param(a, b, y) - Param(a, b, x), Cross(a, b, z))
  {
    hide Det, Cross, Param, Times;
    DetTranslateTo(a, x, y, z);
    DetInFrame(a, b, x, y);
    DetInFrame(a, b, y, z);
    DetInFrame(a, b, z, x);
    TimesZero(Param(a, b, x));
    TimesZero(Param(a, b, y));
    TimesZero(Param(a, b, z));
    TimesMinus(Param(a, b, y), Param(a, b, x), Cross(a, b, z));
  }

  lemma DetTranslateTo(o: Point, x: Point, y: Point, z: Point)
    ensures Det(x, y, z) == Det(o, x, y) + Det(o, y, z) + Det(o, z, x)
  {
  }

  lemma TimesMinus(x: real, y: real, z: real)
    ensures Times(x - y, z) == Times(x, z) - Times(y, z)
  {
  }

  /** Along the line, all points of the inner side see the same turn. */
  lemma SameTurn(left: bool, a: Point, b: Point, x: Point, y: Point, z: Point, p: Point)
    requires a != b && OnLine(a, b, x) && OnLine(a, b, y)
    requires Cross(a, b, z) > 0.0 && Sided(left, Det(x, y, z)) >= 0.0 && Inside(a, b, p)
    ensures Sided(left, Det(x, y, p)) >= 0.0
  {
    hide Det, Cross, Param, Times;
    AlongLine(a, b, x, y, z);
    AlongLine(a, b, x, y, p);
    var f := Param(a, b, y) - Param(a, b, x);
    FactorOfPositive(left, f, Cross(a, b, z), Cross(a, b, p));
  }

  lemma FactorOfPositive(left: bool, f: real, g: real, h: real)
    requires g > 0.0 && h >= 0.0 && Sided(left, Times(f, g)) >= 0.0
    ensures Sided(left, Times(f, h)) >= 0.0
  {
    if f > 0.0 {
      PositiveTimes(f, g);
      ScaledSign(f, h);
    } else if f < 0.0 {
      PositiveTimes(-f, g);
      ScaledSign(-f, h);
      assert Times(-f, g) == -Times(f, g) && Times(-f, h) == -Times(f, h);
    } else {
      assert f == 0.0;
      assert Times(0.0, h) == 0.0;
    }
  }

  /** A ring on one line has no area. */
  lemma {:induction false} LineChain(a: Point, b: Point, o: Point, v: seq<Point>)
    requires a != b && OnLine(a, b, o) && forall i :: 0 <= i < |v| ==> OnLine(a, b, v[i])
    ensures Chain(o, v) == 0.0
  {
    hide Det, OnLine;
    if |v| > 1 {
      var n := |v| - 1;
      LineChain(a, b, o, v[..n]);
      LineTriple(a, b, o, v[n - 1], v[n]);
    }
  }

  lemma LineTriple(a: Point, b: Point, x: Point, y: Point, z: Point)
    requires a != b && OnLine(a, b, x) && OnLine(a, b, y) && OnLine(a, b, z)
    ensures Det(x, y, z) == 0.0
  {
    hide Det, Cross, Param, Times;
    AlongLine(a, b, x, y, z);
    TimesZero(Param(a, b, y) - Param(a, b, x));
  }

  lemma LineRing(left: bool, a: Point, b: Point, v: seq<Point>)
    requires a != b && Twice(left, v) > 0.0 && forall i :: 0 <= i < |v| ==> Inside(a, b, v[i])
    ensures exists i :: 0 <= i < |v| && Cross(a, b, v[i]) > 0.0
  {
    hide Det, Cross, Chain;
    if v == [] {
      SingleRing(a);
    } else if forall i :: 0 <= i < |v| ==> OnLine(a, b, v[i]) {
      LineChain(a, b, v[0], v);
      LineTriple(a, b, v[0], v[|v| - 1], v[0]);
      RingTranslate(v[0], v);
    }
  }

  lemma RegionEdge(left: bool, v: seq<Point>, k: nat, p: Point)
    requires k < |v| && InRegion(left, v, p)
    ensures Sided(left, Det(Prev(v, k), v[k], p)) >= 0.0
  {
    hide Det;
    var i := if k == 0 then |v| - 1 else k - 1;
    assert OnSide(left, v, i, p);
  }

  /** A pass without an escape keeps every point of a convex ring on its inner side. */
  lemma PassKeepsPoint(left: bool, ring: seq<Point>, a: Point, b: Point, p: Point)
    requires Convex(left, ring) && NoEscape(ring, a, b) && Twice(left, ClipEdge(ring, a, b)) > 0.0
    requires InRegion(left, ring, p) && Inside(a, b, p)
    ensures InRegion(left, ClipEdge(ring, a, b), p)
  {
    hide Convex, Cross, Det, Ring, ClipEdge, NoEscape;
    var c := ClipEdge(ring, a, b);
    if a == b {
      NoEdgeNoLoss(ring, a);
    } else {
      CleanPass(ring, a, b);
      LineRing(left, a, b, c);
      var z :| 0 <= z < |c| && Cross(a, b, c[z]) > 0.0;
      PassKeepsConvex(left, ring, a, b);
      forall i: nat | i < |c|
        ensures OnSide(left, c, i, p)
      {
        EdgeFollows(ring, a, b, i);
        var x, y := c[i], EdgeEnd(c, i);
        if PartOfSome(ring, x, y) {
          var k: nat :| k < |ring| && PartOf(Prev(ring, k), ring[k], x, y);
          RegionEdge(left, ring, k, p);
          PartTurns(left, Prev(ring, k), ring[k], x, y, p);
        } else {
          EdgeTurns(left, c, i, c[z]);
          SameTurn(left, a, b, x, y, c[z], p);
        }
      }
    }
  }

  lemma CleanPass(ring: seq<Point>, a: Point, b: Point)
    requires NoEscape(ring, a, b)
    ensures forall i :: 0 <= i < |ClipEdge(ring, a, b)| ==> Inside(a, b, ClipEdge(ring, a, b)[i])
  {
    CleanPrefix(ring, a, b, |ring|);
  }

  // ----------------------------------------------------- a region is no larger than its hull

  /** A ring that is strictly above a point of its region over some line winds around nothing. */
  lemma {:induction false} OneSidedChain(left: bool, v: seq<Point>, p: Point, h: HalfPlane, k: nat)
    requires k < |v| && InRegion(left, v, p) && forall i :: 0 <= i < |v| ==> Height(h, v[i]) > Height(h, p)
    ensures Sided(left, Det(p, v[0], v[k])) >= 0.0
    ensures Det(p, v[0], v[k]) == 0.0 ==> Chain(p, v[..k + 1]) == 0.0
  {
    hide Det, Height, Times;
    if k == 0 {
      DetCycle(p, v[0], v[0]);
      DetCycle(v[0], p, v[0]);
      DetCycle(v[0], v[0], p);
    } else {
      OneSidedChain(left, v, p, h, k - 1);
      RegionEdge(left, v, k, p);
      DetCycle(v[k - 1], v[k], p);
      WeightedTurns(h, p, v[0], v[k - 1], v[k]);
      StepSign(left, Height(h, v[k]) - Height(h, p), Height(h, v[0]) - Height(h, p), Height(h, v[k - 1]) - Height(h, p),
               Det(p, v[0], v[k - 1]), Det(p, v[k - 1], v[k]), Det(p, v[0], v[k]));
      assert v[..k + 1] == v[..k] + [v[k]];
      ChainAppend(p, v[..k], v[k]);
    }
  }

  lemma StepSign(left: bool, f: real, g: real, e: real, x: real, y: real, z: real)
    requires f > 0.0 && g > 0.0 && e > 0.0 && Sided(left, x) >= 0.0 && Sided(left, y) >= 0.0
    requires Times(f, x) + Times(g, y) == Times(e, z)
    ensures Sided(left, z) >= 0.0
    ensures z == 0.0 ==> x == 0.0 && y == 0.0
  {
    if left {
      TimesSign(f, x);
      TimesSign(g, y);
    } else {
      TimesSign(f, -x);
      TimesSign(g, -y);
      TimesNegated(f, x);
      TimesNegated(g, y);
    }
    if z > 0.0 {
      PositiveTimes(e, z);
    } else if z < 0.0 {
      PositiveTimes(e, -z);
      TimesNegated(e, z);
    } else {
      TimesZero(e);
      BothZero(left, x, y, f, g);
    }
  }

  /** Over any line, a ring with area reaches as low as the points of its region: the region lies in every
      half-plane that holds the ring. */
  lemma RegionInHull(left: bool, v: seq<Point>, p: Point, h: HalfPlane)
    requires InRegion(left, v, p) && Twice(left, v) > 0.0
    ensures Dips(h, Height(h, p), v)
  {
    hide Det, Height, Chain;
    if v == [] {
      SingleRing(p);
    } else if !Dips(h, Height(h, p), v) {
      var n := |v| - 1;
      OneSidedChain(left, v, p, h, n);
      RegionEdge(left, v, 0, p);
      DetCycle(v[n], v[0], p);
      DetSwap(p, v[0], v[n]);
      DetCycle(v[n], v[0], p);
      DetCycle(p, v[n], v[0]);
      assert v[..n + 1] == v;
      RingTranslate(p, v);
    }
  }

  // ------------------------------------------------------------------- the intersection

  /** Pass i does not take the near-parallel escape. */
  ghost predicate CleanAt(subject: seq<Point>, clipper: seq<Point>, i: nat)
    requires i < |clipper|
  {
    NoEscape(ClipEdges(subject, clipper, i), clipper[i], EdgeEnd(clipper, i))
  }

  ghost predicate CleanRun(subject: seq<Point>, clipper: seq<Point>) {
    forall i: nat :: i < |clipper| ==> CleanAt(subject, clipper, i)
  }

  lemma {:induction false} PassesKeepPoint(left: bool, subject: seq<Point>, clipper: seq<Point>, k: nat, p: Point)
    requires k <= |clipper| && Convex(left, subject) && CleanRun(subject, clipper)
    requires Twice(left, ClipEdges(subject, clipper, k)) > 0.0
    requires InRegion(left, subject, p) && InsideAll(clipper, p)
    ensures InRegion(left, ClipEdges(subject, clipper, k), p)
  {
    hide Convex, Cross, InRegion, Ring, ClipEdge, NoEscape, InsideAll;
    if k > 0 {
      ClippingKeepsConvex(left, subject, clipper, k - 1, k);
      ClippingKeepsConvex(left, subject, clipper, k - 1, k - 1);
      PassesKeepPoint(left, subject, clipper, k - 1, p);
      InsideAllAt(clipper, p, k - 1);
      assert CleanAt(subject, clipper, k - 1);
      PassKeepsPoint(left, ClipEdges(subject, clipper, k - 1), clipper[k - 1], EdgeEnd(clipper, k - 1), p);
    }
  }

  /** The left of a->b. */
  function LeftOf(a: Point, b: Point): HalfPlane {
    var h := Tolerant(a, b);
    HalfPlane(h.u, h.v, h.c + NEAR_PARALLEL, false)
  }

  /** The inner side of edge a->b of a ring walked in the given direction. */
  function InnerSide(left: bool, a: Point, b: Point): HalfPlane {
    if left then LeftOf(a, b) else LeftOf(b, a)
  }

  lemma InnerSideHeight(left: bool, a: Point, b: Point, p: Point)
    ensures Height(InnerSide(left, a, b), p) == Sided(left, Det(a, b, p))
    ensures Holds(InnerSide(left, a, b), p) <==> Sided(left, Det(a, b, p)) >= 0.0
  {
    hide Cross, Det, Tolerant;
    TolerantHeight(a, b, p);
    TolerantHeight(b, a, p);
    CrossIsDet(a, b, p);
    CrossIsDet(b, a, p);
    DetSwap(a, b, p);
    DetCycle(p, b, a);
  }

  /** A half-plane that holds the whole result holds its region. */
  lemma ResultRegion(left: bool, v: seq<Point>, p: Point, c: bool, a: Point, b: Point)
    requires InRegion(left, v, p) && Twice(left, v) > 0.0 && AllHold(InnerSide(c, a, b), v)
    ensures Sided(c, Det(a, b, p)) >= 0.0
  {
    hide Det, Height, Ring, InnerSide, InRegion;
    var h := InnerSide(c, a, b);
    RegionInHull(left, v, p, h);
    var i :| 0 <= i < |v| && Height(h, v[i]) <= Height(h, p);
    assert Holds(h, v[i]);
    InnerSideHeight(c, a, b, v[i]);
    InnerSideHeight(c, a, b, p);
  }

  lemma ResultInSubject(left: bool, subject: seq<Point>, clipper: seq<Point>, k: nat, i: nat)
    requires k <= |clipper| && Convex(left, subject) && i < |subject|
    ensures AllHold(InnerSide(left, subject[i], EdgeEnd(subject, i)), ClipEdges(subject, clipper, k))
  {
    hide Convex, Det, InnerSide, Holds, ClipEdge;
    var h := InnerSide(left, subject[i], EdgeEnd(subject, i));
    forall j | 0 <= j < |subject|
      ensures Holds(h, subject[j])
    {
      EdgeTurns(left, subject, i, subject[j]);
      InnerSideHeight(left, subject[i], EdgeEnd(subject, i), subject[j]);
    }
    NoPasses(subject, clipper);
    EdgesHold(h, subject, clipper, 0, k);
  }

  lemma ResultInClipper(subject: seq<Point>, clipper: seq<Point>, i: nat)
    requires i < |clipper| && CleanRun(subject, clipper)
    ensures AllHold(InnerSide(true, clipper[i], EdgeEnd(clipper, i)), ClipEdges(subject, clipper, |clipper|))
  {
    hide Det, InnerSide, Holds, Cross, NoEscape, ClipEdge;
    var a, b := clipper[i], EdgeEnd(clipper, i);
    var ring := ClipEdges(subject, clipper, i);
    assert CleanAt(subject, clipper, i);
    CleanPass(ring, a, b);
    forall j | 0 <= j < |ClipEdge(ring, a, b)|
      ensures Holds(InnerSide(true, a, b), ClipEdge(ring, a, b)[j])
    {
      InnerSideHeight(true, a, b, ClipEdge(ring, a, b)[j]);
      CrossIsDet(a, b, ClipEdge(ring, a, b)[j]);
    }
    EdgesHold(InnerSide(true, a, b), subject, clipper, i + 1, |clipper|);
  }

  /** The clipped polygon is the intersection: for a convex subject, a run without escapes and a result with
      area, a point belongs to the result exactly when it belongs to the subject and lies inside every edge
      of the clipper. For a convex clipper the latter is the clipper itself, so the overlap is exact; for a
      concave one it is less than the clipper. */
  lemma ClippedIsIntersection(left: bool, a: seq<Point>, b: seq<Point>, p: Point)
    requires Convex(left, a) && CleanRun(a, Oriented(b)) && Twice(left, Clipped(a, b)) > 0.0
    ensures InRegion(left, Clipped(a, b), p) <==> InRegion(left, a, p) && InRegion(true, Oriented(b), p)
  {
    hide Convex, Cross, Det, Ring, ClipEdges, CleanRun, InnerSide;
    var ccw := Oriented(b);
    if InRegion(left, Clipped(a, b), p) {
      forall i: nat | i < |a|
        ensures OnSide(left, a, i, p)
      {
        ResultInSubject(left, a, ccw, |ccw|, i);
        ResultRegion(left, Clipped(a, b), p, left, a[i], EdgeEnd(a, i));
      }
      forall i: nat | i < |ccw|
        ensures OnSide(true, ccw, i, p)
      {
        ResultInClipper(a, ccw, i);
        ResultRegion(left, Clipped(a, b), p, true, ccw[i], EdgeEnd(ccw, i));
      }
    }
    if InRegion(left, a, p) && InRegion(true, ccw, p) {
      forall i: nat | i < |ccw|
        ensures Inside(ccw[i], EdgeEnd(ccw, i), p)
      {
        CrossIsDet(ccw[i], EdgeEnd(ccw, i), p);
        assert OnSide(true, ccw, i, p);
      }
      PassesKeepPoint(left, a, ccw, |ccw|, p);
    }
  }
}
