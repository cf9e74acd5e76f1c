/** What one clipping pass does to the signed area, escape included (agri/geometry.py). */
module ClipArea {
  import opened Geometry
  import opened Sums

  predicate OnLine(a: Point, b: Point, p: Point) {
    Cross(a, b, p) == 0.0
  }

  /** The edge counts as parallel to the clipping line, so its hit is its end point. */
  predicate Escapes(a: Point, b: Point, p: Point, q: Point) {
    Abs(Denominator(a, b, p, q)) < NEAR_PARALLEL
  }

  /** The ring edge leaves or enters the inner side. */
  predicate Crosses(a: Point, b: Point, p: Point, q: Point) {
    Inside(a, b, p) != Inside(a, b, q)
  }

  // -------------------------------------------------- the emitted ring, edge by edge

  /** The shoelace contribution, seen from o, of the part of ring edge p-q that edge a->b keeps. */
  function KeptPart(o: Point, a: Point, b: Point, p: Point, q: Point): real {
    if Inside(a, b, p) then
      Det(o, p, if Inside(a, b, q) then q else Intersect(a, b, p, q))
    else if Inside(a, b, q) then Det(o, Intersect(a, b, p, q), q)
    else 0.0
  }

  function Final(v: seq<Point>, otherwise: Point): Point {
    if v == [] then otherwise else v[|v| - 1]
  }

  /** The point emitted last before ring edge k, cyclically. */
  function LastHit(ring: seq<Point>, a: Point, b: Point, k: nat): Point
    requires k <= |ring| && ring != []
  {
    Final(ClipPrefix(ring, a, b, k), Final(ClipEdge(ring, a, b), ring[|ring| - 1]))
  }

  /** The chord with which a pass closes an excursion to the outer side: from the point emitted last to
      the hit of the entering edge. */
  function Chord(o: Point, ring: seq<Point>, a: Point, b: Point, k: nat): real
    requires k < |ring|
  {
    var p, q := Prev(ring, k), ring[k];
    if !Inside(a, b, p) && Inside(a, b, q) then Det(o, LastHit(ring, a, b, k), Intersect(a, b, p, q)) else 0.0
  }

  function KeptParts(o: Point, ring: seq<Point>, a: Point, b: Point, k: nat): real
    requires k <= |ring|
  {
    if k == 0 then 0.0
    else KeptParts(o, ring, a, b, k - 1) + KeptPart(o, a, b, Prev(ring, k - 1), ring[k - 1])
  }

  function Chords(o: Point, ring: seq<Point>, a: Point, b: Point, k: nat): real
    requires k <= |ring|
  {
    if k == 0 then 0.0 else Chords(o, ring, a, b, k - 1) + Chord(o, ring, a, b, k - 1)
  }

  /** The shoelace sum of a chain entered from a given point. */
  function Walk(o: Point, from: Point, v: seq<Point>): real {
    if v == [] then 0.0 else Det(o, from, v[0]) + Chain(o, v)
  }

  lemma ChainAppend(o: Point, v: seq<Point>, x: Point)
    requires v != []
    ensures Chain(o, v + [x]) == Chain(o, v) + Det(o, v[|v| - 1], x)
  {
    hide Det;
    assert (v + [x])[..|v|] == v;
  }

  lemma WalkAppend(o: Point, from: Point, v: seq<Point>, x: Point)
    ensures Walk(o, from, v + [x]) == Walk(o, from, v) + Det(o, Final(v, from), x)
  {
    hide Det;
    if v == [] {
      assert v + [x] == [x];
    } else {
      ChainAppend(o, v, x);
    }
  }

  /** The four cases of the inner loop, spelled out. */
  lemma EmitCases(a: Point, b: Point, p: Point, q: Point)
    ensures Emit(a, b, p, q) ==
            if Inside(a, b, q) then (if Inside(a, b, p) then [q] else [Intersect(a, b, p, q), q])
            else if Inside(a, b, p) then [Intersect(a, b, p, q)]
            else []
  {
    hide Inside, Intersect;
    assert [] + [q] == [q];
  }

  /** One step of the inner loop walks the kept part of its edge, after the chord when it enters. */
  lemma StepWalks(o: Point, from: Point, v: seq<Point>, a: Point, b: Point, p: Point, q: Point)
    requires Inside(a, b, p) ==> Final(v, from) == p
    ensures Walk(o, from, v + Emit(a, b, p, q)) == Walk(o, from, v) + KeptPart(o, a, b, p, q)
      + (if !Inside(a, b, p) && Inside(a, b, q) then Det(o, Final(v, from), Intersect(a, b, p, q)) else 0.0)
    ensures Inside(a, b, q) ==> Final(v + Emit(a, b, p, q), from) == q
  {
    hide Inside, Intersect, Det, Emit, Walk;
    EmitCases(a, b, p, q);
    var x := Intersect(a, b, p, q);
    if Inside(a, b, p) {
      WalkAppend(o, from, v, if Inside(a, b, q) then q else x);
    } else if Inside(a, b, q) {
      WalkAppend(o, from, v, x);
      WalkAppend(o, from, v + [x], q);
      assert v + [x, q] == v + [x] + [q];
    } else {
      assert v + [] == v;
    }
  }

  /** What the pass starts from: its own last point, so that an inner last vertex is where it begins. */
  lemma StartsFromLast(ring: seq<Point>, a: Point, b: Point)
    requires ring != []
    ensures var last := ring[|ring| - 1];
            Inside(a, b, last) ==> Final(ClipEdge(ring, a, b), last) == last
  {
    hide Inside, Intersect, Emit;
    var n := |ring| - 1;
    EmitCases(a, b, Prev(ring, n), ring[n]);
  }

  lemma LastHitFinal(ring: seq<Point>, a: Point, b: Point, k: nat)
    requires k <= |ring| && ring != []
    ensures LastHit(ring, a, b, k) == Final(ClipPrefix(ring, a, b, k), LastHit(ring, a, b, 0))
  {
    hide Emit;
    assert ClipPrefix(ring, a, b, 0) == [];
  }

  /** The first k steps emitted exactly the kept parts and the chords, and a pass that is inside stands
      at its vertex. */
  ghost predicate WalkedTo(o: Point, ring: seq<Point>, a: Point, b: Point, k: nat)
    requires k <= |ring| && ring != []
  {
    var p := if k == 0 then ring[|ring| - 1] else ring[k - 1];
    && Walk(o, LastHit(ring, a, b, 0), ClipPrefix(ring, a, b, k)) == KeptParts(o, ring, a, b, k) + Chords(o, ring, a, b, k)
    && (Inside(a, b, p) ==> LastHit(ring, a, b, k) == p)
  }

  lemma WalkStarts(o: Point, ring: seq<Point>, a: Point, b: Point)
    requires ring != []
    ensures WalkedTo(o, ring, a, b, 0)
  {
    hide Inside, Emit;
    StartsFromLast(ring, a, b);
  }

  lemma WalkGoesOn(o: Point, ring: seq<Point>, a: Point, b: Point, k: nat)
    requires k < |ring| && WalkedTo(o, ring, a, b, k)
    ensures WalkedTo(o, ring, a, b, k + 1)
  {
    hide Inside, Intersect, Det, Emit, KeptPart, Walk, ClipEdge, LastHit, Final;
    LastHitFinal(ring, a, b, k);
    LastHitFinal(ring, a, b, k + 1);
    StepWalks(o, LastHit(ring, a, b, 0), ClipPrefix(ring, a, b, k), a, b, Prev(ring, k), ring[k]);
  }

  lemma {:induction false} PrefixWalks(o: Point, ring: seq<Point>, a: Point, b: Point, k: nat)
    requires k <= |ring| && ring != []
    ensures WalkedTo(o, ring, a, b, k)
  {
    hide WalkedTo;
    if k == 0 {
      WalkStarts(o, ring, a, b);
    } else {
      PrefixWalks(o, ring, a, b, k - 1);
      WalkGoesOn(o, ring, a, b, k - 1);
    }
  }

  /** For every ring, line and origin: the clipped ring's shoelace sum is that of the kept parts of its
      edges and of the chords that close its excursions. */
  lemma ClipEdgeRing(o: Point, ring: seq<Point>, a: Point, b: Point)
    ensures Ring(o, ClipEdge(ring, a, b)) == KeptParts(o, ring, a, b, |ring|) + Chords(o, ring, a, b, |ring|)
  {
    hide Det, KeptPart, Emit;
    if ring != [] {
      PrefixWalks(o, ring, a, b, |ring|);
    }
  }

  // ----------------------------------------------------- the two sides of one edge

  /** Points of one line contribute nothing to a shoelace sum seen from that line. */
  lemma LineContributesNothing(o: Point, a: Point, b: Point, p: Point, q: Point)
    requires a != b && OnLine(a, b, o) && OnLine(a, b, p) && OnLine(a, b, q)
    ensures Det(o, p, q) == 0.0
  {
    var dx, dy := b.x - a.x, b.y - a.y;
    var px, py, qx, qy := p.x - o.x, p.y - o.y, q.x - o.x, q.y - o.y;
    assert dx * py == dx * (p.y - a.y) - dx * (o.y - a.y) == dy * px;
    assert dx * qy == dx * (q.y - a.y) - dx * (o.y - a.y) == dy * qx;
    var det := px * qy - qx * py;
    assert dx * det == px * (dx * qy) - qx * (dx * py) == px * (dy * qx) - qx * (dy * px) == 0.0;
    assert dy * det == qy * (dy * px) - py * (dy * qx) == qy * (dx * py) - py * (dx * qy) == 0.0;
    assert dx != 0.0 || dy != 0.0;
  }

  lemma DetAlong(o: Point, p: Point, q: Point, t: real)
    ensures Det(o, p, Lerp(p, q, t)) == t * Det(o, p, q)
    ensures Det(o, Lerp(p, q, t), q) == (1.0 - t) * Det(o, p, q)
  {
  }

  lemma DetSame(o: Point, p: Point)
    ensures Det(o, p, p) == 0.0
  {
  }

  lemma ReversedEdge(a: Point, b: Point, p: Point, q: Point)
    ensures Cross(b, a, p) == -Cross(a, b, p)
    ensures Denominator(b, a, p, q) == -Denominator(a, b, p, q)
    ensures Escapes(b, a, p, q) <==> Escapes(a, b, p, q)
    ensures !Escapes(a, b, p, q) ==> Intersect(b, a, p, q) == Intersect(a, b, p, q)
  {
    assert Cross(b, a, p) == -Cross(a, b, p);
    var den := Denominator(a, b, p, q);
    assert Denominator(b, a, p, q) == -den;
    if Abs(den) >= NEAR_PARALLEL {
      IntersectIsLerp(a, b, p, q);
      IntersectIsLerp(b, a, p, q);
      assert -Cross(b, a, p) / Denominator(b, a, p, q) == -Cross(a, b, p) / den;
    }
  }

  /** What both sides keep of an edge that leaves the line and escapes; nothing otherwise. */
  function EdgeSliver(a: Point, b: Point, p: Point, q: Point): real {
    if OnLine(a, b, p) && !OnLine(a, b, q) && Escapes(a, b, p, q) then Det(a, p, q) else 0.0
  }

  lemma OriginOnLine(a: Point, b: Point)
    ensures OnLine(a, b, a)
  {
  }

  /** An edge strictly on one side, or along the line, is kept once in all. */
  lemma UncrossedShares(a: Point, b: Point, p: Point, q: Point)
    requires a != b && Inside(a, b, p) == Inside(a, b, q) && Inside(b, a, p) == Inside(b, a, q)
    ensures KeptPart(a, a, b, p, q) + KeptPart(a, b, a, p, q) == Det(a, p, q) + EdgeSliver(a, b, p, q)
  {
    hide Cross, Intersect, Escapes, Det;
    ReversedEdge(a, b, p, q);
    ReversedEdge(a, b, q, p);
    OriginOnLine(a, b);
    if Inside(a, b, p) && Inside(b, a, p) {
      LineContributesNothing(a, a, b, p, q);
    }
  }

  /** Away from the escape the two passes share the edge at its point on the line. */
  lemma CleanShares(a: Point, b: Point, p: Point, q: Point)
    requires a != b && (Crosses(a, b, p, q) || Crosses(b, a, p, q)) && !Escapes(a, b, p, q)
    ensures KeptPart(a, a, b, p, q) + KeptPart(a, b, a, p, q) == Det(a, p, q) + EdgeSliver(a, b, p, q)
  {
    hide Cross, Intersect, Denominator, Det;
    ReversedEdge(a, b, p, q);
    ReversedEdge(a, b, q, p);
    var cp, cq, den := Cross(a, b, p), Cross(a, b, q), Denominator(a, b, p, q);
    DenominatorIsCrossDifference(a, b, p, q);
    IntersectIsLerp(a, b, p, q);
    var t := -cp / den;
    DetAlong(a, p, q, t);
    if cp == 0.0 {
      assert t == 0.0;
    } else if cq == 0.0 {
      assert t * den == -cp && den == -cp;
      assert (t - 1.0) * den == 0.0;
      assert t == 1.0;
    }
  }

  /** An escaping edge goes whole to the side it comes from, or to both when it comes from the line. */
  lemma EscapedShares(a: Point, b: Point, p: Point, q: Point)
    requires a != b && (Crosses(a, b, p, q) || Crosses(b, a, p, q)) && Escapes(a, b, p, q)
    ensures KeptPart(a, a, b, p, q) + KeptPart(a, b, a, p, q) == Det(a, p, q) + EdgeSliver(a, b, p, q)
  {
    hide Cross, Intersect, Denominator, Det;
    ReversedEdge(a, b, p, q);
    ReversedEdge(a, b, q, p);
    EscapeReturnsEnd(a, b, p, q);
    EscapeReturnsEnd(b, a, p, q);
    DetSame(a, q);
  }

  /** The two passes share out every ring edge, up to the sliver both keep. */
  lemma EdgeShares(a: Point, b: Point, p: Point, q: Point)
    requires a != b
    ensures KeptPart(a, a, b, p, q) + KeptPart(a, b, a, p, q) == Det(a, p, q) + EdgeSliver(a, b, p, q)
  {
    hide Inside, Escapes, KeptPart, EdgeSliver, Det;
    if !Crosses(a, b, p, q) && !Crosses(b, a, p, q) {
      UncrossedShares(a, b, p, q);
    } else if Escapes(a, b, p, q) {
      EscapedShares(a, b, p, q);
    } else {
      CleanShares(a, b, p, q);
    }
  }

  // --------------------------------------------------------------- the exact deficit

  /** What ring edge k adds to the two parts beyond the whole: the sliver both keep, and the chords
      that close the two excursions it ends. */
  function Sliver(ring: seq<Point>, a: Point, b: Point, k: nat): real
    requires k < |ring|
  {
    EdgeSliver(a, b, Prev(ring, k), ring[k]) + Chord(a, ring, a, b, k) + Chord(a, ring, b, a, k)
  }

  function Slivers(ring: seq<Point>, a: Point, b: Point, k: nat): real
    requires k <= |ring|
  {
    if k == 0 then 0.0 else Slivers(ring, a, b, k - 1) + Sliver(ring, a, b, k - 1)
  }

  lemma {:induction false} PartsAddUp(ring: seq<Point>, a: Point, b: Point, k: nat)
    requires a != b && 0 < k <= |ring|
    ensures KeptParts(a, ring, a, b, k) + Chords(a, ring, a, b, k) + KeptParts(a, ring, b, a, k) + Chords(a, ring, b, a, k)
         == Chain(a, ring[..k]) + Det(a, ring[|ring| - 1], ring[0]) + Slivers(ring, a, b, k)
  {
    hide Det, KeptPart, EdgeSliver, Chord;
    EdgeShares(a, b, Prev(ring, k - 1), ring[k - 1]);
    if k == 1 {
      assert KeptParts(a, ring, a, b, 0) == KeptParts(a, ring, b, a, 0) == Slivers(ring, a, b, 0) == 0.0;
      assert Chords(a, ring, a, b, 0) == Chords(a, ring, b, a, 0) == 0.0;
    } else {
      PartsAddUp(ring, a, b, k - 1);
      assert ring[..k] == ring[..k - 1] + [ring[k - 1]];
      ChainAppend(a, ring[..k - 1], ring[k - 1]);
    }
  }

  lemma NothingToClip(a: Point, b: Point)
    ensures ClipEdge([], a, b) == []
  {
  }

  /** The exact account, for every ring: clipping by an edge and by its reverse gives two parts whose
      signed areas exceed the whole by half the slivers, so the area is conserved exactly when those
      cancel. */
  lemma ClippingSplitsArea(ring: seq<Point>, a: Point, b: Point)
    requires a != b
    ensures SignedArea(ClipEdge(ring, a, b)) + SignedArea(ClipEdge(ring, b, a))
         == SignedArea(ring) + Slivers(ring, a, b, |ring|) / 2.0
    ensures SignedArea(ClipEdge(ring, a, b)) + SignedArea(ClipEdge(ring, b, a)) == SignedArea(ring)
       <==> Slivers(ring, a, b, |ring|) == 0.0
  {
    hide Det, ClipEdge, KeptParts, Chords, Sliver;
    ClipEdgeRing(a, ring, a, b);
    ClipEdgeRing(a, ring, b, a);
    RingTranslate(a, ring);
    RingTranslate(a, ClipEdge(ring, a, b));
    RingTranslate(a, ClipEdge(ring, b, a));
    if ring == [] {
      NothingToClip(a, b);
      NothingToClip(b, a);
    } else {
      PartsAddUp(ring, a, b, |ring|);
      assert ring[..|ring|] == ring;
    }
  }

  // ------------------------------------------------------------ where slivers come from

  /** Both crossings of an edge, seen from either side, avoid the escape. */
  predicate CleanEdge(a: Point, b: Point, p: Point, q: Point) {
    (!Crosses(a, b, p, q) && !Crosses(b, a, p, q)) || !Escapes(a, b, p, q)
  }

  ghost predicate NoEscape(ring: seq<Point>, a: Point, b: Point) {
    forall i :: 0 <= i < |ring| ==> CleanEdge(a, b, Prev(ring, i), ring[i])
  }

  /** The last point emitted while outside is the hit of an edge that left. */
  lemma {:induction false} EmittedByExit(ring: seq<Point>, a: Point, b: Point, k: nat) returns (j: nat)
    requires 0 < k <= |ring| && ClipPrefix(ring, a, b, k) != [] && !Inside(a, b, ring[k - 1])
    ensures j < k && Inside(a, b, Prev(ring, j)) && !Inside(a, b, ring[j])
    ensures Final(ClipPrefix(ring, a, b, k), ring[0]) == Intersect(a, b, Prev(ring, j), ring[j])
  {
    hide Inside, Intersect, Emit;
    EmitCases(a, b, Prev(ring, k - 1), ring[k - 1]);
    assert ClipPrefix(ring, a, b, k) == ClipPrefix(ring, a, b, k - 1) + Emit(a, b, Prev(ring, k - 1), ring[k - 1]);
    hide ClipPrefix;
    if Inside(a, b, Prev(ring, k - 1)) {
      j := k - 1;
    } else {
      j := EmittedByExit(ring, a, b, k - 1);
    }
  }

  /** Before an empty prefix lies only the outer side. */
  lemma {:induction false} NothingEmitted(ring: seq<Point>, a: Point, b: Point, k: nat)
    requires 0 < k <= |ring| && ClipPrefix(ring, a, b, k) == []
    ensures !Inside(a, b, ring[|ring| - 1])
  {
    hide Inside, Intersect, Emit;
    EmitCases(a, b, Prev(ring, k - 1), ring[k - 1]);
    if k > 1 {
      NothingEmitted(ring, a, b, k - 1);
    }
  }

  lemma {:induction false} PrefixGrows(ring: seq<Point>, a: Point, b: Point, k: nat, n: nat)
    requires k <= n <= |ring| && ClipPrefix(ring, a, b, k) != []
    ensures ClipPrefix(ring, a, b, n) != []
  {
    hide Emit;
    if k < n {
      PrefixGrows(ring, a, b, k, n - 1);
    }
  }

  /** The chord of an entering edge starts at the hit of the edge that left before it. */
  lemma ChordStart(ring: seq<Point>, a: Point, b: Point, k: nat) returns (j: nat)
    requires k < |ring| && !Inside(a, b, Prev(ring, k)) && Inside(a, b, ring[k])
    ensures j < |ring| && Inside(a, b, Prev(ring, j)) && !Inside(a, b, ring[j])
    ensures LastHit(ring, a, b, k) == Intersect(a, b, Prev(ring, j), ring[j])
  {
    hide Inside, Intersect, Emit;
    if ClipPrefix(ring, a, b, k) != [] {
      j := EmittedByExit(ring, a, b, k);
    } else {
      if k > 0 {
        NothingEmitted(ring, a, b, k);
      }
      EmitCases(a, b, Prev(ring, k), ring[k]);
      PrefixGrows(ring, a, b, k + 1, |ring|);
      j := EmittedByExit(ring, a, b, |ring|);
    }
  }

  /** A hit on an edge that does not escape lies on the line. */
  lemma CleanHit(a: Point, b: Point, p: Point, q: Point)
    requires Crosses(a, b, p, q) && !Escapes(a, b, p, q)
    ensures OnLine(a, b, Intersect(a, b, p, q))
  {
    var _ := IntersectOnLine(a, b, p, q);
  }

  /** Every hit is within the tolerance of the line. */
  lemma HitNearLine(a: Point, b: Point, p: Point, q: Point)
    requires Crosses(a, b, p, q)
    ensures Abs(Cross(a, b, Intersect(a, b, p, q))) < NEAR_PARALLEL
    ensures !Escapes(a, b, p, q) ==> OnLine(a, b, Intersect(a, b, p, q))
  {
    if Escapes(a, b, p, q) {
      EscapeReturnsEnd(a, b, p, q);
      DenominatorIsCrossDifference(a, b, p, q);
    } else {
      CleanHit(a, b, p, q);
    }
  }

  // ------------------------------------------------------------ how large slivers are

  function Times(x: real, y: real): real {
    x * y
  }

  function LengthSquared(a: Point, b: Point): real {
    Times(b.x - a.x, b.x - a.x) + Times(b.y - a.y, b.y - a.y)
  }

  lemma LengthPositive(a: Point, b: Point)
    requires a != b
    ensures LengthSquared(a, b) > 0.0
  {
    SquareSign(b.x - a.x);
    SquareSign(b.y - a.y);
    assert a == Point(a.x, a.y) && b == Point(b.x, b.y);
  }

  lemma SquareSign(u: real)
    ensures Times(u, u) >= 0.0
    ensures u != 0.0 ==> Times(u, u) > 0.0
  {
    if u > 0.0 {
      PositiveTimes(u, u);
    } else if u < 0.0 {
      PositiveTimes(-u, -u);
      SquareOfNegative(u);
    } else {
      assert Times(u, u) == Times(0.0, 0.0);
    }
  }

  lemma PositiveTimes(u: real, v: real)
    requires u > 0.0 && v > 0.0
    ensures Times(u, v) > 0.0
  {
  }

  lemma SquareOfNegative(u: real)
    ensures Times(-u, -u) == Times(u, u)
  {
  }

  function Dot(a: Point, b: Point, p: Point): real {
    (b.x - a.x) * (p.x - a.x) + (b.y - a.y) * (p.y - a.y)
  }

  /** The parameter of p's foot on the line a-b: 0 at a, 1 at b. */
  function Param(a: Point, b: Point, p: Point): real
    requires a != b
  {
    LengthPositive(a, b);
    Dot(a, b, p) / LengthSquared(a, b)
  }

  lemma FrameIdentity(u: real, v: real, px: real, py: real, qx: real, qy: real)
    ensures Times(u * px + v * py, u * qy - v * qx) - Times(u * qx + v * qy, u * py - v * px)
         == Times(Times(u, u) + Times(v, v), px * qy - qx * py)
  {
    assert (u * px + v * py) * (u * qy - v * qx) == u * u * (px * qy) - u * v * (px * qx) + u * v * (py * qy) - v * v * (py * qx);
    assert (u * qx + v * qy) * (u * py - v * px) == u * u * (qx * py) - u * v * (qx * px) + u * v * (qy * py) - v * v * (qy * px);
  }

  lemma DivideTwo(x: real, g: real, y: real, h: real, n: real, d: real)
    requires n > 0.0 && Times(x, g) - Times(y, h) == Times(n, d)
    ensures Times(x / n, g) - Times(y / n, h) == d
  {
    assert (x / n) * g == (x * g) / n && (y / n) * h == (y * h) / n;
    assert (n * d) / n == d;
  }

  /** Dot and cross products in terms of the line's direction (u, v) and the offset (x, y) from a. */
  lemma InOffsets(a: Point, b: Point, p: Point, u: real, v: real, x: real, y: real)
    requires u == b.x - a.x && v == b.y - a.y && x == p.x - a.x && y == p.y - a.y
    ensures Dot(a, b, p) == u * x + v * y && Cross(a, b, p) == u * y - v * x
    ensures LengthSquared(a, b) == Times(u, u) + Times(v, v)
  {
  }

  lemma DetInOffsets(a: Point, p: Point, q: Point, px: real, py: real, qx: real, qy: real)
    requires px == p.x - a.x && py == p.y - a.y && qx == q.x - a.x && qy == q.y - a.y
    ensures Det(a, p, q) == px * qy - qx * py
  {
  }

  /** In the line's own frame: parameter of one point times height of the other. */
  lemma DetInFrame(a: Point, b: Point, p: Point, q: Point)
    requires a != b
    ensures Det(a, p, q) == Times(Param(a, b, p), Cross(a, b, q)) - Times(Param(a, b, q), Cross(a, b, p))
  {
    hide Times, Dot, Cross, Det, LengthSquared;
    LengthPositive(a, b);
    var u, v, px, py, qx, qy := b.x - a.x, b.y - a.y, p.x - a.x, p.y - a.y, q.x - a.x, q.y - a.y;
    InOffsets(a, b, p, u, v, px, py);
    InOffsets(a, b, q, u, v, qx, qy);
    DetInOffsets(a, p, q, px, py, qx, qy);
    FrameIdentity(u, v, px, py, qx, qy);
    DivideTwo(Dot(a, b, p), Cross(a, b, q), Dot(a, b, q), Cross(a, b, p), LengthSquared(a, b), Det(a, p, q));
  }

  /** For each end off the line, the parameter of the other end. */
  function EndsReach(a: Point, b: Point, p: Point, q: Point): real
    requires a != b
  {
    (if OnLine(a, b, q) then 0.0 else Abs(Param(a, b, p))) + (if OnLine(a, b, p) then 0.0 else Abs(Param(a, b, q)))
  }

  lemma ProductBound(x: real, g: real)
    requires Abs(g) <= NEAR_PARALLEL
    ensures Abs(Times(x, g)) <= NEAR_PARALLEL * (if g == 0.0 then 0.0 else Abs(x))
  {
    AbsTimes(x, g);
    AtMostTimes(Abs(x), Abs(g));
  }

  lemma AbsTimes(x: real, g: real)
    ensures Abs(Times(x, g)) == Times(Abs(x), Abs(g))
    ensures g == 0.0 ==> Times(x, g) == 0.0
  {
  }

  lemma AtMostTimes(x: real, g: real)
    requires x >= 0.0 && g <= NEAR_PARALLEL
    ensures Times(x, g) <= NEAR_PARALLEL * x
  {
  }

  lemma AddBounds(x: real, y: real, z: real, l: real, m: real, n: real)
    requires Abs(x) <= NEAR_PARALLEL * l && Abs(y) <= NEAR_PARALLEL * m && Abs(z) <= NEAR_PARALLEL * n
    ensures Abs(x + y + z) <= NEAR_PARALLEL * (l + m + n)
  {
  }

  /** Two points within the tolerance of the line span at most the tolerance times their reach. */
  lemma NearLineDet(a: Point, b: Point, p: Point, q: Point)
    requires a != b && Abs(Cross(a, b, p)) < NEAR_PARALLEL && Abs(Cross(a, b, q)) < NEAR_PARALLEL
    ensures Abs(Det(a, p, q)) <= NEAR_PARALLEL * EndsReach(a, b, p, q)
  {
    hide Cross, Param, Det, Times;
    DetInFrame(a, b, p, q);
    ProductBound(Param(a, b, p), Cross(a, b, q));
    ProductBound(Param(a, b, q), Cross(a, b, p));
    var x, y := Times(Param(a, b, p), Cross(a, b, q)), Times(Param(a, b, q), Cross(a, b, p));
    AddBounds(x, -y, 0.0, if OnLine(a, b, q) then 0.0 else Abs(Param(a, b, p)), if OnLine(a, b, p) then 0.0 else Abs(Param(a, b, q)), 0.0);
  }

  /** The reach of the sliver that an edge leaves: the parameter of its start on the line. */
  function EdgeReach(a: Point, b: Point, p: Point, q: Point): real
    requires a != b
  {
    if OnLine(a, b, p) && !OnLine(a, b, q) && Escapes(a, b, p, q) then EndsReach(a, b, p, q) else 0.0
  }

  /** The reach of the chord that ring edge k ends in the pass against c->d, measured along a-b. */
  function ChordReach(a: Point, b: Point, ring: seq<Point>, c: Point, d: Point, k: nat): real
    requires a != b && k < |ring|
  {
    var p, q := Prev(ring, k), ring[k];
    if !Inside(c, d, p) && Inside(c, d, q) then EndsReach(a, b, LastHit(ring, c, d, k), Intersect(c, d, p, q)) else 0.0
  }

  function Reach(ring: seq<Point>, a: Point, b: Point, k: nat): real
    requires a != b && k < |ring|
  {
    EdgeReach(a, b, Prev(ring, k), ring[k]) + ChordReach(a, b, ring, a, b, k) + ChordReach(a, b, ring, b, a, k)
  }

  function Reaches(ring: seq<Point>, a: Point, b: Point, k: nat): real
    requires a != b && k <= |ring|
  {
    if k == 0 then 0.0 else Reaches(ring, a, b, k - 1) + Reach(ring, a, b, k - 1)
  }

  lemma EdgeSliverBound(a: Point, b: Point, p: Point, q: Point)
    requires a != b
    ensures Abs(EdgeSliver(a, b, p, q)) <= NEAR_PARALLEL * EdgeReach(a, b, p, q)
  {
    DenominatorIsCrossDifference(a, b, p, q);
    hide Cross, Denominator, Det, EndsReach;
    if OnLine(a, b, p) && !OnLine(a, b, q) && Escapes(a, b, p, q) {
      NearLineDet(a, b, p, q);
    }
  }

  lemma SameHeight(a: Point, b: Point, p: Point)
    ensures Abs(Cross(b, a, p)) == Abs(Cross(a, b, p))
  {
    ReversedEdge(a, b, p, p);
  }

  lemma ChordBound(a: Point, b: Point, ring: seq<Point>, c: Point, d: Point, k: nat)
    requires a != b && k < |ring| && ((c == a && d == b) || (c == b && d == a))
    ensures Abs(Chord(a, ring, c, d, k)) <= NEAR_PARALLEL * ChordReach(a, b, ring, c, d, k)
  {
    hide Cross, Inside, Intersect, Det, LastHit, EndsReach;
    var p, q := Prev(ring, k), ring[k];
    if !Inside(c, d, p) && Inside(c, d, q) {
      var j := ChordStart(ring, c, d, k);
      HitNearLine(c, d, Prev(ring, j), ring[j]);
      HitNearLine(c, d, p, q);
      SameHeight(a, b, LastHit(ring, c, d, k));
      SameHeight(a, b, Intersect(c, d, p, q));
      NearLineDet(a, b, LastHit(ring, c, d, k), Intersect(c, d, p, q));
    }
  }

  lemma {:induction false} SliversBound(ring: seq<Point>, a: Point, b: Point, k: nat)
    requires a != b && k <= |ring|
    ensures Abs(Slivers(ring, a, b, k)) <= NEAR_PARALLEL * Reaches(ring, a, b, k)
  {
    hide EdgeSliver, Chord, EdgeReach, ChordReach;
    if k > 0 {
      SliversBound(ring, a, b, k - 1);
      var p, q := Prev(ring, k - 1), ring[k - 1];
      EdgeSliverBound(a, b, p, q);
      ChordBound(a, b, ring, a, b, k - 1);
      ChordBound(a, b, ring, b, a, k - 1);
      AddBounds(EdgeSliver(a, b, p, q), Chord(a, ring, a, b, k - 1), Chord(a, ring, b, a, k - 1),
                EdgeReach(a, b, p, q), ChordReach(a, b, ring, a, b, k - 1), ChordReach(a, b, ring, b, a, k - 1));
      AddBounds(Slivers(ring, a, b, k - 1), Sliver(ring, a, b, k - 1), 0.0, Reaches(ring, a, b, k - 1), Reach(ring, a, b, k - 1), 0.0);
    }
  }

  /** The area two passes gain or lose is at most half the tolerance times the reach of the escaped hits. */
  lemma DeficitBound(ring: seq<Point>, a: Point, b: Point)
    requires a != b
    ensures Abs(SignedArea(ClipEdge(ring, a, b)) + SignedArea(ClipEdge(ring, b, a)) - SignedArea(ring))
         <= NEAR_PARALLEL * Reaches(ring, a, b, |ring|) / 2.0
  {
    hide SignedArea, ClipEdge, Slivers, Reaches;
    ClippingSplitsArea(ring, a, b);
    SliversBound(ring, a, b, |ring|);
  }

  // ----------------------------------------------------------------- no escape, no sliver

  lemma CleanReversed(a: Point, b: Point, p: Point, q: Point)
    requires CleanEdge(a, b, p, q)
    ensures CleanEdge(b, a, p, q)
  {
    ReversedEdge(a, b, p, q);
  }

  lemma CleanChordReach(a: Point, b: Point, ring: seq<Point>, c: Point, d: Point, k: nat)
    requires a != b && k < |ring| && NoEscape(ring, c, d) && ((c == a && d == b) || (c == b && d == a))
    ensures ChordReach(a, b, ring, c, d, k) == 0.0
  {
    hide Cross, Inside, Intersect, Escapes, LastHit, Param;
    var p, q := Prev(ring, k), ring[k];
    if !Inside(c, d, p) && Inside(c, d, q) {
      var j := ChordStart(ring, c, d, k);
      HitNearLine(c, d, Prev(ring, j), ring[j]);
      HitNearLine(c, d, p, q);
      SameHeight(a, b, LastHit(ring, c, d, k));
      SameHeight(a, b, Intersect(c, d, p, q));
    }
  }

  lemma {:induction false} CleanReaches(ring: seq<Point>, a: Point, b: Point, k: nat)
    requires a != b && k <= |ring| && NoEscape(ring, a, b) && NoEscape(ring, b, a)
    ensures Reaches(ring, a, b, k) == 0.0
  {
    hide ChordReach, EndsReach, NoEscape;
    if k > 0 {
      CleanReaches(ring, a, b, k - 1);
      CleanChordReach(a, b, ring, a, b, k - 1);
      CleanChordReach(a, b, ring, b, a, k - 1);
      CleanEdgeReach(ring, a, b, k - 1);
    }
  }

  lemma CleanEdgeReach(ring: seq<Point>, a: Point, b: Point, k: nat)
    requires a != b && k < |ring| && NoEscape(ring, a, b)
    ensures EdgeReach(a, b, Prev(ring, k), ring[k]) == 0.0
  {
    var p, q := Prev(ring, k), ring[k];
    ReversedEdge(a, b, p, q);
    ReversedEdge(a, b, q, p);
    hide EndsReach, Denominator;
    assert CleanEdge(a, b, p, q);
  }

  /** Without an escape the two parts share the area exactly. */
  lemma NoEscapeSplits(ring: seq<Point>, a: Point, b: Point)
    requires a != b && NoEscape(ring, a, b)
    ensures SignedArea(ClipEdge(ring, a, b)) + SignedArea(ClipEdge(ring, b, a)) == SignedArea(ring)
  {
    hide SignedArea, ClipEdge, Reaches, CleanEdge;
    forall i | 0 <= i < |ring|
      ensures CleanEdge(b, a, Prev(ring, i), ring[i])
    {
      CleanReversed(a, b, Prev(ring, i), ring[i]);
    }
    CleanReaches(ring, a, b, |ring|);
    DeficitBound(ring, a, b);
  }
}
