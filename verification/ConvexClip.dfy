/** Clipping a convex polygon: it stays convex, and loses area exactly when something of it is outside
    (agri/geometry.py). */
module ConvexClip {
  import opened ClipArea
  import opened Geometry
  import opened Wrappers

  /** Turns to the left counted positive, or turns to the right. */
  function Sided(left: bool, x: real): real {
    if left then x else -x
  }

  /** No ordered triple of vertices turns the other way; repeated and collinear vertices are allowed. */
  ghost predicate Convex(left: bool, v: seq<Point>) {
    forall i, j, k :: 0 <= i < j < k < |v| ==> Sided(left, Det(v[i], v[j], v[k])) >= 0.0
  }

  /** A convex polygon with an inside, in either direction. */
  ghost predicate ConvexPolygon(v: seq<Point>) {
    SignedArea(v) != 0.0 && Convex(SignedArea(v) > 0.0, v)
  }

  /** Twice the area, counted positive for the given direction. */
  function Twice(left: bool, v: seq<Point>): real {
    Sided(left, Ring(ORIGIN, v))
  }

  lemma DetCycle(p: Point, q: Point, r: Point)
    ensures Det(p, q, r) == Det(q, r, p) == Det(r, p, q)
    ensures Det(p, q, p) == Det(p, p, q) == Det(p, q, q) == 0.0
  {
  }

  // ------------------------------------------------------------- rotating and dropping

  lemma {:induction false} ChainJoin(o: Point, s: seq<Point>, t: seq<Point>)
    requires s != [] && t != []
    ensures Chain(o, s + t) == Chain(o, s) + Det(o, s[|s| - 1], t[0]) + Chain(o, t)
  {
    hide Det;
    var n := |t| - 1;
    if n == 0 {
      ChainAppend(o, s, t[0]);
      assert t == [t[0]];
    } else {
      ChainJoin(o, s, t[..n]);
      ChainAppend(o, s + t[..n], t[n]);
      ChainAppend(o, t[..n], t[n]);
      assert s + t == (s + t[..n]) + [t[n]] && t == t[..n] + [t[n]];
    }
  }

  lemma RotatedRing(s: seq<Point>, t: seq<Point>)
    ensures Ring(ORIGIN, t + s) == Ring(ORIGIN, s + t)
  {
    hide Det, Chain;
    if s == [] || t == [] {
      assert t + s == s + t;
    } else {
      ChainJoin(ORIGIN, s, t);
      ChainJoin(ORIGIN, t, s);
    }
  }

  lemma RotatedConvex(left: bool, s: seq<Point>, t: seq<Point>)
    requires Convex(left, s + t)
    ensures Convex(left, t + s)
  {
    hide Det;
    var v, w := s + t, t + s;
    forall i, j, k | 0 <= i < j < k < |w|
      ensures Sided(left, Det(w[i], w[j], w[k])) >= 0.0
    {
      DetCycle(w[i], w[j], w[k]);
      var m := |t|;
      if i >= m {
        assert Sided(left, Det(v[i - m], v[j - m], v[k - m])) >= 0.0;
      } else if j >= m {
        assert Sided(left, Det(v[j - m], v[k - m], v[i + |s|])) >= 0.0;
      } else if k >= m {
        assert Sided(left, Det(v[k - m], v[i + |s|], v[j + |s|])) >= 0.0;
      } else {
        assert Sided(left, Det(v[i + |s|], v[j + |s|], v[k + |s|])) >= 0.0;
      }
    }
  }

  /** The triangle a last vertex adds. */
  lemma LastTriangle(s: seq<Point>, u: Point)
    requires s != []
    ensures Ring(ORIGIN, s + [u]) == Ring(ORIGIN, s) + Det(s[|s| - 1], u, s[0])
  {
    hide Chain;
    ChainAppend(ORIGIN, s, u);
    var p, q := s[|s| - 1], s[0];
    DetTranslate(p, u, q);
  }

  lemma DropLastVertex(left: bool, s: seq<Point>, u: Point)
    requires Convex(left, s + [u])
    ensures Convex(left, s) && Twice(left, s) <= Twice(left, s + [u])
  {
    hide Det, Ring;
    var v := s + [u];
    forall i, j, k | 0 <= i < j < k < |s|
      ensures Sided(left, Det(s[i], s[j], s[k])) >= 0.0
    {
      assert Sided(left, Det(v[i], v[j], v[k])) >= 0.0;
    }
    if s == [] {
      SingleRing(u);
    } else {
      var n := |s| - 1;
      LastTriangle(s, u);
      DetCycle(s[0], s[n], u);
      DetCycle(s[0], u, s[0]);
      assert n > 0 ==> Sided(left, Det(v[0], v[n], v[n + 1])) >= 0.0;
    }
  }

  lemma SingleRing(u: Point)
    ensures Ring(ORIGIN, []) == Ring(ORIGIN, [u]) == 0.0
    ensures [] + [u] == [u]
  {
  }

  /** Dropping any vertex keeps a ring convex and never adds area. */
  lemma DropVertex(left: bool, pre: seq<Point>, u: Point, post: seq<Point>)
    requires Convex(left, pre + [u] + post)
    ensures Convex(left, pre + post) && Twice(left, pre + post) <= Twice(left, pre + [u] + post)
  {
    hide Convex, Ring;
    RotatedConvex(left, pre + [u], post);
    RotatedRing(pre + [u], post);
    assert post + (pre + [u]) == (post + pre) + [u];
    DropLastVertex(left, post + pre, u);
    RotatedConvex(left, post, pre);
    RotatedRing(post, pre);
  }

  lemma {:induction false} ConvexAreaNonNegative(left: bool, v: seq<Point>)
    requires Convex(left, v)
    ensures Twice(left, v) >= 0.0
  {
    hide Ring;
    if v == [] {
      SingleRing(ORIGIN);
    } else {
      var n := |v| - 1;
      assert v == v[..n] + [v[n]];
      DropLastVertex(left, v[..n], v[n]);
      ConvexAreaNonNegative(left, v[..n]);
    }
  }

  // --------------------------------------------------------------- points on an edge

  lemma DetOfLerp(u: Point, w: Point, t: real, y: Point, z: Point)
    ensures Det(Lerp(u, w, t), y, z) == (1.0 - t) * Det(u, y, z) + t * Det(w, y, z)
  {
    var ux, uy, wx, wy := u.x - y.x, u.y - y.y, w.x - y.x, w.y - y.y;
    var zx, zy := z.x - y.x, z.y - y.y;
    DetInOffsets(y, z, u, zx, zy, ux, uy);
    DetInOffsets(y, z, w, zx, zy, wx, wy);
    DetInOffsets(y, z, Lerp(u, w, t), zx, zy, ux + t * (wx - ux), uy + t * (wy - uy));
    DetCycle(u, y, z);
    DetCycle(w, y, z);
    DetCycle(Lerp(u, w, t), y, z);
    Blend(zx, zy, ux, uy, wx, wy, t);
  }

  lemma Blend(zx: real, zy: real, ux: real, uy: real, wx: real, wy: real, t: real)
    ensures zx * (uy + t * (wy - uy)) - (ux + t * (wx - ux)) * zy
         == (1.0 - t) * (zx * uy - ux * zy) + t * (zx * wy - wx * zy)
  {
    BlendProduct(zx, uy, wy, t);
    BlendProduct(zy, ux, wx, t);
    BlendDifference(zx * uy, ux * zy, zx * wy, wx * zy, t);
  }

  lemma BlendProduct(z: real, u: real, w: real, t: real)
    ensures z * (u + t * (w - u)) == z * u + t * (z * w) - t * (z * u)
  {
    assert t * (w - u) == t * w - t * u;
    assert z * (t * w) == t * (z * w) && z * (t * u) == t * (z * u);
  }

  lemma BlendDifference(p: real, q: real, r: real, s: real, t: real)
    ensures (1.0 - t) * (p - q) + t * (r - s) == p + t * r - t * p - (q + t * s - t * q)
  {
  }

  lemma BlendSign(left: bool, x: real, y: real, t: real)
    requires 0.0 <= t <= 1.0 && Sided(left, x) >= 0.0 && Sided(left, y) >= 0.0
    ensures Sided(left, (1.0 - t) * x + t * y) >= 0.0
  {
    var s := 1.0 - t;
    if left {
      assert s * x >= 0.0 && t * y >= 0.0;
    } else {
      assert s * x <= 0.0 && t * y <= 0.0;
    }
  }

  /** A point between two neighbours turns as they do. */
  lemma BetweenTurns(left: bool, u: Point, w: Point, t: real, y: Point, z: Point)
    requires 0.0 <= t <= 1.0 && Sided(left, Det(u, y, z)) >= 0.0 && Sided(left, Det(w, y, z)) >= 0.0
    ensures Sided(left, Det(Lerp(u, w, t), y, z)) >= 0.0
  {
    hide Det;
    DetOfLerp(u, w, t, y, z);
    BlendSign(left, Det(u, y, z), Det(w, y, z), t);
  }

  /** The triples of a ring that involve a point between its last vertex and its first. */
  lemma AppendBetween(left: bool, v: seq<Point>, t: real)
    requires |v| >= 2 && 0.0 <= t <= 1.0 && Convex(left, v)
    ensures var x := Lerp(v[|v| - 1], v[0], t);
            Convex(left, v + [x]) && Ring(ORIGIN, v + [x]) == Ring(ORIGIN, v)
  {
    hide Det, Ring;
    var n := |v|;
    var u, w := v[n - 1], v[0];
    var x := Lerp(u, w, t);
    forall i, j | 0 <= i < j < n
      ensures Sided(left, Det(v[i], v[j], x)) >= 0.0
    {
      DetCycle(x, v[i], v[j]);
      DetCycle(v[i], v[j], u);
      DetCycle(w, v[i], v[j]);
      assert j < n - 1 ==> Sided(left, Det(v[i], v[j], v[n - 1])) >= 0.0;
      assert i > 0 ==> Sided(left, Det(v[0], v[i], v[j])) >= 0.0;
      BetweenTurns(left, u, w, t, v[i], v[j]);
    }
    LastTriangle(v, x);
    StraightAt(u, w, t);
  }

  lemma StraightAt(u: Point, w: Point, t: real)
    ensures Det(u, Lerp(u, w, t), w) == 0.0
  {
    hide Det, Lerp;
    var x := Lerp(u, w, t);
    DetOfLerp(u, w, t, w, u);
    DetCycle(u, w, u);
    DetCycle(w, w, u);
    DetCycle(u, x, w);
    ZeroBlend(t, Det(u, w, u), Det(w, w, u));
  }

  lemma ZeroBlend(t: real, x: real, y: real)
    requires x == 0.0 && y == 0.0
    ensures (1.0 - t) * x + t * y == 0.0
  {
  }

  /** Inserting a point between two neighbours changes neither convexity nor area. */
  lemma InsertBetween(left: bool, pre: seq<Point>, u: Point, w: Point, post: seq<Point>, t: real)
    requires 0.0 <= t <= 1.0 && Convex(left, pre + [u] + ([w] + post))
    ensures var x := Lerp(u, w, t);
            && Convex(left, pre + [u] + [x] + ([w] + post))
            && Ring(ORIGIN, pre + [u] + [x] + ([w] + post)) == Ring(ORIGIN, pre + [u] + ([w] + post))
  {
    hide Convex, Ring, Lerp;
    var x := Lerp(u, w, t);
    var head, tail := pre + [u], [w] + post;
    RotatedConvex(left, head, tail);
    RotatedRing(head, tail);
    AppendBetween(left, tail + head, t);
    assert (tail + head) + [x] == tail + (head + [x]);
    RotatedConvex(left, tail, head + [x]);
    RotatedRing(tail, head + [x]);
  }

  // --------------------------------------------------------------- one clipping pass

  lemma NoEdgeNoLoss(ring: seq<Point>, a: Point)
    ensures ClipEdge(ring, a, a) == ring
  {
    hide Emit, Intersect;
    EdgeIdentity(ring, a, a);
  }

  /** What an edge emits lies on the edge: a hit is a point of it, at its end when it escapes. */
  lemma HitOnEdge(a: Point, b: Point, p: Point, q: Point) returns (t: real)
    requires Crosses(a, b, p, q)
    ensures 0.0 <= t <= 1.0 && Intersect(a, b, p, q) == Lerp(p, q, t)
  {
    hide Intersect, Denominator, Cross;
    if Escapes(a, b, p, q) {
      EscapeReturnsEnd(a, b, p, q);
      LerpEnd(p, q);
      t := 1.0;
    } else {
      t := IntersectOnLine(a, b, p, q);
    }
  }

  lemma LerpEnd(p: Point, q: Point)
    ensures Lerp(p, q, 1.0) == q
  {
  }

  /** The ring while edge k is being clipped: what was emitted, then the vertices still to come. */
  function Pending(ring: seq<Point>, a: Point, b: Point, k: nat): seq<Point>
    requires k <= |ring| && ring != []
  {
    ClipPrefix(ring, a, b, k) + [if k == 0 then ring[|ring| - 1] else ring[k - 1]] + ring[k..]
  }

  /** ... and with what edge k emits already inserted. */
  function Refined(ring: seq<Point>, a: Point, b: Point, k: nat): seq<Point>
    requires k < |ring|
  {
    ClipPrefix(ring, a, b, k) + [Prev(ring, k)] + (Emit(a, b, Prev(ring, k), ring[k]) + ring[k..])
  }

  lemma RefineStep(left: bool, ring: seq<Point>, a: Point, b: Point, k: nat)
    requires k < |ring| && Convex(left, Pending(ring, a, b, k))
    ensures Convex(left, Refined(ring, a, b, k))
    ensures Ring(ORIGIN, Refined(ring, a, b, k)) == Ring(ORIGIN, Pending(ring, a, b, k))
    ensures Pending(ring, a, b, k + 1) == ClipPrefix(ring, a, b, k) + (Emit(a, b, Prev(ring, k), ring[k]) + ring[k..])
  {
    hide Convex, Ring, Emit, Inside, Intersect, Lerp, ClipPrefix;
    var c, u, w, post := ClipPrefix(ring, a, b, k), Prev(ring, k), ring[k], ring[k + 1..];
    var e := Emit(a, b, u, w);
    EmitCases(a, b, u, w);
    LerpEnd(u, w);
    assert ring[k..] == [w] + post;
    assert Pending(ring, a, b, k) == c + [u] + ([w] + post);
    PrefixStep(ring, a, b, k);
    assert Pending(ring, a, b, k + 1) == c + (e + ring[k..]);
    if Crosses(a, b, u, w) {
      var t := HitOnEdge(a, b, u, w);
      var x := Intersect(a, b, u, w);
      InsertBetween(left, c, u, w, post, t);
      if Inside(a, b, w) {
        assert c + [u] + [x] + ([w] + post) == (c + [u]) + [x] + ([w] + post);
        LerpEnd(x, w);
        InsertBetween(left, c + [u], x, w, post, 1.0);
        assert Refined(ring, a, b, k) == (c + [u]) + [x] + [w] + ([w] + post);
      } else {
        assert Refined(ring, a, b, k) == c + [u] + [x] + ([w] + post);
      }
    } else if Inside(a, b, w) {
      InsertBetween(left, c, u, w, post, 1.0);
      assert Refined(ring, a, b, k) == c + [u] + [w] + ([w] + post);
    } else {
      assert Refined(ring, a, b, k) == Pending(ring, a, b, k);
    }
  }

  lemma PrefixStep(ring: seq<Point>, a: Point, b: Point, k: nat)
    requires k < |ring|
    ensures ClipPrefix(ring, a, b, k + 1) == ClipPrefix(ring, a, b, k) + Emit(a, b, Prev(ring, k), ring[k])
    ensures ClipPrefix(ring, a, b, 0) == []
  {
  }

  lemma PendingStep(left: bool, ring: seq<Point>, a: Point, b: Point, k: nat)
    requires k < |ring| && Convex(left, Pending(ring, a, b, k))
    ensures Convex(left, Pending(ring, a, b, k + 1))
    ensures Twice(left, Pending(ring, a, b, k + 1)) <= Twice(left, Pending(ring, a, b, k))
  {
    hide Convex, Ring, Emit, ClipPrefix, Pending;
    RefineStep(left, ring, a, b, k);
    DropVertex(left, ClipPrefix(ring, a, b, k), Prev(ring, k), Emit(a, b, Prev(ring, k), ring[k]) + ring[k..]);
  }

  /** Before the pass: the ring, entered from its last vertex. */
  lemma PendingStarts(left: bool, ring: seq<Point>, a: Point, b: Point)
    requires ring != [] && Convex(left, ring)
    ensures Convex(left, Pending(ring, a, b, 0)) && Ring(ORIGIN, Pending(ring, a, b, 0)) == Ring(ORIGIN, ring)
  {
    hide Convex, Ring, Emit, Lerp;
    var n := |ring| - 1;
    var x := ring[n];
    PrefixStep(ring, a, b, 0);
    assert Pending(ring, a, b, 0) == [x] + ring;
    RotatedRing([x], ring);
    if n == 0 {
      TwiceTheSame(left, x);
      assert ring == [x];
    } else {
      LerpStart(x, ring[0]);
      AppendBetween(left, ring, 0.0);
      RotatedConvex(left, ring, [x]);
    }
  }

  lemma LerpStart(p: Point, q: Point)
    ensures Lerp(p, q, 0.0) == p
  {
  }

  lemma TwiceTheSame(left: bool, x: Point)
    ensures Convex(left, [x] + [x]) && Ring(ORIGIN, [x] + [x]) == Ring(ORIGIN, [x])
  {
    hide Chain;
    LastTriangle([x], x);
  }

  lemma {:induction false} PendingConvex(left: bool, ring: seq<Point>, a: Point, b: Point, k: nat)
    requires k <= |ring| && ring != [] && Convex(left, ring)
    ensures Convex(left, Pending(ring, a, b, k)) && Twice(left, Pending(ring, a, b, k)) <= Twice(left, ring)
  {
    hide Convex, Ring, Pending;
    if k == 0 {
      PendingStarts(left, ring, a, b);
    } else {
      PendingConvex(left, ring, a, b, k - 1);
      PendingStep(left, ring, a, b, k - 1);
    }
  }

  lemma PendingEnds(ring: seq<Point>, a: Point, b: Point)
    requires ring != []
    ensures Pending(ring, a, b, |ring|) == ClipEdge(ring, a, b) + [ring[|ring| - 1]]
  {
    hide Emit, ClipPrefix;
    assert ring[|ring|..] == [];
  }

  /** A pass, escapes included, leaves a convex ring convex and never adds area. */
  lemma PassKeepsConvex(left: bool, ring: seq<Point>, a: Point, b: Point)
    requires Convex(left, ring)
    ensures Convex(left, ClipEdge(ring, a, b)) && Twice(left, ClipEdge(ring, a, b)) <= Twice(left, ring)
  {
    hide Convex, Ring, Pending, ClipEdge;
    if ring == [] {
      NothingToClip(a, b);
    } else {
      PendingConvex(left, ring, a, b, |ring|);
      PendingEnds(ring, a, b);
      DropLastVertex(left, ClipEdge(ring, a, b), ring[|ring| - 1]);
    }
  }

  /** Over all passes: the result of clipping a convex ring is convex, and no larger after more passes. */
  lemma {:induction false} ClippingKeepsConvex(left: bool, subject: seq<Point>, clipper: seq<Point>, i: nat, k: nat)
    requires i <= k <= |clipper| && Convex(left, subject)
    ensures Convex(left, ClipEdges(subject, clipper, k))
    ensures Twice(left, ClipEdges(subject, clipper, k)) <= Twice(left, ClipEdges(subject, clipper, i))
    decreases k
  {
    hide Convex, Ring, ClipEdge;
    if i < k {
      ClippingKeepsConvex(left, subject, clipper, i, k - 1);
      PassKeepsConvex(left, ClipEdges(subject, clipper, k - 1), clipper[k - 1], EdgeEnd(clipper, k - 1));
    } else if k > 0 {
      ClippingKeepsConvex(left, subject, clipper, k - 1, k - 1);
      PassKeepsConvex(left, ClipEdges(subject, clipper, k - 1), clipper[k - 1], EdgeEnd(clipper, k - 1));
    }
  }

  // ------------------------------------------------------- what no area lost means

  /** Some vertex is at most this high over the line of a half-plane. */
  ghost predicate Dips(h: HalfPlane, c: real, v: seq<Point>) {
    exists i :: 0 <= i < |v| && Height(h, v[i]) <= c
  }

  lemma ThreeVectors(f: real, g: real, ax: real, az: real, bx: real, bz: real, xx: real, xz: real)
    ensures (f * bx + g * bz) * (ax * xz - xx * az) + (f * ax + g * az) * (xx * bz - bx * xz)
         == (f * xx + g * xz) * (ax * bz - bx * az)
  {
    assert (f * bx + g * bz) * (ax * xz - xx * az) == f * bx * (ax * xz) - f * bx * (xx * az) + g * bz * (ax * xz) - g * bz * (xx * az);
    assert (f * ax + g * az) * (xx * bz - bx * xz) == f * ax * (xx * bz) - f * ax * (bx * xz) + g * az * (xx * bz) - g * az * (bx * xz);
    assert (f * xx + g * xz) * (ax * bz - bx * az) == f * xx * (ax * bz) - f * xx * (bx * az) + g * xz * (ax * bz) - g * xz * (bx * az);
  }

  lemma HeightInOffsets(h: HalfPlane, u: Point, p: Point, x: real, y: real)
    requires x == p.x - u.x && y == p.y - u.y
    ensures Height(h, p) - Height(h, u) == h.u * x + h.v * y
  {
    assert h.u * p.x - h.u * u.x == h.u * x && h.v * p.y - h.v * u.y == h.v * y;
  }

  /** Three points seen from u: turns weighted by heights. */
  lemma WeightedTurns(h: HalfPlane, u: Point, a: Point, x: Point, b: Point)
    ensures Times(Height(h, b) - Height(h, u), Det(u, a, x)) + Times(Height(h, a) - Height(h, u), Det(u, x, b))
         == Times(Height(h, x) - Height(h, u), Det(u, a, b))
  {
    hide Height, Det;
    var ax, az, bx, bz, xx, xz := a.x - u.x, a.y - u.y, b.x - u.x, b.y - u.y, x.x - u.x, x.y - u.y;
    HeightInOffsets(h, u, a, ax, az);
    HeightInOffsets(h, u, b, bx, bz);
    HeightInOffsets(h, u, x, xx, xz);
    DetInOffsets(u, a, x, ax, az, xx, xz);
    DetInOffsets(u, x, b, xx, xz, bx, bz);
    DetInOffsets(u, a, b, ax, az, bx, bz);
    ThreeVectors(h.u, h.v, ax, az, bx, bz, xx, xz);
  }

  lemma BothZero(left: bool, x: real, y: real, f: real, g: real)
    requires f > 0.0 && g > 0.0 && Sided(left, x) >= 0.0 && Sided(left, y) >= 0.0
    requires Times(f, x) + Times(g, y) == 0.0
    ensures x == 0.0 && y == 0.0
  {
    if left {
      TimesSign(f, x);
      TimesSign(g, y);
    } else {
      TimesSign(f, -x);
      TimesSign(g, -y);
      TimesNegated(f, x);
      TimesNegated(g, y);
    }
  }

  lemma TimesSign(f: real, x: real)
    requires f > 0.0 && x >= 0.0
    ensures Times(f, x) >= 0.0 && (Times(f, x) == 0.0 <==> x == 0.0)
  {
    if x > 0.0 {
      PositiveTimes(f, x);
    }
  }

  lemma TimesNegated(f: real, x: real)
    ensures Times(f, -x) == -Times(f, x)
  {
  }

  /** If all of a ring is higher than a vertex that adds no area to it, the ring has no area itself: it
      lies on one line through that vertex. */
  lemma FlatFan(left: bool, s: seq<Point>, u: Point, h: HalfPlane, i: nat)
    requires Convex(left, s + [u]) && s != [] && i < |s| && Det(s[|s| - 1], u, s[0]) == 0.0
    requires forall j :: 0 <= j < |s| ==> Height(h, s[j]) > Height(h, u)
    ensures Det(u, s[0], s[i]) == 0.0
  {
    hide Det, Height, Times;
    var n := |s| - 1;
    var v := s + [u];
    DetCycle(s[0], s[i], u);
    DetCycle(s[i], s[n], u);
    DetCycle(s[n], u, s[0]);
    assert 0 < i ==> Sided(left, Det(v[0], v[i], v[n + 1])) >= 0.0;
    assert i < n ==> Sided(left, Det(v[i], v[n], v[n + 1])) >= 0.0;
    DetCycle(u, s[0], s[0]);
    DetCycle(u, s[n], s[n]);
    DetCycle(s[n], s[n], u);
    DetCycle(s[0], s[0], u);
    WeightedTurns(h, u, s[0], s[i], s[n]);
    TimesZero(Height(h, s[i]) - Height(h, u));
    BothZero(left, Det(u, s[0], s[i]), Det(u, s[i], s[n]), Height(h, s[n]) - Height(h, u), Height(h, s[0]) - Height(h, u));
  }

  lemma TimesZero(f: real)
    ensures Times(f, 0.0) == 0.0
  {
  }

  lemma FlatPair(s0: Point, p: Point, q: Point, u: Point, h: HalfPlane)
    requires Det(u, s0, p) == 0.0 && Det(u, s0, q) == 0.0 && Height(h, s0) > Height(h, u)
    ensures Det(u, p, q) == 0.0
  {
    hide Det, Height, Times;
    WeightedTurns(h, u, s0, p, q);
    TimesZero(Height(h, q) - Height(h, u));
    TimesZero(Height(h, p) - Height(h, u));
    var f, x := Height(h, s0) - Height(h, u), Det(u, p, q);
    if x > 0.0 {
      PositiveTimes(f, x);
    } else if x < 0.0 {
      PositiveTimes(f, -x);
      TimesNegated(f, x);
    }
  }

  lemma {:induction false} FlatChain(s: seq<Point>, u: Point, h: HalfPlane)
    requires s != [] && Height(h, s[0]) > Height(h, u)
    requires forall i :: 0 <= i < |s| ==> Det(u, s[0], s[i]) == 0.0
    ensures Chain(u, s) == 0.0
  {
    hide Det, Height;
    if |s| > 1 {
      var n := |s| - 1;
      FlatChain(s[..n], u, h);
      FlatPair(s[0], s[n - 1], s[n], u, h);
    }
  }

  /** A vertex whose dropping costs no area is not the lowest over any line. */
  lemma DropKeepsDips(left: bool, s: seq<Point>, u: Point, h: HalfPlane)
    requires Convex(left, s + [u]) && Twice(left, s) == Twice(left, s + [u]) > 0.0
    ensures Dips(h, Height(h, u), s)
  {
    hide Det, Height, Chain;
    if s == [] {
      SingleRing(u);
    } else if !Dips(h, Height(h, u), s) {
      hide Convex;
      LastTriangle(s, u);
      forall i | 0 <= i < |s|
        ensures Det(u, s[0], s[i]) == 0.0
      {
        FlatFan(left, s, u, h, i);
      }
      FlatChain(s, u, h);
      RingTranslate(u, s);
      FlatPair(s[0], s[|s| - 1], s[0], u, h);
    }
  }

  lemma DropVertexKeepsDips(left: bool, pre: seq<Point>, u: Point, post: seq<Point>, h: HalfPlane, c: real)
    requires Convex(left, pre + [u] + post) && Twice(left, pre + post) == Twice(left, pre + [u] + post) > 0.0
    requires Dips(h, c, pre + [u] + post)
    ensures Dips(h, c, pre + post)
  {
    hide Convex, Ring, Height;
    var v := pre + [u] + post;
    var i :| 0 <= i < |v| && Height(h, v[i]) <= c;
    if i != |pre| {
      var j := if i < |pre| then i else i - 1;
      assert (pre + post)[j] == v[i];
    } else {
      RotatedConvex(left, pre + [u], post);
      RotatedRing(pre + [u], post);
      assert post + (pre + [u]) == (post + pre) + [u];
      RotatedRing(pre, post);
      DropKeepsDips(left, post + pre, u, h);
      var k :| 0 <= k < |post + pre| && Height(h, (post + pre)[k]) <= Height(h, u);
      var j := if k < |post| then |pre| + k else k - |post|;
      assert (pre + post)[j] == (post + pre)[k];
    }
  }

  lemma {:induction false} PendingAboveEnd(left: bool, ring: seq<Point>, a: Point, b: Point, k: nat)
    requires k <= |ring| && ring != [] && Convex(left, ring)
    ensures Twice(left, ClipEdge(ring, a, b)) <= Twice(left, Pending(ring, a, b, k))
    decreases |ring| - k
  {
    hide Convex, Ring, Pending, ClipEdge;
    PendingConvex(left, ring, a, b, k);
    if k == |ring| {
      PendingEnds(ring, a, b);
      DropLastVertex(left, ClipEdge(ring, a, b), ring[|ring| - 1]);
    } else {
      PendingAboveEnd(left, ring, a, b, k + 1);
      PendingStep(left, ring, a, b, k);
    }
  }

  lemma {:induction false} PendingKeepsDips(left: bool, ring: seq<Point>, a: Point, b: Point, k: nat, h: HalfPlane, c: real)
    requires k <= |ring| && ring != [] && Convex(left, ring) && Dips(h, c, ring)
    requires Twice(left, ClipEdge(ring, a, b)) == Twice(left, ring) > 0.0
    ensures Dips(h, c, Pending(ring, a, b, k)) && Twice(left, Pending(ring, a, b, k)) == Twice(left, ring)
  {
    hide Convex, Ring, Emit, Height, ClipEdge, ClipPrefix;
    PendingAboveEnd(left, ring, a, b, k);
    PendingConvex(left, ring, a, b, k);
    if k == 0 {
      PrefixStep(ring, a, b, 0);
      var i :| 0 <= i < |ring| && Height(h, ring[i]) <= c;
      assert Pending(ring, a, b, 0)[i + 1] == ring[i];
    } else {
      PendingKeepsDips(left, ring, a, b, k - 1, h, c);
      PendingConvex(left, ring, a, b, k - 1);
      RefineStep(left, ring, a, b, k - 1);
      RefinedDips(ring, a, b, k - 1, h, c);
      hide Dips, Pending;
      DropVertexKeepsDips(left, ClipPrefix(ring, a, b, k - 1), Prev(ring, k - 1),
                          Emit(a, b, Prev(ring, k - 1), ring[k - 1]) + ring[k - 1..], h, c);
    }
  }

  lemma RefinedDips(ring: seq<Point>, a: Point, b: Point, k: nat, h: HalfPlane, c: real)
    requires k < |ring| && Dips(h, c, Pending(ring, a, b, k))
    ensures Dips(h, c, Refined(ring, a, b, k))
  {
    hide Emit, Height, ClipPrefix;
    var v, w, e := Pending(ring, a, b, k), Refined(ring, a, b, k), Emit(a, b, Prev(ring, k), ring[k]);
    var i :| 0 <= i < |v| && Height(h, v[i]) <= c;
    var m := |ClipPrefix(ring, a, b, k)|;
    var j := if i <= m then i else i + |e|;
    assert w[j] == v[i];
  }

  /** A pass that costs a convex ring no area leaves it reaching as low over every line. */
  lemma PassKeepsDips(left: bool, ring: seq<Point>, a: Point, b: Point, h: HalfPlane, c: real)
    requires Convex(left, ring) && Dips(h, c, ring)
    requires Twice(left, ClipEdge(ring, a, b)) == Twice(left, ring) > 0.0
    ensures Dips(h, c, ClipEdge(ring, a, b))
  {
    hide Convex, Ring, Emit, Height, ClipEdge, Pending;
    var n := |ring|;
    PendingKeepsDips(left, ring, a, b, n, h, c);
    PendingConvex(left, ring, a, b, n);
    PendingEnds(ring, a, b);
    var s, u := ClipEdge(ring, a, b), ring[n - 1];
    assert s + [u] + [] == s + [u] && s + [] == s;
    DropVertexKeepsDips(left, s, u, [], h, c);
  }

  // ------------------------------------------------------------- the overlap, exactly

  /** All of a ring lies on the inner side of one clipper edge. */
  ghost predicate InsideEdge(ring: seq<Point>, clipper: seq<Point>, i: nat)
    requires i < |clipper|
  {
    forall j :: 0 <= j < |ring| ==> Inside(clipper[i], EdgeEnd(clipper, i), ring[j])
  }

  /** Edges that hold the whole ring change nothing. */
  lemma {:induction false} IdlePasses(subject: seq<Point>, clipper: seq<Point>, i: nat, k: nat)
    requires i <= k <= |clipper|
    requires forall e :: i <= e < k ==> InsideEdge(ClipEdges(subject, clipper, i), clipper, e)
    ensures ClipEdges(subject, clipper, k) == ClipEdges(subject, clipper, i)
    decreases k
  {
    hide Inside, Emit;
    if i < k {
      IdlePasses(subject, clipper, i, k - 1);
      assert InsideEdge(ClipEdges(subject, clipper, i), clipper, k - 1);
      EdgeIdentity(ClipEdges(subject, clipper, i), clipper[k - 1], EdgeEnd(clipper, k - 1));
    }
  }

  lemma SmallRingArea(ring: seq<Point>)
    requires |ring| < 3
    ensures SignedArea(ring) == 0.0
  {
    if |ring| == 2 {
      assert ring[..1] == [ring[0]];
      assert Chain(ORIGIN, ring) == Det(ORIGIN, ring[0], ring[1]);
    }
  }

  lemma NoPasses(subject: seq<Point>, clipper: seq<Point>)
    ensures ClipEdges(subject, clipper, 0) == subject
  {
  }

  lemma OverlapOfConvex(left: bool, a: seq<Point>, b: seq<Point>)
    requires Convex(left, a)
    ensures OverlapArea(a, b) == Twice(left, Clipped(a, b)) / 2.0 && Area(a) == Twice(left, a) / 2.0
    ensures Twice(left, Clipped(a, b)) <= Twice(left, a)
  {
    hide Convex, Ring, ClipEdges;
    ClippingKeepsConvex(left, a, Oriented(b), 0, |b|);
    NoPasses(a, Oriented(b));
    ConvexAreaNonNegative(left, a);
    ConvexAreaNonNegative(left, Clipped(a, b));
    if |Clipped(a, b)| < 3 {
      SmallRingArea(Clipped(a, b));
    }
  }

  /** Clipping never over-reports a convex polygon. */
  lemma ConvexNeverOverReports(left: bool, a: seq<Point>, b: seq<Point>)
    requires Convex(left, a)
    ensures OverlapArea(a, b) <= Area(a)
  {
    hide Convex, Ring, Clipped;
    OverlapOfConvex(left, a, b);
  }

  lemma TolerantHeight(a: Point, b: Point, p: Point)
    ensures Height(Tolerant(a, b), p) == Cross(a, b, p) + NEAR_PARALLEL
  {
    LineForm(a.y - b.y, b.x - a.x, a.x, a.y, p.x, p.y);
    Negated(b.y - a.y, p.x - a.x);
  }

  /** A pass that lifts a convex ring off some depth costs it area. */
  lemma PassLoses(left: bool, ring: seq<Point>, a: Point, b: Point, h: HalfPlane, c: real)
    requires Convex(left, ring) && Twice(left, ring) > 0.0 && Dips(h, c, ring)
    requires forall i :: 0 <= i < |ClipEdge(ring, a, b)| ==> Height(h, ClipEdge(ring, a, b)[i]) > c
    ensures Twice(left, ClipEdge(ring, a, b)) < Twice(left, ring)
  {
    hide Convex, Ring, Height, ClipEdge;
    PassKeepsConvex(left, ring, a, b);
    if Twice(left, ClipEdge(ring, a, b)) == Twice(left, ring) {
      PassKeepsDips(left, ring, a, b, h, c);
    }
  }

  lemma {:induction false} PassesKeepDips(left: bool, a: seq<Point>, clipper: seq<Point>, k: nat, h: HalfPlane, c: real)
    requires k <= |clipper| && Convex(left, a) && Dips(h, c, a)
    requires Twice(left, ClipEdges(a, clipper, k)) == Twice(left, a) > 0.0
    ensures Dips(h, c, ClipEdges(a, clipper, k))
  {
    hide Convex, Ring, Height, Dips, ClipEdge;
    if k > 0 {
      assert ClipEdges(a, clipper, 0) == a;
      ClippingKeepsConvex(left, a, clipper, 0, k - 1);
      ClippingKeepsConvex(left, a, clipper, k - 1, k);
      PassesKeepDips(left, a, clipper, k - 1, h, c);
      PassKeepsDips(left, ClipEdges(a, clipper, k - 1), clipper[k - 1], EdgeEnd(clipper, k - 1), h, c);
    }
  }

  /** Without any assumption on escapes: a convex polygon reported as wholly overlapped is inside every edge
      of the clipper up to the tolerance. */
  lemma WholeOverlapIsNearlyInside(a: seq<Point>, b: seq<Point>, i: nat, v: Point)
    requires ConvexPolygon(a) && i < |b| && v in a
    requires OverlapArea(a, b) == Area(a)
    ensures Cross(Oriented(b)[i], EdgeEnd(Oriented(b), i), v) > -NEAR_PARALLEL
  {
    hide Convex, Ring, Cross, Height, ClipEdge, Tolerant, Holds;
    var left, ccw := SignedArea(a) > 0.0, Oriented(b);
    var p, q := ccw[i], EdgeEnd(ccw, i);
    var h := Tolerant(p, q);
    TolerantHeight(p, q, v);
    if Cross(p, q, v) <= -NEAR_PARALLEL {
      OverlapOfConvex(left, a, b);
      ClippingKeepsConvex(left, a, ccw, 0, i);
      ClippingKeepsConvex(left, a, ccw, i, i + 1);
      ClippingKeepsConvex(left, a, ccw, i + 1, |ccw|);
      assert ClipEdges(a, ccw, 0) == a;
      PassesKeepDips(left, a, ccw, i, h, 0.0);
      var ring := ClipEdges(a, ccw, i);
      PassIsTolerant(ring, p, q);
      PassLoses(left, ring, p, q, h, 0.0);
    }
  }

  lemma PassIsTolerant(ring: seq<Point>, a: Point, b: Point)
    ensures forall i :: 0 <= i < |ClipEdge(ring, a, b)| ==> Height(Tolerant(a, b), ClipEdge(ring, a, b)[i]) > 0.0
  {
    hide Emit, Height;
    PrefixHolds(Tolerant(a, b), ring, a, b, |ring|);
  }

  lemma {:induction false} CleanPrefix(ring: seq<Point>, a: Point, b: Point, k: nat)
    requires k <= |ring| && NoEscape(ring, a, b)
    ensures forall i :: 0 <= i < |ClipPrefix(ring, a, b, k)| ==> Inside(a, b, ClipPrefix(ring, a, b, k)[i])
  {
    hide Cross, Intersect, Escapes, Emit;
    if k > 0 {
      CleanPrefix(ring, a, b, k - 1);
      var p, q := Prev(ring, k - 1), ring[k - 1];
      EmitCases(a, b, p, q);
      assert CleanEdge(a, b, p, q);
      if Crosses(a, b, p, q) {
        HitNearLine(a, b, p, q);
      }
    }
  }

  /** The first edge that does not hold the whole ring. */
  lemma {:induction false} FirstOverhang(a: seq<Point>, clipper: seq<Point>, k: nat) returns (i: nat)
    requires k <= |clipper| && exists e: nat :: e < k && !InsideEdge(a, clipper, e)
    ensures i < k && !InsideEdge(a, clipper, i) && forall e: nat :: e < i ==> InsideEdge(a, clipper, e)
  {
    hide InsideEdge;
    if exists e: nat :: e < k - 1 && !InsideEdge(a, clipper, e) {
      i := FirstOverhang(a, clipper, k - 1);
    } else {
      i := k - 1;
    }
  }

  /** No crossing of clipper edge i by the subject's own outline counts as parallel. */
  ghost predicate EscapeFreeAt(a: seq<Point>, clipper: seq<Point>, i: nat)
    requires i < |clipper|
  {
    NoEscape(a, clipper[i], EdgeEnd(clipper, i))
  }

  ghost predicate EscapeFree(a: seq<Point>, clipper: seq<Point>) {
    forall i: nat :: i < |clipper| ==> EscapeFreeAt(a, clipper, i)
  }

  /** For every convex polygon and every clipper, convex or not: if no crossing of an edge by the polygon's
      outline escapes, the overlap is the whole polygon exactly when all its vertices are inside all edges. */
  lemma ConvexOverlapIsWhole(a: seq<Point>, b: seq<Point>)
    requires ConvexPolygon(a) && EscapeFree(a, Oriented(b))
    ensures OverlapArea(a, b) == Area(a) <==> WhollyInside(Oriented(b), a)
  {
    hide SignedArea, ClipEdges, WhollyInside, Convex;
    var ccw := Oriented(b);
    if WhollyInside(ccw, a) {
      assert |a| >= 3 by {
        if |a| < 3 {
          SmallRingArea(a);
        }
      }
      ContainedOverlap(a, b);
    } else {
      OverhangEdge(a, ccw);
      var i := FirstOverhang(a, ccw, |ccw|);
      assert EscapeFreeAt(a, ccw, i);
      OverhangLoses(a, b, i);
    }
  }

  lemma OverhangEdge(a: seq<Point>, clipper: seq<Point>)
    requires !WhollyInside(clipper, a)
    ensures exists e: nat :: e < |clipper| && !InsideEdge(a, clipper, e)
  {
    hide Inside;
    var j :| 0 <= j < |a| && !InsideAll(clipper, a[j]);
    var e :| 0 <= e < |clipper| && !Inside(clipper[e], EdgeEnd(clipper, e), a[j]);
    assert !InsideEdge(a, clipper, e);
  }

  lemma OverhangLoses(a: seq<Point>, b: seq<Point>, i: nat)
    requires ConvexPolygon(a) && i < |b| && NoEscape(a, Oriented(b)[i], EdgeEnd(Oriented(b), i))
    requires !InsideEdge(a, Oriented(b), i) && forall e: nat :: e < i ==> InsideEdge(a, Oriented(b), e)
    ensures OverlapArea(a, b) < Area(a)
  {
    hide Convex, Ring, Cross, Height, Tolerant, NoEscape, Emit;
    var left, ccw := SignedArea(a) > 0.0, Oriented(b);
    var p, q := ccw[i], EdgeEnd(ccw, i);
    var j :| 0 <= j < |a| && !Inside(p, q, a[j]);
    TolerantHeight(p, q, a[j]);
    assert ClipEdges(a, ccw, 0) == a;
    IdlePasses(a, ccw, 0, i);
    CleanPrefix(a, p, q, |a|);
    forall k | 0 <= k < |ClipEdge(a, p, q)|
      ensures Height(Tolerant(p, q), ClipEdge(a, p, q)[k]) > Height(Tolerant(p, q), a[j])
    {
      TolerantHeight(p, q, ClipEdge(a, p, q)[k]);
    }
    PassLoses(left, a, p, q, Tolerant(p, q), Height(Tolerant(p, q), a[j]));
    ClippingKeepsConvex(left, a, ccw, i + 1, |ccw|);
    OverlapOfConvex(left, a, b);
  }

  // ------------------------------------------------------------------ a polygon and itself

  /** Every edge of a convex ring has every vertex on its inner side. */
  lemma EdgeTurns(left: bool, v: seq<Point>, i: nat, p: Point)
    requires Convex(left, v) && i < |v| && p in v
    ensures Sided(left, Det(v[i], EdgeEnd(v, i), p)) >= 0.0
  {
    hide Det;
    var j :| 0 <= j < |v| && v[j] == p;
    var k := Next(i, |v|);
    DetCycle(v[i], v[k], v[j]);
    DetCycle(v[k], v[i], v[j]);
    DetCycle(v[i], v[i], v[j]);
    DetCycle(v[i], v[j], v[j]);
    DetCycle(v[j], v[k], v[j]);
    if j != i && j != k {
      assert k == i + 1 && j > k ==> Sided(left, Det(v[i], v[k], v[j])) >= 0.0;
      assert k == i + 1 && j < i ==> Sided(left, Det(v[j], v[i], v[k])) >= 0.0;
      assert k == 0 ==> Sided(left, Det(v[k], v[j], v[i])) >= 0.0;
    }
  }

  lemma ReversedConvex(v: seq<Point>)
    requires Convex(false, v)
    ensures Convex(true, Reverse(v))
  {
    hide Det, Reverse;
    var w, n := Reverse(v), |v| - 1;
    forall i, j, k | 0 <= i < j < k < |w|
      ensures Det(w[i], w[j], w[k]) >= 0.0
    {
      ReversedTriple(v, n - k, n - j, n - i);
    }
  }

  lemma ReversedTriple(v: seq<Point>, i: int, j: int, k: int)
    requires Convex(false, v) && 0 <= i < j < k < |v|
    ensures Det(v[k], v[j], v[i]) >= 0.0
  {
    hide Det;
    assert Sided(false, Det(v[i], v[j], v[k])) >= 0.0;
    DetSwap(v[i], v[j], v[k]);
  }

  lemma DetSwap(p: Point, q: Point, r: Point)
    ensures Det(r, q, p) == -Det(p, q, r)
  {
  }

  lemma CrossIsDet(a: Point, b: Point, p: Point)
    ensures Cross(a, b, p) == Det(a, b, p)
  {
  }

  lemma ReverseMembers(v: seq<Point>, p: Point)
    requires p in v
    ensures p in Reverse(v)
  {
    var i :| 0 <= i < |v| && v[i] == p;
    assert Reverse(v)[|v| - 1 - i] == p;
  }

  /** A convex polygon, walked in either direction, has IoU 1 with itself. */
  lemma ConvexSelfIou(a: seq<Point>)
    requires ConvexPolygon(a)
    ensures WhollyInside(Oriented(a), a) && Iou(a, a) == Ok(1.0)
  {
    hide Ring, Det, Cross, Iou, Convex;
    var ccw := Oriented(a);
    if SignedArea(a) < 0.0 {
      ReversedConvex(a);
    }
    forall j, i: nat | 0 <= j < |a| && i < |ccw|
      ensures Inside(ccw[i], EdgeEnd(ccw, i), a[j])
    {
      if SignedArea(a) < 0.0 {
        ReverseMembers(a, a[j]);
      }
      EdgeTurns(true, ccw, i, a[j]);
      CrossIsDet(ccw[i], EdgeEnd(ccw, i), a[j]);
    }
    if |a| < 3 {
      SmallRingArea(a);
    }
    ConvexSelfOverlap(a);
  }
}
