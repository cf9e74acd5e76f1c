/** How much of a polygon the clipper leaves, and where that differs from the documentation (agri/geometry.py). */
module OverlapLoss {
  import opened ClipArea
  import opened ConvexClip
  import opened Geometry
  import opened Sums
  import opened Wrappers

  /** What a pass against edge a->b removes: the part beyond the edge, less half the slivers. */
  function PassLoss(ring: seq<Point>, a: Point, b: Point): real {
    if a == b then 0.0 else SignedArea(ClipEdge(ring, b, a)) - Slivers(ring, a, b, |ring|) / 2.0
  }

  function Losses(subject: seq<Point>, clipper: seq<Point>, k: nat): real
    requires k <= |clipper|
  {
    if k == 0 then 0.0
    else Losses(subject, clipper, k - 1) + PassLoss(ClipEdges(subject, clipper, k - 1), clipper[k - 1], EdgeEnd(clipper, k - 1))
  }

  lemma PassLeaves(ring: seq<Point>, a: Point, b: Point)
    ensures SignedArea(ClipEdge(ring, a, b)) == SignedArea(ring) - PassLoss(ring, a, b)
  {
    hide SignedArea, ClipEdge, Slivers;
    if a == b {
      NoEdgeNoLoss(ring, a);
    } else {
      ClippingSplitsArea(ring, a, b);
    }
  }

  lemma {:induction false} ClippingLeaves(subject: seq<Point>, clipper: seq<Point>, k: nat)
    requires k <= |clipper|
    ensures SignedArea(ClipEdges(subject, clipper, k)) == SignedArea(subject) - Losses(subject, clipper, k)
  {
    hide SignedArea, ClipEdge, PassLoss;
    if k > 0 {
      ClippingLeaves(subject, clipper, k - 1);
      PassLeaves(ClipEdges(subject, clipper, k - 1), clipper[k - 1], EdgeEnd(clipper, k - 1));
    }
  }

  // -------------------------------------------------------------- computing with rings

  lemma ChainOfTwo(o: Point, p: Point, q: Point)
    ensures Chain(o, [p, q]) == Det(o, p, q)
  {
    hide Det;
    assert [p, q][..1] == [p];
  }

  lemma RingOfThree(o: Point, p: Point, q: Point, r: Point)
    ensures Ring(o, [p, q, r]) == Det(o, p, q) + Det(o, q, r) + Det(o, r, p)
  {
    hide Det;
    ChainOfTwo(o, p, q);
    ChainAppend(o, [p, q], r);
    assert [p, q] + [r] == [p, q, r];
  }

  lemma ChainOfFour(o: Point, p: Point, q: Point, r: Point, s: Point)
    ensures Chain(o, [p, q, r, s]) == Det(o, p, q) + Det(o, q, r) + Det(o, r, s)
  {
    hide Det;
    ChainOfTwo(o, p, q);
    ChainAppend(o, [p, q], r);
    assert [p, q] + [r] == [p, q, r];
    ChainAppend(o, [p, q, r], s);
    assert [p, q, r] + [s] == [p, q, r, s];
  }

  lemma RingOfFour(o: Point, p: Point, q: Point, r: Point, s: Point)
    ensures Ring(o, [p, q, r, s]) == Det(o, p, q) + Det(o, q, r) + Det(o, r, s) + Det(o, s, p)
  {
    hide Det, Chain;
    ChainOfFour(o, p, q, r, s);
  }

  lemma ThreeSteps(ring: seq<Point>, a: Point, b: Point)
    requires |ring| == 3
    ensures ClipEdge(ring, a, b) == Emit(a, b, ring[2], ring[0]) + Emit(a, b, ring[0], ring[1]) + Emit(a, b, ring[1], ring[2])
  {
    hide Emit;
    assert ClipPrefix(ring, a, b, 0) == [];
    assert ClipPrefix(ring, a, b, 1) == Emit(a, b, ring[2], ring[0]);
    assert ClipPrefix(ring, a, b, 2) == ClipPrefix(ring, a, b, 1) + Emit(a, b, ring[0], ring[1]);
  }

  // ------------------------------------------------------- two halves that exceed the whole

  const SLIVER := 0.0000000000005
  const WEST := Point(200.0, 200.0)
  const EAST := Point(201.0, 200.0)
  const LOW := Point(201.0, 200.0 - SLIVER)
  const HIGH := Point(201.0, 201.0)
  const FIELD := [WEST, LOW, HIGH]
  const UPPER := [WEST, EAST, Point(201.0, 201.0), Point(200.0, 201.0)]
  const LOWER := [EAST, WEST, Point(200.0, 199.0), Point(201.0, 199.0)]

  lemma Heights(p: Point)
    ensures Cross(WEST, EAST, p) == p.y - 200.0
    ensures Cross(EAST, WEST, p) == 200.0 - p.y
  {
  }

  lemma FieldEmits()
    ensures Escapes(WEST, EAST, WEST, LOW)
    ensures Emit(WEST, EAST, HIGH, WEST) == [WEST] && Emit(WEST, EAST, WEST, LOW) == [LOW] && Emit(WEST, EAST, LOW, HIGH) == [EAST, HIGH]
    ensures Emit(EAST, WEST, HIGH, WEST) == [WEST, WEST] && Emit(EAST, WEST, WEST, LOW) == [LOW] && Emit(EAST, WEST, LOW, HIGH) == [EAST]
  {
    hide Intersect, Denominator, Cross, Emit;
    Heights(WEST);
    Heights(LOW);
    Heights(HIGH);
    EmitCases(WEST, EAST, HIGH, WEST);
    EmitCases(WEST, EAST, WEST, LOW);
    EmitCases(WEST, EAST, LOW, HIGH);
    EmitCases(EAST, WEST, HIGH, WEST);
    EmitCases(EAST, WEST, WEST, LOW);
    EmitCases(EAST, WEST, LOW, HIGH);
    DenominatorIsCrossDifference(WEST, EAST, WEST, LOW);
    EscapeReturnsEnd(WEST, EAST, WEST, LOW);
    DenominatorIsCrossDifference(WEST, EAST, LOW, HIGH);
    DenominatorIsCrossDifference(EAST, WEST, LOW, HIGH);
    DenominatorIsCrossDifference(EAST, WEST, HIGH, WEST);
    var t := IntersectOnLine(WEST, EAST, LOW, HIGH);
    Heights(Intersect(WEST, EAST, LOW, HIGH));
    assert Intersect(WEST, EAST, LOW, HIGH).x == 201.0 + t * 0.0 == 201.0;
    t := IntersectOnLine(EAST, WEST, LOW, HIGH);
    Heights(Intersect(EAST, WEST, LOW, HIGH));
    assert Intersect(EAST, WEST, LOW, HIGH).x == 201.0 + t * 0.0 == 201.0;
    t := IntersectOnLine(EAST, WEST, HIGH, WEST);
    Heights(Intersect(EAST, WEST, HIGH, WEST));
    assert Intersect(EAST, WEST, HIGH, WEST) == Point(201.0 - t, 201.0 - t) == WEST;
  }

  lemma FieldDets()
    ensures Det(WEST, WEST, LOW) == Det(WEST, HIGH, WEST) == Det(WEST, WEST, WEST) == Det(WEST, EAST, WEST) == 0.0
    ensures Det(WEST, LOW, HIGH) == 1.0 + SLIVER && Det(WEST, LOW, EAST) == SLIVER && Det(WEST, EAST, HIGH) == 1.0
  {
  }

  lemma FieldParts()
    ensures ClipEdge(FIELD, WEST, EAST) == [WEST, LOW, EAST, HIGH] && ClipEdge(FIELD, EAST, WEST) == [WEST, WEST, LOW, EAST]
    ensures SignedArea([WEST, LOW, EAST, HIGH]) == SignedArea(FIELD) == (1.0 + SLIVER) / 2.0
    ensures SignedArea([WEST, WEST, LOW, EAST]) == SLIVER / 2.0
  {
    hide Emit, Det, ClipEdge, Chain, Ring;
    FieldEmits();
    FieldDets();
    ThreeSteps(FIELD, WEST, EAST);
    ThreeSteps(FIELD, EAST, WEST);
    assert [WEST] + [LOW] + [EAST, HIGH] == [WEST, LOW, EAST, HIGH];
    assert [WEST, WEST] + [LOW] + [EAST] == [WEST, WEST, LOW, EAST];
    RingTranslate(WEST, FIELD);
    RingTranslate(WEST, [WEST, LOW, EAST, HIGH]);
    RingTranslate(WEST, [WEST, WEST, LOW, EAST]);
    RingOfThree(WEST, WEST, LOW, HIGH);
    RingOfFour(WEST, WEST, LOW, EAST, HIGH);
    RingOfFour(WEST, WEST, WEST, LOW, EAST);
  }

  lemma SquareArea(p: Point, q: Point, r: Point, s: Point)
    requires q.x - p.x == r.x - s.x && q.y == p.y && r.y == s.y && q.x == r.x && p.x == s.x
    requires (q.x - p.x) * (s.y - p.y) == 1.0
    ensures SignedArea([p, q, r, s]) == 1.0 && Oriented([p, q, r, s]) == [p, q, r, s]
  {
    hide Chain, Ring;
    RingTranslate(p, [p, q, r, s]);
    RingOfFour(p, p, q, r, s);
    assert Det(p, p, q) == Det(p, s, p) == 0.0;
    assert Det(p, q, r) == (q.x - p.x) * (s.y - p.y) && Det(p, r, s) == (q.x - p.x) * (s.y - p.y);
  }

  lemma UpperOverlap()
    ensures OverlapArea(FIELD, UPPER) == (1.0 + SLIVER) / 2.0
  {
    hide SignedArea, ClipEdge, Inside;
    SquareArea(UPPER[0], UPPER[1], UPPER[2], UPPER[3]);
    FieldParts();
    assert ClipEdges(FIELD, UPPER, 0) == FIELD;
    assert ClipEdges(FIELD, UPPER, 1) == [WEST, LOW, EAST, HIGH];
    UpperHolds();
    IdlePasses(FIELD, UPPER, 1, 4);
  }

  lemma UpperHolds()
    ensures forall e :: 1 <= e < 4 ==> InsideEdge([WEST, LOW, EAST, HIGH], UPPER, e)
  {
  }

  lemma LowerOverlap()
    ensures OverlapArea(FIELD, LOWER) == SLIVER / 2.0
  {
    hide SignedArea, ClipEdge, Inside;
    SquareArea(LOWER[0], LOWER[1], LOWER[2], LOWER[3]);
    FieldParts();
    assert ClipEdges(FIELD, LOWER, 0) == FIELD;
    assert ClipEdges(FIELD, LOWER, 1) == [WEST, WEST, LOW, EAST];
    LowerHolds();
    IdlePasses(FIELD, LOWER, 1, 4);
  }

  lemma LowerHolds()
    ensures forall e :: 1 <= e < 4 ==> InsideEdge([WEST, WEST, LOW, EAST], LOWER, e)
  {
  }

  /** Three polygons that the constructor accepts, two of them squares that share only an edge: a field
      whose overlaps with the squares add up to more than the field. */
  lemma HalvesExceedWhole()
    ensures NewPolygon(FIELD).Ok? && NewPolygon(UPPER).Ok? && NewPolygon(LOWER).Ok?
    ensures OverlapArea(FIELD, UPPER) + OverlapArea(FIELD, LOWER) == Area(FIELD) + SLIVER / 2.0
  {
    hide SignedArea, OverlapArea;
    UpperOverlap();
    LowerOverlap();
    FieldParts();
    assert !DegreeSized(FIELD[0]) && !DegreeSized(UPPER[0]) && !DegreeSized(LOWER[0]);
  }

  /** The hypothesis on escapes is needed: this convex field is reported as wholly overlapped by a square
      that one of its corners overhangs. */
  lemma EscapeHidesOverhang()
    ensures ConvexPolygon(FIELD) && OverlapArea(FIELD, UPPER) == Area(FIELD) && !WhollyInside(Oriented(UPPER), FIELD)
  {
    hide SignedArea, ClipEdge, ClipEdges;
    UpperOverlap();
    FieldParts();
    SquareArea(UPPER[0], UPPER[1], UPPER[2], UPPER[3]);
    Heights(LOW);
    assert !Inside(UPPER[0], EdgeEnd(UPPER, 0), FIELD[1]);
    assert Det(FIELD[0], FIELD[1], FIELD[2]) >= 0.0 by { FieldDets(); }
  }

  // ------------------------------------------------------------------ a concave clipper

  const WING := [Point(0.0, 0.0), Point(300.0, 100.0), Point(0.0, 200.0), Point(100.0, 100.0)]
  const HULL := WING[..3]
  const SOUTH := Point(150.0, 50.0)
  const NORTH := Point(150.0, 150.0)

  /** Heights over the two edges that meet in the notch, and the rest of the outline around the hull. */
  lemma WingHeights(p: Point)
    ensures Cross(WING[2], WING[3], p) == 100.0 * (p.x + p.y - 200.0)
    ensures Cross(WING[3], WING[0], p) == 100.0 * (p.x - p.y)
  {
  }

  /** The hit at a known parameter. */
  lemma HitAt(a: Point, b: Point, p: Point, q: Point, t: real)
    requires Abs(Denominator(a, b, p, q)) >= NEAR_PARALLEL && t * Denominator(a, b, p, q) == -Cross(a, b, p)
    ensures Intersect(a, b, p, q) == Lerp(p, q, t)
  {
    IntersectIsLerp(a, b, p, q);
    assert -Cross(a, b, p) / Denominator(a, b, p, q) == t;
  }

  /** The hit on the segment between two points at known heights. */
  lemma HitBetween(a: Point, b: Point, p: Point, q: Point, hp: real, hq: real, t: real)
    requires hp == Cross(a, b, p) && hq == Cross(a, b, q) && Abs(hq - hp) >= 1.0 && t * (hq - hp) == -hp
    ensures Intersect(a, b, p, q) == Lerp(p, q, t)
  {
    hide Denominator, Cross, Intersect;
    DenominatorIsCrossDifference(a, b, p, q);
    HitAt(a, b, p, q, t);
  }

  lemma SouthHit()
    ensures Intersect(WING[2], WING[3], WING[0], WING[1]) == SOUTH
  {
    hide Cross, Intersect;
    WingHeights(WING[0]);
    WingHeights(WING[1]);
    HitBetween(WING[2], WING[3], WING[0], WING[1], -20000.0, 20000.0, 0.5);
  }

  lemma NorthHit()
    ensures Intersect(WING[3], WING[0], WING[1], WING[2]) == NORTH
  {
    hide Cross, Intersect;
    WingHeights(WING[1]);
    WingHeights(WING[2]);
    HitBetween(WING[3], WING[0], WING[1], WING[2], 20000.0, -20000.0, 0.5);
  }

  lemma WestHit()
    ensures Intersect(WING[2], WING[3], WING[2], WING[0]) == WING[2]
  {
    hide Cross, Intersect;
    WingHeights(WING[2]);
    WingHeights(WING[0]);
    HitBetween(WING[2], WING[3], WING[2], WING[0], 0.0, -20000.0, 0.0);
  }

  lemma MiddleHit()
    ensures Intersect(WING[3], WING[0], WING[2], SOUTH) == WING[3]
  {
    hide Cross, Intersect;
    WingHeights(WING[2]);
    WingHeights(SOUTH);
    HitBetween(WING[3], WING[0], WING[2], SOUTH, -20000.0, 10000.0, 2.0 / 3.0);
  }

  lemma FourSteps(ring: seq<Point>, a: Point, b: Point)
    requires |ring| == 4
    ensures ClipEdge(ring, a, b)
         == Emit(a, b, ring[3], ring[0]) + Emit(a, b, ring[0], ring[1]) + Emit(a, b, ring[1], ring[2]) + Emit(a, b, ring[2], ring[3])
  {
    hide Emit;
    assert ClipPrefix(ring, a, b, 0) == [];
    assert ClipPrefix(ring, a, b, 1) == Emit(a, b, ring[3], ring[0]);
    assert ClipPrefix(ring, a, b, 2) == ClipPrefix(ring, a, b, 1) + Emit(a, b, ring[0], ring[1]);
    assert ClipPrefix(ring, a, b, 3) == ClipPrefix(ring, a, b, 2) + Emit(a, b, ring[1], ring[2]);
  }

  lemma HullPasses()
    ensures ClipEdge(HULL, WING[2], WING[3]) == [WING[2], SOUTH, WING[1], WING[2]]
    ensures ClipEdge([WING[2], SOUTH, WING[1], WING[2]], WING[3], WING[0]) == [WING[3], SOUTH, WING[1], NORTH]
  {
    hide Cross, Intersect, Emit, ClipEdge;
    WestHit();
    SouthHit();
    MiddleHit();
    NorthHit();
    WingHeights(WING[0]);
    WingHeights(WING[1]);
    WingHeights(WING[2]);
    WingHeights(SOUTH);
    var a, b, c := WING[2], WING[3], WING[0];
    ThreeSteps(HULL, a, b);
    EmitCases(a, b, WING[2], WING[0]);
    EmitCases(a, b, WING[0], WING[1]);
    EmitCases(a, b, WING[1], WING[2]);
    assert [WING[2]] + [SOUTH, WING[1]] + [WING[2]] == [WING[2], SOUTH, WING[1], WING[2]];
    FourSteps([WING[2], SOUTH, WING[1], WING[2]], b, c);
    EmitCases(b, c, WING[2], WING[2]);
    EmitCases(b, c, WING[2], SOUTH);
    EmitCases(b, c, SOUTH, WING[1]);
    EmitCases(b, c, WING[1], WING[2]);
    assert [] + [WING[3], SOUTH] + [WING[1]] + [NORTH] == [WING[3], SOUTH, WING[1], NORTH];
  }

  lemma WingAreas()
    ensures SignedArea(WING) == 20000.0 && SignedArea([WING[3], SOUTH, WING[1], NORTH]) == 10000.0 && SignedArea(HULL) == 30000.0
  {
    hide Chain, Ring;
    assert HULL == [WING[0], WING[1], WING[2]];
    RingOfFour(ORIGIN, WING[0], WING[1], WING[2], WING[3]);
    RingOfFour(ORIGIN, WING[3], SOUTH, WING[1], NORTH);
    RingOfThree(ORIGIN, WING[0], WING[1], WING[2]);
  }

  lemma WingHolds()
    ensures InsideEdge(HULL, WING, 0) && InsideEdge(HULL, WING, 1)
    ensures WhollyInside(HULL, WING)
  {
  }

  /** A convex polygon and a concave one inside it, both accepted: clipped by the convex one the overlap
      is exact, clipped by the concave one it is half of that. */
  lemma ConcaveClipperUnderReports()
    ensures NewPolygon(WING).Ok? && NewPolygon(HULL).Ok? && WhollyInside(HULL, WING) && WhollyInside(HULL, HULL)
    ensures OverlapArea(WING, HULL) == Area(WING) == 20000.0
    ensures OverlapArea(HULL, WING) == 10000.0
  {
    hide SignedArea, ClipEdge, InsideEdge, InsideAll;
    WingAreas();
    WingHolds();
    ContainedOverlap(WING, HULL);
    assert ClipEdges(HULL, WING, 0) == HULL;
    IdlePasses(HULL, WING, 0, 2);
    HullPasses();
    assert ClipEdges(HULL, WING, 3) == [WING[2], SOUTH, WING[1], WING[2]];
    assert ClipEdges(HULL, WING, 4) == [WING[3], SOUTH, WING[1], NORTH];
    assert !DegreeSized(WING[1]) && !DegreeSized(HULL[1]);
    assert forall j :: 0 <= j < |HULL| ==> HULL[j] == WING[j];
  }

  lemma FiveSteps(ring: seq<Point>, a: Point, b: Point)
    requires |ring| == 5
    ensures ClipEdge(ring, a, b)
         == Emit(a, b, ring[4], ring[0]) + Emit(a, b, ring[0], ring[1]) + Emit(a, b, ring[1], ring[2]) + Emit(a, b, ring[2], ring[3]) + Emit(a, b, ring[3], ring[4])
  {
    hide Emit;
    assert ClipPrefix(ring, a, b, 0) == [];
    assert ClipPrefix(ring, a, b, 1) == Emit(a, b, ring[4], ring[0]);
    assert ClipPrefix(ring, a, b, 2) == ClipPrefix(ring, a, b, 1) + Emit(a, b, ring[0], ring[1]);
    assert ClipPrefix(ring, a, b, 3) == ClipPrefix(ring, a, b, 2) + Emit(a, b, ring[1], ring[2]);
    assert ClipPrefix(ring, a, b, 4) == ClipPrefix(ring, a, b, 3) + Emit(a, b, ring[2], ring[3]);
  }

  lemma NotchHits()
    ensures Intersect(WING[2], WING[3], WING[3], WING[0]) == WING[3]
    ensures Intersect(WING[3], WING[0], WING[2], WING[3]) == WING[3]
  {
    hide Cross, Intersect;
    WingHeights(WING[0]);
    WingHeights(WING[2]);
    WingHeights(WING[3]);
    HitBetween(WING[2], WING[3], WING[3], WING[0], 0.0, -20000.0, 0.0);
    HitBetween(WING[3], WING[0], WING[2], WING[3], -20000.0, 0.0, 1.0);
  }

  lemma WingPasses()
    ensures ClipEdge(WING, WING[2], WING[3]) == [WING[3], SOUTH, WING[1], WING[2], WING[3]]
    ensures ClipEdge([WING[3], SOUTH, WING[1], WING[2], WING[3]], WING[3], WING[0]) == [WING[3], SOUTH, WING[1], NORTH, WING[3], WING[3]]
  {
    hide Cross, Intersect, Emit, ClipEdge;
    SouthHit();
    NorthHit();
    NotchHits();
    WingHeights(WING[0]);
    WingHeights(WING[1]);
    WingHeights(WING[2]);
    WingHeights(WING[3]);
    WingHeights(SOUTH);
    var a, b, c := WING[2], WING[3], WING[0];
    FourSteps(WING, a, b);
    EmitCases(a, b, WING[3], WING[0]);
    EmitCases(a, b, WING[0], WING[1]);
    EmitCases(a, b, WING[1], WING[2]);
    EmitCases(a, b, WING[2], WING[3]);
    assert [WING[3]] + [SOUTH, WING[1]] + [WING[2]] + [WING[3]] == [WING[3], SOUTH, WING[1], WING[2], WING[3]];
    FiveSteps([WING[3], SOUTH, WING[1], WING[2], WING[3]], b, c);
    EmitCases(b, c, WING[3], WING[3]);
    EmitCases(b, c, WING[3], SOUTH);
    EmitCases(b, c, SOUTH, WING[1]);
    EmitCases(b, c, WING[1], WING[2]);
    EmitCases(b, c, WING[2], WING[3]);
    assert [WING[3]] + [SOUTH] + [WING[1]] + [NORTH] + [WING[3], WING[3]] == [WING[3], SOUTH, WING[1], NORTH, WING[3], WING[3]];
  }

  /** Coming back to the first vertex adds nothing to the shoelace sum. */
  lemma RepeatedStart(o: Point, v: seq<Point>)
    requires v != []
    ensures Ring(o, v + [v[0]]) == Ring(o, v)
  {
    hide Det;
    ChainAppend(o, v, v[0]);
    DetSame(o, v[0]);
  }

  lemma NotchArea()
    ensures SignedArea([WING[3], SOUTH, WING[1], NORTH, WING[3], WING[3]]) == 10000.0
  {
    hide Ring, Det;
    WingAreas();
    var v := [WING[3], SOUTH, WING[1], NORTH];
    RepeatedStart(ORIGIN, v);
    RepeatedStart(ORIGIN, v + [WING[3]]);
    assert v + [WING[3]] + [WING[3]] == [WING[3], SOUTH, WING[1], NORTH, WING[3], WING[3]];
  }

  /** The concave polygon keeps half of itself, so its IoU with itself is a third. */
  lemma ConcaveSelfOverlap()
    ensures OverlapArea(WING, WING) == Area(WING) / 2.0
    ensures Iou(WING, WING) == Ok(1.0 / 3.0)
  {
    hide SignedArea, ClipEdge, InsideEdge;
    WingAreas();
    WingSelfHolds();
    assert ClipEdges(WING, WING, 0) == WING;
    IdlePasses(WING, WING, 0, 2);
    WingPasses();
    assert ClipEdges(WING, WING, 3) == [WING[3], SOUTH, WING[1], WING[2], WING[3]];
    assert ClipEdges(WING, WING, 4) == [WING[3], SOUTH, WING[1], NORTH, WING[3], WING[3]];
    NotchArea();
    assert 10000.0 / 30000.0 == 1.0 / 3.0;
  }

  lemma WingSelfHolds()
    ensures InsideEdge(WING, WING, 0) && InsideEdge(WING, WING, 1)
  {
  }
}
