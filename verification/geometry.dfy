/**
 * Integer-coordinate plane geometry: points, closed polygons and the
 * point-in-polygon classification used by every hit-test of the map.
 *
 * The program asks OpenCV's `pointPolygonTest(contour, pt, False)`
 * and treats a result `>= 0` as a hit, that is, a point inside the polygon or
 * on its boundary. That primitive is not part of this model; `Contains`
 * below stands in for it, defined by the even-odd rule (a horizontal ray to
 * the right of the point crosses the boundary an odd number of times) plus an
 * exact on-segment test, so that boundary points count as inside.
 */
module Geometry {

  /** A pixel position; `y` grows downwards as in image coordinates. */
  datatype Point = Point(x: int, y: int)

  function Min(a: int, b: int): int { if a <= b then a else b }

  function Max(a: int, b: int): int { if a <= b then b else a }

  /** Twice the signed area of the triangle (a, b, p); zero when the three are collinear. */
  function Cross(a: Point, b: Point, p: Point): int {
    (b.x - a.x) * (p.y - a.y) - (b.y - a.y) * (p.x - a.x)
  }

  /** `p` lies on the closed segment from `a` to `b`. */
  predicate OnSegment(p: Point, a: Point, b: Point) {
    && Cross(a, b, p) == 0
    && Min(a.x, b.x) <= p.x <= Max(a.x, b.x)
    && Min(a.y, b.y) <= p.y <= Max(a.y, b.y)
  }

  /** `v` lies strictly on the larger-`y` side of the horizontal line through `p`. */
  predicate Beyond(v: Point, p: Point) { v.y > p.y }

  /**
   * The edge from `a` to `b` crosses the horizontal ray that starts at `p`
   * and runs towards larger `x`. The edge must straddle the ray's line
   * (half-open in `y`, so a vertex on the line is counted once), and the
   * crossing point must lie strictly to the right of `p`; the latter is
   * the sign of `Cross`, oriented by the edge's direction.
   */
  predicate Crosses(p: Point, a: Point, b: Point) {
    && Beyond(a, p) != Beyond(b, p)
    && (if b.y > a.y then Cross(a, b, p) > 0 else Cross(a, b, p) < 0)
  }

  /** The end of edge `i` of a closed polygon: the next vertex, wrapping round to the first. */
  function Next(poly: seq<Point>, i: nat): Point
    requires i < |poly|
  {
    if i + 1 < |poly| then poly[i + 1] else poly[0]
  }

  /** `p` lies on some edge of the closed polygon. */
  predicate OnBoundary(poly: seq<Point>, p: Point) {
    exists i :: 0 <= i < |poly| && OnSegment(p, poly[i], Next(poly, i))
  }

  /** The number of edges among the first `k` that the ray from `p` crosses. */
  function Crossings(poly: seq<Point>, p: Point, k: nat): nat
    requires k <= |poly|
  {
    if k == 0 then 0
    else Crossings(poly, p, k - 1) + (if Crosses(p, poly[k - 1], Next(poly, k - 1)) then 1 else 0)
  }

  /** Boundary-inclusive containment: on an edge, or inside by the even-odd rule. */
  predicate Contains(poly: seq<Point>, p: Point) {
    OnBoundary(poly, p) || Crossings(poly, p, |poly|) % 2 == 1
  }

  /**
   * The classification the program asks of OpenCV: 0 on the boundary,
   * +1 strictly inside, -1 strictly outside. One pass over the edges.
   */
  method PointPolygonTest(poly: seq<Point>, p: Point) returns (r: int)
    ensures -1 <= r <= 1
    ensures r == 0 <==> OnBoundary(poly, p)
    ensures r == 1 <==> !OnBoundary(poly, p) && Crossings(poly, p, |poly|) % 2 == 1
    ensures r == -1 <==> !OnBoundary(poly, p) && Crossings(poly, p, |poly|) % 2 == 0
    ensures r >= 0 <==> Contains(poly, p)
  {
    var count := 0;
    var i := 0;
    while i < |poly|
      invariant 0 <= i <= |poly|
      invariant count == Crossings(poly, p, i)
      invariant forall j :: 0 <= j < i ==> !OnSegment(p, poly[j], Next(poly, j))
    {
      if OnSegment(p, poly[i], Next(poly, i)) {
        return 0;
      }
      if Crosses(p, poly[i], Next(poly, i)) {
        count := count + 1;
      }
      i := i + 1;
    }
    r := if count % 2 == 1 then 1 else -1;
  }

  /** Every vertex of a polygon is on its boundary, hence contained. */
  lemma VertexContained(poly: seq<Point>, i: nat)
    requires i < |poly|
    ensures OnBoundary(poly, poly[i])
    ensures Contains(poly, poly[i])
  {
    assert OnSegment(poly[i], poly[i], Next(poly, i));
  }

  // ---------------------------------------------------------------------------
  // Translation invariance

  function Shift(p: Point, d: Point): Point {
    Point(p.x + d.x, p.y + d.y)
  }

  function Translate(poly: seq<Point>, d: Point): (t: seq<Point>)
    ensures |t| == |poly|
    ensures forall i :: 0 <= i < |poly| ==> t[i] == Shift(poly[i], d)
  {
    seq(|poly|, i requires 0 <= i < |poly| => Shift(poly[i], d))
  }

  lemma CrossShift(a: Point, b: Point, p: Point, d: Point)
    ensures Cross(Shift(a, d), Shift(b, d), Shift(p, d)) == Cross(a, b, p)
  {
  }

  lemma {:induction false} CrossingsTranslate(poly: seq<Point>, p: Point, d: Point, k: nat)
    requires k <= |poly|
    ensures Crossings(Translate(poly, d), Shift(p, d), k) == Crossings(poly, p, k)
  {
    if k > 0 {
      CrossingsTranslate(poly, p, d, k - 1);
      var t := Translate(poly, d);
      assert Next(t, k - 1) == Shift(Next(poly, k - 1), d);
      CrossShift(poly[k - 1], Next(poly, k - 1), p, d);
    }
  }

  /** Moving the polygon and the point by the same offset never changes the verdict. */
  lemma TranslationInvariant(poly: seq<Point>, p: Point, d: Point)
    ensures Contains(Translate(poly, d), Shift(p, d)) <==> Contains(poly, p)
  {
    var t := Translate(poly, d);
    CrossingsTranslate(poly, p, d, |poly|);
    forall i | 0 <= i < |poly|
      ensures OnSegment(Shift(p, d), t[i], Next(t, i)) <==> OnSegment(p, poly[i], Next(poly, i))
    {
      assert Next(t, i) == Shift(Next(poly, i), d);
      CrossShift(poly[i], Next(poly, i), p, d);
    }
    if OnBoundary(t, Shift(p, d)) {
      var i :| 0 <= i < |t| && OnSegment(Shift(p, d), t[i], Next(t, i));
      assert OnSegment(p, poly[i], Next(poly, i));
    }
    if OnBoundary(poly, p) {
      var i :| 0 <= i < |poly| && OnSegment(p, poly[i], Next(poly, i));
      assert OnSegment(Shift(p, d), t[i], Next(t, i));
    }
  }

  // ---------------------------------------------------------------------------
  // Points outside the bounding box

  /** An edge lying wholly to the left of `p` is never crossed by the ray from `p`. */
  lemma RightOfEdgeNotCrossed(p: Point, a: Point, b: Point)
    requires a.x < p.x && b.x < p.x
    ensures !Crosses(p, a, b)
  {
    if Beyond(a, p) != Beyond(b, p) {
      var t := p.y - a.y;
      var h := b.y - a.y;
      assert Cross(a, b, p) == (b.x - p.x) * t + (p.x - a.x) * (t - h);
      if b.y > a.y {
        assert 0 <= t < h;
        assert (b.x - p.x) * t <= 0;
        assert (p.x - a.x) * (t - h) < 0;
      } else {
        assert h < 0 && h <= t < 0;
        assert (b.x - p.x) * t > 0;
        assert (p.x - a.x) * (t - h) >= 0;
      }
    }
  }

  /** An edge lying wholly to the right of `p` is crossed exactly when it straddles the ray's line. */
  lemma LeftOfEdgeCrossed(p: Point, a: Point, b: Point)
    requires p.x < a.x && p.x < b.x
    ensures Crosses(p, a, b) <==> Beyond(a, p) != Beyond(b, p)
  {
    if Beyond(a, p) != Beyond(b, p) {
      var t := p.y - a.y;
      var h := b.y - a.y;
      assert Cross(a, b, p) == (b.x - p.x) * t + (p.x - a.x) * (t - h);
      if b.y > a.y {
        assert 0 <= t < h;
        assert (b.x - p.x) * t >= 0;
        assert (p.x - a.x) * (t - h) > 0;
      } else {
        assert h < 0 && h <= t < 0;
        assert (b.x - p.x) * t < 0;
        assert (p.x - a.x) * (t - h) <= 0;
      }
    }
  }

  lemma {:induction false} NoCrossingsCounted(poly: seq<Point>, p: Point, k: nat)
    requires k <= |poly|
    requires forall i :: 0 <= i < k ==> !Crosses(p, poly[i], Next(poly, i))
    ensures Crossings(poly, p, k) == 0
  {
    if k > 0 {
      NoCrossingsCounted(poly, p, k - 1);
    }
  }

  /**
   * When every edge straddling the ray's line is crossed, the parity of the
   * first `k` crossings records whether the walk from vertex 0 to the end of
   * edge `k - 1` has changed sides of that line.
   */
  lemma {:induction false} StraddleParity(poly: seq<Point>, p: Point, k: nat)
    requires 0 < k <= |poly|
    requires forall i :: 0 <= i < |poly| ==>
               (Crosses(p, poly[i], Next(poly, i)) <==> Beyond(poly[i], p) != Beyond(Next(poly, i), p))
    ensures Crossings(poly, p, k) % 2 == 1 <==> Beyond(poly[0], p) != Beyond(Next(poly, k - 1), p)
  {
    if k > 1 {
      StraddleParity(poly, p, k - 1);
      assert Next(poly, k - 2) == poly[k - 1];
    }
  }

  /** A closed walk crosses any horizontal line an even number of times. */
  lemma LeftOfPolygonEven(poly: seq<Point>, p: Point)
    requires forall i :: 0 <= i < |poly| ==> p.x < poly[i].x
    ensures Crossings(poly, p, |poly|) % 2 == 0
  {
    if |poly| > 0 {
      forall i | 0 <= i < |poly|
        ensures Crosses(p, poly[i], Next(poly, i)) <==> Beyond(poly[i], p) != Beyond(Next(poly, i), p)
      {
        LeftOfEdgeCrossed(p, poly[i], Next(poly, i));
      }
      StraddleParity(poly, p, |poly|);
      assert Next(poly, |poly| - 1) == poly[0];
    }
  }

  /** The four sides of a polygon's bounding box; `y` grows towards `South`. */
  datatype Side = West | East | North | South

  /** `p` lies strictly beyond vertex `v` towards `side`. */
  predicate PastVertex(p: Point, v: Point, side: Side) {
    match side
    case West => p.x < v.x
    case East => v.x < p.x
    case North => p.y < v.y
    case South => v.y < p.y
  }

  /**
   * An edge whose ends `p` lies beyond, on one side, does not pass through
   * `p`; unless that side is `West` the ray from `p` misses it too.
   */
  lemma EdgeBehind(p: Point, a: Point, b: Point, side: Side)
    requires PastVertex(p, a, side) && PastVertex(p, b, side)
    ensures !OnSegment(p, a, b)
    ensures side != West ==> !Crosses(p, a, b)
  {
    if side == East {
      RightOfEdgeNotCrossed(p, a, b);
    }
  }

  /** A point strictly outside the polygon's bounding box, on any side, is not contained. */
  lemma OutsideBoundingBox(poly: seq<Point>, p: Point, side: Side)
    requires forall i :: 0 <= i < |poly| ==> PastVertex(p, poly[i], side)
    ensures !Contains(poly, p)
  {
    forall i | 0 <= i < |poly|
      ensures !OnSegment(p, poly[i], Next(poly, i))
      ensures side != West ==> !Crosses(p, poly[i], Next(poly, i))
    {
      var k := if i + 1 < |poly| then i + 1 else 0;
      assert Next(poly, i) == poly[k];
      EdgeBehind(p, poly[i], poly[k], side);
    }
    if side == West {
      LeftOfPolygonEven(poly, p);
    } else {
      NoCrossingsCounted(poly, p, |poly|);
    }
  }
}
