/**
 * src/server/Collisions.js: the older array-based collision tests. Points
 * are `[x, y]` arrays, rectangles `[left, top, width, height]` arrays and
 * polygons arrays of points.
 */
module Collisions {
  import opened Wrappers
  import opened Vectors
  import Polygons

  /** A point as the array `[x, y]`. */
  type Coords = s: seq<real> | |s| == 2 witness [0.0, 0.0]

  /** A rectangle as the array `[left, top, width, height]`. */
  type Xywh = s: seq<real> | |s| == 4 witness [0.0, 0.0, 0.0, 0.0]

  /** The same point as a `Point` value. */
  function AsPoint(c: Coords): Point {
    Point(c[0], c[1])
  }

  /** The same rectangle as a `Rect` value. */
  function AsRect(r: Xywh): Polygons.Rect {
    Polygons.Rect(Point(r[0], r[1]), Point(r[2], r[3]))
  }

  /** The polygon's points as `Point` values, in order. */
  function AsPoints(polygon: seq<Coords>): (ps: seq<Point>)
    ensures |ps| == |polygon| && forall i :: 0 <= i < |ps| ==> ps[i] == AsPoint(polygon[i])
  {
    seq(|polygon|, i requires 0 <= i < |polygon| => AsPoint(polygon[i]))
  }

  // ---------------------------------------------------------------------
  // Points and rectangles
  // ---------------------------------------------------------------------

  /** `pointIntersectsRect`: strictly inside on both axes, the same test as `Rect.containsPoint`. */
  predicate PointIntersectsRect(pos: Coords, rect: Xywh): (r: bool)
    ensures r <==> AsRect(rect).ContainsPoint(AsPoint(pos))
  {
    var x, y := pos[0], pos[1];
    var left, top, width, height := rect[0], rect[1], rect[2], rect[3];
    x > left && x < left + width && y > top && y < top + height
  }

  /** Points on an edge or a corner are outside, and only a rectangle of positive size contains anything. */
  lemma PointIntersectsRectStrict(pos: Coords, rect: Xywh)
    ensures pos[0] == rect[0] || pos[0] == rect[0] + rect[2] || pos[1] == rect[1] || pos[1] == rect[1] + rect[3] ==>
      !PointIntersectsRect(pos, rect)
    ensures PointIntersectsRect(pos, rect) ==> rect[2] > 0.0 && rect[3] > 0.0
  {
  }

  /** `getRectInTLBRFormat`: the left and top edges, and the opposite edges one width and one height along. */
  function GetRectInTlbrFormat(rect: Xywh): (r: Polygons.Tlbr)
    ensures r.left == rect[0] && r.top == rect[1]
    ensures r.right - r.left == rect[2] && r.bottom - r.top == rect[3]
  {
    var left, top, width, height := rect[0], rect[1], rect[2], rect[3];
    Polygons.Tlbr(left, top, left + width, top + height)
  }

  /**
   * `rectIntersectsRect`: neither rectangle lies strictly beyond an edge of
   * the other; the same test as `Rect.intersectsRect`, so for non-negative
   * sizes it holds exactly when the closed rectangles share a point.
   */
  predicate RectIntersectsRect(rect1: Xywh, rect2: Xywh): (r: bool)
    ensures r <==> AsRect(rect1).IntersectsRect(AsRect(rect2))
  {
    var r1 := GetRectInTlbrFormat(rect1);
    var r2 := GetRectInTlbrFormat(rect2);
    !(r2.left > r1.right || r2.right < r1.left || r2.top > r1.bottom || r2.bottom < r1.top)
  }

  lemma RectIntersectsRectSymmetric(rect1: Xywh, rect2: Xywh)
    ensures RectIntersectsRect(rect1, rect2) == RectIntersectsRect(rect2, rect1)
  {
  }

  /** Rectangles that share only the left edge of the second count as overlapping. */
  lemma TouchingRectsIntersect(rect1: Xywh, rect2: Xywh)
    requires rect1[2] >= 0.0 && rect1[3] >= 0.0 && rect2[2] >= 0.0 && rect2[3] >= 0.0
    requires rect2[0] == rect1[0] + rect1[2] && rect1[1] <= rect2[1] <= rect1[1] + rect1[3]
    ensures RectIntersectsRect(rect1, rect2)
  {
  }

  /**
   * `rectToPolygon`: the four corners, clockwise on screen (y grows
   * downwards) from the top-left: the same corners `Rect.polygon` lists.
   */
  function RectToPolygon(rect: Xywh): (p: seq<Coords>)
    ensures |p| == 4
    ensures forall i :: 0 <= i < 4 ==> AsPoint(p[i]) == AsRect(rect).ToPolygon().points[i]
  {
    [
      [rect[0], rect[1]],
      [rect[0] + rect[2], rect[1]],
      [rect[0] + rect[2], rect[1] + rect[3]],
      [rect[0], rect[1] + rect[3]]
    ]
  }

  /** Twice the signed (shoelace) area of a closed polygon, summed over its first `n` sides. */
  function ShoelaceSum(p: seq<Coords>, n: nat): real
    requires n <= |p|
  {
    if n == 0 then 0.0
    else
      var a, b := p[n - 1], p[if n == |p| then 0 else n];
      ShoelaceSum(p, n - 1) + (a[0] * b[1] - b[0] * a[1])
  }

  /**
   * For a rectangle of positive size the corner order is clockwise with y
   * downwards: the shoelace sum is twice the area, and positive.
   */
  lemma RectToPolygonClockwise(rect: Xywh)
    ensures ShoelaceSum(RectToPolygon(rect), 4) == 2.0 * rect[2] * rect[3]
    ensures rect[2] > 0.0 && rect[3] > 0.0 ==> ShoelaceSum(RectToPolygon(rect), 4) > 0.0
  {
    var p := RectToPolygon(rect);
    var x, y, w, h := rect[0], rect[1], rect[2], rect[3];
    assert ShoelaceSum(p, 1) == x * y - (x + w) * y;
    assert ShoelaceSum(p, 2) == ShoelaceSum(p, 1) + ((x + w) * (y + h) - (x + w) * y);
    assert ShoelaceSum(p, 3) == ShoelaceSum(p, 2) + ((x + w) * (y + h) - x * (y + h));
    assert ShoelaceSum(p, 4) == ShoelaceSum(p, 3) + (x * y - x * (y + h));
  }

  // ---------------------------------------------------------------------
  // Ray casting
  // ---------------------------------------------------------------------

  /** The side's end points lie strictly on opposite sides of height `y`. */
  predicate Straddles(point1: Coords, point2: Coords, y: real) {
    (point1[1] > y && point2[1] < y) || (point1[1] < y && point2[1] > y)
  }

  /**
   * JavaScript division where only finite quotients matter: `None` stands
   * for the infinite quotient of a division by zero.
   */
  function FiniteDiv(a: real, b: real): (r: Option<real>)
    ensures r.Some? <==> b != 0.0
    ensures r.Some? ==> r.value * b == a
  {
    if b == 0.0 then None else Some(a / b)
  }

  /**
   * `sideRaycastToPoint`: does a horizontal ray running rightwards to
   * `targetPoint` cross the side from `point1` to `point2`? Only sides
   * strictly straddling the ray's height are considered; a vertical one
   * counts when it is left of the target. A vertical side that is not
   * on the left makes the slope infinite, after which the intercept and
   * the crossing's x are NaN and the final comparison is false: the
   * `None` slope carries that outcome.
   */
  function SideRaycastToPoint(targetPoint: Coords, point1: Coords, point2: Coords): (r: bool)
    ensures !Straddles(point1, point2, targetPoint[1]) ==> !r
    ensures Straddles(point1, point2, targetPoint[1]) && point1[0] == point2[0] ==> (r <==> point1[0] < targetPoint[0])
    ensures Straddles(point1, point2, targetPoint[1]) ==>
      forall px :: Polygons.Line(AsPoint(point1), AsPoint(point2)).Collinear(Point(px, targetPoint[1])) ==>
        (r <==> px < targetPoint[0])
  {
    var raycastY := targetPoint[1];
    var side := Polygons.Line(AsPoint(point1), AsPoint(point2));
    if Straddles(point1, point2, raycastY) then
      if point1[0] == point2[0] && point1[0] < targetPoint[0] then
        Polygons.CrossingOfVertical(side, raycastY);
        true
      else
        var m := FiniteDiv(point2[1] - point1[1], point2[0] - point1[0]);
        if m.None? then
          Polygons.CrossingOfVertical(side, raycastY);
          false
        else
          var c := point1[1] - m.value * point1[0];
          var poiX := (raycastY - c) / m.value;
          Polygons.CrossingOfSlope(side, raycastY, poiX);
          poiX < targetPoint[0]
    else
      false
  }

  /** The array ray cast decides every side exactly as `Polygon.sideRaycastToPoint` does. */
  lemma SideRaycastAgrees(targetPoint: Coords, point1: Coords, point2: Coords)
    ensures SideRaycastToPoint(targetPoint, point1, point2) ==
      Polygons.SideRaycastToPoint(AsPoint(targetPoint), Polygons.Line(AsPoint(point1), AsPoint(point2)))
  {
    var side := Polygons.Line(AsPoint(point1), AsPoint(point2));
    var t := AsPoint(targetPoint);
    if Straddles(point1, point2, targetPoint[1]) && point1[0] != point2[0] {
      // Both compute the crossing of the same line with the height of `t`.
      var px := side.Equation().value;
      var poiX := (t.y - px.c) / px.m;
      assert side.Collinear(Point(poiX, t.y)) by {
        Polygons.EquationCollinear(side, Point(poiX, t.y));
      }
    }
  }

  /** The index of the point that follows point `j` around the polygon. */
  function Next(j: nat, n: nat): nat
    requires j < n
  {
    if j == n - 1 then 0 else j + 1
  }

  /** `numIntersections`: how many of the first `n` wrapped sides the ray to `point` crosses. */
  function WrappedCrossings(point: Coords, polygon: seq<Coords>, n: nat): nat
    requires n <= |polygon|
  {
    if n == 0 then 0
    else
      var j := n - 1;
      WrappedCrossings(point, polygon, j)
        + (if SideRaycastToPoint(point, polygon[j], polygon[Next(j, |polygon|)]) then 1 else 0)
  }

  /**
   * `rectIntersectsPolygon`: true iff some corner of the rectangle has an
   * odd crossing count against the polygon's sides, the last point joined
   * back to the first.
   */
  method RectIntersectsPolygon(rect: Xywh, polygon: seq<Coords>) returns (hit: bool)
    ensures hit <==> exists i :: 0 <= i < 4 && WrappedCrossings(RectToPolygon(rect)[i], polygon, |polygon|) % 2 != 0
  {
    var rectPoly := RectToPolygon(rect);
    var i := 0;
    while i < |rectPoly|
      invariant 0 <= i <= |rectPoly|
      invariant forall k :: 0 <= k < i ==> WrappedCrossings(rectPoly[k], polygon, |polygon|) % 2 == 0
    {
      var point := rectPoly[i];
      var numIntersections := 0;
      var j := 0;
      while j < |polygon|
        invariant 0 <= j <= |polygon|
        invariant numIntersections == WrappedCrossings(point, polygon, j)
      {
        var sidePoint1 := polygon[j];
        var sidePoint2 := polygon[if j == |polygon| - 1 then 0 else j + 1];
        if SideRaycastToPoint(point, sidePoint1, sidePoint2) {
          numIntersections := numIntersections + 1;
        }
        j := j + 1;
      }
      if numIntersections % 2 != 0 {
        return true;
      }
      i := i + 1;
    }
    return false;
  }

  /** The wrapped-side count is the polygon crossing count over `Polygon.sides`. */
  lemma {:induction false} WrappedCrossingsAgree(point: Coords, polygon: seq<Coords>, n: nat)
    requires n <= |polygon|
    ensures WrappedCrossings(point, polygon, n) ==
      Polygons.Crossings(AsPoint(point), Polygons.Polygon(AsPoints(polygon)).SideLines()[..n])
  {
    var sides := Polygons.Polygon(AsPoints(polygon)).SideLines();
    if n > 0 {
      WrappedCrossingsAgree(point, polygon, n - 1);
      assert sides[..n][..n - 1] == sides[..n - 1];
      var j := n - 1;
      assert sides[j] == Polygons.Line(AsPoint(polygon[j]), AsPoint(polygon[Next(j, |polygon|)]));
      SideRaycastAgrees(point, polygon[j], polygon[Next(j, |polygon|)]);
    }
  }

  /**
   * On a polygon of at least three points, the array test is the ray-cast
   * stage of `Polygon.intersects`: the rectangle's polygon has a corner
   * inside the polygon.
   */
  lemma RectIntersectsPolygonAgrees(rect: Xywh, polygon: seq<Coords>)
    requires |polygon| >= 3
    ensures (exists i :: 0 <= i < 4 && WrappedCrossings(RectToPolygon(rect)[i], polygon, |polygon|) % 2 != 0) <==>
      Polygons.Polygon(AsPoints(polygon)).HasVertexOf(AsRect(rect).ToPolygon())
  {
    var poly := Polygons.Polygon(AsPoints(polygon));
    var corners := RectToPolygon(rect);
    var sides := poly.SideLines();
    assert sides[..|polygon|] == sides;
    forall i | 0 <= i < 4
      ensures WrappedCrossings(corners[i], polygon, |polygon|) ==
        Polygons.Crossings(AsRect(rect).ToPolygon().points[i], sides)
    {
      WrappedCrossingsAgree(corners[i], polygon, |polygon|);
    }
  }
}
