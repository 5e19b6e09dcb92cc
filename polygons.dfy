/**
 * src/server/Polygon.js: exact-geometry segments, polygons and axis-aligned
 * rectangles. JS numbers are reals, so the source's `===` tests on slopes and
 * areas are exact here.
 */
module Polygons {
  import opened Wrappers
  import opened Vectors
  import opened JsMath

  /** The `{m, c}` of `y = m*x + c`. */
  datatype LinearEquation = LinearEquation(m: real, c: real)

  /** A segment between two points (`new Line(point1, point2)`). */
  datatype Line = Line(p0: Point, p1: Point) {

    /** `vector`: the free vector from the first point to the second. */
    function ToVector(): (v: Vector)
      ensures v.Dim() == p1.Minus(p0)
    {
      // The source passes the two differences where `new Vector` expects
      // points; this is the intended vector from the origin.
      Vector(Origin, p1.Minus(p0))
    }

    /** `pos`: the first point; with the line's vector it rebuilds the line. */
    function Pos(): (p: Point)
      ensures Line(p, p.Plus(ToVector().Dim())) == this
    {
      p0
    }

    predicate IsVertical() { p0.x == p1.x }

    predicate IsHorizontal() { p0.y == p1.y }

    predicate IsDiagonal() { !IsVertical() && !IsHorizontal() }

    /** `p` lies on the infinite line through the two points. */
    predicate Collinear(p: Point) {
      (p.x - p0.x) * (p1.y - p0.y) == (p.y - p0.y) * (p1.x - p0.x)
    }

    /** `p.x` lies between the two end points' x coordinates, inclusive. */
    predicate InXRange(p: Point) {
      Min(p0.x, p1.x) <= p.x <= Max(p0.x, p1.x)
    }

    predicate InYRange(p: Point) {
      Min(p0.y, p1.y) <= p.y <= Max(p0.y, p1.y)
    }

    /**
     * `p` is a common point of the two segments as `pointOfIntersection`
     * checks it: on both lines, within both x-ranges, and within the
     * y-range of a vertical one.
     */
    predicate OnBoth(other: Line, p: Point) {
      Collinear(p) && other.Collinear(p) && InXRange(p) && other.InXRange(p) &&
      (IsVertical() ==> InYRange(p)) && (other.IsVertical() ==> other.InYRange(p))
    }

    /**
     * `offset`: shift the first point by `offsets[0]` and the second by
     * `offsets[1]`, or by `offsets[0]` too when only one is given. The source
     * reads `offsets[0]` unconditionally.
     */
    function Offset(offsets: seq<Point>): (r: Line)
      requires |offsets| >= 1
      ensures r.p0.Minus(p0) == offsets[0]
      ensures r.p1.Minus(p1) == (if |offsets| > 1 then offsets[1] else offsets[0])
    {
      Line(p0.Plus(offsets[0]), p1.Plus(if |offsets| > 1 then offsets[1] else offsets[0]))
    }

    /** `pointsSortedByHeight`: both end points, lower y first. */
    function PointsSortedByHeight(): (r: (Point, Point))
      ensures r.0.y <= r.1.y
      ensures (r.0 == p0 && r.1 == p1) || (r.0 == p1 && r.1 == p0)
    {
      var low := if p0.y < p1.y then p0 else p1;
      var high := if p0.y < p1.y then p1 else p0;
      (low, high)
    }

    /** `pointsSortedByLength`: both end points, lower x first. */
    function PointsSortedByLength(): (r: (Point, Point))
      ensures r.0.x <= r.1.x
      ensures (r.0 == p0 && r.1 == p1) || (r.0 == p1 && r.1 == p0)
    {
      var low := if p0.x < p1.x then p0 else p1;
      var high := if p0.x < p1.x then p1 else p0;
      (low, high)
    }

    /**
     * `linearEquation`: `y = m*x + c` through both end points, or `null`
     * for a vertical line.
     */
    function Equation(): (r: Option<LinearEquation>)
      ensures r.None? <==> IsVertical()
      ensures r.Some? ==> p0.y == r.value.m * p0.x + r.value.c
      ensures r.Some? ==> p1.y == r.value.m * p1.x + r.value.c
      ensures r.Some? ==> (r.value.m == 0.0 <==> IsHorizontal())
    {
      if IsVertical() then None
      else
        var m := (p1.y - p0.y) / (p1.x - p0.x);
        var c := p0.y - m * p0.x;
        assert m * (p1.x - p0.x) == p1.y - p0.y;
        Some(LinearEquation(m, c))
    }

    /**
     * `pointOfIntersection`: the crossing point of two segments, or `null`.
     * Two vertical lines never meet, nor do non-vertical ones of equal slope.
     * Otherwise the result is the common point of the two segments when
     * there is one, and `null` when there is none.
     */
    function PointOfIntersection(other: Line): (r: Option<Point>)
      ensures IsVertical() && other.IsVertical() ==> r.None?
      ensures Equation().Some? && other.Equation().Some? && Equation().value.m == other.Equation().value.m ==> r.None?
      ensures r.Some? ==> OnBoth(other, r.value)
      ensures !(IsVertical() && other.IsVertical()) &&
              !(Equation().Some? && other.Equation().Some? && Equation().value.m == other.Equation().value.m) ==>
              forall p :: OnBoth(other, p) ==> r == Some(p)
    {
      var mine := Equation();
      var theirs := other.Equation();
      if mine.None? && theirs.None? then None
      else if mine.None? then VerticalCrossing(this, other)
      else if theirs.None? then VerticalCrossing(other, this)
      else if mine.value.m == theirs.value.m then None
      else SlopeCrossing(this, other)
    }
  }

  /** The one-vertical branch of `pointOfIntersection`. */
  function VerticalCrossing(vert: Line, nonVert: Line): (r: Option<Point>)
    requires vert.IsVertical() && !nonVert.IsVertical()
    ensures r.Some? ==> vert.OnBoth(nonVert, r.value)
    ensures forall p :: vert.OnBoth(nonVert, p) ==> r == Some(p)
  {
    // Intersection at the vertical line's x, y from the other's equation
    var x := vert.p0.x;
    var eq := nonVert.Equation().value;
    var y := eq.m * x + eq.c;
    VerticalCrossingUnique(vert, nonVert, x, y);
    var (lowPoint, highPoint) := vert.PointsSortedByHeight();
    assert lowPoint.y == Min(vert.p0.y, vert.p1.y) && highPoint.y == Max(vert.p0.y, vert.p1.y);
    if y >= lowPoint.y && y <= highPoint.y then
      var (leftPoint, rightPoint) := nonVert.PointsSortedByLength();
      assert leftPoint.x == Min(nonVert.p0.x, nonVert.p1.x) && rightPoint.x == Max(nonVert.p0.x, nonVert.p1.x);
      if x >= leftPoint.x && x <= rightPoint.x then Some(Point(x, y))
      else None
    else None
  }

  /** The branch of `pointOfIntersection` for two non-vertical lines of different slopes. */
  function SlopeCrossing(a: Line, b: Line): (r: Option<Point>)
    requires !a.IsVertical() && !b.IsVertical()
    requires a.Equation().value.m != b.Equation().value.m
    ensures r.Some? ==> a.OnBoth(b, r.value)
    ensures forall p :: a.OnBoth(b, p) ==> r == Some(p)
  {
    var ea := a.Equation().value;
    var eb := b.Equation().value;
    var lhs := ea.m - eb.m;
    var rhs := eb.c - ea.c;
    var x := rhs / lhs;
    var y := ea.m * x + ea.c;
    SlopeCrossingUnique(a, b, x, y);
    SlopeCrossingOnBoth(a, b, x, y);
    var aByX := a.PointsSortedByLength();
    var bByX := b.PointsSortedByLength();
    assert aByX.0.x == Min(a.p0.x, a.p1.x) && aByX.1.x == Max(a.p0.x, a.p1.x);
    assert bByX.0.x == Min(b.p0.x, b.p1.x) && bByX.1.x == Max(b.p0.x, b.p1.x);
    if x >= aByX.0.x && x <= aByX.1.x && x >= bByX.0.x && x <= bByX.1.x then Some(Point(x, y))
    else None
  }

  /**
   * A line is vertical when its vector has no horizontal extent, horizontal
   * when it has no vertical extent, and diagonal when it has both.
   */
  lemma LineOrientation(l: Line)
    ensures l.IsVertical() <==> l.ToVector().Dim().x == 0.0
    ensures l.IsHorizontal() <==> l.ToVector().Dim().y == 0.0
    ensures l.IsDiagonal() <==> l.ToVector().Dim().x != 0.0 && l.ToVector().Dim().y != 0.0
  {
  }

  /** A point on a non-vertical line's equation is collinear with the line. */
  lemma EquationCollinear(l: Line, p: Point)
    requires !l.IsVertical()
    requires p.y == l.Equation().value.m * p.x + l.Equation().value.c
    ensures l.Collinear(p)
  {
    var m := l.Equation().value.m;
    var dx := l.p1.x - l.p0.x;
    assert m * dx == l.p1.y - l.p0.y;
    assert p.y - l.p0.y == m * (p.x - l.p0.x);
    calc {
      (p.y - l.p0.y) * dx;
      m * (p.x - l.p0.x) * dx;
      (p.x - l.p0.x) * (m * dx);
      (p.x - l.p0.x) * (l.p1.y - l.p0.y);
    }
  }

  /** Conversely, every point collinear with a non-vertical line satisfies its equation. */
  lemma CollinearOnEquation(l: Line)
    requires !l.IsVertical()
    ensures forall p :: l.Collinear(p) ==> p.y == l.Equation().value.m * p.x + l.Equation().value.c
  {
    var m, c := l.Equation().value.m, l.Equation().value.c;
    var dx, dy := l.p1.x - l.p0.x, l.p1.y - l.p0.y;
    assert m * dx == dy;
    forall p | l.Collinear(p) ensures p.y == m * p.x + c {
      assert (p.x - l.p0.x) * dy == (p.y - l.p0.y) * dx;
      assert ((p.x - l.p0.x) * m) * dx == (p.y - l.p0.y) * dx;
      assert (p.x - l.p0.x) * m == p.y - l.p0.y;
    }
  }

  /** Two non-vertical lines of different slopes share at most the point their equations give. */
  lemma SlopeCrossingUnique(a: Line, b: Line, x: real, y: real)
    requires !a.IsVertical() && !b.IsVertical()
    requires a.Equation().value.m != b.Equation().value.m
    requires x == (b.Equation().value.c - a.Equation().value.c) / (a.Equation().value.m - b.Equation().value.m)
    requires y == a.Equation().value.m * x + a.Equation().value.c
    ensures forall p :: a.Collinear(p) && b.Collinear(p) ==> p == Point(x, y)
  {
    var ea, eb := a.Equation().value, b.Equation().value;
    CollinearOnEquation(a);
    CollinearOnEquation(b);
    forall p | a.Collinear(p) && b.Collinear(p) ensures p == Point(x, y) {
      SolveLinear(ea.m, ea.c, eb.m, eb.c, p.x, p.y);
    }
  }

  /** The point computed from two different slopes lies on both lines. */
  lemma SlopeCrossingOnBoth(a: Line, b: Line, x: real, y: real)
    requires !a.IsVertical() && !b.IsVertical()
    requires a.Equation().value.m != b.Equation().value.m
    requires x == (b.Equation().value.c - a.Equation().value.c) / (a.Equation().value.m - b.Equation().value.m)
    requires y == a.Equation().value.m * x + a.Equation().value.c
    ensures a.Collinear(Point(x, y)) && b.Collinear(Point(x, y))
  {
    var ea, eb := a.Equation().value, b.Equation().value;
    assert (ea.m - eb.m) * x == eb.c - ea.c;
    assert y == eb.m * x + eb.c;
    EquationCollinear(a, Point(x, y));
    EquationCollinear(b, Point(x, y));
  }

  /**
   * A vertical line and a non-vertical one share only the point at the
   * vertical line's x on the other's equation, and that point is on both.
   */
  lemma VerticalCrossingUnique(vert: Line, nonVert: Line, x: real, y: real)
    requires vert.IsVertical() && !nonVert.IsVertical()
    requires x == vert.p0.x && y == nonVert.Equation().value.m * x + nonVert.Equation().value.c
    ensures forall p :: vert.InXRange(p) && nonVert.Collinear(p) ==> p == Point(x, y)
    ensures vert.Collinear(Point(x, y)) && vert.InXRange(Point(x, y)) && nonVert.Collinear(Point(x, y))
  {
    CollinearOnEquation(nonVert);
    EquationCollinear(nonVert, Point(x, y));
  }

  /** The x where `y = ma*x + ca` meets `y = mb*x + cb` for different slopes. */
  lemma SolveLinear(ma: real, ca: real, mb: real, cb: real, x: real, y: real)
    requires ma != mb && y == ma * x + ca && y == mb * x + cb
    ensures x == (cb - ca) / (ma - mb)
  {
    assert (ma - mb) * x == cb - ca;
  }

  /** `Line.posDim`: the segment from `pos` to `pos + dim`. */
  function LinePosDim(pos: Point, dim: Point): (r: Line)
    ensures r.Pos() == pos && r.ToVector().Dim() == dim
  {
    Line(pos, pos.Plus(dim))
  }

  /** A single offset moves both end points alike, so the vector is unchanged. */
  lemma OffsetKeepsVector(l: Line, d: Point)
    ensures l.Offset([d]).ToVector() == l.ToVector()
  {
  }

  /** Offsetting by `[a, b]` and then by `[-a, -b]` restores the line. */
  lemma OffsetInverse(l: Line, a: Point, b: Point)
    ensures l.Offset([a, b]).Offset([a.Scale(-1.0), b.Scale(-1.0)]) == l
  {
  }

  /**
   * The one source object that is updated in place: a `Line` whose `offset`
   * method replaces its points.
   */
  class LineRef {
    var line: Line

    constructor (point1: Point, point2: Point)
      ensures line == Line(point1, point2)
    {
      line := Line(point1, point2);
    }

    method Offset(offsets: seq<Point>)
      requires |offsets| >= 1
      modifies this
      ensures line == old(line).Offset(offsets)
    {
      var first := line.p0.Plus(offsets[0]);
      var second := if |offsets| > 1 then line.p1.Plus(offsets[1]) else line.p1.Plus(offsets[0]);
      line := Line(first, line.p1);
      line := Line(line.p0, second);
    }
  }

  /** Rectangle edges as `{left, top, right, bottom}`. */
  datatype Tlbr = Tlbr(left: real, top: real, right: real, bottom: real)

  /** `new Rect(pos, size)`: an axis-aligned rectangle from its top-left corner. */
  datatype Rect = Rect(pos: Point, size: Point) {

    /** `polygon`: the four corners, clockwise from the top-left. */
    function ToPolygon(): (p: Polygon)
      ensures p.Valid() && |p.points| == 4
      ensures p.points[0] == pos && p.points[2] == pos.Plus(size)
    {
      var x, y, w, h := pos.x, pos.y, size.x, size.y;
      Polygon([Point(x, y), Point(x + w, y), Point(x + w, y + h), Point(x, y + h)])
    }

    function Area(): (a: real)
      ensures a >= 0.0
    {
      Abs(size.x * size.y)
    }

    /** `tlbrFormat`. */
    function TlbrFormat(): (r: Tlbr)
      ensures r.left == pos.x && r.top == pos.y
      ensures r.right - r.left == size.x && r.bottom - r.top == size.y
    {
      Tlbr(pos.x, pos.y, pos.x + size.x, pos.y + size.y)
    }

    /**
     * `intersectsRect`: not separated on either axis. Separation needs a
     * strict gap, so rectangles that only touch count as intersecting.
     */
    predicate IntersectsRect(other: Rect): (r: bool)
      ensures size.x >= 0.0 && size.y >= 0.0 && other.size.x >= 0.0 && other.size.y >= 0.0 ==>
        (r <==> exists p :: ClosedContains(p) && other.ClosedContains(p))
    {
      var r1 := TlbrFormat();
      var r2 := other.TlbrFormat();
      var overlap := !(r2.left > r1.right || r2.right < r1.left || r2.top > r1.bottom || r2.bottom < r1.top);
      // For non-negative sizes, the corner nearest the bottom right of both
      // top-left corners witnesses the overlap.
      var corner := Point(Max(pos.x, other.pos.x), Max(pos.y, other.pos.y));
      assert size.x >= 0.0 && size.y >= 0.0 && other.size.x >= 0.0 && other.size.y >= 0.0 && overlap ==>
        ClosedContains(corner) && other.ClosedContains(corner);
      overlap
    }

    /** `p` lies in the closed rectangle (for a non-negative size). */
    predicate ClosedContains(p: Point) {
      pos.x <= p.x <= pos.x + size.x && pos.y <= p.y <= pos.y + size.y
    }

    /**
     * `containsPoint`: strictly inside; boundary points are excluded. A
     * contained point lies in the closed rectangle, which then has a
     * positive size.
     */
    predicate ContainsPoint(p: Point): (r: bool)
      ensures r ==> ClosedContains(p) && size.x > 0.0 && size.y > 0.0
    {
      p.x > pos.x && p.x < pos.x + size.x && p.y > pos.y && p.y < pos.y + size.y
    }

    /**
     * `intersectsPolygon`: the layered polygon test on this rect's polygon,
     * so a (non-negatively sized) rectangle only meets a polygon whose
     * bounding box it overlaps.
     */
    predicate IntersectsPolygon(p: Polygon): (r: bool)
      requires p.Valid()
      ensures size.x >= 0.0 && size.y >= 0.0 && r ==> IntersectsRect(p.Bounds())
    {
      if size.x >= 0.0 && size.y >= 0.0 then
        RectPolygonBounds(this);
        ToPolygon().Meets(p)
      else
        ToPolygon().Meets(p)
    }
  }

  lemma IntersectsRectSymmetric(a: Rect, b: Rect)
    ensures a.IntersectsRect(b) == b.IntersectsRect(a)
  {
  }

  /** Rectangles sharing only an edge or a corner still intersect. */
  lemma TouchingRectsIntersect(a: Rect, b: Rect)
    requires a.size.x >= 0.0 && a.size.y >= 0.0 && b.size.x >= 0.0 && b.size.y >= 0.0
    requires b.pos.x == a.pos.x + a.size.x && a.pos.y <= b.pos.y <= a.pos.y + a.size.y
    ensures a.IntersectsRect(b)
  {
  }

  /** `containsPoint` excludes every point of the boundary. */
  lemma ContainsPointExcludesBoundary(r: Rect, p: Point)
    requires p.x == r.pos.x || p.x == r.pos.x + r.size.x || p.y == r.pos.y || p.y == r.pos.y + r.size.y
    ensures !r.ContainsPoint(p)
  {
  }

  /** A point strictly inside a rectangle meets it as a zero-size rectangle. */
  lemma ContainedPointIntersects(r: Rect, p: Point)
    requires r.ContainsPoint(p)
    ensures r.IntersectsRect(Rect(p, Origin))
  {
  }

  // ---------------------------------------------------------------------
  // Polygon
  // ---------------------------------------------------------------------

  /** The argument check of the `Polygon` constructor. */
  function NewPolygon(points: seq<Point>): (r: Result<Polygon, string>)
    ensures r.Ok? <==> |points| >= 3
    ensures r.Ok? ==> r.value.points == points && r.value.Valid()
  {
    // A Dafny sequence is always an array, so only the length check remains.
    if |points| < 3 then Err("A polygon must have at least 3 points!")
    else Ok(Polygon(points))
  }

  /** A closed polygon through `points`, last point joined to the first. */
  datatype Polygon = Polygon(points: seq<Point>) {

    /** The invariant the constructor enforces. */
    predicate Valid() { |points| >= 3 }

    function SideAt(i: nat): Line
      requires i < |points|
    {
      Line(points[i], points[if i == |points| - 1 then 0 else i + 1])
    }

    /** The sides as lines: side `i` runs from point `i` to point `i + 1` modulo n. */
    function SideLines(): (r: seq<Line>)
      ensures |r| == |points|
      ensures forall i :: 0 <= i < |r| ==> r[i] == Line(points[i], points[(i + 1) % |points|])
    {
      seq(|points|, i requires 0 <= i < |points| => SideAt(i))
    }

    /** `sides`. */
    method Sides() returns (lines: seq<Line>)
      ensures lines == SideLines()
    {
      lines := [];
      var i := 0;
      while i < |points|
        invariant 0 <= i <= |points|
        invariant lines == SideLines()[..i]
      {
        lines := lines + [Line(points[i], points[if i == |points| - 1 then 0 else i + 1])];
        i := i + 1;
      }
    }

    /** `area`: the absolute value of the shoelace sum. */
    function AreaOf(): (a: real)
      ensures a >= 0.0
    {
      Abs(TrapezoidSum(SideLines()))
    }

    method Area() returns (area: real)
      ensures area == AreaOf()
    {
      var sides := Sides();
      var sum := 0.0;
      var i := 0;
      while i < |sides|
        invariant 0 <= i <= |sides|
        invariant sum == TrapezoidSum(sides[..i])
      {
        var side := sides[i];
        var width := side.p1.x - side.p0.x;
        var avgHeight := (side.p0.y + side.p1.y) / 2.0;
        sum := sum + width * avgHeight;
        assert sides[..i + 1][..i] == sides[..i];
        i := i + 1;
      }
      assert sides[..i] == sides;
      area := Abs(sum);
    }

    /** The rectangle `boundingBox` returns. */
    function Bounds(): (r: Rect)
      requires Valid()
      ensures r.size.x >= 0.0 && r.size.y >= 0.0
    {
      MinMaxNonEmpty(points);
      var lo := Point(MinX(points), MinY(points));
      Rect(lo, Point(MaxX(points), MaxY(points)).Minus(lo))
    }

    /**
     * `boundingBox`. The source starts its minima at `Infinity` and its maxima
     * at `-Infinity`, so the first point sets all four; starting from the
     * first point gives the same result.
     */
    method BoundingBox() returns (box: Rect)
      requires Valid()
      ensures box == Bounds()
    {
      var minX, minY, maxX, maxY := points[0].x, points[0].y, points[0].x, points[0].y;
      assert points[..1] == [points[0]];
      var i := 0;
      while i < |points|
        invariant 0 <= i <= |points|
        invariant i == 0 ==> minX == maxX == points[0].x && minY == maxY == points[0].y
        invariant i > 0 ==> minX == MinX(points[..i]) && maxX == MaxX(points[..i])
        invariant i > 0 ==> minY == MinY(points[..i]) && maxY == MaxY(points[..i])
      {
        var point := points[i];
        assert points[..i + 1][..i] == points[..i];
        if point.x > maxX { maxX := point.x; }
        if point.x < minX { minX := point.x; }
        if point.y > maxY { maxY := point.y; }
        if point.y < minY { minY := point.y; }
        i := i + 1;
      }
      assert points[..i] == points;
      box := Rect(Point(minX, minY), Point(maxX - minX, maxY - minY));
    }

    /** `isRect`: four points whose area equals that of their bounding box. */
    predicate IsRect()
      requires Valid()
    {
      |points| == 4 && AreaOf() == Bounds().Area()
    }

    /** Some side of this polygon crosses some side of `other`. */
    predicate SidesCross(other: Polygon) {
      var a, b := SideLines(), other.SideLines();
      exists i, j :: 0 <= i < |a| && 0 <= j < |b| && a[i].PointOfIntersection(b[j]).Some?
    }

    /** Some point of `other` has an odd ray-cast crossing count against this polygon. */
    predicate HasVertexOf(other: Polygon) {
      exists i :: 0 <= i < |other.points| && Crossings(other.points[i], SideLines()) % 2 != 0
    }

    /**
     * The specification of the `intersects` method below, which computes it
     * with loops: reject on disjoint bounding boxes, accept
     * two rectangles, then look for crossing sides, then for a point of
     * `other` inside this polygon.
     */
    predicate Meets(other: Polygon)
      requires Valid() && other.Valid()
    {
      if !Bounds().IntersectsRect(other.Bounds()) then false
      else if IsRect() && other.IsRect() then true
      else SidesCross(other) || HasVertexOf(other)
    }

    /** `intersects`. */
    method Intersects(other: Polygon) returns (hit: bool)
      requires Valid() && other.Valid()
      ensures hit == Meets(other)
      ensures !Bounds().IntersectsRect(other.Bounds()) ==> !hit
      ensures Bounds().IntersectsRect(other.Bounds()) && IsRect() && other.IsRect() ==> hit
    {
      var box1 := BoundingBox();
      var box2 := other.BoundingBox();
      if !box1.IntersectsRect(box2) { return false; }
      if IsRect() && other.IsRect() { return true; }

      var sides := Sides();
      var otherSides := other.Sides();
      hit := AnySidesCross(sides, otherSides);
      if hit {
        return;
      }
      hit := AnyPointInside(other.points, sides);
    }
  }

  /** The side-crossing loops of `intersects`: does any side of `a` meet any side of `b`? */
  method AnySidesCross(a: seq<Line>, b: seq<Line>) returns (hit: bool)
    ensures hit <==> exists i, j :: 0 <= i < |a| && 0 <= j < |b| && a[i].PointOfIntersection(b[j]).Some?
  {
    var i := 0;
    while i < |a|
      invariant 0 <= i <= |a|
      invariant forall i', j :: 0 <= i' < i && 0 <= j < |b| ==> a[i'].PointOfIntersection(b[j]).None?
    {
      var j := 0;
      while j < |b|
        invariant 0 <= j <= |b|
        invariant forall j' :: 0 <= j' < j ==> a[i].PointOfIntersection(b[j']).None?
      {
        if a[i].PointOfIntersection(b[j]).Some? {
          return true;
        }
        j := j + 1;
      }
      i := i + 1;
    }
    return false;
  }

  /** The ray-casting loops of `intersects`: has any of `points` an odd crossing count? */
  method AnyPointInside(points: seq<Point>, sides: seq<Line>) returns (hit: bool)
    ensures hit <==> exists i :: 0 <= i < |points| && Crossings(points[i], sides) % 2 != 0
  {
    var i := 0;
    while i < |points|
      invariant 0 <= i <= |points|
      invariant forall i' :: 0 <= i' < i ==> Crossings(points[i'], sides) % 2 == 0
    {
      var point := points[i];
      var numIntersections := 0;
      var j := 0;
      while j < |sides|
        invariant 0 <= j <= |sides|
        invariant numIntersections == Crossings(point, sides[..j])
      {
        assert sides[..j + 1][..j] == sides[..j];
        if SideRaycastToPoint(point, sides[j]) {
          numIntersections := numIntersections + 1;
        }
        j := j + 1;
      }
      assert sides[..j] == sides;
      if numIntersections % 2 != 0 {
        return true;
      }
      i := i + 1;
    }
    return false;
  }

  /** Sum of the trapezoid terms `width * averageHeight` over `sides`. */
  function TrapezoidSum(sides: seq<Line>): real {
    if sides == [] then 0.0
    else
      var side := sides[|sides| - 1];
      TrapezoidSum(sides[..|sides| - 1]) + (side.p1.x - side.p0.x) * ((side.p0.y + side.p1.y) / 2.0)
  }

  function MinX(ps: seq<Point>): real
    requires |ps| > 0
  {
    if |ps| == 1 then ps[0].x else Min(MinX(ps[..|ps| - 1]), ps[|ps| - 1].x)
  }

  function MaxX(ps: seq<Point>): real
    requires |ps| > 0
  {
    if |ps| == 1 then ps[0].x else Max(MaxX(ps[..|ps| - 1]), ps[|ps| - 1].x)
  }

  function MinY(ps: seq<Point>): real
    requires |ps| > 0
  {
    if |ps| == 1 then ps[0].y else Min(MinY(ps[..|ps| - 1]), ps[|ps| - 1].y)
  }

  function MaxY(ps: seq<Point>): real
    requires |ps| > 0
  {
    if |ps| == 1 then ps[0].y else Max(MaxY(ps[..|ps| - 1]), ps[|ps| - 1].y)
  }

  lemma {:induction false} MinMaxNonEmpty(ps: seq<Point>)
    requires |ps| > 0
    ensures MinX(ps) <= MaxX(ps) && MinY(ps) <= MaxY(ps)
  {
    if |ps| > 1 { MinMaxNonEmpty(ps[..|ps| - 1]); }
  }

  /** The extremes bound every point and are each attained by some point. */
  lemma {:induction false} ExtremesTight(ps: seq<Point>)
    requires |ps| > 0
    ensures forall i :: 0 <= i < |ps| ==> MinX(ps) <= ps[i].x <= MaxX(ps) && MinY(ps) <= ps[i].y <= MaxY(ps)
    ensures exists i :: 0 <= i < |ps| && ps[i].x == MinX(ps)
    ensures exists i :: 0 <= i < |ps| && ps[i].x == MaxX(ps)
    ensures exists i :: 0 <= i < |ps| && ps[i].y == MinY(ps)
    ensures exists i :: 0 <= i < |ps| && ps[i].y == MaxY(ps)
  {
    if |ps| > 1 {
      var init := ps[..|ps| - 1];
      ExtremesTight(init);
      assert forall i :: 0 <= i < |init| ==> init[i] == ps[i];
    }
  }

  /** The bounding box has a non-negative size, contains every vertex and touches each side. */
  lemma BoundsTight(p: Polygon)
    requires p.Valid()
    ensures forall i :: 0 <= i < |p.points| ==> p.Bounds().ClosedContains(p.points[i])
    ensures exists i :: 0 <= i < |p.points| && p.points[i].x == p.Bounds().pos.x
    ensures exists i :: 0 <= i < |p.points| && p.points[i].y == p.Bounds().pos.y
    ensures exists i :: 0 <= i < |p.points| && p.points[i].x == p.Bounds().pos.x + p.Bounds().size.x
    ensures exists i :: 0 <= i < |p.points| && p.points[i].y == p.Bounds().pos.y + p.Bounds().size.y
  {
    ExtremesTight(p.points);
  }

  /** A rectangle bounds a point set that it contains and that touches its four sides. */
  lemma BoundsUnique(p: Polygon, r: Rect)
    requires p.Valid()
    requires forall i :: 0 <= i < |p.points| ==> r.ClosedContains(p.points[i])
    requires exists i :: 0 <= i < |p.points| && p.points[i].x == r.pos.x
    requires exists i :: 0 <= i < |p.points| && p.points[i].y == r.pos.y
    requires exists i :: 0 <= i < |p.points| && p.points[i].x == r.pos.x + r.size.x
    requires exists i :: 0 <= i < |p.points| && p.points[i].y == r.pos.y + r.size.y
    ensures p.Bounds() == r
  {
    ExtremesTight(p.points);
    var b := p.Bounds();
    assert b.pos.x == r.pos.x;
    assert b.pos.y == r.pos.y;
    assert b.pos.x + b.size.x == r.pos.x + r.size.x;
    assert b.pos.y + b.size.y == r.pos.y + r.size.y;
  }

  /**
   * `sideRaycastToPoint`: does a ray cast rightwards towards `target` cross
   * `side` before reaching it? Horizontal sides and sides that do not
   * strictly straddle the target's height never count; otherwise the side
   * counts iff the point where it crosses that height lies left of `target`.
   */
  function SideRaycastToPoint(target: Point, side: Line): (r: bool)
    ensures side.IsHorizontal() ==> !r
    ensures !Straddles(side, target.y) ==> !r
    ensures Straddles(side, target.y) && side.IsVertical() ==> (r <==> side.p0.x < target.x)
    ensures Straddles(side, target.y) ==>
      forall px :: side.Collinear(Point(px, target.y)) ==> (r <==> px < target.x)
  {
    var point1, point2 := side.p0, side.p1;
    if point1.y == point2.y then false
    else
      var raycastY := target.y;
      if (point1.y > raycastY && point2.y < raycastY) || (point1.y < raycastY && point2.y > raycastY) then
        if point1.x == point2.x then
          CrossingOfVertical(side, target.y);
          point1.x < target.x
        else
          var eq := side.Equation().value;
          var poiX := (raycastY - eq.c) / eq.m;
          CrossingOfSlope(side, target.y, poiX);
          poiX < target.x
      else false
  }

  /** The side's end points lie strictly on opposite sides of height `y`. */
  predicate Straddles(side: Line, y: real) {
    (side.p0.y > y && side.p1.y < y) || (side.p0.y < y && side.p1.y > y)
  }

  lemma CrossingOfVertical(side: Line, y: real)
    requires side.IsVertical() && !side.IsHorizontal()
    ensures forall px :: side.Collinear(Point(px, y)) ==> px == side.p0.x
  {
    forall px | side.Collinear(Point(px, y)) ensures px == side.p0.x {
      var dy := side.p1.y - side.p0.y;
      assert (px - side.p0.x) * dy == 0.0;
    }
  }

  lemma CrossingOfSlope(side: Line, y: real, poiX: real)
    requires !side.IsVertical() && !side.IsHorizontal()
    requires poiX == (y - side.Equation().value.c) / side.Equation().value.m
    ensures forall px :: side.Collinear(Point(px, y)) ==> px == poiX
  {
    var m := side.Equation().value.m;
    var c := side.Equation().value.c;
    var dx := side.p1.x - side.p0.x;
    var dy := side.p1.y - side.p0.y;
    assert m * dx == dy;
    assert side.p0.y == m * side.p0.x + c;
    assert m * poiX == y - c;
    forall px | side.Collinear(Point(px, y)) ensures px == poiX {
      assert (px - side.p0.x) * dy == (y - side.p0.y) * dx;
      assert (px - side.p0.x) * (m * dx) == (m * (poiX - side.p0.x)) * dx;
      assert (px - side.p0.x) * m == m * (poiX - side.p0.x);
    }
  }

  /** The number of `sides` a ray to `target` crosses (`numIntersections`). */
  function Crossings(target: Point, sides: seq<Line>): nat {
    if sides == [] then 0
    else Crossings(target, sides[..|sides| - 1]) + (if SideRaycastToPoint(target, sides[|sides| - 1]) then 1 else 0)
  }

  // ---------------------------------------------------------------------
  // Rectangles as polygons
  // ---------------------------------------------------------------------

  lemma AbsProduct(a: real, b: real)
    ensures Abs(a) * Abs(b) == Abs(a * b)
  {
    if a < 0.0 && b < 0.0 { assert a * b == (-a) * (-b); }
    else if a < 0.0 { assert -(a * b) == (-a) * b; }
    else if b < 0.0 { assert -(a * b) == a * (-b); }
  }

  /** A rectangle's polygon has the rectangle's area, `|w*h|`. */
  lemma RectPolygonArea(r: Rect)
    ensures r.ToPolygon().AreaOf() == r.Area() == Abs(r.size.x * r.size.y)
  {
    var p := r.ToPolygon();
    var s := p.SideLines();
    var x, y, w, h := r.pos.x, r.pos.y, r.size.x, r.size.y;
    assert s[..4] == s && s[..4][..3] == s[..3] && s[..3][..2] == s[..2] && s[..2][..1] == s[..1] && s[..1][..0] == [];
    assert TrapezoidSum(s[..1]) == w * y;
    assert TrapezoidSum(s[..2]) == w * y;
    assert TrapezoidSum(s[..3]) == w * y - w * (y + h);
    assert TrapezoidSum(s) == -(w * h);
  }

  /** A rectangle's polygon has the rectangle as its bounding box when normalised (w, h >= 0). */
  lemma RectPolygonBounds(r: Rect)
    requires r.size.x >= 0.0 && r.size.y >= 0.0
    ensures r.ToPolygon().Bounds() == r
  {
    var p := r.ToPolygon();
    assert p.points[0] == r.pos;
    assert p.points[2] == r.pos.Plus(r.size);
    BoundsUnique(p, r);
  }

  /** The bounding box of any rectangle's polygon has size `(|w|, |h|)`. */
  lemma RectPolygonBoundsSize(r: Rect)
    ensures r.ToPolygon().Bounds().size == Point(Abs(r.size.x), Abs(r.size.y))
  {
    var p := r.ToPolygon();
    var x, y, w, h := r.pos.x, r.pos.y, r.size.x, r.size.y;
    var n := Rect(Point(Min(x, x + w), Min(y, y + h)), Point(Abs(w), Abs(h)));
    assert p.points[0] == Point(x, y) && p.points[1] == Point(x + w, y);
    assert p.points[2] == Point(x + w, y + h) && p.points[3] == Point(x, y + h);
    BoundsUnique(p, n);
  }

  /** Every rectangle's polygon passes `isRect`, and only 4-point polygons can. */
  lemma RectPolygonIsRect(r: Rect)
    ensures r.ToPolygon().IsRect()
    ensures forall p: Polygon :: p.Valid() && |p.points| != 4 ==> !p.IsRect()
  {
    RectPolygonArea(r);
    RectPolygonBoundsSize(r);
    AbsSizeArea(r.ToPolygon().Bounds().pos, r.size.x, r.size.y);
  }

  /** A rectangle sized by the magnitudes of `w` and `h` has the area `|w * h|`. */
  lemma AbsSizeArea(pos: Point, w: real, h: real)
    ensures Rect(pos, Point(Abs(w), Abs(h))).Area() == Abs(w * h)
  {
    AbsProduct(w, h);
    var k := Abs(w) * Abs(h);
    assert k == Abs(w * h);
    assert Abs(k) == k;
  }

  /** Two rectangle polygons intersect exactly when their rectangles do. */
  lemma RectPolygonsMeet(a: Rect, b: Rect)
    requires a.size.x >= 0.0 && a.size.y >= 0.0 && b.size.x >= 0.0 && b.size.y >= 0.0
    ensures a.IntersectsPolygon(b.ToPolygon()) == a.IntersectsRect(b)
  {
    RectPolygonIsRect(a);
    RectPolygonIsRect(b);
    RectPolygonBounds(a);
    RectPolygonBounds(b);
  }
}
