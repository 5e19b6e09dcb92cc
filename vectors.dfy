/**
 * src/server/Vector.js: a vector held, as in the source, by its two end
 * points; every operation returns a new value.
 */
module Vectors {

  /** A board position `[x, y]`. */
  datatype Point = Point(x: real, y: real) {

    function Plus(o: Point): Point {
      Point(x + o.x, y + o.y)
    }

    function Minus(o: Point): Point {
      Point(x - o.x, y - o.y)
    }

    function Scale(k: real): Point {
      Point(k * x, k * y)
    }
  }

  const Origin := Point(0.0, 0.0)

  /** `new Vector(point1, point2)`. */
  datatype Vector = Vector(p0: Point, p1: Point) {

    /** `getDim`: the extent of the vector along x and y, leading from the start to the end. */
    function Dim(): (d: Point)
      ensures p0.Plus(d) == p1
    {
      p1.Minus(p0)
    }

    /** `pos`: the start point; with the extent it rebuilds the vector. */
    function Pos(): (p: Point)
      ensures Vector(p, p.Plus(Dim())) == this
    {
      p0
    }

    /**
     * `dot`: the dot product of the two dimensions. A vector's dot product
     * with itself (its squared magnitude) is non-negative, and zero exactly
     * for a zero extent.
     */
    function Dot(v: Vector): (r: real)
      ensures v == this ==> r >= 0.0
      ensures v == this && Dim() == Origin ==> r == 0.0
      ensures v == this && Dim() != Origin ==> r > 0.0
    {
      var a, b := Dim().x * v.Dim().x, Dim().y * v.Dim().y;
      var d := Dim();
      SquareNonNegative(d.x);
      SquareNonNegative(d.y);
      assert d != Origin ==> d.x != 0.0 || d.y != 0.0;
      a + b
    }

    /** `multiply`: the vector from the same start with its dimension scaled by `k`. */
    function Multiply(k: real): (r: Vector)
      ensures r.Pos() == Pos()
      ensures r.Dim() == Dim().Scale(k)
    {
      PosDim(Pos(), Dim().Scale(k))
    }

    /**
     * `projectOnto`: the orthogonal projection of this vector onto `d`.
     * The source divides by the squared magnitude of `d`, written here as
     * `d.Dot(d)`, so `d` must not be the zero vector.
     */
    function ProjectOnto(d: Vector): (r: Vector)
      requires d.Dot(d) != 0.0
      ensures r.Pos() == d.Pos()
      // the projection is parallel to d
      ensures r.Dim().x * d.Dim().y == r.Dim().y * d.Dim().x
    {
      d.Multiply(Dot(d) / d.Dot(d))
    }
  }

  /**
   * `Vector.posDim`: the vector from `pos` with dimension `dim`. The source
   * builds `[pos, pos[0] + dim[0], pos[1] + dim[1]]` and so loses the end
   * point; this is the evidently intended end `pos + dim`.
   */
  function PosDim(pos: Point, dim: Point): (r: Vector)
    ensures r.Pos() == pos && r.Dim() == dim
  {
    Vector(pos, pos.Plus(dim))
  }

  /** The product of two positive numbers is positive. */
  lemma ProductPositive(x: real, y: real)
    requires x > 0.0 && y > 0.0
    ensures x * y > 0.0
  {
    var k := x * y;
    assert k / y == x;
  }

  /** A square is non-negative, and positive unless it is the square of zero. */
  lemma SquareNonNegative(a: real)
    ensures a * a >= 0.0
    ensures a != 0.0 ==> a * a > 0.0
  {
    if a < 0.0 {
      assert a * a == (-a) * (-a);
      ProductPositive(-a, -a);
    } else if a > 0.0 {
      ProductPositive(a, a);
    }
  }

  /** `dot` is symmetric. */
  lemma DotSymmetric(a: Vector, b: Vector)
    ensures a.Dot(b) == b.Dot(a)
  {
  }

  /** Scaling one side of a dot product scales the product. */
  lemma DotMultiply(a: Vector, b: Vector, k: real)
    ensures a.Multiply(k).Dot(b) == k * a.Dot(b)
  {
    calc {
      a.Multiply(k).Dot(b);
      (k * a.Dim().x) * b.Dim().x + (k * a.Dim().y) * b.Dim().y;
      k * (a.Dim().x * b.Dim().x + a.Dim().y * b.Dim().y);
    }
  }

  /** The residual `v - proj(v, d)` is orthogonal to `d`. */
  lemma ProjectionResidualOrthogonal(v: Vector, d: Vector)
    requires d.Dot(d) != 0.0
    ensures PosDim(d.Pos(), v.Dim().Minus(v.ProjectOnto(d).Dim())).Dot(d) == 0.0
  {
    var k := v.Dot(d) / d.Dot(d);
    var dd := d.Dot(d);
    assert k * dd == v.Dot(d);
    var residual := PosDim(d.Pos(), v.Dim().Minus(v.ProjectOnto(d).Dim()));
    calc {
      residual.Dot(d);
      (v.Dim().x - k * d.Dim().x) * d.Dim().x + (v.Dim().y - k * d.Dim().y) * d.Dim().y;
      v.Dot(d) - k * dd;
      0.0;
    }
  }

  /** Projecting a projection onto the same vector changes nothing. */
  lemma ProjectionIdempotent(v: Vector, d: Vector)
    requires d.Dot(d) != 0.0
    ensures v.ProjectOnto(d).ProjectOnto(d) == v.ProjectOnto(d)
  {
    var dd := d.Dot(d);
    var k := v.Dot(d) / dd;
    var p := v.ProjectOnto(d);
    DotMultiply(d, d, k);
    assert p.Dot(d) == k * dd;
    assert p.Dot(d) / dd == k;
  }
}
