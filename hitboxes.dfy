/**
 * src/server/Hitbox.js: the swept reach of a piece. A hitbox is a square
 * of `hitboxSize` at `pos` dragged along `dir`; its polygon is the union of
 * the start square, the end square and the band between them.
 */
module Hitboxes {
  import opened Wrappers
  import opened Vectors
  import opened JsMath
  import opened Constants
  import opened Polygons
  import MiscUtil
  import Pieces

  /** `Constants.hitboxSize` as a size. */
  const HitboxSize: Point := Point(HitboxW, HitboxH)

  /** `new Hitbox(pos, dir)`. */
  datatype Hitbox = Hitbox(pos: Point, dir: Point) {

    /** `data`: the flat array `[pos, dir]`. */
    function Data(): (d: seq<real>)
      ensures |d| == 4
    {
      [pos.x, pos.y, dir.x, dir.y]
    }

    /** `line`: from the middle of the start square, along `dir`. */
    function CentralLine(): (l: Line)
      ensures l.p0 == pos.Plus(HitboxSize.Scale(0.5))
      ensures l.ToVector().Dim() == dir
    {
      var offsetPos := Point(pos.x + HitboxW / 2.0, pos.y + HitboxH / 2.0);
      Line(offsetPos, Point(offsetPos.x + dir.x, offsetPos.y + dir.y))
    }

    /** The square the hitbox starts from. */
    function StartRect(): Rect {
      Rect(pos, HitboxSize)
    }

    /** The square the hitbox ends on. */
    function EndRect(): Rect {
      Rect(pos.Plus(dir), HitboxSize)
    }

    /** The hitbox has a zero direction or runs along an axis. */
    predicate IsAxisAligned() {
      dir.x == 0.0 || dir.y == 0.0
    }

    /**
     * `polygon`: the start square for a zero direction, a rectangle from
     * the start square to the end square for an axis-aligned direction,
     * and otherwise a hexagon made of corners of both squares, chosen by
     * the signs of the direction's components.
     */
    function ToPolygon(): (p: Polygon)
      ensures p.Valid()
      ensures IsAxisAligned() ==> |p.points| == 4
      ensures !IsAxisAligned() ==> |p.points| == 6
    {
      var s := StartRect().ToPolygon().points;
      var e := EndRect().ToPolygon().points;
      var dirX, dirY := dir.x, dir.y;
      if dirX == 0.0 && dirY == 0.0 then StartRect().ToPolygon()
      else if dirX == 0.0 then
        if dirY > 0.0 then Polygon([s[0], s[1], e[2], e[3]])
        else Polygon([e[0], e[1], s[2], s[3]])
      else if dirY == 0.0 then
        if dirX > 0.0 then Polygon([s[0], e[1], e[2], s[3]])
        else Polygon([e[0], s[1], s[2], e[3]])
      else if dirX > 0.0 && dirY > 0.0 then Polygon([s[0], s[1], e[1], e[2], e[3], s[3]])
      else if dirX > 0.0 && dirY < 0.0 then Polygon([s[0], e[0], e[1], e[2], s[2], s[3]])
      else if dirX < 0.0 && dirY < 0.0 then Polygon([e[0], e[1], s[1], s[2], s[3], e[3]])
      else Polygon([e[0], s[0], s[1], s[2], e[2], e[3]])
    }

    /**
     * The smallest axis-aligned rectangle covering the start and the end
     * square.
     */
    function Hull(): (r: Rect)
      ensures r.size.x >= HitboxW && r.size.y >= HitboxH
    {
      Rect(Point(Min(pos.x, pos.x + dir.x), Min(pos.y, pos.y + dir.y)),
           Point(HitboxW + Abs(dir.x), HitboxH + Abs(dir.y)))
    }

    /** `boundingBox`: the bounding box of the polygon, which is the swept hull. */
    function BoundingBox(): (r: Rect)
      ensures r == Hull()
    {
      BoundsIsHull(this);
      ToPolygon().Bounds()
    }

    /**
     * `intersects`: the layered polygon test on both polygons. What it means
     * for the hulls is Hitboxes.IntersectsByHulls.
     */
    predicate Intersects(other: Hitbox) {
      ToPolygon().Meets(other.ToPolygon())
    }

    /** The same shape moved by `t`. */
    function Shift(t: Point): (h: Hitbox)
      ensures h.dir == dir
    {
      Hitbox(pos.Plus(t), dir)
    }

    /**
     * `pieceTransform`: from template units (squares) to board space for a
     * piece at `piecePos`: `pos` and `dir` are scaled by `sqSize` and `pos`
     * is then offset by `piecePos`.
     */
    function PieceTransform(piecePos: Point): (h: Hitbox)
      ensures h.pos.Minus(piecePos) == Point(pos.x * SqW, pos.y * SqH)
      ensures h.dir == Point(dir.x * SqW, dir.y * SqH)
    {
      var newPos := Point(piecePos.x + pos.x * SqW, piecePos.y + pos.y * SqH);
      var newDir := Point(dir.x * SqW, dir.y * SqH);
      Hitbox(newPos, newDir)
    }

    /** `centeredOnSquare`: moved by `sqSizeQuarter`, with the same direction. */
    function CenteredOnSquare(): (h: Hitbox)
      ensures h == Shift(Point(SqQuarterW, SqQuarterH))
    {
      Hitbox(Point(pos.x + SqQuarterW, pos.y + SqQuarterH), dir)
    }
  }

  /** `Hitbox.fromData`: the hitbox of a flat `[posX, posY, dirX, dirY]` array. */
  function FromData(data: seq<real>): (h: Hitbox)
    requires |data| >= 4
    ensures h.Data() == data[..4]
  {
    Hitbox(Point(data[0], data[1]), Point(data[2], data[3]))
  }

  /** `fromData` inverts `data`. */
  lemma DataRoundTrip(h: Hitbox)
    ensures FromData(h.Data()) == h
  {
  }

  /** `data` inverts `fromData` on four numbers. */
  lemma FromDataRoundTrip(data: seq<real>)
    requires |data| == 4
    ensures FromData(data).Data() == data
  {
  }

  // ---------------------------------------------------------------------
  // The shape of a hitbox
  // ---------------------------------------------------------------------

  /** With a zero direction the polygon is exactly the start square, and so are its box and hull. */
  lemma ZeroDirectionIsSquare(h: Hitbox)
    requires h.dir == Origin
    ensures h.ToPolygon() == h.StartRect().ToPolygon()
    ensures h.Hull() == h.StartRect() == h.EndRect()
    ensures h.BoundingBox() == h.StartRect()
  {
    RectPolygonBounds(h.StartRect());
  }

  /**
   * A direction along one axis gives the rectangle from the start square to
   * the end square: the hull's own polygon, so a rectangle for `isRect`.
   */
  lemma AxisAlignedIsHullRect(h: Hitbox)
    requires h.IsAxisAligned()
    ensures h.ToPolygon() == h.Hull().ToPolygon()
    ensures h.ToPolygon().IsRect()
  {
    RectPolygonIsRect(h.Hull());
  }

  /** A diagonal direction gives six points, each a corner of the start or the end square. */
  lemma DiagonalCorners(h: Hitbox)
    requires !h.IsAxisAligned()
    ensures |h.ToPolygon().points| == 6
    ensures forall i :: 0 <= i < 6 ==>
      h.ToPolygon().points[i] in h.StartRect().ToPolygon().points ||
      h.ToPolygon().points[i] in h.EndRect().ToPolygon().points
  {
  }

  /** Every corner of both squares lies in the hull, and the hull lies in any rectangle holding them all. */
  lemma HullSmallest(h: Hitbox, r: Rect)
    ensures forall i :: 0 <= i < 4 ==>
      h.Hull().ClosedContains(h.StartRect().ToPolygon().points[i]) &&
      h.Hull().ClosedContains(h.EndRect().ToPolygon().points[i])
    ensures (forall i :: 0 <= i < 4 ==>
        r.ClosedContains(h.StartRect().ToPolygon().points[i]) && r.ClosedContains(h.EndRect().ToPolygon().points[i])) ==>
      r.pos.x <= h.Hull().pos.x && r.pos.y <= h.Hull().pos.y &&
      h.Hull().pos.x + h.Hull().size.x <= r.pos.x + r.size.x &&
      h.Hull().pos.y + h.Hull().size.y <= r.pos.y + r.size.y
  {
    var s, e := h.StartRect().ToPolygon().points, h.EndRect().ToPolygon().points;
    if forall i :: 0 <= i < 4 ==> r.ClosedContains(s[i]) && r.ClosedContains(e[i]) {
      assert r.ClosedContains(s[0]) && r.ClosedContains(s[2]);
      assert r.ClosedContains(e[0]) && r.ClosedContains(e[2]);
    }
  }

  /** The polygon's bounding box is the hull of the start and end squares, whatever the direction. */
  lemma BoundsIsHull(h: Hitbox)
    ensures h.ToPolygon().Bounds() == h.Hull()
  {
    var p, r := h.ToPolygon(), h.Hull();
    if h.IsAxisAligned() {
      AxisAlignedIsHullRect(h);
      RectPolygonBounds(r);
    } else {
      DiagonalCorners(h);
      HullSmallest(h, r);
      var s, e := h.StartRect().ToPolygon().points, h.EndRect().ToPolygon().points;
      forall i | 0 <= i < |p.points| ensures r.ClosedContains(p.points[i]) {
        assert p.points[i] in s || p.points[i] in e;
      }
      DiagonalExtremes(h);
      BoundsUnique(p, r);
    }
  }

  /** In every diagonal case each edge of the hull is reached by a point of the polygon. */
  lemma DiagonalExtremes(h: Hitbox)
    requires !h.IsAxisAligned()
    ensures exists i :: 0 <= i < |h.ToPolygon().points| && h.ToPolygon().points[i].x == h.Hull().pos.x
    ensures exists i :: 0 <= i < |h.ToPolygon().points| && h.ToPolygon().points[i].y == h.Hull().pos.y
    ensures exists i :: 0 <= i < |h.ToPolygon().points| && h.ToPolygon().points[i].x == h.Hull().pos.x + h.Hull().size.x
    ensures exists i :: 0 <= i < |h.ToPolygon().points| && h.ToPolygon().points[i].y == h.Hull().pos.y + h.Hull().size.y
  {
    var ps, r := h.ToPolygon().points, h.Hull();
    if h.dir.x > 0.0 && h.dir.y > 0.0 {
      assert ps[0].x == r.pos.x && ps[0].y == r.pos.y;
      assert ps[3].x == r.pos.x + r.size.x && ps[3].y == r.pos.y + r.size.y;
    } else if h.dir.x > 0.0 && h.dir.y < 0.0 {
      assert ps[0].x == r.pos.x && ps[1].y == r.pos.y;
      assert ps[3].x == r.pos.x + r.size.x && ps[4].y == r.pos.y + r.size.y;
    } else if h.dir.x < 0.0 && h.dir.y < 0.0 {
      assert ps[0].x == r.pos.x && ps[0].y == r.pos.y;
      assert ps[3].x == r.pos.x + r.size.x && ps[3].y == r.pos.y + r.size.y;
    } else {
      assert ps[0].x == r.pos.x && ps[1].y == r.pos.y;
      assert ps[3].x == r.pos.x + r.size.x && ps[4].y == r.pos.y + r.size.y;
    }
  }

  /** Every point of `ps` moved by `t`. */
  function ShiftAll(ps: seq<Point>, t: Point): (r: seq<Point>)
    ensures |r| == |ps| && forall i :: 0 <= i < |ps| ==> r[i] == ps[i].Plus(t)
  {
    seq(|ps|, i requires 0 <= i < |ps| => ps[i].Plus(t))
  }

  /** Moving a square moves each of its corners. */
  lemma ShiftRect(p: Point, size: Point, t: Point)
    ensures Rect(p.Plus(t), size).ToPolygon().points == ShiftAll(Rect(p, size).ToPolygon().points, t)
  {
  }

  /** Moving a hitbox moves each corner of its polygon, in order. */
  lemma ShiftPoints(h: Hitbox, t: Point)
    ensures h.Shift(t).ToPolygon().points == ShiftAll(h.ToPolygon().points, t)
  {
    var g := h.Shift(t);
    ShiftRect(h.pos, HitboxSize, t);
    ShiftRect(h.pos.Plus(h.dir), HitboxSize, t);
    assert g.EndRect() == Rect(h.pos.Plus(h.dir).Plus(t), HitboxSize);
    var q, gq := h.ToPolygon().points, g.ToPolygon().points;
    assert |gq| == |q|;
    forall i | 0 <= i < |q| ensures gq[i] == q[i].Plus(t) {
    }
  }

  /** Moving a hitbox moves its polygon and its bounding box by the same amount. */
  lemma ShiftPolygon(h: Hitbox, t: Point)
    ensures h.Shift(t).ToPolygon().points == ShiftAll(h.ToPolygon().points, t)
    ensures h.Shift(t).BoundingBox() == Rect(h.BoundingBox().pos.Plus(t), h.BoundingBox().size)
  {
    ShiftPoints(h, t);
    assert h.Shift(t).BoundingBox() == h.Shift(t).Hull() && h.BoundingBox() == h.Hull();
  }

  /**
   * `intersects` never holds for hitboxes with disjoint hulls, and for two
   * axis-aligned hitboxes it is exactly the (edge-inclusive) overlap of
   * their hulls.
   */
  lemma IntersectsByHulls(a: Hitbox, b: Hitbox)
    ensures a.Intersects(b) ==> a.Hull().IntersectsRect(b.Hull())
    ensures a.IsAxisAligned() && b.IsAxisAligned() ==> (a.Intersects(b) <==> a.Hull().IntersectsRect(b.Hull()))
  {
    BoundsIsHull(a);
    BoundsIsHull(b);
    if a.IsAxisAligned() && b.IsAxisAligned() {
      AxisAlignedIsHullRect(a);
      AxisAlignedIsHullRect(b);
    }
  }

  /** Moving the piece moves each transformed template by the same amount. */
  lemma PieceTransformShift(h: Hitbox, piecePos: Point, t: Point)
    ensures h.PieceTransform(piecePos.Plus(t)) == h.PieceTransform(piecePos).Shift(t)
  {
  }

  /** `Hitbox.getPieceBoundingHitbox`: the zero-direction hitbox at `pos`, centred on its square. */
  function GetPieceBoundingHitbox(pos: Point): (h: Hitbox)
    ensures h.dir == Origin && h.pos == pos.Plus(Point(SqQuarterW, SqQuarterH))
  {
    Hitbox(pos, Point(0.0, 0.0)).CenteredOnSquare()
  }

  /** A piece's bounding hitbox is the `hitboxSize` square at its centred position. */
  lemma BoundingHitboxIsSquare(pos: Point)
    ensures GetPieceBoundingHitbox(pos).ToPolygon() == Rect(pos.Plus(Point(SqQuarterW, SqQuarterH)), HitboxSize).ToPolygon()
    ensures GetPieceBoundingHitbox(pos).BoundingBox() == Rect(pos.Plus(Point(SqQuarterW, SqQuarterH)), HitboxSize)
  {
    ZeroDirectionIsSquare(GetPieceBoundingHitbox(pos));
  }

  // ---------------------------------------------------------------------
  // Templates per piece type
  // ---------------------------------------------------------------------

  /**
   * `PIECE_HITBOXES`: the reach of each piece type in square units. The
   * pawn, queen and king entries are commented out in the table, so those
   * types have no entry.
   */
  const PieceHitboxTable: map<string, seq<Hitbox>> := map[
    "Bw" := [Hitbox(Point(-1000.0, -1000.0), Point(2000.0, 2000.0)), Hitbox(Point(-1000.0, 1000.0), Point(2000.0, -2000.0))],
    "Bb" := [Hitbox(Point(-1000.0, -1000.0), Point(2000.0, 2000.0)), Hitbox(Point(-1000.0, 1000.0), Point(2000.0, -2000.0))],
    "Nw" := [Hitbox(Point(-1.0, 2.0), Point(2.0, -4.0))],
    "Nb" := [
      Hitbox(Point(-1.0, 2.0), Point(2.0, -4.0)),
      Hitbox(Point(1.0, 2.0), Point(-2.0, -4.0)),
      Hitbox(Point(-2.0, 1.0), Point(4.0, -2.0)),
      Hitbox(Point(2.0, 1.0), Point(-4.0, -2.0))
    ],
    "Rw" := [Hitbox(Point(-1000.0, 0.0), Point(2000.0, 0.0)), Hitbox(Point(0.0, -1000.0), Point(0.0, 2000.0))],
    "Rb" := [Hitbox(Point(-1000.0, 0.0), Point(2000.0, 0.0)), Hitbox(Point(0.0, -1000.0), Point(0.0, 2000.0))]
  ]

  /**
   * `Hitbox.getPieceHitboxes`: no hitboxes for a type without an entry;
   * otherwise each template in order, transformed to the piece at `pos`
   * and centred on its square.
   */
  function GetPieceHitboxes(pieceType: string, pos: Point): (hs: seq<Hitbox>)
    ensures pieceType !in PieceHitboxTable ==> hs == []
    ensures pieceType in PieceHitboxTable ==> |hs| == |PieceHitboxTable[pieceType]|
    ensures pieceType in PieceHitboxTable ==> forall i :: 0 <= i < |hs| ==>
      hs[i].dir == PieceHitboxTable[pieceType][i].PieceTransform(pos).dir &&
      hs[i].pos == PieceHitboxTable[pieceType][i].PieceTransform(pos).pos.Plus(Point(SqQuarterW, SqQuarterH))
  {
    if pieceType !in PieceHitboxTable then []
    else
      var templates := PieceHitboxTable[pieceType];
      seq(|templates|, i requires 0 <= i < |templates| => templates[i].PieceTransform(pos).CenteredOnSquare())
  }

  /**
   * The table as it stands: a knight of colour "w" has one hitbox and one
   * of colour "b" four; bishops and rooks have two; pawns, queens and
   * kings have none.
   */
  lemma PieceHitboxCounts(pos: Point)
    ensures |GetPieceHitboxes("Nw", pos)| == 1 && |GetPieceHitboxes("Nb", pos)| == 4
    ensures |GetPieceHitboxes("Bw", pos)| == 2 && |GetPieceHitboxes("Bb", pos)| == 2
    ensures |GetPieceHitboxes("Rw", pos)| == 2 && |GetPieceHitboxes("Rb", pos)| == 2
    ensures forall t :: t in ["Pw", "Pb", "Qw", "Qb", "Kw", "Kb"] ==> GetPieceHitboxes(t, pos) == []
  {
  }

  /** Rook hitboxes run along an axis; bishop and knight hitboxes are diagonal. */
  lemma PieceHitboxShapes(pos: Point)
    ensures forall h :: h in GetPieceHitboxes("Rw", pos) + GetPieceHitboxes("Rb", pos) ==> h.IsAxisAligned()
    ensures forall h :: h in GetPieceHitboxes("Bw", pos) + GetPieceHitboxes("Bb", pos) ==> !h.IsAxisAligned()
    ensures forall h :: h in GetPieceHitboxes("Nw", pos) + GetPieceHitboxes("Nb", pos) ==> !h.IsAxisAligned()
  {
    var types := ["Rw", "Rb", "Bw", "Bb", "Nw", "Nb"];
    forall t, i | t in types && 0 <= i < |PieceHitboxTable[t]|
      ensures GetPieceHitboxes(t, pos)[i].dir == Point(PieceHitboxTable[t][i].dir.x * SqW, PieceHitboxTable[t][i].dir.y * SqH)
    {
    }
  }

  /** Moving the piece moves every one of its hitboxes by the same amount. */
  lemma PieceHitboxesShift(pieceType: string, pos: Point, t: Point)
    ensures |GetPieceHitboxes(pieceType, pos.Plus(t))| == |GetPieceHitboxes(pieceType, pos)|
    ensures forall i :: 0 <= i < |GetPieceHitboxes(pieceType, pos)| ==>
      GetPieceHitboxes(pieceType, pos.Plus(t))[i] == GetPieceHitboxes(pieceType, pos)[i].Shift(t)
  {
  }

  // ---------------------------------------------------------------------
  // Pieces in reach
  // ---------------------------------------------------------------------

  /** The bounding hitbox of a piece at `at` meets `hitbox`. */
  predicate HitAt(at: Point, hitbox: Hitbox) {
    GetPieceBoundingHitbox(at).Intersects(hitbox)
  }

  /** The ids of `keys` whose colour is not `colour`, in order. */
  function OtherColour(keys: seq<string>, colour: string): (r: seq<string>)
    ensures forall p :: p in r <==> p in keys && Pieces.GetPieceColour(p) != colour
  {
    if keys == [] then []
    else
      var last := keys[|keys| - 1];
      OtherColour(keys[..|keys| - 1], colour) + (if Pieces.GetPieceColour(last) != colour then [last] else [])
  }

  /**
   * `Hitbox.getPiecesInHitbox`: the pieces of `chessData` (other than
   * `piece`, and of the other colour unless `includeMyPieces`) whose
   * bounding hitbox meets one of the piece's hitboxes, each listed once.
   * `keys` is `Object.keys(chessData)`.
   */
  method GetPiecesInHitbox(piece: string, pos: Point, chessData: map<string, Point>, keys: seq<string>, includeMyPieces: bool)
    returns (takeable: seq<string>)
    requires forall k :: k in keys <==> k in chessData
    ensures takeable == MiscUtil.Uniq(Flatten(HitsPerHitbox(piece, GetPieceHitboxes(Pieces.GetPieceType(piece), pos),
      if includeMyPieces then keys else OtherColour(keys, Pieces.GetPieceColour(piece)), chessData)))
    ensures MiscUtil.NoDuplicates(takeable)
    ensures piece !in takeable
    ensures forall p :: p in takeable <==>
      p in chessData && p != piece &&
      (includeMyPieces || Pieces.GetPieceColour(p) != Pieces.GetPieceColour(piece)) &&
      exists k :: 0 <= k < |GetPieceHitboxes(Pieces.GetPieceType(piece), pos)| &&
        HitAt(chessData[p], GetPieceHitboxes(Pieces.GetPieceType(piece), pos)[k])
  {
    var pieceType := Pieces.GetPieceType(piece);
    var colour := Pieces.GetPieceColour(piece);
    var hitboxes := GetPieceHitboxes(pieceType, pos);
    var otherPieces := keys;
    if !includeMyPieces {
      otherPieces := OtherColour(keys, colour);
    }
    var found := PiecesHitByAny(piece, hitboxes, otherPieces, chessData);
    takeable := MiscUtil.Uniq(found);
    MiscUtil.UniqMembers(found);
    MiscUtil.UniqNoDuplicates(found);
  }

  /** The ids of `ps`, in order and other than `piece`, whose bounding hitbox meets `hitbox`. */
  function HitBy(piece: string, hitbox: Hitbox, ps: seq<string>, chessData: map<string, Point>): seq<string>
    requires forall p :: p in ps ==> p in chessData
  {
    if ps == [] then []
    else
      var last := ps[|ps| - 1];
      HitBy(piece, hitbox, ps[..|ps| - 1], chessData) + (if last != piece && HitAt(chessData[last], hitbox) then [last] else [])
  }

  /** `HitBy` keeps exactly the pieces of `ps` other than `piece` whose bounding hitbox meets `hitbox`. */
  lemma {:induction false} HitByMembers(piece: string, hitbox: Hitbox, ps: seq<string>, chessData: map<string, Point>)
    requires forall p :: p in ps ==> p in chessData
    ensures forall p :: p in HitBy(piece, hitbox, ps, chessData) <==> p in ps && p != piece && HitAt(chessData[p], hitbox)
  {
    if ps != [] {
      var init := ps[..|ps| - 1];
      HitByMembers(piece, hitbox, init, chessData);
      assert forall p :: p in ps <==> p in init || p == ps[|ps| - 1];
    }
  }

  /** What the inner loop of `getPiecesInHitbox` finds for each of `hitboxes`. */
  function HitsPerHitbox(piece: string, hitboxes: seq<Hitbox>, ps: seq<string>, chessData: map<string, Point>): (r: seq<seq<string>>)
    requires forall p :: p in ps ==> p in chessData
    ensures |r| == |hitboxes|
  {
    seq(|hitboxes|, k requires 0 <= k < |hitboxes| => HitBy(piece, hitboxes[k], ps, chessData))
  }

  /**
   * The outer `forEach` of `getPiecesInHitbox`: the inner loop's finds for
   * each of `hitboxes` in turn, so a piece is found exactly when it is one
   * of `otherPieces` other than `piece` whose bounding hitbox meets one of
   * `hitboxes`.
   */
  method PiecesHitByAny(piece: string, hitboxes: seq<Hitbox>, otherPieces: seq<string>, chessData: map<string, Point>)
    returns (found: seq<string>)
    requires forall p :: p in otherPieces ==> p in chessData
    ensures found == Flatten(HitsPerHitbox(piece, hitboxes, otherPieces, chessData))
    ensures forall p :: p in found <==>
      p in otherPieces && p != piece && exists k :: 0 <= k < |hitboxes| && HitAt(chessData[p], hitboxes[k])
  {
    found := [];
    var i := 0;
    while i < |hitboxes|
      invariant 0 <= i <= |hitboxes|
      invariant found == Flatten(HitsPerHitbox(piece, hitboxes[..i], otherPieces, chessData))
    {
      var hits := PiecesHitBy(piece, hitboxes[i], otherPieces, chessData);
      HitsPerHitboxStep(piece, hitboxes, i, otherPieces, chessData);
      found := found + hits;
      i := i + 1;
    }
    assert hitboxes[..i] == hitboxes;
    HitsPerHitboxMembers(piece, hitboxes, otherPieces, chessData);
  }

  /** A piece is in the outer loop's result exactly when one of `hitboxes` finds it. */
  lemma HitsPerHitboxMembers(piece: string, hitboxes: seq<Hitbox>, ps: seq<string>, chessData: map<string, Point>)
    requires forall p :: p in ps ==> p in chessData
    ensures forall p :: p in Flatten(HitsPerHitbox(piece, hitboxes, ps, chessData)) <==>
      p in ps && p != piece && exists k :: 0 <= k < |hitboxes| && HitAt(chessData[p], hitboxes[k])
  {
    var hs := HitsPerHitbox(piece, hitboxes, ps, chessData);
    forall p
      ensures p in Flatten(hs) <==>
        p in ps && p != piece && exists k :: 0 <= k < |hitboxes| && HitAt(chessData[p], hitboxes[k])
    {
      FlattenMembers(hs, p);
      if p in Flatten(hs) {
        var k :| 0 <= k < |hs| && p in hs[k];
        assert hs[k] == HitBy(piece, hitboxes[k], ps, chessData);
        HitByMembers(piece, hitboxes[k], ps, chessData);
        assert p in ps && p != piece && HitAt(chessData[p], hitboxes[k]);
      }
      if p in ps && p != piece && exists k :: 0 <= k < |hitboxes| && HitAt(chessData[p], hitboxes[k]) {
        var k :| 0 <= k < |hitboxes| && HitAt(chessData[p], hitboxes[k]);
        assert hs[k] == HitBy(piece, hitboxes[k], ps, chessData);
        HitByMembers(piece, hitboxes[k], ps, chessData);
        assert p in hs[k];
      }
    }
  }

  /** One more hitbox appends its finds to the outer loop's result. */
  lemma HitsPerHitboxStep(piece: string, hitboxes: seq<Hitbox>, i: nat, ps: seq<string>, chessData: map<string, Point>)
    requires forall p :: p in ps ==> p in chessData
    requires i < |hitboxes|
    ensures Flatten(HitsPerHitbox(piece, hitboxes[..i + 1], ps, chessData)) ==
      Flatten(HitsPerHitbox(piece, hitboxes[..i], ps, chessData)) + HitBy(piece, hitboxes[i], ps, chessData)
  {
    var next := HitsPerHitbox(piece, hitboxes[..i + 1], ps, chessData);
    var prev := HitsPerHitbox(piece, hitboxes[..i], ps, chessData);
    var last := HitBy(piece, hitboxes[i], ps, chessData);
    forall k | 0 <= k < i + 1 ensures next[k] == (prev + [last])[k] {
      assert hitboxes[..i + 1][k] == hitboxes[k];
      if k < i {
        assert hitboxes[..i][k] == hitboxes[k];
      }
    }
    assert next == prev + [last];
    FlattenSnoc(prev, last);
  }

  /**
   * The inner `forEach` of `getPiecesInHitbox`: the ids of `otherPieces`,
   * in order and other than `piece`, whose bounding hitbox meets `hitbox`.
   */
  method PiecesHitBy(piece: string, hitbox: Hitbox, otherPieces: seq<string>, chessData: map<string, Point>)
    returns (found: seq<string>)
    requires forall p :: p in otherPieces ==> p in chessData
    ensures found == HitBy(piece, hitbox, otherPieces, chessData)
    ensures forall p :: p in found <==> p in otherPieces && p != piece && HitAt(chessData[p], hitbox)
  {
    found := [];
    var polygon := hitbox.ToPolygon();
    var j := 0;
    while j < |otherPieces|
      invariant 0 <= j <= |otherPieces|
      invariant found == HitBy(piece, hitbox, otherPieces[..j], chessData)
    {
      var otherPiece := otherPieces[j];
      assert otherPieces[..j + 1][..j] == otherPieces[..j];
      if otherPiece != piece {
        var box := GetPieceBoundingHitbox(chessData[otherPiece]);
        var hit := box.ToPolygon().Intersects(polygon);
        assert hit == HitAt(chessData[otherPiece], hitbox);
        if hit {
          found := found + [otherPiece];
        }
      }
      j := j + 1;
    }
    assert otherPieces[..j] == otherPieces;
    HitByMembers(piece, hitbox, otherPieces, chessData);
  }

  // ---------------------------------------------------------------------
  // Clipping hitboxes at the nearest blockers
  // ---------------------------------------------------------------------

  /** Where the search for the nearest piece below the centre starts: the board's top or left edge. */
  const BelowStart: real := 0.0

  /** Where the search for the nearest piece above the centre starts: the board's far edge. */
  const AboveStart: real := 500.0

  /** The axis a hitbox is clipped along: x when its x direction exceeds its y direction ("horizontal"). */
  predicate ClipsHorizontally(h: Hitbox) {
    h.Data()[2] > h.Data()[3]
  }

  /** The coordinate of `p` on the clipping axis. */
  function AxisCoord(p: Point, horizontal: bool): real {
    if horizontal then p.x else p.y
  }

  /** `inThisHitbox`: the ids of `inRangePieces`, in order, whose bounding hitbox meets `hitbox`. */
  function InThisHitbox(inRangePieces: seq<string>, chessData: map<string, Point>, hitbox: Hitbox): (r: seq<string>)
    requires forall p :: p in inRangePieces ==> p in chessData
    ensures forall p :: p in r ==> p in inRangePieces
  {
    if inRangePieces == [] then []
    else
      var last := inRangePieces[|inRangePieces| - 1];
      InThisHitbox(inRangePieces[..|inRangePieces| - 1], chessData, hitbox) + (if HitAt(chessData[last], hitbox) then [last] else [])
  }

  /** `inThisHitbox` keeps exactly the in-range pieces whose bounding hitbox meets `hitbox`. */
  lemma {:induction false} InThisHitboxMembers(inRangePieces: seq<string>, chessData: map<string, Point>, hitbox: Hitbox)
    requires forall p :: p in inRangePieces ==> p in chessData
    ensures forall p :: p in InThisHitbox(inRangePieces, chessData, hitbox) <==> p in inRangePieces && HitAt(chessData[p], hitbox)
  {
    if inRangePieces != [] {
      var init := inRangePieces[..|inRangePieces| - 1];
      InThisHitboxMembers(init, chessData, hitbox);
      assert forall p :: p in inRangePieces <==> p in init || p == inRangePieces[|inRangePieces| - 1];
    }
  }

  /** The centre coordinate, on the clipping axis, of the piece `p`. */
  function CoordOf(chessData: map<string, Point>, pieceCenter: Point -> Point, p: string, horizontal: bool): real
    requires p in chessData
  {
    AxisCoord(pieceCenter(chessData[p]), horizontal)
  }

  /** `c` lies strictly below (`below`) or strictly above `center`. */
  predicate OnSide(c: real, center: real, below: bool) {
    if below then c < center else c > center
  }

  /**
   * `belowCenter…Pieces` / `aboveCenter…Pieces`: the pieces of `ps` whose
   * centre lies strictly on one side of `center`, in order, each paired with
   * its coordinate.
   */
  function Beside(ps: seq<string>, chessData: map<string, Point>, pieceCenter: Point -> Point,
                  horizontal: bool, center: real, below: bool): (es: seq<(string, real)>)
    requires forall p :: p in ps ==> p in chessData
    ensures forall e :: e in es <==>
      e.0 in ps && e.1 == CoordOf(chessData, pieceCenter, e.0, horizontal) && OnSide(e.1, center, below)
  {
    if ps == [] then []
    else
      var last := ps[|ps| - 1];
      var c := CoordOf(chessData, pieceCenter, last, horizontal);
      var init := Beside(ps[..|ps| - 1], chessData, pieceCenter, horizontal, center, below);
      assert forall p :: p in ps <==> p in ps[..|ps| - 1] || p == last;
      if OnSide(c, center, below) then init + [(last, c)] else init
  }

  /**
   * The first `forEach` of `limitHitboxes`: the largest coordinate above
   * `BelowStart`, and the first piece that has it.
   */
  function NearestBelow(es: seq<(string, real)>): (r: (real, Option<string>))
    ensures r.0 >= BelowStart && forall e :: e in es ==> e.1 <= r.0
    ensures r.1.Some? <==> exists e :: e in es && e.1 > BelowStart
    ensures r.1.None? ==> r.0 == BelowStart
    ensures r.1.Some? ==> (r.1.value, r.0) in es
  {
    if es == [] then (BelowStart, None)
    else
      var prev := NearestBelow(es[..|es| - 1]);
      var e := es[|es| - 1];
      assert forall x :: x in es <==> x in es[..|es| - 1] || x == e;
      if e.1 > prev.0 then (e.1, Some(e.0)) else prev
  }

  /**
   * The second `forEach` of `limitHitboxes`: the smallest coordinate under
   * `AboveStart`, and the first piece that has it.
   */
  function NearestAbove(es: seq<(string, real)>): (r: (real, Option<string>))
    ensures r.0 <= AboveStart && forall e :: e in es ==> e.1 >= r.0
    ensures r.1.Some? <==> exists e :: e in es && e.1 < AboveStart
    ensures r.1.None? ==> r.0 == AboveStart
    ensures r.1.Some? ==> (r.1.value, r.0) in es
  {
    if es == [] then (AboveStart, None)
    else
      var prev := NearestAbove(es[..|es| - 1]);
      var e := es[|es| - 1];
      assert forall x :: x in es <==> x in es[..|es| - 1] || x == e;
      if e.1 < prev.0 then (e.1, Some(e.0)) else prev
  }

  /** `if (lastHitPiece) hitPieces.push(lastHitPiece)`: `null` and the empty id are falsy. */
  function Pushed(lastHitPiece: Option<string>): (r: seq<string>)
    ensures |r| <= 1
    ensures forall p :: p in r <==> lastHitPiece == Some(p) && p != ""
  {
    if lastHitPiece.Some? && lastHitPiece.value != "" then [lastHitPiece.value] else []
  }

  /**
   * The new position and length on the clipping axis: the start moves up to
   * `maxBelow` and the end down to `minAbove`; the other axis is untouched.
   */
  function Clip(hitbox: Hitbox, horizontal: bool, maxBelow: real, minAbove: real): (r: Hitbox)
    ensures horizontal ==> r.pos.x == Max(maxBelow, hitbox.pos.x) && r.pos.x + r.dir.x == Min(minAbove, hitbox.pos.x + hitbox.dir.x)
    ensures horizontal ==> r.pos.y == hitbox.pos.y && r.dir.y == hitbox.dir.y
    ensures !horizontal ==> r.pos.y == Max(maxBelow, hitbox.pos.y) && r.pos.y + r.dir.y == Min(minAbove, hitbox.pos.y + hitbox.dir.y)
    ensures !horizontal ==> r.pos.x == hitbox.pos.x && r.dir.x == hitbox.dir.x
  {
    var limitedHitbox := hitbox.Data();
    if horizontal then
      var start := Max(maxBelow, limitedHitbox[0]);
      var posXDiff := start - limitedHitbox[0];
      FromData([start, limitedHitbox[1], Min(minAbove - limitedHitbox[0], limitedHitbox[2]) - posXDiff, limitedHitbox[3]])
    else
      var start := Max(maxBelow, limitedHitbox[1]);
      var posYDiff := start - limitedHitbox[1];
      FromData([limitedHitbox[0], start, limitedHitbox[2], Min(minAbove - limitedHitbox[1], limitedHitbox[3]) - posYDiff])
  }

  /** The nearest piece of `inThis` on one side of `center`, along the axis `hitbox` is clipped on. */
  function Nearest(hitbox: Hitbox, inThis: seq<string>, chessData: map<string, Point>,
                   pieceCenter: Point -> Point, center: Point, below: bool): (real, Option<string>)
    requires forall p :: p in inThis ==> p in chessData
  {
    var horizontal := ClipsHorizontally(hitbox);
    var es := Beside(inThis, chessData, pieceCenter, horizontal, AxisCoord(center, horizontal), below);
    if below then NearestBelow(es) else NearestAbove(es)
  }

  /** What one step of the `map` in `limitHitboxes` returns for the pieces `inThis` meeting `hitbox`. */
  function ClippedAt(hitbox: Hitbox, inThis: seq<string>, chessData: map<string, Point>,
                     pieceCenter: Point -> Point, center: Point): Hitbox
    requires forall p :: p in inThis ==> p in chessData
  {
    Clip(hitbox, ClipsHorizontally(hitbox),
      Nearest(hitbox, inThis, chessData, pieceCenter, center, true).0,
      Nearest(hitbox, inThis, chessData, pieceCenter, center, false).0)
  }

  /** The blockers one step of the `map` in `limitHitboxes` pushes. */
  function BlockersAt(hitbox: Hitbox, inThis: seq<string>, chessData: map<string, Point>,
                      pieceCenter: Point -> Point, center: Point): seq<string>
    requires forall p :: p in inThis ==> p in chessData
  {
    Pushed(Nearest(hitbox, inThis, chessData, pieceCenter, center, true).1)
      + Pushed(Nearest(hitbox, inThis, chessData, pieceCenter, center, false).1)
  }

  /** The first `forEach` of `limitHitboxes`, over the pieces below the centre. */
  method ScanBelow(belowPieces: seq<(string, real)>) returns (maxBelow: real, lastHitPiece: Option<string>)
    ensures (maxBelow, lastHitPiece) == NearestBelow(belowPieces)
  {
    maxBelow := BelowStart;
    lastHitPiece := None;
    var k := 0;
    while k < |belowPieces|
      invariant 0 <= k <= |belowPieces|
      invariant (maxBelow, lastHitPiece) == NearestBelow(belowPieces[..k])
    {
      assert belowPieces[..k + 1][..k] == belowPieces[..k];
      var (otherPiece, otherPieceCenter) := belowPieces[k];
      if otherPieceCenter > maxBelow {
        maxBelow := otherPieceCenter;
        lastHitPiece := Some(otherPiece);
      }
      k := k + 1;
    }
    assert belowPieces[..k] == belowPieces;
  }

  /** The second `forEach` of `limitHitboxes`, over the pieces above the centre. */
  method ScanAbove(abovePieces: seq<(string, real)>) returns (minAbove: real, lastHitPiece: Option<string>)
    ensures (minAbove, lastHitPiece) == NearestAbove(abovePieces)
  {
    minAbove := AboveStart;
    lastHitPiece := None;
    var k := 0;
    while k < |abovePieces|
      invariant 0 <= k <= |abovePieces|
      invariant (minAbove, lastHitPiece) == NearestAbove(abovePieces[..k])
    {
      assert abovePieces[..k + 1][..k] == abovePieces[..k];
      var (otherPiece, otherPieceCenter) := abovePieces[k];
      if otherPieceCenter < minAbove {
        minAbove := otherPieceCenter;
        lastHitPiece := Some(otherPiece);
      }
      k := k + 1;
    }
    assert abovePieces[..k] == abovePieces;
  }

  /**
   * The body of the `map` in `limitHitboxes`, after `inThisHitbox` is
   * known: scan the pieces below and above the centre for the nearest one,
   * push each found, and clip the hitbox between them.
   */
  method ClipHitbox(hitbox: Hitbox, inThis: seq<string>, chessData: map<string, Point>,
                    pieceCenter: Point -> Point, center: Point)
    returns (limited: Hitbox, hits: seq<string>)
    requires forall p :: p in inThis ==> p in chessData
    ensures limited == ClippedAt(hitbox, inThis, chessData, pieceCenter, center)
    ensures hits == BlockersAt(hitbox, inThis, chessData, pieceCenter, center)
  {
    var horizontal := ClipsHorizontally(hitbox);
    var c := AxisCoord(center, horizontal);
    var belowPieces := Beside(inThis, chessData, pieceCenter, horizontal, c, true);
    var abovePieces := Beside(inThis, chessData, pieceCenter, horizontal, c, false);
    var maxBelow, belowHit := ScanBelow(belowPieces);
    var minAbove, aboveHit := ScanAbove(abovePieces);
    hits := Pushed(belowHit) + Pushed(aboveHit);
    limited := Clip(hitbox, horizontal, maxBelow, minAbove);
  }

  /** One clipped hitbox reports at most two pieces, each from `inThis`. */
  lemma BlockersFromInThis(hitbox: Hitbox, inThis: seq<string>, chessData: map<string, Point>,
                           pieceCenter: Point -> Point, center: Point)
    requires forall p :: p in inThis ==> p in chessData
    ensures |BlockersAt(hitbox, inThis, chessData, pieceCenter, center)| <= 2
    ensures forall p :: p in BlockersAt(hitbox, inThis, chessData, pieceCenter, center) ==> p in inThis
  {
  }

  /**
   * The blocker reported on each side is the nearest there: below the
   * centre it has the largest coordinate of the pieces of `inThis`, above
   * it the smallest, and the clip stops at that coordinate.
   */
  lemma BlockersNearest(hitbox: Hitbox, inThis: seq<string>, chessData: map<string, Point>,
                        pieceCenter: Point -> Point, center: Point)
    requires forall p :: p in inThis ==> p in chessData
    ensures forall p :: p in Pushed(Nearest(hitbox, inThis, chessData, pieceCenter, center, true).1) ==>
      CoordOf(chessData, pieceCenter, p, ClipsHorizontally(hitbox)) == Nearest(hitbox, inThis, chessData, pieceCenter, center, true).0 &&
      OnSide(CoordOf(chessData, pieceCenter, p, ClipsHorizontally(hitbox)), AxisCoord(center, ClipsHorizontally(hitbox)), true)
    ensures forall p :: p in Pushed(Nearest(hitbox, inThis, chessData, pieceCenter, center, false).1) ==>
      CoordOf(chessData, pieceCenter, p, ClipsHorizontally(hitbox)) == Nearest(hitbox, inThis, chessData, pieceCenter, center, false).0 &&
      OnSide(CoordOf(chessData, pieceCenter, p, ClipsHorizontally(hitbox)), AxisCoord(center, ClipsHorizontally(hitbox)), false)
    ensures forall p :: p in inThis && OnSide(CoordOf(chessData, pieceCenter, p, ClipsHorizontally(hitbox)), AxisCoord(center, ClipsHorizontally(hitbox)), true) ==>
      CoordOf(chessData, pieceCenter, p, ClipsHorizontally(hitbox)) <= Nearest(hitbox, inThis, chessData, pieceCenter, center, true).0
    ensures forall p :: p in inThis && OnSide(CoordOf(chessData, pieceCenter, p, ClipsHorizontally(hitbox)), AxisCoord(center, ClipsHorizontally(hitbox)), false) ==>
      CoordOf(chessData, pieceCenter, p, ClipsHorizontally(hitbox)) >= Nearest(hitbox, inThis, chessData, pieceCenter, center, false).0
  {
    var horizontal := ClipsHorizontally(hitbox);
    var c := AxisCoord(center, horizontal);
    var belowPieces := Beside(inThis, chessData, pieceCenter, horizontal, c, true);
    var abovePieces := Beside(inThis, chessData, pieceCenter, horizontal, c, false);
    forall p | p in inThis && OnSide(CoordOf(chessData, pieceCenter, p, horizontal), c, true)
      ensures CoordOf(chessData, pieceCenter, p, horizontal) <= NearestBelow(belowPieces).0
    {
      assert (p, CoordOf(chessData, pieceCenter, p, horizontal)) in belowPieces;
    }
    forall p | p in inThis && OnSide(CoordOf(chessData, pieceCenter, p, horizontal), c, false)
      ensures CoordOf(chessData, pieceCenter, p, horizontal) >= NearestAbove(abovePieces).0
    {
      assert (p, CoordOf(chessData, pieceCenter, p, horizontal)) in abovePieces;
    }
  }

  /** The `map` of `limitHitboxes`: every template clipped at the blockers meeting it, in order. */
  function ClippedAll(templates: seq<Hitbox>, inRangePieces: seq<string>, chessData: map<string, Point>,
                      pieceCenter: Point -> Point, center: Point): (r: seq<Hitbox>)
    requires forall p :: p in inRangePieces ==> p in chessData
    ensures |r| == |templates|
  {
    seq(|templates|, i requires 0 <= i < |templates| =>
      ClippedAt(templates[i], InThisHitbox(inRangePieces, chessData, templates[i]), chessData, pieceCenter, center))
  }

  /** Every blocker found for `templates` is an in-range piece meeting one of them. */
  predicate FoundIn(p: string, templates: seq<Hitbox>, inRangePieces: seq<string>, chessData: map<string, Point>)
    requires forall p :: p in inRangePieces ==> p in chessData
  {
    exists k :: 0 <= k < |templates| && p in InThisHitbox(inRangePieces, chessData, templates[k])
  }

  /** One more template clipped extends `ClippedAll` by one hitbox. */
  lemma ClippedAllStep(templates: seq<Hitbox>, i: nat, inRangePieces: seq<string>, chessData: map<string, Point>,
                       pieceCenter: Point -> Point, center: Point)
    requires forall p :: p in inRangePieces ==> p in chessData
    requires i < |templates|
    ensures ClippedAll(templates[..i + 1], inRangePieces, chessData, pieceCenter, center) ==
      ClippedAll(templates[..i], inRangePieces, chessData, pieceCenter, center)
        + [ClippedAt(templates[i], InThisHitbox(inRangePieces, chessData, templates[i]), chessData, pieceCenter, center)]
  {
    var next := ClippedAll(templates[..i + 1], inRangePieces, chessData, pieceCenter, center);
    var prev := ClippedAll(templates[..i], inRangePieces, chessData, pieceCenter, center);
    var last := ClippedAt(templates[i], InThisHitbox(inRangePieces, chessData, templates[i]), chessData, pieceCenter, center);
    forall k | 0 <= k < i + 1 ensures next[k] == (prev + [last])[k] {
      assert templates[..i + 1][k] == templates[k];
      if k < i {
        assert templates[..i][k] == templates[k];
      }
    }
  }

  /** The concatenation of the sequences in `ss`, in order. */
  function Flatten<T>(ss: seq<seq<T>>): seq<T> {
    if ss == [] then [] else Flatten(ss[..|ss| - 1]) + ss[|ss| - 1]
  }

  lemma FlattenSnoc<T>(ss: seq<seq<T>>, s: seq<T>)
    ensures Flatten(ss + [s]) == Flatten(ss) + s
  {
    assert (ss + [s])[..|ss|] == ss;
  }

  /** An element is in the concatenation exactly when it is in one of the parts. */
  lemma {:induction false} FlattenMembers<T>(ss: seq<seq<T>>, x: T)
    ensures x in Flatten(ss) <==> exists k :: 0 <= k < |ss| && x in ss[k]
  {
    if ss != [] {
      var n := |ss| - 1;
      FlattenMembers(ss[..n], x);
      if x in Flatten(ss[..n]) {
        var k :| 0 <= k < n && x in ss[..n][k];
        assert ss[..n][k] == ss[k];
      } else if x !in ss[n] {
        forall k | 0 <= k < |ss| ensures x !in ss[k] {
          if k < n {
            assert ss[..n][k] == ss[k];
          }
        }
      }
    }
  }

  /** The blockers each template pushes in the `map` of `limitHitboxes`. */
  function BlockersPerTemplate(templates: seq<Hitbox>, inRangePieces: seq<string>, chessData: map<string, Point>,
                               pieceCenter: Point -> Point, center: Point): (r: seq<seq<string>>)
    requires forall p :: p in inRangePieces ==> p in chessData
    ensures |r| == |templates|
  {
    seq(|templates|, k requires 0 <= k < |templates| =>
      BlockersAt(templates[k], InThisHitbox(inRangePieces, chessData, templates[k]), chessData, pieceCenter, center))
  }

  /** Every blocker the `map` of `limitHitboxes` pushes for `templates`, in push order. */
  function AllBlockers(templates: seq<Hitbox>, inRangePieces: seq<string>, chessData: map<string, Point>,
                       pieceCenter: Point -> Point, center: Point): seq<string>
    requires forall p :: p in inRangePieces ==> p in chessData
  {
    Flatten(BlockersPerTemplate(templates, inRangePieces, chessData, pieceCenter, center))
  }

  /** One more template appends its blockers to `AllBlockers`. */
  lemma AllBlockersStep(templates: seq<Hitbox>, i: nat, inRangePieces: seq<string>, chessData: map<string, Point>,
                        pieceCenter: Point -> Point, center: Point)
    requires forall p :: p in inRangePieces ==> p in chessData
    requires i < |templates|
    ensures AllBlockers(templates[..i + 1], inRangePieces, chessData, pieceCenter, center) ==
      AllBlockers(templates[..i], inRangePieces, chessData, pieceCenter, center)
        + BlockersAt(templates[i], InThisHitbox(inRangePieces, chessData, templates[i]), chessData, pieceCenter, center)
  {
    var next := BlockersPerTemplate(templates[..i + 1], inRangePieces, chessData, pieceCenter, center);
    var prev := BlockersPerTemplate(templates[..i], inRangePieces, chessData, pieceCenter, center);
    var last := BlockersAt(templates[i], InThisHitbox(inRangePieces, chessData, templates[i]), chessData, pieceCenter, center);
    forall k | 0 <= k < i + 1 ensures next[k] == (prev + [last])[k] {
      assert templates[..i + 1][k] == templates[k];
      if k < i {
        assert templates[..i][k] == templates[k];
      }
    }
    assert next == prev + [last];
    FlattenSnoc(prev, last);
  }

  /** A piece is among all blockers exactly when it is a blocker of one of the templates. */
  lemma AllBlockersMembers(templates: seq<Hitbox>, inRangePieces: seq<string>, chessData: map<string, Point>,
                           pieceCenter: Point -> Point, center: Point, p: string)
    requires forall p :: p in inRangePieces ==> p in chessData
    ensures p in AllBlockers(templates, inRangePieces, chessData, pieceCenter, center) <==>
      exists k :: 0 <= k < |templates| &&
        p in BlockersAt(templates[k], InThisHitbox(inRangePieces, chessData, templates[k]), chessData, pieceCenter, center)
  {
    var bs := BlockersPerTemplate(templates, inRangePieces, chessData, pieceCenter, center);
    FlattenMembers(bs, p);
    if p in Flatten(bs) {
      var k :| 0 <= k < |bs| && p in bs[k];
      assert p in BlockersAt(templates[k], InThisHitbox(inRangePieces, chessData, templates[k]), chessData, pieceCenter, center);
    } else {
      forall k | 0 <= k < |templates|
        ensures p !in BlockersAt(templates[k], InThisHitbox(inRangePieces, chessData, templates[k]), chessData, pieceCenter, center)
      {
        assert p !in bs[k];
      }
    }
  }

  /** Parts of at most two elements each concatenate to at most two per part. */
  lemma {:induction false} FlattenAtMostTwo<T>(ss: seq<seq<T>>)
    requires forall k :: 0 <= k < |ss| ==> |ss[k]| <= 2
    ensures |Flatten(ss)| <= 2 * |ss|
  {
    if ss != [] {
      var n := |ss| - 1;
      assert forall k :: 0 <= k < n ==> ss[..n][k] == ss[k];
      FlattenAtMostTwo(ss[..n]);
    }
  }

  /** All blockers number at most two per template, and each is an in-range piece meeting its template. */
  lemma AllBlockersFound(templates: seq<Hitbox>, inRangePieces: seq<string>, chessData: map<string, Point>,
                         pieceCenter: Point -> Point, center: Point)
    requires forall p :: p in inRangePieces ==> p in chessData
    ensures |AllBlockers(templates, inRangePieces, chessData, pieceCenter, center)| <= 2 * |templates|
    ensures forall p :: p in AllBlockers(templates, inRangePieces, chessData, pieceCenter, center) ==>
      FoundIn(p, templates, inRangePieces, chessData)
  {
    var bs := BlockersPerTemplate(templates, inRangePieces, chessData, pieceCenter, center);
    forall k | 0 <= k < |bs| ensures |bs[k]| <= 2 {
      BlockersFromInThis(templates[k], InThisHitbox(inRangePieces, chessData, templates[k]), chessData, pieceCenter, center);
    }
    FlattenAtMostTwo(bs);
    forall p | p in AllBlockers(templates, inRangePieces, chessData, pieceCenter, center)
      ensures FoundIn(p, templates, inRangePieces, chessData)
    {
      AllBlockersMembers(templates, inRangePieces, chessData, pieceCenter, center, p);
      var k :| 0 <= k < |templates| &&
        p in BlockersAt(templates[k], InThisHitbox(inRangePieces, chessData, templates[k]), chessData, pieceCenter, center);
      BlockersFromInThis(templates[k], InThisHitbox(inRangePieces, chessData, templates[k]), chessData, pieceCenter, center);
    }
  }

  /** The `map` of `limitHitboxes`: every template clipped, with all the blockers pushed, in order. */
  method ClipAll(templates: seq<Hitbox>, inRangePieces: seq<string>, chessData: map<string, Point>,
                 pieceCenter: Point -> Point, center: Point)
    returns (hitboxes: seq<Hitbox>, allHits: seq<string>)
    requires forall p :: p in inRangePieces ==> p in chessData
    ensures hitboxes == ClippedAll(templates, inRangePieces, chessData, pieceCenter, center)
    ensures allHits == AllBlockers(templates, inRangePieces, chessData, pieceCenter, center)
  {
    allHits := [];
    hitboxes := [];
    var i := 0;
    while i < |templates|
      invariant 0 <= i <= |templates|
      invariant hitboxes == ClippedAll(templates[..i], inRangePieces, chessData, pieceCenter, center)
      invariant allHits == AllBlockers(templates[..i], inRangePieces, chessData, pieceCenter, center)
    {
      var inThis := InThisHitbox(inRangePieces, chessData, templates[i]);
      var limited, hits := ClipHitbox(templates[i], inThis, chessData, pieceCenter, center);
      ClippedAllStep(templates, i, inRangePieces, chessData, pieceCenter, center);
      AllBlockersStep(templates, i, inRangePieces, chessData, pieceCenter, center);
      hitboxes := hitboxes + [limited];
      allHits := allHits + hits;
      i := i + 1;
    }
    assert templates[..i] == templates;
  }

  /**
   * `ClipAll` followed by the removal of repeated blockers: each hitbox
   * clipped at the blockers meeting it, and all blockers found, each listed
   * once.
   */
  method ClipHitboxes(templates: seq<Hitbox>, inRangePieces: seq<string>, chessData: map<string, Point>,
                      pieceCenter: Point -> Point, center: Point)
    returns (hitboxes: seq<Hitbox>, hitPieces: seq<string>)
    requires forall p :: p in inRangePieces ==> p in chessData
    ensures hitboxes == ClippedAll(templates, inRangePieces, chessData, pieceCenter, center)
    ensures hitPieces == MiscUtil.Uniq(AllBlockers(templates, inRangePieces, chessData, pieceCenter, center))
    ensures MiscUtil.NoDuplicates(hitPieces)
    ensures |hitPieces| <= 2 * |templates|
    ensures forall p :: p in hitPieces ==> FoundIn(p, templates, inRangePieces, chessData)
  {
    var allHits;
    hitboxes, allHits := ClipAll(templates, inRangePieces, chessData, pieceCenter, center);
    hitPieces := MiscUtil.Uniq(allHits);
    MiscUtil.UniqMembers(allHits);
    MiscUtil.UniqNoDuplicates(allHits);
    AllBlockersFound(templates, inRangePieces, chessData, pieceCenter, center);
  }

  /**
   * `Hitbox.limitHitboxes`: the piece's hitboxes clipped at their nearest
   * blockers, in order, and the blockers found, each listed once.
   * `pieceCenter` stands for `Piece.getPieceCenter`.
   */
  method LimitHitboxes(piece: string, pos: Point, inRangePieces: seq<string>, chessData: map<string, Point>,
                       pieceCenter: Point -> Point)
    returns (hitboxes: seq<Hitbox>, hitPieces: seq<string>)
    requires forall p :: p in inRangePieces ==> p in chessData
    ensures hitboxes == ClippedAll(GetPieceHitboxes(Pieces.GetPieceType(piece), pos), inRangePieces, chessData, pieceCenter, pieceCenter(pos))
    ensures hitPieces == MiscUtil.Uniq(AllBlockers(GetPieceHitboxes(Pieces.GetPieceType(piece), pos), inRangePieces, chessData, pieceCenter, pieceCenter(pos)))
    ensures |hitboxes| == |GetPieceHitboxes(Pieces.GetPieceType(piece), pos)|
    ensures MiscUtil.NoDuplicates(hitPieces)
    ensures |hitPieces| <= 2 * |GetPieceHitboxes(Pieces.GetPieceType(piece), pos)|
    ensures forall p :: p in hitPieces ==> (p in inRangePieces &&
      exists i :: 0 <= i < |GetPieceHitboxes(Pieces.GetPieceType(piece), pos)| &&
        HitAt(chessData[p], GetPieceHitboxes(Pieces.GetPieceType(piece), pos)[i]))
  {
    var templates := GetPieceHitboxes(Pieces.GetPieceType(piece), pos);
    var center := pieceCenter(pos);
    hitboxes, hitPieces := ClipHitboxes(templates, inRangePieces, chessData, pieceCenter, center);
    forall p | p in hitPieces
      ensures p in inRangePieces && exists i :: 0 <= i < |templates| && HitAt(chessData[p], templates[i])
    {
      var i :| 0 <= i < |templates| && p in InThisHitbox(inRangePieces, chessData, templates[i]);
      InThisHitboxMembers(inRangePieces, chessData, templates[i]);
    }
  }
}
