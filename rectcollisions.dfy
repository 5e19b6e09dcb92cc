/**
 * src/server/RectCollisions.js: the point and rectangle tests alone, on
 * `[x, y]` and `[left, top, width, height]` arrays, with the edge format
 * built inline.
 */
module RectCollisions {
  import opened Vectors
  import Polygons
  import Collisions

  /** `pointIntersectsRect`: strictly inside on both axes, as in Collisions.js. */
  predicate PointIntersectsRect(pos: Collisions.Coords, rect: Collisions.Xywh): (r: bool)
    ensures r <==> Collisions.PointIntersectsRect(pos, rect)
  {
    var x, y := pos[0], pos[1];
    var left, top, width, height := rect[0], rect[1], rect[2], rect[3];
    x > left && x < left + width && y > top && y < top + height
  }

  /** `rectIntersectsRect`: neither rectangle lies strictly beyond an edge of the other, as in Collisions.js. */
  predicate RectIntersectsRect(rect1: Collisions.Xywh, rect2: Collisions.Xywh): (r: bool)
    ensures r <==> Collisions.RectIntersectsRect(rect1, rect2)
  {
    var left1, top1, width1, height1 := rect1[0], rect1[1], rect1[2], rect1[3];
    var left2, top2, width2, height2 := rect2[0], rect2[1], rect2[2], rect2[3];
    var r1 := Polygons.Tlbr(left1, top1, left1 + width1, top1 + height1);
    var r2 := Polygons.Tlbr(left2, top2, left2 + width2, top2 + height2);
    !(r2.left > r1.right || r2.right < r1.left || r2.top > r1.bottom || r2.bottom < r1.top)
  }

  lemma RectIntersectsRectSymmetric(rect1: Collisions.Xywh, rect2: Collisions.Xywh)
    ensures RectIntersectsRect(rect1, rect2) == RectIntersectsRect(rect2, rect1)
  {
  }

  /**
   * Rectangles that share only an edge (the right edge of the first is the
   * left edge of the second, or the bottom edge of the first the top edge
   * of the second, with overlapping extents) are reported as intersecting.
   */
  lemma SharedEdgeIntersects(rect1: Collisions.Xywh, rect2: Collisions.Xywh)
    requires rect1[2] >= 0.0 && rect1[3] >= 0.0 && rect2[2] >= 0.0 && rect2[3] >= 0.0
    requires (rect2[0] == rect1[0] + rect1[2] && rect1[1] <= rect2[1] <= rect1[1] + rect1[3]) ||
             (rect2[1] == rect1[1] + rect1[3] && rect1[0] <= rect2[0] <= rect1[0] + rect1[2])
    ensures RectIntersectsRect(rect1, rect2)
    ensures !exists p :: Collisions.PointIntersectsRect(p, rect1) && Collisions.PointIntersectsRect(p, rect2)
  {
  }

  /** A rectangle of non-negative size intersects itself; one of negative width does not. */
  lemma SelfIntersection(rect: Collisions.Xywh)
    ensures rect[2] >= 0.0 && rect[3] >= 0.0 ==> RectIntersectsRect(rect, rect)
    ensures rect[2] < 0.0 || rect[3] < 0.0 ==> !RectIntersectsRect(rect, rect)
  {
  }
}
