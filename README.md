# SlideyChess collision geometry in Dafny

SlideyChess is a multiplayer chess game played on a continuous board: pieces
slide to arbitrary positions and a move's reach is worked out geometrically.
Each piece type has a set of *hitboxes*: the square around the piece swept
along a direction. The server tests which pieces those hitboxes meet, and
clips a sliding piece's hitboxes at the nearest blocker on either side. This
project models that geometric core and proves properties of it:

- `Vectors` (src/server/Vector.js): vectors given by two end points, with dot
  product, scaling and projection.
- `Polygons` (src/server/Polygon.js):
  - segments (`Line`) with their linear equations and crossing points;
  - rectangles (`Rect`) with edge format, overlap and containment;
  - polygons (`Polygon`) with sides, shoelace area, bounding box, the
    rectangle test and the layered intersection test (bounding boxes, then
    crossing sides, then ray casting).
- `Hitboxes` (src/server/Hitbox.js):
  - the hitbox value and its polygon (a square, an axis-aligned rectangle, or
    a six-point swept diagonal);
  - the per-type hitbox templates;
  - `getPiecesInHitbox`;
  - `limitHitboxes`.
- `MiscUtil` (src/server/MiscUtil.js): `clamp` and `uniq`.
- `Pieces` (src/server/Pieces.js): piece identifiers such as `R1w` and the
  starting layout.
- `Collisions` and `RectCollisions` (src/server/Collisions.js and
  RectCollisions.js): the older array-based tests. The point and rectangle
  tests are proved equal to `Rect.containsPoint` and `Rect.intersectsRect`.
  `rectIntersectsPolygon` is proved equal only to the ray-cast stage of
  `Polygon.intersects` (a corner of the rectangle inside the polygon). It is
  not proved equal to `Rect.intersectsPolygon`, which runs the whole layered
  test.
- `MainMenu` (src/MainMenu.js): the room-code form as a small stateful
  class.

Supporting modules:

- `Wrappers`: `Option` and `Result`.
- `JsMath`: `Math.min`, `Math.max` and `Math.abs`.
- `Constants`: the sizes exported by src/server/Constants.js. That file is
  not part of this model, so each size is left abstract: it is only known to
  be a positive real.

How the source becomes Dafny:

- JavaScript numbers are modelled as `real`, so the source's `===` tests on
  slopes and areas are exact.
- Operations that loop are methods proved against a specification:
  - `Polygon.sides`, `area`, `boundingBox` and `intersects`, and
    `rectIntersectsPolygon`, are proved equal to a specification function;
  - `limitHitboxes` and `getPiecesInHitbox` are proved equal to
    specification functions for their results, order included, and their
    memberships are proved about those functions.
- The properties the game relies on are proved about those functions.
- `Line.offset`, the one place a geometric object is updated in place, is
  a class method.

## Model

| member | source | states |
|---|---|---|
| Vectors.Vector.Dim | src/server/Vector.js:24-29 | the extent is what must be added to the start point to reach the end point |
| Vectors.Vector.Pos | src/server/Vector.js:43-45 | the start point, which with the extent rebuilds the vector |
| Vectors.Vector.Dot | src/server/Vector.js:51-55 | a vector's dot product with itself is never negative, and is zero exactly when its extent is zero |
| Vectors.Vector.Multiply | src/server/Vector.js:61-66 | the scaled vector keeps its start point and its extent is the old extent times k |
| Vectors.Vector.ProjectOnto | src/server/Vector.js:72-76 | the projection starts where the target vector starts and is parallel to it; a zero target is excluded |

| Vectors.PosDim | src/server/Vector.js:13-19 | the vector built from a position and an extent has exactly that start and that extent |
| Vectors.DotSymmetric | src/server/Vector.js:51-55 | the dot product is symmetric |
| Vectors.DotMultiply | src/server/Vector.js:61-66 | scaling one operand by k scales the dot product by k |
| Vectors.ProjectionResidualOrthogonal | src/server/Vector.js:72-76 | what is left of a vector after projecting it onto d is orthogonal to d |
| Vectors.ProjectionIdempotent | src/server/Vector.js:72-76 | projecting a projection onto the same vector again changes nothing |
| Polygons.Line.ToVector | src/server/Polygon.js:15-18 | a line's vector has the extent from its first point to its second |
| Polygons.Line.Pos | src/server/Polygon.js:20-22 | the first point, which with the line's vector rebuilds the line |
| Polygons.LineOrientation | src/server/Polygon.js:24-34 | a line is vertical exactly when its vector has no horizontal extent, horizontal exactly when it has no vertical extent, and diagonal exactly when it has both |
| Polygons.Line.Offset | src/server/Polygon.js:36-43 | the first point moves by the first offset, and the second by the second offset, or by the first when only one is given |
| Polygons.Line.PointsSortedByHeight | src/server/Polygon.js:49-53 | returns the two end points, lower y first |
| Polygons.Line.PointsSortedByLength | src/server/Polygon.js:59-63 | returns the two end points, lower x first |
| Polygons.Line.Equation | src/server/Polygon.js:75-84 | there is no equation exactly for a vertical line; otherwise both end points satisfy y = m*x + c, and m is 0 exactly for a horizontal line |
| Polygons.Line.PointOfIntersection | src/server/Polygon.js:91-138 | two vertical lines and two lines of equal slope never meet; otherwise a point is returned exactly when the segments share one: the returned point lies on both lines, within both x-ranges and within the y-range of a vertical line, and any such common point is the one returned |
| Polygons.VerticalCrossing | src/server/Polygon.js:98-116 | with one line vertical, a point is returned exactly when the segments share one (on both lines, within the vertical extent and within the other line's x-range), and it is that point |
| Polygons.SlopeCrossing | src/server/Polygon.js:119-137 | with two differently sloped lines, a point is returned exactly when the segments share one (on both lines and within both x-ranges), and it is that point |
| Polygons.EquationCollinear | src/server/Polygon.js:75-84 | a point satisfying a non-vertical line's equation is collinear with its end points |
| Polygons.CollinearOnEquation | src/server/Polygon.js:75-84 | every point collinear with a non-vertical line satisfies its equation |
| Polygons.SlopeCrossingUnique | src/server/Polygon.js:119-137 | two lines of different slopes have only the computed point in common |
| Polygons.SlopeCrossingOnBoth | src/server/Polygon.js:119-130 | the point computed from two different slopes lies on both lines |
| Polygons.LinePosDim | src/server/Polygon.js:148-154 | the line built from a position and an extent starts there and has that extent |
| Polygons.OffsetKeepsVector | src/server/Polygon.js:36-43 | offsetting by a single offset moves both end points alike and keeps the vector |
| Polygons.OffsetInverse | src/server/Polygon.js:36-43 | offsetting by [a, b] and then by [-a, -b] restores the line |
| Polygons.LineRef.Offset | src/server/Polygon.js:36-43 | the line's new points are the old points shifted by the first or second offset, the first offset serving both when only one is given |
| Polygons.Rect.ToPolygon | src/server/Polygon.js:307-316 | a rectangle's polygon is a valid 4-point polygon from its top-left corner to its opposite corner |
| Polygons.Rect.Area | src/server/Polygon.js:318-320 | a rectangle's area is never negative |
| Polygons.Rect.TlbrFormat | src/server/Polygon.js:362-367 | in edge format, left and top are the position, and right minus left and bottom minus top are the width and height |
| Polygons.Rect.IntersectsRect | src/server/Polygon.js:327-334 | for non-negative sizes, two rectangles intersect exactly when some point lies in both closed rectangles |
| Polygons.IntersectsRectSymmetric | src/server/Polygon.js:327-334 | rectangle intersection is symmetric |
| Polygons.TouchingRectsIntersect | src/server/Polygon.js:327-334 | rectangles that only share an edge count as intersecting |
| Polygons.Rect.ContainsPoint | src/server/Polygon.js:350-360 | a contained point lies in the closed rectangle, and only a rectangle of positive size contains any point |
| Polygons.Rect.IntersectsPolygon | src/server/Polygon.js:341-343 | a rectangle of non-negative size only meets a polygon whose bounding box it overlaps |
| Polygons.ContainsPointExcludesBoundary | src/server/Polygon.js:350-360 | no point on a rectangle's boundary is contained in it |
| Polygons.ContainedPointIntersects | src/server/Polygon.js:350-360 | a point strictly inside a rectangle intersects it as a zero-size rectangle |
| Polygons.NewPolygon | src/server/Polygon.js:158-162 | construction succeeds exactly for at least 3 points and keeps them in order; otherwise it is an error |
| Polygons.Polygon.SideLines | src/server/Polygon.js:168-174 | there is one side per point, and side i joins point i to point i+1, with the last point joined back to the first |
| Polygons.Polygon.Sides | src/server/Polygon.js:168-174 | the loop builds exactly the wrapped sides |
| Polygons.Polygon.AreaOf | src/server/Polygon.js:180-191 | a polygon's area is never negative |
| Polygons.Polygon.Area | src/server/Polygon.js:180-191 | the loop computes the absolute value of the shoelace (trapezoid) sum over the sides |
| Polygons.Polygon.Bounds | src/server/Polygon.js:197-206 | a polygon's bounding box has non-negative size |
| Polygons.Polygon.BoundingBox | src/server/Polygon.js:197-206 | the min/max loop yields the box spanning the coordinate extremes of the points |
| Polygons.Polygon.Intersects | src/server/Polygon.js:225-266 | the result is the layered test: false for disjoint bounding boxes, true for two rectangles whose boxes meet, otherwise crossing sides or a vertex of the other polygon inside this one |
| Polygons.AnySidesCross | src/server/Polygon.js:242-248 | true exactly when some side of one polygon crosses some side of the other |
| Polygons.AnyPointInside | src/server/Polygon.js:254-262 | true exactly when some point has an odd ray-cast crossing count against the sides |
| Polygons.MinMaxNonEmpty | src/server/Polygon.js:197-206 | the minimum coordinate never exceeds the maximum on either axis |
| Polygons.ExtremesTight | src/server/Polygon.js:197-206 | the extremes bound every point and each is attained by some point |
| Polygons.BoundsTight | src/server/Polygon.js:197-206 | the bounding box contains every vertex and each of its four edges touches a vertex |
| Polygons.BoundsUnique | src/server/Polygon.js:197-206 | any rectangle that contains all vertices and touches them on all four edges is the bounding box |
| Polygons.SideRaycastToPoint | src/server/Polygon.js:277-298 | horizontal sides and sides that do not strictly straddle the ray's height never count; a straddling side counts exactly when its crossing with that height lies left of the target |
| Polygons.CrossingOfVertical | src/server/Polygon.js:286-289 | a straddling vertical side crosses the ray's height only at its own x |
| Polygons.CrossingOfSlope | src/server/Polygon.js:290-295 | the x computed from the side's equation is the only crossing with the ray's height |
| Polygons.RectPolygonArea | src/server/Polygon.js:180-191 | a rectangle's polygon has area abs(w*h), equal to the rectangle's area |
| Polygons.RectPolygonBounds | src/server/Polygon.js:197-206 | for non-negative sizes, a rectangle's polygon has the rectangle itself as bounding box |
| Polygons.RectPolygonBoundsSize | src/server/Polygon.js:197-206 | the bounding box of any rectangle's polygon has size (abs(w), abs(h)) |
| Polygons.RectPolygonIsRect | src/server/Polygon.js:212-219 | every rectangle's polygon passes isRect, and no polygon with other than 4 points does |
| Polygons.RectPolygonsMeet | src/server/Polygon.js:341-343 | for non-negative sizes, a rectangle meets another rectangle's polygon exactly when the two rectangles intersect |
| MiscUtil.Clamp | src/server/MiscUtil.js:7-9 | the result lies in [lo, hi] when that range is non-empty, is the input when already inside, is lo below and hi above, and is hi when lo > hi |
| MiscUtil.ClampIdempotent | src/server/MiscUtil.js:7-9 | clamping twice is clamping once |
| MiscUtil.IndexOf | src/server/MiscUtil.js:15-17 | indexOf returns -1 exactly for an absent element, and otherwise its first position |
| MiscUtil.FirstOccurrencesFacts | src/server/MiscUtil.js:15-17 | the first-occurrence filter over a prefix keeps exactly the prefix's elements, without duplicates, each first seen in the prefix |
| MiscUtil.UniqNoDuplicates | src/server/MiscUtil.js:15-17 | uniq's result has no duplicates |
| MiscUtil.UniqMembers | src/server/MiscUtil.js:15-17 | uniq keeps exactly the elements of its input and is no longer than it |
| MiscUtil.UniqSnoc | src/server/MiscUtil.js:15-17 | uniq keeps first occurrences in their original order: appending an element appends it exactly when it is new |
| MiscUtil.UniqOfDistinct | src/server/MiscUtil.js:15-17 | a sequence without duplicates is its own uniq |
| MiscUtil.UniqIdempotent | src/server/MiscUtil.js:15-17 | uniq is idempotent |
| Pieces.Substr | src/server/Pieces.js:68-70 | substr returns the requested slice when it fits, the suffix when it runs past the end, and "" past the end |
| Pieces.SubstrFrom | src/server/Pieces.js:76-78 | substr from an index is the suffix from there, or "" past the end |
| Pieces.GetPieceColour | src/server/Pieces.js:76-78 | the colour is what follows the first two characters of the id, and "" for an id shorter than two |
| Pieces.GetPieceType | src/server/Pieces.js:68-70 | a piece's type is its id without the index character: one character shorter with the same first letter |
| Pieces.TypeEndsWithColour | src/server/Pieces.js:68-78 | a piece's type always ends with its colour |
| Pieces.IndexIgnored | src/server/Pieces.js:68-78 | ids that differ only in the index character have the same type and colour |
| Pieces.DefaultIdsDistinct | src/server/Pieces.js:16-54 | the 32 ids of the starting layout are pairwise distinct |
| Pieces.DefaultKeys | src/server/Pieces.js:16-54 | the starting layout's keys are exactly the listed ids |
| Pieces.GetDefaultPieces | src/server/Pieces.js:59-62 | the layout copy has exactly the listed ids as keys, 32 of them, each on one of the eight columns, and white pieces on the two bottom rows and black pieces on the two top rows |
| Pieces.DefaultColours | src/server/Pieces.js:16-54 | the first 16 ids are white and the last 16 black |
| Pieces.ColourSlice | src/server/Pieces.js:16-54 | the pieces of a colour whose ids form a slice of the id list are as many as the slice is long |
| Pieces.DefaultColourCounts | src/server/Pieces.js:59-62 | the starting layout has 16 white and 16 black pieces |
| Pieces.DefaultPositionsOnGrid | src/server/Pieces.js:18-53 | every starting x is one of the eight columns 0, 62.5, ..., 437.5; white pieces start at y = 375 or 437.5 and black ones at y = 0 or 62.5 |
| Collisions.PointIntersectsRect | src/server/Collisions.js:7-16 | the array test equals Rect.containsPoint on the same values |
| Collisions.PointIntersectsRectStrict | src/server/Collisions.js:7-16 | points on an edge or a corner are outside, and only a rectangle of positive size contains any point |
| Collisions.GetRectInTlbrFormat | src/server/Collisions.js:36-40 | in edge format, left and top are the position, and right minus left and bottom minus top are the width and height |
| Collisions.RectIntersectsRect | src/server/Collisions.js:23-30 | the array test equals Rect.intersectsRect on the same values, so for non-negative sizes it holds exactly when the closed rectangles share a point |
| Collisions.RectIntersectsRectSymmetric | src/server/Collisions.js:23-30 | the array rectangle test is symmetric |
| Collisions.TouchingRectsIntersect | src/server/Collisions.js:23-30 | rectangles sharing only an edge count as overlapping |
| Collisions.RectToPolygon | src/server/Collisions.js:46-53 | returns four corners, the same ones Rect.polygon lists, in the same order |
| Collisions.RectToPolygonClockwise | src/server/Collisions.js:46-53 | the corner order has shoelace sum 2wh, so it is positive (clockwise with y downwards) for a rectangle of positive size |
| Collisions.FiniteDiv | src/server/Collisions.js:71 | a quotient is finite exactly when the divisor is non-zero, and it times the divisor gives the dividend |
| Collisions.SideRaycastToPoint | src/server/Collisions.js:62-80 | non-straddling sides never count; a straddling vertical side counts exactly when left of the target; a straddling side counts exactly when its crossing with the ray's height is left of the target |
| Collisions.SideRaycastAgrees | src/server/Collisions.js:62-80 | the array ray cast decides every side as Polygon.sideRaycastToPoint does |
| Collisions.RectIntersectsPolygon | src/server/Collisions.js:87-103 | true exactly when some corner of the rectangle has an odd crossing count against the wrapped sides of the polygon |
| Collisions.WrappedCrossingsAgree | src/server/Collisions.js:95-99 | the wrapped-side count over the first n sides equals the polygon crossing count over the first n sides of Polygon.sides |
| Collisions.RectIntersectsPolygonAgrees | src/server/Collisions.js:87-103 | on a polygon of at least 3 points, the array test is the ray-cast stage of Polygon.intersects: some corner of the rectangle's polygon lies inside |
| RectCollisions.PointIntersectsRect | src/server/RectCollisions.js:7-16 | the test equals the Collisions.js version everywhere |
| RectCollisions.RectIntersectsRect | src/server/RectCollisions.js:23-32 | the test equals the Collisions.js version everywhere |
| RectCollisions.RectIntersectsRectSymmetric | src/server/RectCollisions.js:23-32 | the test is symmetric |
| RectCollisions.SharedEdgeIntersects | src/server/RectCollisions.js:23-32 | rectangles sharing only a right/left or bottom/top edge intersect, although no point lies strictly inside both |
| RectCollisions.SelfIntersection | src/server/RectCollisions.js:23-32 | a rectangle of non-negative size intersects itself; one of negative width or height does not |
| Hitboxes.Hitbox.Data | src/server/Hitbox.js:18-20 | the flat data always has four entries (the round trip with fromData is Hitboxes.DataRoundTrip) |
| Hitboxes.Hitbox.CentralLine | src/server/Hitbox.js:22-25 | the central line starts at the centre of the start square and runs along the direction |

| Hitboxes.Hitbox.ToPolygon | src/server/Hitbox.js:27-67 | the hitbox polygon is valid, with 4 points for an axis-aligned direction and 6 for a diagonal one |
| Hitboxes.Hitbox.Hull | src/server/Hitbox.js:99-101 | the swept hull is at least one hitbox square in each dimension |
| Hitboxes.Hitbox.BoundingBox | src/server/Hitbox.js:99-101 | a hitbox's bounding box is its swept hull: the smallest rectangle covering the start and end squares |
| Hitboxes.Hitbox.PieceTransform | src/server/Hitbox.js:74-84 | the transformed position is the piece position plus the template position in squares, and the direction is scaled by the square size |
| Hitboxes.Hitbox.CenteredOnSquare | src/server/Hitbox.js:90-97 | centring shifts the hitbox by a quarter square and keeps its direction |
| Hitboxes.FromData | src/server/Hitbox.js:14-16 | a hitbox built from data reads back the first four numbers |
| Hitboxes.DataRoundTrip | src/server/Hitbox.js:14-20 | rebuilding a hitbox from its data gives the same hitbox |
| Hitboxes.FromDataRoundTrip | src/server/Hitbox.js:14-20 | the data of a hitbox built from four numbers are those numbers |
| Hitboxes.ZeroDirectionIsSquare | src/server/Hitbox.js:37-40 | with no direction the hitbox is its start square: same polygon, hull and bounding box |
| Hitboxes.AxisAlignedIsHullRect | src/server/Hitbox.js:41-52 | an axis-aligned hitbox is the rectangle of its hull, so it passes isRect |
| Hitboxes.DiagonalCorners | src/server/Hitbox.js:53-65 | every corner of a diagonal hitbox is a corner of the start or the end square |
| Hitboxes.HullSmallest | src/server/Hitbox.js:27-34 | the hull contains both squares, and every rectangle containing both squares contains the hull |
| Hitboxes.BoundsIsHull | src/server/Hitbox.js:27-67 | the bounding box of a hitbox's polygon is its swept hull in every direction case |
| Hitboxes.DiagonalExtremes | src/server/Hitbox.js:53-65 | a diagonal hitbox polygon touches all four edges of the hull |
| Hitboxes.ShiftPoints | src/server/Hitbox.js:27-67 | translating a hitbox translates every point of its polygon, in order, in every direction case |
| Hitboxes.ShiftPolygon | src/server/Hitbox.js:27-67 | translating a hitbox translates every point of its polygon and its bounding box |
| Hitboxes.PieceTransformShift | src/server/Hitbox.js:74-84 | moving the piece moves the transformed hitbox by the same amount |
| Hitboxes.IntersectsByHulls | src/server/Hitbox.js:107-109 | intersecting hitboxes have intersecting hulls, and for two axis-aligned hitboxes the converse holds too |
| Hitboxes.GetPieceBoundingHitbox | src/server/Hitbox.js:151-156 | a piece's bounding hitbox has no direction and sits a quarter square from the piece position |
| Hitboxes.BoundingHitboxIsSquare | src/server/Hitbox.js:151-156 | a piece's bounding hitbox is the hitbox square at the centred position, as polygon and as bounding box |
| Hitboxes.GetPieceHitboxes | src/server/Hitbox.js:164-170 | an unknown type has no hitboxes; a known one has one per template, each transformed to the piece position and centred |
| Hitboxes.PieceHitboxCounts | src/server/Hitbox.js:289-378 | knights have 1 (white) and 4 (black) hitboxes, bishops and rooks 2 each, and pawns, queens and kings none |
| Hitboxes.PieceHitboxShapes | src/server/Hitbox.js:346-377 | rook hitboxes are axis-aligned, bishop and knight hitboxes diagonal, and template directions are scaled by the square size |
| Hitboxes.PieceHitboxesShift | src/server/Hitbox.js:164-170 | moving the piece translates every one of its hitboxes alike |
| Hitboxes.OtherColour | src/server/Hitbox.js:187 | the filter keeps exactly the keys of another colour |
| Hitboxes.GetPiecesInHitbox | src/server/Hitbox.js:179-198 | the result is the pieces pushed hitbox by hitbox, over the filtered keys, with repeats dropped; it has no duplicates and never the piece itself; a piece is in it exactly when it is on the board, passes the colour filter and its bounding hitbox meets one of the moving piece's hitboxes |
| Hitboxes.PiecesHitBy | src/server/Hitbox.js:189-195 | the inner loop pushes, in key order, exactly the other pieces whose bounding hitbox meets the hitbox |
| Hitboxes.HitByMembers | src/server/Hitbox.js:189-195 | a piece is pushed for one hitbox exactly when it is listed, is not the moving piece and its bounding hitbox meets the hitbox |
| Hitboxes.PiecesHitByAny | src/server/Hitbox.js:188-196 | the nested loops push, hitbox by hitbox, the pieces hit by each; a piece is pushed exactly when it is listed, is not the moving piece and meets some hitbox |
| Hitboxes.HitsPerHitboxMembers | src/server/Hitbox.js:188-196 | the concatenated per-hitbox hits contain exactly the listed pieces, other than the moving one, that meet some hitbox |
| Hitboxes.InThisHitboxMembers | src/server/Hitbox.js:221 | the pieces in a hitbox are exactly the in-range pieces whose bounding hitbox meets it |
| Hitboxes.Beside | src/server/Hitbox.js:226-227 | the pieces beside the centre are exactly the listed pieces whose centre coordinate lies strictly on the chosen side, each with that coordinate |
| Hitboxes.NearestBelow | src/server/Hitbox.js:232-238 | the maximum starts at 0 and bounds every coordinate; a piece is chosen exactly when some coordinate exceeds 0, and it is one attaining the maximum |
| Hitboxes.NearestAbove | src/server/Hitbox.js:241-247 | the minimum starts at 500 and bounds every coordinate; a piece is chosen exactly when some coordinate is below 500, and it is one attaining the minimum |
| Hitboxes.Pushed | src/server/Hitbox.js:239 | the last hit piece is recorded exactly when it is present and not the empty (falsy) string |
| Hitboxes.Clip | src/server/Hitbox.js:249-252 | the clipped start is the larger of the nearest lower blocker and the old start; the clipped end is the smaller of the nearest upper blocker and the old end; the other axis is unchanged |
| Hitboxes.ScanBelow | src/server/Hitbox.js:229-238 | the first scan ends with the largest coordinate above 0 and the first piece that has it, as Hitboxes.NearestBelow defines |
| Hitboxes.ScanAbove | src/server/Hitbox.js:240-247 | the second scan ends with the smallest coordinate under 500 and the first piece that has it, as Hitboxes.NearestAbove defines |
| Hitboxes.ClipHitbox | src/server/Hitbox.js:216-284 | the two scanning loops produce the clipped hitbox and the one or two nearest blockers that the specification functions define |
| Hitboxes.BlockersFromInThis | src/server/Hitbox.js:232-248 | a hitbox records at most two blockers, all among the pieces in it |
| Hitboxes.BlockersNearest | src/server/Hitbox.js:226-248 | each recorded blocker is strictly on its side of the centre; no piece on the lower side is beyond the lower bound, and none on the upper side is before the upper bound |
| Hitboxes.ClipAll | src/server/Hitbox.js:204-285 | the loop over the templates yields, in order, each template clipped by the pieces in it and every blocker pushed on the way |
| Hitboxes.AllBlockersFound | src/server/Hitbox.js:221-248 | the blockers pushed number at most two per template, and each is an in-range piece that meets the template it was found for |
| Hitboxes.ClipHitboxes | src/server/Hitbox.js:204-286 | the mapped hitboxes are the clipped templates, and the hit pieces are the deduplicated blockers of the templates in order, at most two per template, each an in-range piece meeting its template |
| Hitboxes.AllBlockersMembers | src/server/Hitbox.js:204-286 | a piece is among the collected blockers exactly when it is a recorded blocker of one of the templates |
| Hitboxes.LimitHitboxes | src/server/Hitbox.js:200-287 | one limited hitbox per template of the piece's type, each clipped at its nearest blockers; the hit pieces are exactly the deduplicated blockers of those hitboxes in order, so they have no duplicates, are at most two per hitbox, and are in-range pieces inside one of the piece's hitboxes |
| MainMenu.MatchesPlusAll | src/MainMenu.js:16 | the repeated character class matches exactly the non-empty strings of ASCII letters and digits |
| MainMenu.RoomCodeAlphaNumeric | src/MainMenu.js:16 | a room code is accepted exactly when every character is an ASCII letter or digit; "" is accepted; any other character causes rejection |
| MainMenu.Menu.constructor | src/MainMenu.js:5 | the form starts with the empty room code, which is valid |
| MainMenu.Menu.Validate | src/MainMenu.js:15-19 | reports whether the value matches, and stores it as the room code exactly when it does; only valid codes are ever stored |
| MainMenu.Menu.Submit | src/MainMenu.js:7-13 | leaves the code unchanged; reports it when it validates and the alphanumeric error otherwise; a form that only ever stored validated codes always submits |

## Left out

- Networking and rules. src/server/index.js, Room.js, Client.js and the
  move table in Rules.js are not part of this model.
- The React UI (App.js, ChessCanvas.js, Chessboard.js, ErrorAlert.js,
  DarkModeToggle.js) and the image table `chessPieceImages` in Pieces.js are
  left out. They are rendering and browser I/O and hold no geometry.
- MainMenu: the form's rendering and the event's `preventDefault` are left
  out. `onSubmit`/`onError` become the returned `Outcome`. React applies
  `setRoomCode` asynchronously; the model applies it at once.
- Constants.js: the hitbox and square sizes are abstract positive reals, not
  the source's numbers.
- `Vector.angle` and `Vector.magnitude` are left out: they use `Math.atan2`
  and `Math.sqrt`, which the reals do not model.
  - `projectOnto` divides by the squared magnitude, written as `d.Dot(d)`.
- `MiscUtil.dist` is left out for the same reason (a square root).
- `Rect.getPieceBoundingRect` is not modelled. Nothing calls it, and it
  calls `centeredOnSquare`, which `Rect` does not define.
- `Hitbox.projectedPoint` is not modelled. It builds a `Vector` from numbers
  where points are expected and then reads the non-existent field `dim`, so
  it has no well-defined result.
- Vectors.PosDim: `Vector.posDim` builds its point list so that the end point
  is lost. The model takes the evident intent, ending at `pos + dim`.
  `Vector.multiply` returns a `Vector.posDim` result (Vector.js:65) and
  `Vector.projectOnto` a `multiply` result (Vector.js:75), so the model's
  versions of both inherit this reading. In the source their second point is
  the number `pos[0] + dim[0]` (Vector.js:16), and `getDim` on them gives
  NaN.
- Vectors.Vector.ProjectOnto: it requires a target of non-zero length. For a
  zero-length target the source divides 0 by 0 and returns NaN coordinates,
  which the reals do not model.
- Polygons.Line.ToVector: `Line.vector` passes two differences where
  `new Vector` expects two points. The model takes the vector from the origin
  with that extent.
- Polygons.Polygon.BoundingBox: the source starts its minima at `Infinity` and
  its maxima at `-Infinity`. The model starts from the first point, which is
  the same for every polygon of at least 3 points; infinities are not
  modelled.
- Polygons.NewPolygon: the source's `Array.isArray` check always holds for a
  Dafny sequence, so only the length check is modelled.
- Hitboxes.FromData: it requires four numbers. The source would build a
  hitbox with `undefined` fields from a shorter array.
- Hitboxes.LimitHitboxes:
  - The diagonal branch is commented out in the source (Hitbox.js:208-212)
    and is not modelled.
  - The source indexes the `Hitbox` object itself (`hitbox[0]` to
    `hitbox[3]`). On a `Hitbox` instance these are `undefined`; the model
    reads them as the entries of `hitbox.data()`, the evident intent.
  - `Piece.getPieceCenter` is not defined in the modelled files, so it is a
    function parameter.
- Hitboxes.GetPiecesInHitbox: the order of `Object.keys(chessData)` is passed
  in as a key sequence listing exactly the board's pieces. The result's order
  follows that sequence.
- Hitboxes.GetPieceHitboxes: `PIECE_HITBOXES[type]` on a plain object also
  finds inherited properties such as `"constructor"`. The model looks up only
  the table's own keys. The commented-out templates (Hitbox.js:290-345) are
  not modelled.
- Hitboxes.InThisHitbox: its own contract states only that the filter keeps
  in-range pieces. The full membership property is
  Hitboxes.InThisHitboxMembers.
- Strings are sequences of characters. JavaScript's UTF-16 code units and
  regular-expression engine are modelled only as far as the room-code
  pattern needs.
- Polygons.Rect.IntersectsRect: `intersectsRect` separates rectangles only
  on a strict gap, so rectangles that share an edge intersect (see
  Polygons.TouchingRectsIntersect and RectCollisions.SharedEdgeIntersects).
- Polygons.Polygon.IsRect: its contract is left to lemmas. Every rectangle's
  polygon passes it (Polygons.RectPolygonIsRect), and so does every
  axis-aligned hitbox (Hitboxes.AxisAlignedIsHullRect). The converse, that
  equal areas make a 4-point polygon a rectangle, is not proved.
