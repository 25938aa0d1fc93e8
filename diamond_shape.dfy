/** `DiamondShape`: the slanted outline every digit tile is clipped to.

    Corner sizes are held already resolved to pixels (what `CornerSize.toPx`
    returns); lengths are exact reals rather than 32-bit floats. */
module Diamond {

  datatype Size = Size(width: real, height: real)

  function RealAbs(x: real): real
  {
    if x < 0.0 then -x else x
  }

  function MinReal(a: real, b: real): real
  {
    if a <= b then a else b
  }

  /** The toolkit's `Size.minDimension`: the lesser of the two side lengths,
      taken by magnitude, so never negative. */
  function MinDimension(size: Size): (m: real)
    ensures 0.0 <= m <= RealAbs(size.width) && m <= RealAbs(size.height)
    ensures m == RealAbs(size.width) || m == RealAbs(size.height)
  {
    MinReal(RealAbs(size.width), RealAbs(size.height))
  }

  datatype DiamondShape = DiamondShape(topStart: real, topEnd: real, bottomEnd: real, bottomStart: real)

  /** `DiamondShape(corner: CornerSize)`: the same size at all four corners. */
  function Uniform(corner: real): (s: DiamondShape)
    ensures s.topStart == corner && s.topEnd == corner
    ensures s.bottomEnd == corner && s.bottomStart == corner
  {
    DiamondShape(corner, corner, corner, corner)
  }

  /** `DiamondShape(size: Dp)`: a uniform shape whose corners measure `size`
      density-independent pixels, i.e. `size * density` pixels. */
  function OfDp(size: real, density: real): DiamondShape
  {
    Uniform(size * density)
  }

  /** The four corners as `createOutline` clamps them: top corners to the
      smaller side, bottom corners to what their diagonal partner leaves of it.
      Each clamped corner is its input or its bound, whichever is smaller. */
  function Clamp(shape: DiamondShape, size: Size): (c: DiamondShape)
    ensures c.topStart <= MinDimension(size) && c.topEnd <= MinDimension(size)
    ensures c.bottomEnd <= MinDimension(size) - c.topEnd
    ensures c.bottomStart <= MinDimension(size) - c.topStart
    ensures c.topStart <= shape.topStart && c.topEnd <= shape.topEnd
    ensures c.bottomEnd <= shape.bottomEnd && c.bottomStart <= shape.bottomStart
    ensures c.topStart == shape.topStart || c.topStart == MinDimension(size)
    ensures c.topEnd == shape.topEnd || c.topEnd == MinDimension(size)
    ensures c.bottomEnd == shape.bottomEnd || c.bottomEnd == MinDimension(size) - c.topEnd
    ensures c.bottomStart == shape.bottomStart || c.bottomStart == MinDimension(size) - c.topStart
  {
    var minDimension := MinDimension(size);
    var topStart := MinReal(shape.topStart, minDimension);
    var topEnd := MinReal(shape.topEnd, minDimension);
    var bottomEnd := MinReal(shape.bottomEnd, minDimension - topEnd);
    var bottomStart := MinReal(shape.bottomStart, minDimension - topStart);
    DiamondShape(topStart, topEnd, bottomEnd, bottomStart)
  }

  datatype Point = Point(x: real, y: real)

  /** `Outline.Rectangle` of the tile's bounds, or `Outline.Generic` of a closed
      path through the listed vertices in order. */
  datatype Outline = Rectangle(width: real, height: real) | Polygon(vertices: seq<Point>)

  /** `createOutline` returns an outline, or its `require` throws. */
  datatype OutlineResult = Ok(outline: Outline) | NegativeCorner

  predicate HasNegativeCorner(shape: DiamondShape)
  {
    shape.topStart < 0.0 || shape.topEnd < 0.0 || shape.bottomEnd < 0.0 || shape.bottomStart < 0.0
  }

  /** `DiamondShape.createOutline`. The `require` fails exactly when an input
      corner is negative; otherwise the outline is the plain bounds rectangle or
      the four-point path that cuts the top-left and bottom-right corners. */
  function CreateOutline(shape: DiamondShape, size: Size): (r: OutlineResult)
    ensures r.NegativeCorner? <==> HasNegativeCorner(shape)
    ensures r.Ok? && r.outline.Rectangle? ==> r.outline == Rectangle(size.width, size.height)
    ensures r.Ok? && r.outline.Polygon? ==>
      |r.outline.vertices| == 4 && r.outline.vertices[0] == Point(Clamp(shape, size).topStart, 0.0)
  {
    var c := Clamp(shape, size);
    if !(c.topStart >= 0.0 && c.topEnd >= 0.0 && c.bottomEnd >= 0.0 && c.bottomStart >= 0.0) then
      NegativeCorner
    else if c.topStart + c.topEnd + c.bottomStart + c.bottomEnd == 0.0 then
      Ok(Rectangle(size.width, size.height))
    else
      Ok(Polygon([Point(c.topStart, 0.0), Point(size.width, 0.0),
                  Point(size.width - c.bottomEnd, size.height), Point(0.0, size.height)]))
  }

  /** With no negative corner, the outline degenerates to the bounds rectangle
      exactly when all four corners are zero or the tile has no extent. */
  lemma RectangleIffNoCorners(shape: DiamondShape, size: Size)
    requires !HasNegativeCorner(shape)
    ensures CreateOutline(shape, size).Ok?
    ensures CreateOutline(shape, size).outline.Rectangle? <==>
      (MinDimension(size) == 0.0 || shape == DiamondShape(0.0, 0.0, 0.0, 0.0))
  {
    var c := Clamp(shape, size);
    if MinDimension(size) > 0.0 && shape != DiamondShape(0.0, 0.0, 0.0, 0.0) {
      assert c.topStart > 0.0 || c.topEnd > 0.0 || c.bottomEnd > 0.0 || c.bottomStart > 0.0;
    }
  }

  /** For every size, the polygon's vertices are `(topStart, 0) → (width, 0) →
      (width - bottomEnd, height) → (0, height)` with clamped corners. */
  lemma PolygonVertices(shape: DiamondShape, size: Size)
    requires CreateOutline(shape, size).Ok? && CreateOutline(shape, size).outline.Polygon?
    ensures var c, vs := Clamp(shape, size), CreateOutline(shape, size).outline.vertices;
      vs == [Point(c.topStart, 0.0), Point(size.width, 0.0),
             Point(size.width - c.bottomEnd, size.height), Point(0.0, size.height)]
  {
  }

  /** For a tile of non-negative size the polygon lies within its bounds. */
  lemma PolygonWithinBounds(shape: DiamondShape, size: Size)
    requires size.width >= 0.0 && size.height >= 0.0
    requires CreateOutline(shape, size).Ok? && CreateOutline(shape, size).outline.Polygon?
    ensures forall v :: v in CreateOutline(shape, size).outline.vertices ==>
      0.0 <= v.x <= size.width && 0.0 <= v.y <= size.height
  {
    PolygonVertices(shape, size);
  }

  /** `DiamondShape(size.dp)` with a corner of `size * density` pixels that is
      positive and at most half the smaller side gives the parallelogram with
      that corner. */
  lemma OfDpIsParallelogram(size: real, density: real, tile: Size)
    requires 0.0 < size * density && 2.0 * (size * density) <= MinDimension(tile)
    ensures var c := size * density;
      CreateOutline(OfDp(size, density), tile) ==
        Ok(Polygon([Point(c, 0.0), Point(tile.width, 0.0),
                    Point(tile.width - c, tile.height), Point(0.0, tile.height)]))
  {
    UniformIsParallelogram(size * density, tile);
  }

  /** A uniform corner no larger than half the smaller side is not clamped, and
      the outline is a parallelogram: the top edge, from `(c, 0)` to the right
      side, is as long as the bottom edge, from the left side to `width - c`. */
  lemma UniformIsParallelogram(corner: real, size: Size)
    requires 0.0 < corner && 2.0 * corner <= MinDimension(size)
    ensures CreateOutline(Uniform(corner), size) ==
      Ok(Polygon([Point(corner, 0.0), Point(size.width, 0.0),
                  Point(size.width - corner, size.height), Point(0.0, size.height)]))
  {
  }
}
