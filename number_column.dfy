/** `NumberColumn` and `Number`: one digit wheel. The column stacks a tile for
    every value of its range, shifts the stack so that the current value sits
    in the highlighted band, and picks the animation curve for that shift.
    Only the targets and the curve are modelled; the interpolation toward
    them belongs to the animation toolkit. Lengths are in dp. */
module NumberColumn {
  import opened Diamond

  /** Kotlin's `IntRange` `first..last`; it holds no value when `last < first`. */
  datatype IntRange = IntRange(first: int, last: int)

  predicate Contains(range: IntRange, v: int)
  {
    range.first <= v <= range.last
  }

  function Count(range: IntRange): nat
  {
    if range.first <= range.last then range.last - range.first + 1 else 0
  }

  /** Height of a tile, which is also one step of the vertical slide. */
  const TileHeight: real := 40.0
  const TileWidth: real := 56.0
  /** Horizontal stagger per value, which gives the stack its slant. */
  const Stagger: real := 12.0

  /** The toolkit's easing curves are cubic Béziers through (0,0) and (1,1). */
  datatype Easing = CubicBezier(x1: real, y1: real, x2: real, y2: real)

  /** The toolkit's constants the column refers to by name. */
  const LinearOutSlowInEasing: Easing := CubicBezier(0.0, 0.0, 0.2, 1.0)
  const DampingRatioLowBouncy: real := 0.75
  const StiffnessLow: real := 200.0

  datatype AnimationSpec =
    | Spring(dampingRatio: real, stiffness: real)
    | Tween(durationMillis: int, easing: Easing)

  /** `reset`: the column shows the first value of its range. */
  predicate IsReset(current: int, range: IntRange)
  {
    current == range.first
  }

  /** The `animationSpec` of both offsets: a low, bouncy spring on a reset and a
      300 ms decelerating tween otherwise. */
  function ChooseAnimation(current: int, range: IntRange): (spec: AnimationSpec)
    ensures spec.Spring? <==> IsReset(current, range)
    ensures spec.Spring? ==> spec.dampingRatio == DampingRatioLowBouncy && spec.stiffness == StiffnessLow
    ensures spec.Tween? ==> spec.durationMillis == 300 && spec.easing == LinearOutSlowInEasing
  {
    if current == range.first then
      Spring(DampingRatioLowBouncy, StiffnessLow)
    else
      Tween(300, LinearOutSlowInEasing)
  }

  datatype Offset = Offset(x: real, y: real)

  /** `mid`: half the span of the range, divided as a float (so 4.5 for `0..9`). */
  function Mid(range: IntRange): real
  {
    (range.last - range.first) as real / 2.0
  }

  /** The targets of `yOffset` and `xOffset`. */
  function TargetOffset(current: int, range: IntRange): Offset
  {
    Offset(current as real * Stagger, TileHeight * (Mid(range) - current as real))
  }

  /** The targets move linearly with the value: `d` values further along, the
      stack is `d` tiles higher and `d` staggers further right. */
  lemma TargetOffsetLinear(current: int, d: int, range: IntRange)
    ensures TargetOffset(current + d, range).y == TargetOffset(current, range).y - TileHeight * d as real
    ensures TargetOffset(current + d, range).x == TargetOffset(current, range).x + Stagger * d as real
  {
  }

  /** One value up moves the stack 40 dp up and 12 dp right (so each countdown
      step, one value down, moves it 40 dp down and 12 dp left). */
  lemma TargetOffsetStep(current: int, range: IntRange)
    ensures TargetOffset(current + 1, range).y == TargetOffset(current, range).y - 40.0
    ensures TargetOffset(current + 1, range).x == TargetOffset(current, range).x + 12.0
  {
    TargetOffsetLinear(current, 1, range);
  }

  /** The stack needs no vertical shift exactly when `current` is half the span
      `(last - first) / 2`; that is the midpoint of ranges starting at 0, as all
      six of the clock's ranges do. */
  lemma TargetOffsetRestsAtMid(current: int, range: IntRange)
    ensures TargetOffset(current, range).y == 0.0 <==> 2 * current == range.last - range.first
  {
  }

  /** What `Number(value, active)` is told. */
  datatype Tile = Tile(value: int, active: bool)

  /** `range.forEach { num -> Number(num, num == current) }`: the tiles from top
      to bottom, one per value of the range in ascending order. */
  function Tiles(current: int, range: IntRange): (ts: seq<Tile>)
    decreases Count(range)
    ensures |ts| == Count(range)
    ensures forall i :: 0 <= i < |ts| ==> ts[i].value == range.first + i
    ensures forall i :: 0 <= i < |ts| ==> (ts[i].active <==> ts[i].value == current)
  {
    if range.first > range.last then []
    else [Tile(range.first, range.first == current)] + Tiles(current, IntRange(range.first + 1, range.last))
  }

  function ActiveCount(ts: seq<Tile>): nat
  {
    if ts == [] then 0 else (if ts[0].active then 1 else 0) + ActiveCount(ts[1..])
  }

  /** Exactly one tile is active when the current value lies in the range, and
      none when it does not (as for a negative digit after zero). */
  lemma {:induction false} OneActiveTile(current: int, range: IntRange)
    decreases Count(range)
    ensures ActiveCount(Tiles(current, range)) == if Contains(range, current) then 1 else 0
  {
    if range.first <= range.last {
      var rest := IntRange(range.first + 1, range.last);
      OneActiveTile(current, rest);
      assert Tiles(current, range)[1..] == Tiles(current, rest);
    }
  }

  /** `Number`'s own `.offset(value * -12.dp)`, which undoes the column's stagger. */
  function TileShiftX(value: int): real
  {
    value as real * -Stagger
  }

  /** At rest, a tile's net horizontal position is zero exactly when it is the
      active tile: the column's stagger and the tile's own offset cancel there. */
  lemma ActiveTileAtRest(current: int, range: IntRange)
    ensures forall t :: t in Tiles(current, range) ==>
      (TargetOffset(current, range).x + TileShiftX(t.value) == 0.0 <==> t.active)
  {
  }

  datatype Tint = Primary | PrimaryVariant

  /** The target of `backgroundColor`. */
  function TileTint(tile: Tile): (c: Tint)
    ensures c == Primary <==> tile.active
  {
    if tile.active then Primary else PrimaryVariant
  }

  /** The clip of every tile: `DiamondShape(12.dp)` over a 56 × 40 dp box, at one
      pixel per dp. */
  function TileOutline(): OutlineResult
  {
    CreateOutline(OfDp(12.0, 1.0), Size(TileWidth, TileHeight))
  }

  /** The tile is the parallelogram (12,0) → (56,0) → (44,40) → (0,40). */
  lemma TileOutlineIsParallelogram()
    ensures TileOutline() == Ok(Polygon([Point(12.0, 0.0), Point(56.0, 0.0), Point(44.0, 40.0), Point(0.0, 40.0)]))
  {
    UniformIsParallelogram(12.0, Size(TileWidth, TileHeight));
  }
}
