# CountdownClock, modelled in Dafny

The app shows a countdown from 15:28:58 as six digit wheels: tens and units of
hours, minutes and seconds. Once a second the remembered `Time` is decremented
(`Time.dec`). `Clock` splits it into six `(digit, range)` pairs with Kotlin's
truncating `/ 10` and `% 10`. Each `NumberColumn` stacks one tile per value of
its range. It slides the stack so that the current digit sits in the
highlighted band, and it picks a bouncy spring or a 300 ms tween for that
slide. Every tile is clipped to a slanted `DiamondShape`.

The model has five modules, one per component:

- `KotlinInt` (`kotlin_int.dfy`): Kotlin's truncating `/` and `%`, and the 32-bit `Int` range.
- `CountdownTime` (`countdown_time.dfy`): `Time`, `dec`, n ticks of the loop, and the `ClockScreen` state as a class.
- `ClockFace` (`clock_face.dfy`): the six-wheel decomposition done by `Clock`.
- `NumberColumn` (`number_column.dfy`): the reset test, the curve choice, the offset targets, the tiles, their tint and their outline.
- `Diamond` (`diamond_shape.dfy`): `DiamondShape` and its `createOutline`.

Behaviours of the code that the model keeps and proves:

- The spring marks a digit arriving at its first value: the test is
  `current == range.first`, which a countdown reaches by an ordinary step
  (1 → 0). The wrap 0 → 9 (or 0 → 5) gets the tween
  (`ClockFace.UnitsOfSecondsSpring`).
- Nothing clamps at zero: `00:00:00` is followed by `00:00:-1`, and then by
  ever more negative parts. The digits then turn negative rather than wrap
  (`ClockFace.DigitsPastZero`).
- Corners are clamped only from above. A negative input corner reaches the
  `require` and makes it throw (`Diamond.CreateOutline`).
- The tens-of-hours wheel is `0..12`, so every digit is in range up to 129
  hours (`ClockFace.DigitsInRange`).
- `mid = (last - first) / 2f` is a float division: 4.5 for `0..9`.

Two values come from the UI toolkit, not from the source:

- `Size.minDimension` is the smaller of `|width|` and `|height|`.
- `Spring.DampingRatioLowBouncy = 0.75`, `Spring.StiffnessLow = 200`, and
  `LinearOutSlowInEasing` is the cubic Bézier (0, 0, 0.2, 1).

## Model

| member | source | states |
|---|---|---|
| `KotlinInt.TDiv` | app/src/main/java/co/zsmb/countdownclock/MainActivity.kt:57-58 | Kotlin `/`: the remainder it leaves is smaller than the divisor and has the dividend's sign (rounding toward zero) |
| `KotlinInt.TRem` | app/src/main/java/co/zsmb/countdownclock/MainActivity.kt:100 | Kotlin `%`: `b*(a/b) + a%b == a`, smaller than the divisor, with the dividend's sign |
| `KotlinInt.TDivOdd` | app/src/main/java/co/zsmb/countdownclock/MainActivity.kt:57-58 | truncation is symmetric: `(-a)/b == -(a/b)` and `(-a)%b == -(a%b)`, unlike Euclidean division |
| `KotlinInt.TDivNonNegative` | app/src/main/java/co/zsmb/countdownclock/MainActivity.kt:99-110 | on a non-negative dividend Kotlin's `/` and `%` agree with Euclidean ones |
| `CountdownTime.Dec` | app/src/main/java/co/zsmb/countdownclock/MainActivity.kt:54-61 | total seconds drop by exactly one; minutes and seconds stay below 60 in size; above zero every part is non-negative, at or past zero every part is non-positive |
| `CountdownTime.NormalFormUnique` | app/src/main/java/co/zsmb/countdownclock/MainActivity.kt:54-61 | two valid times with the same total are equal |
| `CountdownTime.DecKeepsValid` | app/src/main/java/co/zsmb/countdownclock/MainActivity.kt:56-60 | a valid time stays valid under `dec` if and only if its total is above zero |
| `CountdownTime.DecTicksSeconds` | app/src/main/java/co/zsmb/countdownclock/MainActivity.kt:56-59 | with `seconds > 0`, `dec` decrements seconds and leaves hours and minutes unchanged |
| `CountdownTime.DecBorrowsMinute` | app/src/main/java/co/zsmb/countdownclock/MainActivity.kt:56-59 | `h:m:00` with `m > 0` becomes `h:(m-1):59` |
| `CountdownTime.DecBorrowsHour` | app/src/main/java/co/zsmb/countdownclock/MainActivity.kt:56-59 | `h:00:00` with `h > 0` becomes `(h-1):59:59` |
| `CountdownTime.DecPastZero` | app/src/main/java/co/zsmb/countdownclock/MainActivity.kt:56-60 | no clamping: `dec(00:00:00) == 00:00:-1` |
| `CountdownTime.DecPastZeroCountsUp` | app/src/main/java/co/zsmb/countdownclock/MainActivity.kt:56-60 | past zero the negated result is the valid normal form of one second more than the negated input |
| `CountdownTime.DecFitsInInt` | app/src/main/java/co/zsmb/countdownclock/MainActivity.kt:56-59 | for valid times up to 596522 hours every intermediate of `dec` fits a 32-bit `Int` |
| `CountdownTime.MaxHoursIsTight` | app/src/main/java/co/zsmb/countdownclock/MainActivity.kt:56 | at 596523:59:59 the total no longer fits a 32-bit `Int` |
| `CountdownTime.IterateTotal` | app/src/main/java/co/zsmb/countdownclock/MainActivity.kt:70-75 | after `n` ticks the total is exactly `n` seconds lower |
| `CountdownTime.IterateNeverRepeats` | app/src/main/java/co/zsmb/countdownclock/MainActivity.kt:70-75 | the countdown never shows the same time twice; it does not stop at zero |
| `CountdownTime.DecAboveZeroValid` | app/src/main/java/co/zsmb/countdownclock/MainActivity.kt:56-60 | `dec` of any time whose total is at least one second is valid |
| `CountdownTime.IterateKeepsValid` | app/src/main/java/co/zsmb/countdownclock/MainActivity.kt:70-75 | a valid time stays valid for as many ticks as it has seconds |
| `CountdownTime.CountdownReachesZero` | app/src/main/java/co/zsmb/countdownclock/MainActivity.kt:66-75 | from a valid time, the tick count equal to its total gives `00:00:00`, and one tick more gives `00:00:-1` |
| `CountdownTime.ClockScreen.constructor` | app/src/main/java/co/zsmb/countdownclock/MainActivity.kt:66 | the screen starts at the valid time 15:28:58 |
| `CountdownTime.ClockScreen.Tick` | app/src/main/java/co/zsmb/countdownclock/MainActivity.kt:73 | `time--` replaces the time by `dec` of it, one second less |
| `CountdownTime.ClockScreen.Run` | app/src/main/java/co/zsmb/countdownclock/MainActivity.kt:70-75 | `n` rounds of the tick loop leave the `n`-fold `dec` of the old time, `n` seconds less |
| `ClockFace.Columns` | app/src/main/java/co/zsmb/countdownclock/MainActivity.kt:99-110 | six wheels with ranges `0..12, 0..9, 0..5, 0..9, 0..5, 0..9`; for hours, minutes and seconds of every time, `10*tens + units` gives the part back, the units digit is below 10 in size, and both digits carry the part's sign (truncating, not Euclidean, division); the units wheels carry the −16 dp shift, the tens wheels none |
| `ClockFace.TruncatedDigitsUnique` | app/src/main/java/co/zsmb/countdownclock/MainActivity.kt:99-110 | those three conditions fix the pair of digits uniquely, so they pin down what `Columns` shows |
| `ClockFace.TruncatedDigitsNonNegative` | app/src/main/java/co/zsmb/countdownclock/MainActivity.kt:99-110 | for a non-negative part the digits are its Euclidean `/ 10` and `% 10` |
| `ClockFace.DigitsInRange` | app/src/main/java/co/zsmb/countdownclock/MainActivity.kt:99-110 | for a valid time, all six digits lie in their ranges if and only if hours ≤ 129 |
| `ClockFace.StartDigits` | app/src/main/java/co/zsmb/countdownclock/MainActivity.kt:99-110 | 15:28:58 shows the digits 1 5 2 8 5 8 |
| `ClockFace.DigitsPastZero` | app/src/main/java/co/zsmb/countdownclock/MainActivity.kt:109-110 | from `00:00:-1` to `00:00:-9` the tens-of-seconds wheel shows 0 and the units wheel the negative seconds, outside `0..9` |
| `ClockFace.UnitsOfSecondsSpring` | app/src/main/java/co/zsmb/countdownclock/MainActivity.kt:110-134 | counting down from a valid time above zero, the units-of-seconds wheel springs if and only if the old digit was 1; from digit 0 it wraps to 9 |
| `NumberColumn.ChooseAnimation` | app/src/main/java/co/zsmb/countdownclock/MainActivity.kt:122-134 | a spring (low bouncy, low stiffness) if and only if `current == range.first`; otherwise a 300 ms `LinearOutSlowInEasing` tween |
| `NumberColumn.TargetOffsetLinear` | app/src/main/java/co/zsmb/countdownclock/MainActivity.kt:136-143 | `d` values further on, the y target is `40*d` lower and the x target `12*d` higher |
| `NumberColumn.TargetOffsetStep` | app/src/main/java/co/zsmb/countdownclock/MainActivity.kt:136-143 | raising `current` by one changes y by −40 and x by +12 |
| `NumberColumn.TargetOffsetRestsAtMid` | app/src/main/java/co/zsmb/countdownclock/MainActivity.kt:121-139 | the y target is zero if and only if `current` is half the span `(last − first)/2`, which is the midpoint for ranges starting at 0, as all six do |
| `NumberColumn.Tiles` | app/src/main/java/co/zsmb/countdownclock/MainActivity.kt:145-149 | one tile per value of the range, ascending from `first`; a tile is active if and only if its value is `current` |
| `NumberColumn.OneActiveTile` | app/src/main/java/co/zsmb/countdownclock/MainActivity.kt:146-148 | exactly one tile is active when `current` lies in the range, none otherwise |
| `NumberColumn.ActiveTileAtRest` | app/src/main/java/co/zsmb/countdownclock/MainActivity.kt:140-162 | column x target plus the tile's own `-12*value` offset is zero if and only if the tile is active |
| `NumberColumn.TileTint` | app/src/main/java/co/zsmb/countdownclock/MainActivity.kt:154-156 | primary colour if and only if the tile is active, the variant colour otherwise |
| `NumberColumn.TileOutlineIsParallelogram` | app/src/main/java/co/zsmb/countdownclock/MainActivity.kt:158-163 | a 56×40 tile clipped by `DiamondShape(12.dp)` is the polygon (12,0) → (56,0) → (44,40) → (0,40) |
| `Diamond.MinDimension` | app/src/main/java/co/zsmb/countdownclock/MainActivity.kt:192 | the smaller side length by magnitude, never negative |
| `Diamond.Uniform` | app/src/main/java/co/zsmb/countdownclock/MainActivity.kt:178 | all four corners equal the given size |
| `Diamond.OfDpIsParallelogram` | app/src/main/java/co/zsmb/countdownclock/MainActivity.kt:176-209 | `DiamondShape(size.dp)` at a given density, with a positive corner of `size * density` pixels no larger than half the smaller side, outlines the parallelogram cut by that corner |
| `Diamond.Clamp` | app/src/main/java/co/zsmb/countdownclock/MainActivity.kt:192-196 | top corners ≤ minDimension; `bottomEnd ≤ minDimension - topEnd`; `bottomStart ≤ minDimension - topStart`; each corner is its input or its bound, whichever is smaller |
| `Diamond.CreateOutline` | app/src/main/java/co/zsmb/countdownclock/MainActivity.kt:187-210 | the `require` fails if and only if an input corner is negative; a rectangle is the tile bounds; a polygon has four vertices, the first `(topStart, 0)` |
| `Diamond.RectangleIffNoCorners` | app/src/main/java/co/zsmb/countdownclock/MainActivity.kt:197-200 | with no negative corner, the outline is the bounds rectangle if and only if all corners are zero or the tile has no extent |
| `Diamond.PolygonVertices` | app/src/main/java/co/zsmb/countdownclock/MainActivity.kt:201-209 | for every tile size the polygon is `(topStart,0) → (width,0) → (width-bottomEnd,height) → (0,height)` with clamped corners |
| `Diamond.PolygonWithinBounds` | app/src/main/java/co/zsmb/countdownclock/MainActivity.kt:201-209 | for a tile of non-negative size every vertex of the polygon lies within the tile's bounds |
| `Diamond.UniformIsParallelogram` | app/src/main/java/co/zsmb/countdownclock/MainActivity.kt:201-209 | a uniform corner `c` with `2c ≤ minDimension` is not clamped and gives a parallelogram |

## Left out

- `MainActivity.onCreate`, `setContent`, `Surface` and the theme (`ui/theme/Theme.kt`): host bootstrap and a colour palette, with no logic.
- The one-second `delay` and the coroutine of `LaunchedEffect`: timing and concurrency. `ClockScreen.Run(n)` stands for the first `n` rounds of the endless loop.
- The interpolation done by `animateDpAsState` and `animateColorAsState`: toolkit behaviour that is not visible here. Only the targets and the chosen curve are modelled.
- Compose layout (`Box`, `Row`, `Column`, `Spacer`, `Modifier.offset`, alignment) and `Text` rendering. `ClockFace.Columns` records the units wheels' −16 dp modifier shift, but how the toolkit combines it with the column's own offset is not modelled.
- IEEE float behaviour of `Dp`, `Float` and `toPx`: lengths are exact reals. The rounding of layout sizes to whole pixels is not modelled. `NumberColumn.TileOutline` is taken at one pixel per dp.
- `createOutline`'s `layoutDirection` parameter is never read by the source. `density` matters only through the corner sizes, which are held already resolved to pixels.
- CountdownTime.Dec: does not model 32-bit wrap-around; integers are unbounded. `DecFitsInInt` shows that no intermediate overflows for valid times up to 596522 hours, where the two agree. Totals below −2³¹, about 68 years past zero, are not modelled.
- Unused imports (`TextField`, focus, `Calendar`): no behaviour.
