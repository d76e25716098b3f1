# Fan controller dial, modelled in Dafny

The fan controller app has one custom widget, `DialView`. It is a circle
with a number of discrete positions drawn around it. A marker sits on the
active position. Each click moves the marker one position on, cyclically.
The dial is filled with the "fan on" colour unless the marker is back at
position 0, when it takes the "fan off" colour. The host screen can
replace the number of positions at any time. That puts the marker back at
0 and the fill back to "off".

This project models that selection state machine and the integer
decisions the widget makes when it draws itself:

- `java_int.dfy`, module `JavaInt`: Java's 32-bit `int`, its wrapping
  `+` and its `%`. Java's `%` truncates toward zero and keeps the sign of
  the dividend; Dafny's is Euclidean.
- `dial_selection.dfy`, module `DialSelection`: the click arithmetic and
  the fill colour as pure functions, with the lemmas about runs of clicks.
- `dial_geometry.dfy`, module `DialGeometry`: which placement formula a
  position uses, its angle as an exact multiple of pi, whether a label gets
  the extra downward offset, and the decimal text of a label.
- `dial_view.dfy`, module `FanController`: the `DialView` class. Its
  fields are the ones the Java class updates in place: the count, the
  active position, the two configured colours and the dial paint's colour.
  `Render` returns the ordered list of drawing steps of `onDraw`.

The Java object invariant is `DialView.Valid()`. The marker names one of
the positions, or is 0 while the count is 0. The fill is "on" exactly when
the marker is at position 1 or later. The constructor, `Click` and
`SetSelectionCount` all keep it.

How the code treats unusual counts:

- Nothing in the code rejects a count of 0 or less. Only 0 fails: a
  click's `%` throws `ArithmeticException`. A negative count works,
  because Java's `%` accepts a negative divisor; the marker then cycles
  through `|count|` positions. So `SetSelectionCount` accepts every `int`,
  and `Click` returns `ArithmeticException` and leaves every field
  unchanged when the count is 0. The precondition `count != 0` of the
  click is explicit in that outcome, not in a `requires`. The host screen
  forwards a menu item's order as the count, and that order can be 0.
- With a count of 0, the angle `pos * (Math.PI / 0)` is not finite. No
  exception is raised. `DialGeometry.Angle` has a `NonFinite` case for it.

## Model

| member | source | states |
|---|---|---|
| `JavaInt.Wrap32` | app/src/main/java/com/example/fancontroller/DialView.java:77 | Java `int` addition: a sum in range is kept, and `MaxInt + 1` wraps to `MinInt` |
| `JavaInt.Rem` | app/src/main/java/com/example/fancontroller/DialView.java:77 | Java `%`: the remainder is smaller than the divisor in magnitude, has the dividend's sign, and `(a / b) * b + a % b == a` with truncating `/` |
| `JavaInt.RemOfNonNegative` | app/src/main/java/com/example/fancontroller/DialView.java:77 | for a non-negative dividend Java's `%` equals the Euclidean remainder by `abs(b)` |
| `DialSelection.NextSelection` | app/src/main/java/com/example/fancontroller/DialView.java:77 | the click's `(active + 1) % count` in 32-bit arithmetic keeps a valid position valid, i.e. in `[0, abs(count))` |
| `DialSelection.NextIsSuccessor` | app/src/main/java/com/example/fancontroller/DialView.java:77 | from a valid position a click gives `(active + 1) mod abs(count)`, even when `active + 1` overflows at count `MinInt` |
| `DialSelection.NextIsZeroIffLast` | app/src/main/java/com/example/fancontroller/DialView.java:77-82 | a click returns the marker to 0, and so the fill to "off", exactly when it leaves the last position |
| `DialSelection.FillColor` | app/src/main/java/com/example/fancontroller/DialView.java:78-82 | definition only: the "on" colour from position 1 on, else the "off" colour; stated through `DialView.Click`, `DialView.Valid` and `NextIsZeroIffLast` |
| `DialSelection.Clicks` | app/src/main/java/com/example/fancontroller/DialView.java:74-85 | any number of clicks keeps a valid position valid |
| `DialSelection.ClicksAdvance` | app/src/main/java/com/example/fancontroller/DialView.java:77 | `n` clicks from a valid position land on `(active + n) mod abs(count)` |
| `DialSelection.CyclicClicks` | app/src/main/java/com/example/fancontroller/DialView.java:77 | `n` clicks return to the starting position iff `abs(count)` divides `n`; `abs(count)` clicks always do, so from 0 they return to 0 |
| `DialGeometry.PositionAngle` | app/src/main/java/com/example/fancontroller/DialView.java:132-133 | the angle is finite iff the count is non-zero; then it is `startAngle + pos / count` times pi |
| `DialGeometry.Place` | app/src/main/java/com/example/fancontroller/DialView.java:127-150 | the doubled-angle formula is chosen iff `count > 4`; the label offset applies only to a label (`isLabel`) on the doubled branch, never to the marker |
| `DialGeometry.LabelOffsetPastMiddle` | app/src/main/java/com/example/fancontroller/DialView.java:138-140 | above four positions, the offset test `angle > 2 pi && isLabel` holds iff `isLabel` and `2 * pos > count` |
| `DialGeometry.Effective` | app/src/main/java/com/example/fancontroller/DialView.java:134-137 | definition only: the angle fed to `cos`/`sin`, twice the position angle on the doubled branch (lines 134-137), the angle itself otherwise (lines 144-147); stated through `EvenlySpaced` and `DistinctPositions` |
| `DialGeometry.EvenlySpaced` | app/src/main/java/com/example/fancontroller/DialView.java:131-148 | successive positions turn by `2/count` pi above four positions and `1/count` pi otherwise; `count` steps make a full circle or a half circle |
| `DialGeometry.DistinctPositions` | app/src/main/java/com/example/fancontroller/DialView.java:131-148 | two different positions of a dial differ in effective angle by more than 0 and less than 2 pi, so they are drawn at different points |
| `DialGeometry.Decimal` | app/src/main/java/com/example/fancontroller/DialView.java:114-115 | a label is non-empty decimal digits with no leading zero (`"0"` only for 0) |
| `DialGeometry.DecimalRoundTrip` | app/src/main/java/com/example/fancontroller/DialView.java:115 | reading a label back as a decimal number gives its index |
| `FanController.LabelsDistinct` | app/src/main/java/com/example/fancontroller/DialView.java:110-116 | the labels of two different positions have different texts, and each of the two texts reads back as its own position |
| `FanController.LabelCommand` | app/src/main/java/com/example/fancontroller/DialView.java:111-116 | definition only: one step of the label loop, the label at index `i` with text `Decimal(i)` at the label placement; stated through `Render` and `LabelsDistinct` |
| `FanController.LabelCount` | app/src/main/java/com/example/fancontroller/DialView.java:110 | definition only: the label loop runs `max(count, 0)` times; stated through `Render` |
| `FanController.DialView.constructor` | app/src/main/java/com/example/fancontroller/DialView.java:47-71 | defaults count 4, active 0, on cyan, off gray, fill gray; each given attribute overrides its default, and the fill is then the off colour; the invariant holds |
| `FanController.DialView.Click` | app/src/main/java/com/example/fancontroller/DialView.java:74-85 | count 0: `ArithmeticException` and nothing changes; otherwise active becomes `(old + 1) mod abs(count)`, the fill is on iff the new active is at least 1, and count and colours are unchanged |
| `FanController.DialView.SetSelectionCount` | app/src/main/java/com/example/fancontroller/DialView.java:88-93 | whatever the prior state: count becomes `n`, active 0, fill the off colour; on and off colours unchanged |
| `FanController.DialView.Render` | app/src/main/java/com/example/fancontroller/DialView.java:96-125 | the dial circle with the current fill first; then exactly `max(count, 0)` labels for positions `0 .. count-1` in increasing order, each labelled with its decimal index; then the marker at the active position, without the label offset |

## Left out

- Screen coordinates: the `cos`/`sin` calls, the `float` casts, the center `(width/2, height/2)` and the radii. The model stops at the angle and the formula choice.
- `onSizeChanged`: the radius `min(w, h) / 2 * 0.8` is floating-point layout.
- `DialGeometry.Place`: angles are exact reals. When `2 * pos == count`, the Java `double` test `angle > Math.toRadians(360)` compares two rounded values and may go either way. The model says no offset there.
- Paint setup (text colour, size, alignment), the canvas calls and `invalidate()`. These are platform rendering. `Render` returns the drawing steps instead, and a redraw request is a no-op.
- `Log.d`, `printDivider` and `printPositions`. They only log.
- `onMeasure` and `onLayout`. They only delegate to the platform.
- `TypedArray` attribute parsing, a platform call. The constructor takes the parsed attributes as optional values. The three Java constructors, which differ only in platform arguments, are one constructor.
- The unused static `SELECTION_COUNT`, and the scratch buffers `mTempResult` and `mTempLabel`. They have no effect on behaviour.
- `FanControllerActivity.java`. It is menu glue. Its one action forwards a menu item's order to `setSelectionCount`, and `SetSelectionCount` accepts any `int` for it.
