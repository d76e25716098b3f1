/**
  The integer decisions behind where the dial draws things.  The source
  turns a position into screen coordinates with `cos` and `sin`; this
  model stops one step earlier, at the angle and at the choices made on
  the way there: which of the two placement formulas applies, and whether
  a label gets its extra downward offset.  Angles are exact reals counted
  in units of pi, so the trigonometry and float rounding are not modelled.
 */
module DialGeometry {
  import opened JavaInt

  /** `Doubled` places a point at `cos(2 * angle)`, `sin(2 * angle)`; `Plain` at `cos(angle)`, `sin(angle)`. */
  datatype Formula = Doubled | Plain

  /**
    The `double` angle of a position, in units of pi.  With a count of 0,
    `Math.PI / 0` is infinite and the angle is infinite or NaN.
   */
  datatype Angle = Finite(halfTurns: real) | NonFinite

  /** How `computeXYForPosition` places one position. */
  datatype Placement = Placement(formula: Formula, angle: Angle, labelOffset: bool)

  /** The first position's angle, in units of pi: 3/2 above four positions, 9/8 otherwise. */
  function StartAngle(count: int): real
  {
    if count > 4 then 3.0 / 2.0 else 9.0 / 8.0
  }

  /** The start angle advanced by `pos` steps of pi divided by the count, in units of pi. */
  function PositionAngle(count: int, pos: int): (a: Angle)
    ensures a.Finite? <==> count != 0
    ensures a.Finite? ==> a.halfTurns * (count as real) == StartAngle(count) * (count as real) + pos as real
  {
    if count == 0 then NonFinite
    else Finite(StartAngle(count) + (pos as real) / (count as real))
  }

  /**
    The placement of position `pos` on a dial of `count` positions, for a
    label (`isLabel`) or for the marker.  The doubled formula applies
    exactly above four positions, and only a label on that branch can get
    the offset, when its angle is past a full turn.
   */
  function Place(count: int, pos: int, isLabel: bool): (p: Placement)
    ensures p.formula == Doubled <==> count > 4
    ensures p.angle == PositionAngle(count, pos)
    ensures p.labelOffset ==> isLabel && p.formula == Doubled
  {
    var angle := PositionAngle(count, pos);
    if count > 4 then
      Placement(Doubled, angle, angle.halfTurns > 2.0 && isLabel)
    else
      Placement(Plain, angle, false)
  }

  /** On the doubled branch a label is offset exactly when it lies past the middle position. */
  lemma LabelOffsetPastMiddle(count: int, pos: int, isLabel: bool)
    requires count > 4
    ensures Place(count, pos, isLabel).labelOffset <==> isLabel && 2 * pos > count
  {
    var c, a := count as real, PositionAngle(count, pos).halfTurns;
    assert a * c == 1.5 * c + pos as real;
    ScaleOrder(a, 2.0, c);
    assert a > 2.0 <==> 2.0 * (pos as real) > c;
  }

  /** Multiplying by a positive real keeps the order of two reals. */
  lemma ScaleOrder(a: real, b: real, c: real)
    requires c > 0.0
    ensures a > b <==> a * c > b * c
  {
    assert a * c - b * c == (a - b) * c;
  }

  /** The angle the formula actually feeds to `cos` and `sin`, in units of pi. */
  function Effective(count: int, pos: int): real
    requires count != 0
  {
    var p := Place(count, pos, false);
    if p.formula == Doubled then 2.0 * p.angle.halfTurns else p.angle.halfTurns
  }

  /**
    Consecutive positions are evenly spaced: each step turns by `2/count`
    of pi on the doubled branch and by `1/count` of pi otherwise, so the
    `count` positions sweep a full circle above four positions and half a
    circle up to four.
   */
  lemma EvenlySpaced(count: int, pos: int)
    requires count != 0
    ensures Effective(count, pos + 1) - Effective(count, pos)
            == (if count > 4 then 2.0 else 1.0) / (count as real)
    ensures Effective(count, pos + count) - Effective(count, pos) == (if count > 4 then 2.0 else 1.0)
  {
    var c := count as real;
    var s := if count > 4 then 2.0 else 1.0;
    assert ((pos + 1) as real) / c - (pos as real) / c == 1.0 / c;
    assert ((pos + count) as real) / c - (pos as real) / c == 1.0;
  }

  /** Two different positions of a dial never land on the same point of the circle. */
  lemma DistinctPositions(count: int, i: int, j: int)
    requires 0 <= i < j < count
    ensures 0.0 < Effective(count, j) - Effective(count, i) < 2.0
  {
    var c := count as real;
    var d := ((j - i) as real) / c;
    assert (j as real) / c - (i as real) / c == d;
    assert d * c == (j - i) as real;
    assert 0.0 < d < 1.0;
  }

  /** The decimal digit for `d < 10`. */
  function Digit(d: nat): (ch: char)
    requires d < 10
    ensures '0' <= ch <= '9' && ch as int - '0' as int == d
  {
    ('0' as int + d) as char
  }

  predicate IsDigits(s: string)
  {
    forall k :: 0 <= k < |s| ==> '0' <= s[k] <= '9'
  }

  /**
    The label `StringBuffer.append(int)` writes for a non-negative `n`: its
    decimal digits, at least one, with no leading zero.
   */
  function Decimal(n: nat): (s: string)
    ensures |s| >= 1 && IsDigits(s)
    ensures s[0] == '0' ==> n == 0 && s == "0"
    decreases n
  {
    if n < 10 then [Digit(n)] else Decimal(n / 10) + [Digit(n % 10)]
  }

  /** The number a string of decimal digits denotes. */
  function DigitsValue(s: string): nat
    requires IsDigits(s)
    decreases |s|
  {
    if s == [] then 0
    else 10 * DigitsValue(s[..|s| - 1]) + (s[|s| - 1] as int - '0' as int)
  }

  /** Reading a label back gives the index it was written for. */
  lemma {:induction false} DecimalRoundTrip(n: nat)
    ensures DigitsValue(Decimal(n)) == n
    decreases n
  {
    var s := Decimal(n);
    if n >= 10 {
      DecimalRoundTrip(n / 10);
      assert s[..|s| - 1] == Decimal(n / 10);
    }
  }
}
