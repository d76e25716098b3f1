/**
  The fan controller's dial widget: a circle with `selectionCount` numbered
  positions around it and a marker on the active one.  Each click moves the
  marker one position on, cyclically, and fills the dial with the "on"
  colour unless the marker is back at position 0; the host screen may
  replace the number of positions at any time, which puts the marker back
  at 0 and the dial to "off".
 */
module FanController {
  import opened JavaInt
  import opened DialSelection
  import opened DialGeometry

  datatype Option<T> = None | Some(value: T) {
    function GetOr(default: T): T
    {
      match this
      case Some(v) => v
      case None => default
    }
  }

  /**
    The declarative attributes the dial may be inflated with: the number
    of positions (`selectionIndicators`) and the two fill colours; an
    absent entry keeps the built-in default.
   */
  datatype Attributes = Attributes(
    selectionIndicators: Option<Int32>,
    fanOnColor: Option<Color>,
    fanOffColor: Option<Color>)

  /** What a click does: it redraws the dial, or Java's `%` throws because the count is 0. */
  datatype ClickOutcome = Redrawn | ArithmeticException

  /** One step of drawing the dial, in the order the canvas receives them. */
  datatype DrawCommand =
    | DialCircle(fill: Color)
    | Label(index: int, text: string, at: Placement)
    | Marker(at: Placement)

  /** The label drawn for position `i` of `count`. */
  function LabelCommand(count: int, i: nat): DrawCommand
  {
    Label(i, Decimal(i), Place(count, i, true))
  }

  /** How many labels `onDraw` draws: one per index from 0 up to, not including, the count. */
  function LabelCount(count: int): nat
  {
    if count > 0 then count else 0
  }

  class DialView {
    var selectionCount: Int32
    var activeSelection: Int32
    var fanOnColor: Color
    var fanOffColor: Color
    /** The colour of the paint the dial circle is filled with. */
    var dialColor: Color

    /**
      The marker names a position (or is 0 while the count is 0) and the
      dial is filled "on" exactly when the marker is past position 0.
     */
    ghost predicate Valid()
      reads this
    {
      && (InRange(activeSelection, selectionCount) || (selectionCount == 0 && activeSelection == 0))
      && dialColor == FillColor(activeSelection, fanOnColor, fanOffColor)
    }

    /** `init`: the defaults, each overridden by an attribute when one is given. */
    constructor (attrs: Option<Attributes>)
      ensures Valid()
      ensures activeSelection == 0 && dialColor == fanOffColor
      ensures attrs.None? ==>
        selectionCount == DefaultSelectionCount && fanOnColor == Cyan && fanOffColor == Gray
      ensures attrs.Some? ==>
        && selectionCount == attrs.value.selectionIndicators.GetOr(DefaultSelectionCount)
        && fanOnColor == attrs.value.fanOnColor.GetOr(Cyan)
        && fanOffColor == attrs.value.fanOffColor.GetOr(Gray)
    {
      selectionCount := DefaultSelectionCount;
      dialColor := Gray;
      activeSelection := 0;
      fanOnColor := Cyan;
      fanOffColor := Gray;
      new;
      if attrs.Some? {
        selectionCount := attrs.value.selectionIndicators.GetOr(selectionCount);
        fanOnColor := attrs.value.fanOnColor.GetOr(fanOnColor);
        fanOffColor := attrs.value.fanOffColor.GetOr(fanOffColor);
        dialColor := fanOffColor;
      }
    }

    /**
      The click listener.  With a count of 0 Java's `%` throws before any
      field is written; otherwise the marker moves to the next position
      modulo the number of positions and the fill follows it.
     */
    method Click() returns (outcome: ClickOutcome)
      requires Valid()
      modifies this
      ensures Valid()
      ensures selectionCount == old(selectionCount)
      ensures fanOnColor == old(fanOnColor) && fanOffColor == old(fanOffColor)
      ensures outcome == ArithmeticException <==> old(selectionCount) == 0
      ensures outcome == ArithmeticException ==>
        activeSelection == old(activeSelection) && dialColor == old(dialColor)
      ensures outcome == Redrawn ==>
        && activeSelection == NextSelection(old(activeSelection), selectionCount)
        && activeSelection == (old(activeSelection) + 1) % Abs(selectionCount)
      ensures outcome == Redrawn ==>
        dialColor == (if activeSelection >= 1 then fanOnColor else fanOffColor)
    {
      if selectionCount == 0 {
        return ArithmeticException;
      }
      NextIsSuccessor(activeSelection, selectionCount);
      activeSelection := Rem(Wrap32(activeSelection + 1), selectionCount);
      if activeSelection >= 1 {
        dialColor := fanOnColor;
      } else {
        dialColor := fanOffColor;
      }
      outcome := Redrawn;
    }

    /** The host's count change: any count is accepted, and the dial starts over. */
    method SetSelectionCount(count: Int32)
      requires Valid()
      modifies this
      ensures Valid()
      ensures selectionCount == count && activeSelection == 0 && dialColor == fanOffColor
      ensures fanOnColor == old(fanOnColor) && fanOffColor == old(fanOffColor)
    {
      selectionCount := count;
      activeSelection := 0;
      dialColor := fanOffColor;
    }

    /**
      `onDraw`: the filled dial, then one label per position, numbered
      `0` to `count - 1` in order, then the marker on the active position,
      which never gets the labels' offset.
     */
    method Render() returns (cmds: seq<DrawCommand>)
      ensures |cmds| == LabelCount(selectionCount) + 2
      ensures cmds[0] == DialCircle(dialColor)
      ensures forall i :: 0 <= i < LabelCount(selectionCount) ==>
        cmds[i + 1] == LabelCommand(selectionCount, i)
      ensures cmds[|cmds| - 1] == Marker(Place(selectionCount, activeSelection, false))
      ensures !cmds[|cmds| - 1].at.labelOffset
    {
      cmds := [DialCircle(dialColor)];
      var i: Int32 := 0;
      while i < selectionCount
        invariant 0 <= i <= LabelCount(selectionCount)
        invariant |cmds| == i + 1
        invariant cmds[0] == DialCircle(dialColor)
        invariant forall k :: 0 <= k < i ==> cmds[k + 1] == LabelCommand(selectionCount, k)
      {
        cmds := cmds + [Label(i, Decimal(i), Place(selectionCount, i, true))];
        i := i + 1;
      }
      cmds := cmds + [Marker(Place(selectionCount, activeSelection, false))];
    }
  }

  /**
    The labels a frame draws are pairwise different: reading each one back
    as a decimal number gives its position.
   */
  lemma LabelsDistinct(count: int, i: nat, j: nat)
    requires i < j < count
    ensures LabelCommand(count, i).text != LabelCommand(count, j).text
    ensures DigitsValue(LabelCommand(count, i).text) == i
    ensures DigitsValue(LabelCommand(count, j).text) == j
  {
    DecimalRoundTrip(i);
    DecimalRoundTrip(j);
  }
}
