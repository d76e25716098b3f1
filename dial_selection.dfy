/**
  The selection arithmetic of the dial, as pure functions on the values of
  its fields: which position a click moves the indicator to, which colour
  the dial is filled with, and where a run of clicks ends up.
 */
module DialSelection {
  import opened JavaInt

  /** A colour as Android packs it into an `int`: alpha, red, green, blue. */
  type Color = Int32

  /** `Color.CYAN`, 0xFF00FFFF read as a signed 32-bit `int`. */
  const Cyan: Color := -16711681
  /** `Color.GRAY`, 0xFF888888 read as a signed 32-bit `int`. */
  const Gray: Color := -7829368

  /** The count the dial is built with when no attribute overrides it. */
  const DefaultSelectionCount: Int32 := 4

  /** `active` names one of the `count` positions (a negative count has `|count|` of them). */
  predicate InRange(active: int, count: int)
  {
    count != 0 && 0 <= active < Abs(count)
  }

  /**
    The position a click moves the indicator to, computed as Java does it:
    `(active + 1) % count` in 32-bit arithmetic.  A count of 0 makes Java's
    `%` throw, so it is excluded here and handled by the caller.
   */
  function NextSelection(active: Int32, count: Int32): (next: Int32)
    requires count != 0
    ensures InRange(active, count) ==> InRange(next, count)
  {
    Rem(Wrap32(active + 1), count)
    // the bounds follow from Rem's contract except when `active + 1` overflows
  }

  /** On a valid position, a click is the successor modulo the number of positions. */
  lemma NextIsSuccessor(active: Int32, count: Int32)
    requires InRange(active, count)
    ensures NextSelection(active, count) == (active + 1) % Abs(count)
  {
    if active + 1 <= MaxInt {
      RemOfNonNegative(active + 1, count);
    } else {
      // only count == MinInt leaves room for active == MaxInt; the sum wraps
      // to MinInt, and MinInt % MinInt is 0 in Java as 2^31 mod 2^31 is
      assert count == MinInt && Abs(count) == active + 1;
      assert Wrap32(active + 1) == MinInt;
    }
  }

  /** The indicator wraps back to 0 exactly when it leaves the last position. */
  lemma NextIsZeroIffLast(active: Int32, count: Int32)
    requires InRange(active, count)
    ensures NextSelection(active, count) == 0 <==> active == Abs(count) - 1
  {
    NextIsSuccessor(active, count);
    var k := Abs(count);
    if active == k - 1 {
      ModUnique(active + 1, k, 1, 0);
    } else {
      ModUnique(active + 1, k, 0, active + 1);
    }
  }

  /** The dial's fill after a click: the "on" colour from position 1 on, else "off". */
  function FillColor(active: int, onColor: Color, offColor: Color): Color
  {
    if active >= 1 then onColor else offColor
  }

  /** Where the indicator stands after `n` clicks starting at `active`. */
  function Clicks(active: Int32, count: Int32, n: nat): (r: Int32)
    requires count != 0
    ensures InRange(active, count) ==> InRange(r, count)
    decreases n
  {
    if n == 0 then active else Clicks(NextSelection(active, count), count, n - 1)
  }

  /** `n` clicks on a valid position advance it by `n` modulo the number of positions. */
  lemma {:induction false} ClicksAdvance(active: Int32, count: Int32, n: nat)
    requires InRange(active, count)
    ensures Clicks(active, count, n) == (active + n) % Abs(count)
    decreases n
  {
    var k := Abs(count);
    if n == 0 {
      ModUnique(active, k, 0, active);
    } else {
      var next := NextSelection(active, count);
      assert Clicks(active, count, n) == Clicks(next, count, n - 1);
      NextIsSuccessor(active, count);
      assert next == (active + 1) % k;
      ClicksAdvance(next, count, n - 1);
      assert Clicks(next, count, n - 1) == (next + (n - 1)) % k;
      ModShift(active + 1, n - 1, k);
    }
  }

  /**
    The dial is cyclic: from any valid position, `n` clicks come back to it
    exactly when `n` is a multiple of the number of positions; in particular
    `|count|` clicks always do.
   */
  lemma CyclicClicks(active: Int32, count: Int32, n: nat)
    requires InRange(active, count)
    ensures Clicks(active, count, n) == active <==> n % Abs(count) == 0
    ensures Clicks(active, count, Abs(count)) == active
  {
    var k := Abs(count);
    ClicksAdvance(active, count, n);
    ClicksAdvance(active, count, k);
    ShiftReturns(active, n, k);
    ShiftReturns(active, k, k);
    ModUnique(k, k, 1, 0);
  }

  /** Shifting a residue `a` by `n` gives `a` back exactly when `k` divides `n`. */
  lemma ShiftReturns(a: int, n: nat, k: int)
    requires 0 <= a < k
    ensures (a + n) % k == a <==> n % k == 0
  {
    var q, r := n / k, n % k;
    assert n == q * k + r;
    if r == 0 {
      ModUnique(a + n, k, q, a);
    } else if a + r < k {
      ModUnique(a + n, k, q, a + r);
    } else {
      assert a + n == (q + 1) * k + (a + r - k);
      ModUnique(a + n, k, q + 1, a + r - k);
    }
  }

  /** `((x % k) + m) % k == (x + m) % k`. */
  lemma ModShift(x: int, m: int, k: int)
    requires k > 0
    ensures ((x % k) + m) % k == (x + m) % k
  {
    var q, s := x / k, x % k + m;
    var q', r' := s / k, s % k;
    assert x == q * k + x % k;
    assert s == q' * k + r';
    assert (q + q') * k == q * k + q' * k;
    ModUnique(x + m, k, q + q', r');
  }

  /** The remainder by `k` is the one `r` in `[0, k)` with `x == q * k + r`. */
  lemma ModUnique(x: int, k: int, q: int, r: int)
    requires k > 0 && 0 <= r < k && x == q * k + r
    ensures x % k == r
  {
    var q', r' := x / k, x % k;
    assert x == q' * k + r';
    var d := q - q';
    assert d * k == r' - r by {
      assert q * k - q' * k == (q - q') * k;
    }
    if d >= 1 {
      MulAtLeast(d, k);
    } else if d <= -1 {
      MulAtLeast(-d, k);
    }
  }

  lemma MulAtLeast(d: int, k: int)
    requires d >= 1 && k > 0
    ensures d * k >= k
  {
    assert d * k == (d - 1) * k + k;
  }
}
