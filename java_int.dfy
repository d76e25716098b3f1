/**
  Java's 32-bit `int` and the operators the dial applies to it: addition,
  which wraps around in two's complement, and `%`, whose remainder takes
  the sign of the dividend because Java's `/` truncates toward zero
  (Dafny's own `/` and `%` are Euclidean).
 */
module JavaInt {

  const MinInt: int := -0x8000_0000
  const MaxInt: int := 0x7FFF_FFFF
  const Modulus: int := 0x1_0000_0000

  /** A value of Java's primitive type `int`. */
  type Int32 = x: int | MinInt <= x <= MaxInt

  function Abs(x: int): nat
  {
    if x < 0 then -x else x
  }

  /** The `int` that Java's `+` yields when the exact sum is `x`. */
  function Wrap32(x: int): (r: Int32)
    ensures MinInt <= x <= MaxInt ==> r == x
    ensures x == MaxInt + 1 ==> r == MinInt
  {
    (x - MinInt) % Modulus + MinInt
  }

  /** Java's `a / b` for `b != 0`: the exact quotient rounded toward zero. */
  function Quot(a: int, b: int): (q: int)
    requires b != 0
    ensures Abs(q) == Abs(a) / Abs(b)
    ensures q < 0 ==> (a < 0) != (b < 0)
  {
    var n := NatQuot(Abs(a), Abs(b));
    if (a >= 0) == (b > 0) then n else -(n as int)
  }

  /** Division of naturals, named so that the solver keeps it apart from signs. */
  function NatQuot(x: nat, y: nat): (n: nat)
    requires y > 0
    ensures n * y <= x
  {
    x / y
  }

  /**
    Java's `a % b` for `b != 0`: the remainder is smaller than the divisor
    in magnitude, has the sign of the dividend, and completes the
    truncated quotient to the dividend, `(a / b) * b + a % b == a`.  The
    `ArithmeticException` that Java raises for `b == 0` is left to the
    caller to model.
   */
  function Rem(a: int, b: int): (r: int)
    requires b != 0
    ensures Abs(r) < Abs(b)
    ensures a >= 0 ==> r >= 0
    ensures a <= 0 ==> r <= 0
    ensures Quot(a, b) * b + r == a
  {
    var x, y := Abs(a), Abs(b);
    var n: int := NatQuot(x, y);
    var m: int := x % y;
    assert n * y + m == x;
    QuotTimesDivisor(a, b);
    if a >= 0 then m else -m
  }

  /** The truncated quotient times the divisor is `|a| / |b| * |b|`, with the sign of `a`. */
  lemma QuotTimesDivisor(a: int, b: int)
    requires b != 0
    ensures Quot(a, b) * b == if a >= 0 then NatQuot(Abs(a), Abs(b)) * Abs(b) else -(NatQuot(Abs(a), Abs(b)) * Abs(b))
  {
    var n: int, y: int := NatQuot(Abs(a), Abs(b)), Abs(b);
    if a >= 0 && b > 0 {
      assert Quot(a, b) == n && b == y;
    } else if a >= 0 {
      assert Quot(a, b) == -n && b == -y;
      assert (-n) * (-y) == n * y;
    } else if b > 0 {
      assert Quot(a, b) == -n && b == y;
      assert (-n) * y == -(n * y);
    } else {
      assert Quot(a, b) == n && b == -y;
      assert n * (-y) == -(n * y);
    }
  }

  /** For a non-negative dividend Java's `%` agrees with the Euclidean remainder by `|b|`. */
  lemma RemOfNonNegative(a: int, b: int)
    requires b != 0 && a >= 0
    ensures Rem(a, b) == a % Abs(b)
  {
  }
}
