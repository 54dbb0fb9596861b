/** The C integer operations the engine relies on: 16- and 32-bit wrap-around and
    division that truncates toward zero. */
module MachineInt {
  type int16 = x: int | -0x8000 <= x < 0x8000
  type uint32 = x: int | 0 <= x < 0x1_0000_0000
  type byte = x: int | 0 <= x < 0x100

  /** The low 16 bits of `x`, read as a signed word. */
  function I16(x: int): (r: int16)
    ensures -0x8000 <= x < 0x8000 ==> r == x
    ensures (x - r) % 0x10000 == 0
    ensures -0x10000 < x < 0x10000 && x != 0 ==> r != 0
  {
    var w := x % 0x10000;
    if w < 0x8000 then w else w - 0x10000
  }

  /** The low 32 bits of `x`, read as an unsigned word. */
  function U32(x: int): (r: uint32)
    ensures 0 <= x < 0x1_0000_0000 ==> r == x
  {
    x % 0x1_0000_0000
  }

  function Abs(x: int): (r: nat)
    ensures r == x || r == -x
  {
    if x < 0 then -x else x
  }

  /** The negation, as an unbounded integer. */
  function Neg(x: int): int { -x }

  /** C's integer division. */
  function TruncDiv(a: int, b: int): (q: int)
    requires b != 0
  {
    if a >= 0 then (if b > 0 then a / b else -(a / -b))
    else (if b > 0 then -(-a / b) else -a / -b)
  }

  /** The remainder of a division by a positive number is smaller than the divisor and
      never has the opposite sign of the dividend. */
  lemma TruncDivRemainder(a: int, b: int)
    requires b > 0
    ensures var r := a - TruncDiv(a, b) * b; Abs(r) < b && (a >= 0 ==> r >= 0) && (a <= 0 ==> r <= 0)
  {
    if a >= 0 {
      assert a == (a / b) * b + a % b;
    } else {
      assert -a == (-a / b) * b + (-a) % b;
    }
  }

  /** Multiplying an inequality by a non-negative number. */
  lemma Scale(a: int, b: int, k: int)
    requires a <= b && 0 <= k
    ensures a * k <= b * k
  {
  }

  /** Cancelling a positive factor from a strict inequality. */
  lemma Cancel(a: int, b: int, k: int)
    requires 0 < k && a * k < b * k
    ensures a < b
  {
    if b <= a { Scale(b, a, k); }
  }
}
