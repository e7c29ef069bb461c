/** Integers as `$(( ))` computes them (arithmetic.cpp): two's complement, 64 bits, nothing undefined. */
module Integers {
  const HALF: int := 0x8000_0000_0000_0000
  const WORD: int := 0x1_0000_0000_0000_0000

  type Int64 = n: int | -HALF <= n < HALF

  /** The 64-bit value congruent to an exact one. */
  function Wrap(n: int): Int64 {
    (n + HALF) % WORD - HALF
  }

  function Ratio(a: nat, b: nat): (q: nat)
    requires 0 < b
    ensures q <= a && (0 < a && 1 < b ==> q < a)
  {
    RatioBound(a, b);
    a / b
  }

  lemma RatioBound(a: nat, b: nat)
    requires 0 < b
    ensures a / b <= a && (0 < a && 1 < b ==> a / b < a)
  {
    var q := a / b;
    assert a == q * b + a % b;
    ProductGrows(q, b);
  }

  lemma ProductGrows(q: nat, b: nat)
    requires 0 < b
    ensures q <= q * b && (1 < b ==> 2 * q <= q * b)
  {
    assert q * b == q * (b - 1) + q;
    if 1 < b {
      assert q * (b - 1) == q * (b - 2) + q;
    }
  }

  /** Division truncated toward zero, as C has it. */
  function Truncated(a: int, b: int): (q: int)
    requires b != 0
    ensures 0 <= a ==> -a <= q <= a
    ensures a < 0 ==> a <= q <= -a && (b != -1 ==> q < -a)
  {
    if 0 <= a then (if 0 < b then Ratio(a, b) else 0 - Ratio(a, -b))
    else (if 0 < b then 0 - Ratio(-a, b) else Ratio(-a, -b))
  }

  /** The quotient leaves the range in one case only, and dividing by -1 is negation in every case. */
  function Quotient(a: Int64, b: Int64): Int64
    requires b != 0
  {
    if b == -1 then Wrap(0 - a)
    else Truncated(a, b)
  }

  function Remainder(a: Int64, b: Int64): Int64
    requires b != 0
  {
    if b == -1 then 0 else Wrap(a - b * Truncated(a, b))
  }

  function Power2(n: nat): nat {
    if n == 0 then 1 else 2 * Power2(n - 1)
  }

  datatype Bitwise = Both | Either | Odd

  function Bit(op: Bitwise, a: int, b: int): int
    requires 0 <= a < 2 && 0 <= b < 2
  {
    match op
    case Both => a * b
    case Either => a + b - a * b
    case Odd => a + b - 2 * a * b
  }

  /** The low n bits of a bitwise operation on two's complement operands. */
  function Bits(op: Bitwise, a: int, b: int, n: nat): int
    decreases n
  {
    if n == 0 then 0 else Bit(op, a % 2, b % 2) + 2 * Bits(op, a / 2, b / 2, n - 1)
  }

  function Truth(b: bool): Int64 {
    if b then 1 else 0
  }
}
