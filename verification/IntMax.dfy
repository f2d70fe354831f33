/** The 64-bit signed integers of the arithmetic evaluator and C's operators on them. */
module IntMax {
  const TWO_64: int := 0x1_0000_0000_0000_0000
  const INTMAX_MAX: int := 0x7FFF_FFFF_FFFF_FFFF
  const INTMAX_MIN: int := -0x8000_0000_0000_0000
  const WIDTH: nat := 64

  predicate InRange(x: int) {
    INTMAX_MIN <= x <= INTMAX_MAX
  }

  /** Two's complement wrap-around. */
  function Wrap(x: int): (r: int)
    ensures InRange(r)
  {
    var m := x % TWO_64;
    if m > INTMAX_MAX then m - TWO_64 else m
  }

  /** C's division truncates toward zero, where Dafny's rounds so that the remainder is not negative. */
  function Quot(a: int, b: int): (q: int)
    requires b != 0
  {
    if a >= 0 then a / b else -((-a) / b)
  }

  function Remainder(a: int, b: int): (r: int)
    requires b != 0
  {
    if a >= 0 then a % b else -((-a) % b)
  }

  function Pow2(n: nat): (p: nat)
    ensures p > 0
  {
    if n == 0 then 1 else 2 * Pow2(n - 1)
  }

  /** Shift counts are taken modulo the width; a right shift keeps the sign. */
  function Shl(a: int, n: int): int { Wrap(a * Pow2(n % WIDTH)) }
  function Shr(a: int, n: int): int { a / Pow2(n % WIDTH) }

  // Bitwise operators, bit by bit from the low end; the last step is the sign.
  function BitAnd(a: int, b: int, n: nat): int
    decreases n
  {
    if n == 0 then (if a < 0 && b < 0 then -1 else 0)
    else 2 * BitAnd(a / 2, b / 2, n - 1) + (a % 2) * (b % 2)
  }

  function BitNot(a: int): int { -a - 1 }

  function BitOr(a: int, b: int): int {
    BitNot(BitAnd(BitNot(a), BitNot(b), WIDTH))
  }

  function BitXor(a: int, b: int): int {
    BitOr(a, b) - BitAnd(a, b, WIDTH)
  }

  function OfBool(b: bool): int { if b then 1 else 0 }
}
