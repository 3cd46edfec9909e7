/**
 * Unsigned-integer helpers the terminal front end relies on: saturating
 * subtraction, the 16-bit saturating addition used for scroll offsets, and
 * rounding-up division.
 */
module Numeric {
  /** `u16::MAX`. */
  const U16_MAX: nat := 65535

  function Min(a: int, b: int): (r: int)
    ensures r <= a && r <= b && (r == a || r == b)
  {
    if a <= b then a else b
  }

  function Max(a: int, b: int): (r: int)
    ensures r >= a && r >= b && (r == a || r == b)
  {
    if a >= b then a else b
  }

  /** `saturating_sub` on an unsigned integer: never below zero. */
  function SatSub(a: nat, b: nat): (r: nat)
    ensures r == 0 <==> a <= b
    ensures a >= b ==> r + b == a
    ensures r <= a
  {
    if a >= b then a - b else 0
  }

  /** `u16::saturating_add`: the sum, capped at `u16::MAX`. */
  function SatAddU16(a: nat, b: nat): (r: nat)
    requires a <= U16_MAX
    ensures a <= r <= U16_MAX
    ensures r == a + b || (r == U16_MAX && a + b > U16_MAX)
  {
    if a + b <= U16_MAX then a + b else U16_MAX
  }

  /** `(n + d - 1) / d`: the least number of `d`-sized pieces that hold `n`. */
  function CeilDiv(n: nat, d: nat): (r: nat)
    requires d > 0
    ensures r * d >= n
    ensures n > 0 ==> (r - 1) * d < n
    ensures n == 0 ==> r == 0
  {
    (n + d - 1) / d
  }

  /** `(viewport / 2).max(1)`: half a screen, at least one row. */
  function HalfPage(viewport: nat): (r: nat)
    ensures 1 <= r <= Max(viewport, 1)
    ensures viewport >= 2 ==> 2 * r <= viewport < 2 * r + 2
  {
    Max(viewport / 2, 1)
  }
}
