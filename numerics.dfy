/** The fixed-width integers of C# that the model needs: `int` ids and page
    numbers, `long` market capitalisations, and unchecked 32-bit arithmetic. */
module Numerics {

  const INT32_MIN: int := -0x8000_0000
  const INT32_MAX: int := 0x7fff_ffff

  /** C# `int`. */
  type Int32 = x: int | -0x8000_0000 <= x <= 0x7fff_ffff

  /** C# `long`. */
  type Int64 = x: int | -0x8000_0000_0000_0000 <= x <= 0x7fff_ffff_ffff_ffff

  /** `Math.Round` of a `decimal` with the default midpoint rule, as
      `Convert.ToInt32` applies it: the nearest integer, and of two equally
      near the even one. */
  function RoundHalfToEven(x: real): (n: int)
    ensures x - 0.5 <= n as real <= x + 0.5
    ensures n as real == x - 0.5 || n as real == x + 0.5 ==> n % 2 == 0
  {
    var f := x.Floor;
    var d := x - f as real;
    if d < 0.5 then f
    else if d > 0.5 then f + 1
    else if f % 2 == 0 then f
    else f + 1
  }

  /** The value an unchecked C# `int` computation yields for the exact result `x`:
      the unique 32-bit value congruent to `x` modulo 2^32. */
  function Wrap32(x: int): (r: Int32)
    ensures (r - x) % 0x1_0000_0000 == 0
    ensures INT32_MIN <= x <= INT32_MAX ==> r == x
  {
    var m := x % 0x1_0000_0000;
    if m > INT32_MAX then m - 0x1_0000_0000 else m
  }
}
