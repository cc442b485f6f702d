/** The data-annotation attributes the request DTOs carry, as predicates on the
    value of one property. */
module Validation {
  import opened Numerics
  import opened Text

  /** `[Required]` on a string (empty strings not allowed): the value is
      neither empty nor made of white space only. */
  predicate Required(s: string) {
    !IsBlank(s)
  }

  /** `[MaxLength(n)]`. */
  predicate MaxLength(s: string, n: nat) {
    |s| <= n
  }

  /** `[MinLength(n)]`. */
  predicate MinLength(s: string, n: nat) {
    |s| >= n
  }

  /** `[Range(double, double)]`: the value, converted to `double`, lies between
      both bounds inclusive. The conversion is taken as exact. */
  predicate InRange(x: real, lo: real, hi: real) {
    lo <= x <= hi
  }

  /** What one `[Range(int, int)]` check does: the value is converted with
      `Convert.ToInt32`, whose `OverflowException` the attribute does not catch. */
  datatype RangeOutcome = InBounds | OutOfBounds | ConversionOverflow

  /** `[Range(int, int)]` on a value that `Convert.ToInt32` turns into the
      integer `n`: overflow when `n` is not an `int`, otherwise a comparison
      with both bounds inclusive. */
  function RangeInt32(n: int, lo: Int32, hi: Int32): (r: RangeOutcome)
    ensures r == ConversionOverflow <==> n < INT32_MIN || INT32_MAX < n
    ensures r == InBounds <==> lo <= n <= hi
  {
    if n < INT32_MIN || INT32_MAX < n then ConversionOverflow
    else if lo <= n <= hi then InBounds
    else OutOfBounds
  }

  /** `[Range(int, int)]` on a `decimal`: it passes exactly for the values
      that round into the bounds, which reach half a unit past each of them
      on the side where the bound is even. */
  lemma {:induction false} DecimalRangeToOneBillion(x: real)
    ensures RangeInt32(RoundHalfToEven(x), 1, 1000000000) == InBounds <==> 0.5 < x <= 1000000000.5
    ensures RangeInt32(RoundHalfToEven(x), 1, 1000000000) == ConversionOverflow <==>
      x < -2147483648.5 || 2147483647.5 <= x
  {
    var n := RoundHalfToEven(x);
    if x == 2147483647.5 {
      assert n == 2147483647 || n == 2147483648;
    }
    if x == -2147483648.5 {
      assert n == -2147483648 || n == -2147483649;
    }
  }
}
