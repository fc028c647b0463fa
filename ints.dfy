/** The fixed-width integer types of the source and the two operations on them
    whose meaning differs from Dafny's unbounded integers. */
module Ints {

  const I32_MIN: int := -0x8000_0000
  const I32_MAX: int := 0x7FFF_FFFF

  type u16 = x: int | 0 <= x < 0x1_0000
  type u32 = x: int | 0 <= x < 0x1_0000_0000
  type u64 = x: int | 0 <= x < 0x1_0000_0000_0000_0000
  type i32 = x: int | I32_MIN <= x <= I32_MAX

  /** Rust's `v as i32` for a `u32`: reinterprets the bits, so values of 2^31 and
      above wrap around to negative numbers. */
  function AsI32(v: u32): (r: i32)
    ensures r % 0x1_0000_0000 == v
    ensures v <= I32_MAX ==> r == v
    ensures v > I32_MAX ==> r < 0
  {
    if v <= I32_MAX then v else v - 0x1_0000_0000
  }

  /** Rust's `/` on signed integers, which rounds toward zero (Dafny's `/` is
      Euclidean and rounds a negative dividend down instead). Only positive
      divisors occur in the model. */
  function TruncDiv(a: int, b: int): (r: int)
    requires b > 0
    ensures a >= 0 ==> 0 <= r <= a && r * b <= a < r * b + b
    ensures a < 0 ==> r <= 0 && -a - b < -r * b <= -a
  {
    if a >= 0 then
      FloorDiv(a, b);
      a / b
    else
      FloorDiv(-a, b);
      -((-a) / b)
  }

  lemma FloorDiv(a: int, b: int)
    requires a >= 0 && b > 0
    ensures 0 <= a / b <= a && (a / b) * b <= a < (a / b) * b + b
  {
    var q, m := a / b, a % b;
    assert a == b * q + m && 0 <= m < b;
    assert q * b == b * q;
    MulAtLeast(q, b);
  }

  lemma MulAtLeast(q: int, b: int)
    requires q >= 0 && b >= 1
    ensures q <= q * b
  {
    assert q * b == q * (b - 1) + q;
  }
}
