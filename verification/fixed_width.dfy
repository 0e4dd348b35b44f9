/**
 * Fixed-width C++ integer types of the ESP32 target and the arithmetic the
 * input pipeline performs on them: uint8_t, uint32_t (also `unsigned long`,
 * which is 32 bits wide on this target) and int8_t, and Arduino's `constrain`.
 */
module FixedWidth {

  const TWO_TO_THE_32: int := 0x1_0000_0000

  type u8 = x: int | 0 <= x < 256
  type u32 = x: int | 0 <= x < 0x1_0000_0000
  type int8 = x: int | -128 <= x < 128

  /** `x++` on a uint32_t: wraps from 2^32 - 1 back to 0. */
  function IncU32(x: u32): (r: u32)
    ensures (r - x - 1) % TWO_TO_THE_32 == 0
    ensures x < TWO_TO_THE_32 - 1 ==> r == x + 1
  {
    if x == TWO_TO_THE_32 - 1 then 0 else x + 1
  }

  /** `a - b` on two uint32_t values: the difference modulo 2^32. */
  function SubU32(a: u32, b: u32): (r: u32)
    ensures (r + b - a) % TWO_TO_THE_32 == 0
    ensures b <= a ==> r == a - b
    ensures a < b ==> r == TWO_TO_THE_32 - (b - a)
  {
    (a - b) % TWO_TO_THE_32
  }

  /**
   * Storing an int into an int8_t (as `+=` on an int8_t does): the value
   * modulo 256, read back in two's complement.
   */
  function WrapInt8(x: int): (r: int8)
    ensures (x - r) % 256 == 0
    ensures -128 <= x < 128 ==> r == x
  {
    (x + 128) % 256 - 128
  }

  /** Arduino's `constrain(x, lo, hi)`. */
  function Constrain(x: int, lo: int, hi: int): (r: int)
    requires lo <= hi
    ensures lo <= r <= hi
    ensures r == x <==> lo <= x <= hi
    ensures forall y :: lo <= y <= hi ==> Dist(r, x) <= Dist(y, x)
  {
    if x < lo then lo else if x > hi then hi else x
  }

  function Dist(a: int, b: int): nat
  {
    if a <= b then b - a else a - b
  }
}
