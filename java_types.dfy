/** Java's fixed-width integer types, `int` addition wrap-around and the
    narrowing `(int)` cast from a floating-point value, stated over exact reals. */
module JavaTypes {

  const MIN_INT32: int := -0x8000_0000
  const MAX_INT32: int := 0x7FFF_FFFF

  /** Java `int`. */
  type Int32 = x: int | -0x8000_0000 <= x < 0x8000_0000

  /** Java `long`. */
  type Int64 = x: int | -0x8000_0000_0000_0000 <= x < 0x8000_0000_0000_0000

  /** The value a Java `int` expression holds when the exact result is `x`:
      two's-complement wrap-around modulo 2^32. */
  function WrapInt32(x: int): (r: Int32)
    ensures (x - r) % 0x1_0000_0000 == 0
    ensures MIN_INT32 <= x <= MAX_INT32 ==> r == x
  {
    (x + 0x8000_0000) % 0x1_0000_0000 - 0x8000_0000
  }

  /** Java's narrowing conversion `(int) x` of a (non-NaN) floating-point value:
      it rounds toward zero and saturates at the ends of the `int` range. */
  function FloatToInt(x: real): (r: Int32)
    ensures 0.0 <= x < 2147483648.0 ==> r as real <= x < r as real + 1.0
    ensures -2147483649.0 < x < 0.0 ==> r as real - 1.0 < x <= r as real
    ensures 2147483648.0 <= x ==> r == MAX_INT32
    ensures x <= -2147483649.0 ==> r == MIN_INT32
  {
    if 0.0 <= x then
      if x.Floor > MAX_INT32 then MAX_INT32 else x.Floor
    else
      var t := -((-x).Floor);
      if t < MIN_INT32 then MIN_INT32 else t
  }
}
