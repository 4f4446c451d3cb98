/** Small definitions shared by the firmware model. */
module Common {
  /** An unsigned 8-bit counter, size or cursor (the firmware's uint8_t used as a number). */
  type U8 = n: int | 0 <= n < 256

  function Min(a: int, b: int): (m: int)
    ensures m <= a && m <= b
    ensures m == a || m == b
  {
    if a <= b then a else b
  }

  datatype Option<T> = None | Some(value: T)
}
