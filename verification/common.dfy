// Small value types shared by the drawing, text and font-decoding modules.
module Common {
  /** An unsigned 8-bit value (unsigned char). */
  type byte = b: int | 0 <= b < 0x100

  /** 2^32: unsigned 32-bit arithmetic in the source wraps modulo this. */
  const TwoTo32: int := 0x1_0000_0000

  /** An unsigned 32-bit value (uint32_t). */
  type uint32 = x: int | 0 <= x < 0x1_0000_0000

  /** A value that may be absent: a NULL pointer or an optional argument. */
  datatype Option<T> = None | Some(value: T)
}
