/** Shared value types: Go's fixed-width unsigned integers and the usual
    Option / Result wrappers standing in for Go's `(value, error)` pairs. */
module Basics {

  /** 2^32, the modulus of Go's `uint32` arithmetic. */
  const TwoTo32: int := 0x1_0000_0000

  /** Go's `uint32`. */
  type u32 = x: int | 0 <= x < 0x1_0000_0000

  /** `x + y` in `uint32` arithmetic (wraps around). */
  function WrapAdd(x: u32, y: u32): (r: u32)
    ensures x + y < TwoTo32 ==> r == x + y
    ensures x + y >= TwoTo32 ==> r == x + y - TwoTo32
  {
    (x + y) % TwoTo32
  }

  /** `x - y` in `uint32` arithmetic (wraps around). */
  function WrapSub(x: u32, y: u32): (r: u32)
    ensures y <= x ==> r == x - y
    ensures x < y ==> r == x - y + TwoTo32
  {
    (x - y) % TwoTo32
  }

  datatype Option<+T> = None | Some(value: T)

  datatype Result<+T, +E> = Ok(value: T) | Err(error: E)
}
