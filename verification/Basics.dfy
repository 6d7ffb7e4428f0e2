/** Option, Result and the fixed-width integers of the source, shared by every module. */
module Basics {

  datatype Option<+T> = None | Some(value: T)

  datatype Result<+T, +E> = Ok(value: T) | Err(error: E)

  type byte = x: int | 0 <= x < 256

  const TWO_64: int := 0x1_0000_0000_0000_0000

  /** A 64-bit unsigned integer. Arithmetic on it is written out: nothing wraps silently. */
  type u64 = x: int | 0 <= x < TWO_64

  function SaturatingAdd(a: u64, b: u64): u64 {
    if a + b < TWO_64 then a + b else TWO_64 - 1
  }

  function SaturatingSub(a: u64, b: u64): u64 {
    if b <= a then a - b else 0
  }

  const TWO_32: int := 0x1_0000_0000

  /** A 32-bit unsigned integer. */
  type u32 = x: int | 0 <= x < TWO_32

  function SaturatingAdd32(a: u32, b: u32): u32 {
    if a + b < TWO_32 then a + b else TWO_32 - 1
  }
}
