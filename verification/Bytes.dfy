/** Bytes and the small value types shared by the modules. */
module Bytes {

  type u8 = x: int | 0 <= x < 256

  type u64 = x: int | 0 <= x < 0x1_0000_0000_0000_0000

  /** What storing an integer into an unsigned char keeps of it. */
  function Byte(x: int): u8 {
    x % 256
  }

  datatype Option<+T> = None | Some(value: T)

  function Min(a: int, b: int): int {
    if a < b then a else b
  }

  function Max(a: int, b: int): int {
    if a < b then b else a
  }
}
