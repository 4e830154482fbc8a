/** Values that every component shares. */
module Basics {

  type byte = b: int | 0 <= b < 256

  type Bytes = seq<byte>

  datatype Option<+T> = None | Some(value: T)

  /** One past the largest u64. */
  const U64 := 0x1_0000_0000_0000_0000

  /** One past the largest i64, which also bounds the length of a byte buffer. */
  const I64 := 0x8000_0000_0000_0000

  type u64 = n: int | 0 <= n < U64

  type i63 = n: int | 0 <= n < I64

  /** u64 addition as a release build does it: the sum wraps. */
  function Add64(a: u64, b: u64): u64
  {
    if a + b < U64 then a + b else a + b - U64
  }

  function Min(a: int, b: int): int
  {
    if a < b then a else b
  }

  function Max(a: int, b: int): int
  {
    if a < b then b else a
  }
}
