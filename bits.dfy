/** Rust's wrapping integer operations on 64-bit words. */
module Bits {
  /** A `u8` as it appears in byte slices. */
  newtype byte = x: int | 0 <= x < 0x100

  /** A `u32`. */
  newtype u32 = x: int | 0 <= x < 0x1_0000_0000

  /** `b as u64`: zero extension of a byte. */
  function Widen(b: byte): bv64
  {
    b as bv64
  }

  const TWO_64: int := 0x1_0000_0000_0000_0000

  /** `u64::wrapping_mul`: the product modulo 2^64. */
  function WrappingMul(a: bv64, b: bv64): (r: bv64)
  {
    a * b
  }

  /** `x as u64` for an `i64` x: the two's-complement bit pattern. */
  function AsU64(x: int): (r: bv64)
    requires -0x8000_0000_0000_0000 <= x < 0x8000_0000_0000_0000
  {
    (x % TWO_64) as bv64
  }
}
