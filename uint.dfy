/** Rust's `u32` as a bounded integer, with wrapping arithmetic made explicit. */
module Uint {

  const Modulus: int := 0x1_0000_0000

  /** A Rust `u32`. */
  newtype U32 = x: int | 0 <= x < 0x1_0000_0000

  /** The `u32` that an integer result wraps around to (`wrapping_add`/`wrapping_sub`). */
  function Wrap(x: int): (w: U32)
    ensures 0 <= x < Modulus ==> w as int == x
    ensures (x - w as int) % Modulus == 0
  {
    (x % Modulus) as U32
  }
}
