/** Unsigned 32-bit words. */
module Word32 {

  const TWO32 := 0x1_0000_0000

  /** Wrap-around of a word or a pointer. */
  function Wrap32(x: int): int {
    x % TWO32
  }
}
