/** Machine words as ranges of the integers. */
module Words {
  type u8 = x: int | 0 <= x < 0x100

  const INT_MIN: int := -0x8000_0000
  const INT_MAX: nat := 0x7FFF_FFFF

  type i32 = x: int | INT_MIN <= x <= INT_MAX

  /** Bits of a word of a bitmap. */
  const WORD: nat := 32
}
