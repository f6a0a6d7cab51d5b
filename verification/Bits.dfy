/**
 Bitmap bytes and words, given by their bits, least significant first.
 `w[j := true]` is `w | (1 << j)` and `w[j := false]` is `w & ~(1 << j)`.
 */
module Bits {
  type Bits8 = b: seq<bool> | |b| == 8 witness seq(8, _ => false)
  type Bits32 = b: seq<bool> | |b| == 32 witness seq(32, _ => false)

  const ZERO_8: Bits8 := seq(8, _ => false)
  const ZERO_32: Bits32 := seq(32, _ => false)
  const ONES_32: Bits32 := seq(32, _ => true)
}
