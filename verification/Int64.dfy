/** The range of a signed 64-bit integer. */
module Int64 {
  const MAX_INT64 := 0x7FFF_FFFF_FFFF_FFFF
  const MIN_INT64 := -0x8000_0000_0000_0000

  predicate InRange(v: int) {
    MIN_INT64 <= v <= MAX_INT64
  }
}
