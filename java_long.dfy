/** Java's 64-bit `long`, the type of the clock reading and of the stored expiry times. */
module JavaLong {

  const TwoTo64: int := 0x1_0000_0000_0000_0000
  const MinLong: int := -0x8000_0000_0000_0000
  const MaxLong: int := 0x7FFF_FFFF_FFFF_FFFF

  type Long = x: int | -0x8000_0000_0000_0000 <= x <= 0x7FFF_FFFF_FFFF_FFFF

  /** `a + b` on `long`: the one 64-bit value congruent to the true sum
      modulo 2^64, which is the true sum whenever that fits. */
  function Add(a: Long, b: Long): (r: Long)
    ensures (a + b - r) % TwoTo64 == 0
    ensures MinLong <= a + b <= MaxLong ==> r == a + b
  {
    var sum := a + b;
    if sum > MaxLong then sum - TwoTo64
    else if sum < MinLong then sum + TwoTo64
    else sum
  }
}
