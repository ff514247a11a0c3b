/** Go's 64-bit integers: the range of `int64` (and of `int` on 64-bit targets) and its wrap-around. */
module Machine {

  const MinInt64: int := -0x8000_0000_0000_0000
  const MaxInt64: int := 0x7fff_ffff_ffff_ffff
  const TwoTo64: int := 0x1_0000_0000_0000_0000

  newtype int64 = x: int | MinInt64 <= x <= MaxInt64

  /** The two's-complement value Go keeps when a result leaves the int64 range. */
  function Wrap(x: int): (r: int64)
    ensures MinInt64 <= x <= MaxInt64 ==> r as int == x
    ensures (x - r as int) % TwoTo64 == 0
  {
    var k := (x - MinInt64) % TwoTo64;
    (k + MinInt64) as int64
  }

  /**
   * Go's `a * b` on int64 operands: the true product when it fits, otherwise
   * the int64 value equal to it modulo 2^64.
   */
  function Mul(a: int64, b: int64): (r: int64)
    ensures MinInt64 <= a as int * b as int <= MaxInt64 ==> r as int == a as int * b as int
    ensures (a as int * b as int - r as int) % TwoTo64 == 0
  {
    Wrap(a as int * b as int)
  }

  /** Products past the int64 range come back wrapped: a page size of 2^62 on page 4 gives offset 0. */
  lemma MulWrapsAround()
    ensures Mul(0x4000_0000_0000_0000, 4) == 0
    ensures Mul(MaxInt64 as int64, 2) == -2
  {
  }
}
