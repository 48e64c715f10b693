/** Go's 64-bit `int` (the width of `int` on the 64-bit platforms the handler runs on). */
module GoInt {

  const MinInt64: int := -0x8000_0000_0000_0000
  const MaxInt64: int := 0x7fff_ffff_ffff_ffff
  const TwoTo64: int := 0x1_0000_0000_0000_0000

  predicate InInt64(v: int)
  {
    MinInt64 <= v <= MaxInt64
  }

  /** The two's-complement wrap-around Go applies to an `int` addition that overflows. */
  function Wrap64(v: int): (r: int)
    ensures InInt64(r)
    ensures (v - r) % TwoTo64 == 0
    ensures InInt64(v) ==> r == v
  {
    if InInt64(v) then v else (v - MinInt64) % TwoTo64 + MinInt64
  }
}
