/** Fixed-width integers of the source, written out explicitly. */
module GoInt {

  newtype int32 = x: int | -0x8000_0000 <= x < 0x8000_0000

  newtype int64 = x: int | -0x8000_0000_0000_0000 <= x < 0x8000_0000_0000_0000

  const MaxInt32: int32 := 0x7fff_ffff

  /** `atomic.AddInt32(&x, 1)`: two's-complement increment, wrapping at the top of the range. */
  function Inc32(x: int32): (r: int32)
    ensures (r as int - x as int - 1) % 0x1_0000_0000 == 0
    ensures x < MaxInt32 ==> r > x
  {
    if x == MaxInt32 then -0x8000_0000 else x + 1
  }
}
