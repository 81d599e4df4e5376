/** Machine widths and conversions, where the original depends on them. */
module Numbers {
  const TWO_TO_THE_31 := 0x8000_0000
  const TWO_TO_THE_32 := 0x1_0000_0000
  const TWO_TO_THE_64 := 0x1_0000_0000_0000_0000

  /** The value a 32-bit two's complement integer keeps of `x`. */
  function Wrap32(x: int): int {
    (x + TWO_TO_THE_31) % TWO_TO_THE_32 - TWO_TO_THE_31
  }

  /** It is in range and differs from `x` by a multiple of 2^32, and so is `x` if that is in range. */
  lemma {:induction false} WrapsAround(x: int)
    ensures -0x8000_0000 <= Wrap32(x) < 0x8000_0000 && (x - Wrap32(x)) % 0x1_0000_0000 == 0
    ensures -0x8000_0000 <= x < 0x8000_0000 ==> Wrap32(x) == x
  {
    assert x - Wrap32(x) == (x + TWO_TO_THE_31) / TWO_TO_THE_32 * TWO_TO_THE_32;
  }

  /** The whole number next to `r` on the side of zero, or `r` itself. */
  ghost predicate IsTruncated(p: int, r: real) {
    if r >= 0.0 then p as real <= r < (p + 1) as real else (p - 1) as real < r <= p as real
  }

  /** Conversion of a double to an integer: toward zero. */
  function Truncate(r: real): int {
    if r >= 0.0 then r.Floor else -((-r).Floor)
  }

  lemma {:induction false} TruncatesTowardZero(r: real)
    ensures IsTruncated(Truncate(r), r)
  {
  }
}
