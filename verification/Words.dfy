/** Machine words of the repository: `uint64_t` values and C `int` accumulators. */
module Words {

  const TWO63: int := 0x8000_0000_0000_0000
  const TWO64: int := 0x1_0000_0000_0000_0000
  const UINT64_MAX: int := 0xFFFF_FFFF_FFFF_FFFF
  const INT_MAX: int := 0x7FFF_FFFF

  type u64 = x: int | 0 <= x < 0x1_0000_0000_0000_0000

  // A C `int`; arithmetic outside the range is a verification error, as it is undefined behaviour in the source.
  newtype int32 = x: int | -0x8000_0000 <= x < 0x8000_0000
}
