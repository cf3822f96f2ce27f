/** The fixed-width integers of the Rust shim and its saturating operations. */
module MachineInts {

  const U32_MAX: int := 0xFFFF_FFFF
  const U64_MAX: int := 0xFFFF_FFFF_FFFF_FFFF
  const I64_MAX: int := 0x7FFF_FFFF_FFFF_FFFF
  const I64_MIN: int := -0x8000_0000_0000_0000

  type U32 = x: int | 0 <= x <= U32_MAX
  type U64 = x: int | 0 <= x <= U64_MAX
  type I64 = x: int | I64_MIN <= x <= I64_MAX

  /** `u64::try_from(n).unwrap_or(u64::MAX)` for a length or a sum. */
  function Clamp(n: nat): U64 {
    if n <= U64_MAX then n else U64_MAX
  }

  function SatAdd(a: U64, b: U64): U64 {
    Clamp(a + b)
  }

  function SatSub(a: U64, b: U64): U64 {
    if a <= b then 0 else a - b
  }

  function SatSubI64(a: I64, b: I64): I64 {
    if a - b > I64_MAX then I64_MAX else if a - b < I64_MIN then I64_MIN else a - b
  }
}
