/** The unsigned integers of the runtime, with the saturating operations it uses on them. */
module MachineIntegers {
  const U16_MAX: nat := 0xFFFF
  const U32_MAX: nat := 0xFFFF_FFFF
  const U64_MAX: nat := 0xFFFF_FFFF_FFFF_FFFF
  const U256_MAX: nat := 0xFFFF_FFFF_FFFF_FFFF_FFFF_FFFF_FFFF_FFFF_FFFF_FFFF_FFFF_FFFF_FFFF_FFFF_FFFF_FFFF

  type u16 = n: nat | n <= U16_MAX
  type u32 = n: nat | n <= U32_MAX
  type u64 = n: nat | n <= U64_MAX
  type u256 = n: nat | n <= U256_MAX

  function SatAdd64(a: u64, b: u64): u64 {
    if a + b <= U64_MAX then a + b else U64_MAX
  }

  function SatSub64(a: u64, b: u64): u64 {
    if b <= a then a - b else 0
  }

  function SatMul64(a: u64, n: nat): u64 {
    if a * n <= U64_MAX then a * n else U64_MAX
  }

  function Min64(a: u64, b: u64): u64 {
    if a <= b then a else b
  }

  function SatAdd256(a: u256, b: u256): u256 {
    if a + b <= U256_MAX then a + b else U256_MAX
  }

  function SatSub256(a: u256, b: u256): u256 {
    if b <= a then a - b else 0
  }

  /** `unique_saturated_into` a `u64`. */
  function ToU64(a: nat): u64 {
    if a <= U64_MAX then a else U64_MAX
  }

  function Max(a: nat, b: nat): nat {
    if a < b then b else a
  }
}
