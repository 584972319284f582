/** The fixed-width integer behaviour the Rust code relies on, written out on unbounded integers. */
module Ints {

  const U32_MAX: nat := 0xFFFF_FFFF
  const U64_MAX: nat := 0xFFFF_FFFF_FFFF_FFFF
  const U128_MAX: nat := 0xFFFF_FFFF_FFFF_FFFF_FFFF_FFFF_FFFF_FFFF

  function Min(a: int, b: int): int { if a <= b then a else b }

  function Max(a: int, b: int): int { if a <= b then b else a }

  /** `a.saturating_add(b)` at a type whose largest value is `limit`. */
  function SatAdd(a: nat, b: nat, limit: nat): nat { if a + b <= limit then a + b else limit }

  /** `a.saturating_sub(b)` on an unsigned type. */
  function SatSub(a: nat, b: nat): nat { if b <= a then a - b else 0 }

  /** `a.saturating_mul(b)` at a type whose largest value is `limit`. */
  function SatMul(a: nat, b: nat, limit: nat): nat { if a * b <= limit then a * b else limit }

  const TWO_31: int := 0x8000_0000
  const TWO_63: int := 0x8000_0000_0000_0000

  /** `x as i32` for a u32. */
  function AsI32(x: int): int { if x < TWO_31 then x else x - 2 * TWO_31 }

  /** `x as i64` for a u64. */
  function AsI64(x: int): int { if x < TWO_63 then x else x - 2 * TWO_63 }
}
