/** The fixed-width integer types of the original program, as ranges of mathematical integers. */
module Ints {

  const I32_MIN: int := -0x8000_0000
  const I32_MAX: int := 0x7fff_ffff
  const U32_MAX: int := 0xffff_ffff
  const I64_MIN: int := -0x8000_0000_0000_0000
  const I64_MAX: int := 0x7fff_ffff_ffff_ffff
  const U64_MAX: int := 0xffff_ffff_ffff_ffff

  type i32 = x: int | -0x8000_0000 <= x <= 0x7fff_ffff
  type u32 = x: int | 0 <= x <= 0xffff_ffff
  type i64 = x: int | -0x8000_0000_0000_0000 <= x <= 0x7fff_ffff_ffff_ffff
  type u64 = x: int | 0 <= x <= 0xffff_ffff_ffff_ffff
}
