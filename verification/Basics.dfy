// Fixed-width integers and the two result types shared by every module.
module Basics {
  datatype Option<+T> = None | Some(value: T)

  datatype Result<+T, +E> = Ok(value: T) | Err(error: E)

  type u8 = x: int | 0 <= x < 0x100
  type u16 = x: int | 0 <= x < 0x1_0000
  type u32 = x: int | 0 <= x < 0x1_0000_0000
  type u64 = x: int | 0 <= x < 0x1_0000_0000_0000_0000
  type i64 = x: int | -0x8000_0000_0000_0000 <= x < 0x8000_0000_0000_0000

  const MAX_I64: i64 := 0x7fff_ffff_ffff_ffff
  const MIN_I64: i64 := -0x8000_0000_0000_0000

  // A UUID as its 128-bit big-endian value, so that `<` is the derived `Ord` of the id types.
  type Uuid = x: int | 0 <= x < 0x1_0000_0000_0000_0000_0000_0000_0000_0000

  // Rust's `i64::saturating_sub`.
  function SaturatingSub(a: i64, b: i64): (r: i64)
    ensures MIN_I64 <= a - b <= MAX_I64 ==> r == a - b
    ensures a - b < MIN_I64 ==> r == MIN_I64
    ensures a - b > MAX_I64 ==> r == MAX_I64
  {
    if a - b < MIN_I64 then MIN_I64 else if a - b > MAX_I64 then MAX_I64 else a - b
  }
}
