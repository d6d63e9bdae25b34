/** The machine integers of the program as subset types: every conversion to one of them is an
    obligation to prove that the program's arithmetic stays in range. */
module Widths {
  type u8 = x: int | 0 <= x < 0x100
  type u16 = x: int | 0 <= x < 0x1_0000
  type u32 = x: int | 0 <= x < 0x1_0000_0000
  type u64 = x: int | 0 <= x < 0x1_0000_0000_0000_0000
  type i64 = x: int | -0x8000_0000_0000_0000 <= x < 0x8000_0000_0000_0000

  const U16_MAX: int := 0xFFFF
  const U32_MAX: int := 0xFFFF_FFFF
  const U64_MAX: int := 0xFFFF_FFFF_FFFF_FFFF

  type Bytes = seq<u8>

  /** 64-bit arithmetic wraps around, as in a release build of the program. */
  function Wrap64(n: nat): u64 {
    if n <= U64_MAX then n else Wrap64(n - (U64_MAX + 1))
  }

  lemma {:induction false} WrapIsModulo(n: nat)
    ensures Wrap64(n) == n % 0x1_0000_0000_0000_0000
  {
    if n > U64_MAX { WrapIsModulo(n - (U64_MAX + 1)); }
  }
}
