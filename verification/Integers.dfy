/** The fixed-width integers of the model, and the conversions between them. */
module Integers {
  type i32 = x: int | -0x8000_0000 <= x < 0x8000_0000
  type u32 = x: int | 0 <= x < 0x1_0000_0000
  type i64 = x: int | -0x8000_0000_0000_0000 <= x < 0x8000_0000_0000_0000
  type u64 = x: int | 0 <= x < 0x1_0000_0000_0000_0000

  /** Conversions keep the low bits. */
  function ToI32(n: int): i32 { (n + 0x8000_0000) % 0x1_0000_0000 - 0x8000_0000 }

  function ToU32(n: int): u32 { n % 0x1_0000_0000 }

  function ToI64(n: int): i64 { (n + 0x8000_0000_0000_0000) % 0x1_0000_0000_0000_0000 - 0x8000_0000_0000_0000 }

  function ToU64(n: int): u64 { n % 0x1_0000_0000_0000_0000 }

  /** Numbers that fit stay as they are. */
  lemma {:induction false} FittingStays(n: i64)
    ensures ToI64(n) == n && (-0x8000_0000 <= n < 0x8000_0000 ==> ToI32(n) == n)
  {
    assert ToI32(n) == n - (n + 0x8000_0000) / 0x1_0000_0000 * 0x1_0000_0000;
    assert ToI64(n) == n - (n + 0x8000_0000_0000_0000) / 0x1_0000_0000_0000_0000 * 0x1_0000_0000_0000_0000;
  }

  /** Conversions change a number by a multiple of the width. */
  lemma {:induction false} LowBitsAreKept(n: int)
    ensures exists q :: ToI32(n) == n - q * 0x1_0000_0000
    ensures exists q :: ToU32(n) == n - q * 0x1_0000_0000
    ensures exists q :: ToI64(n) == n - q * 0x1_0000_0000_0000_0000
    ensures exists q :: ToU64(n) == n - q * 0x1_0000_0000_0000_0000
  {
    assert ToI32(n) == n - (n + 0x8000_0000) / 0x1_0000_0000 * 0x1_0000_0000;
    assert ToU32(n) == n - n / 0x1_0000_0000 * 0x1_0000_0000;
    assert ToI64(n) == n - (n + 0x8000_0000_0000_0000) / 0x1_0000_0000_0000_0000 * 0x1_0000_0000_0000_0000;
    assert ToU64(n) == n - n / 0x1_0000_0000_0000_0000 * 0x1_0000_0000_0000_0000;
  }
}
