/** The C integer types the emulator computes with (src/types.h), as ranges of the
    mathematical integers, and the conversions and shifts between them. */
module Words {
  import Division

  const TWO8: int := 0x100
  const TWO31: int := 0x8000_0000
  const TWO32: int := 0x1_0000_0000
  const TWO63: int := 0x8000_0000_0000_0000
  const TWO64: int := 0x1_0000_0000_0000_0000

  type u8 = x: int | 0 <= x < TWO8
  type s8 = x: int | -0x80 <= x < 0x80
  type u32 = x: int | 0 <= x < TWO32
  type s32 = x: int | -TWO31 <= x < TWO31
  type u64 = x: int | 0 <= x < TWO64
  type s64 = x: int | -TWO63 <= x < TWO63

  /** The value of `x` taken modulo 2^n into the n-bit unsigned range. */
  function U8(x: int): u8 { x % TWO8 }
  function U32(x: int): u32 { x % TWO32 }
  function U64(x: int): u64 { x % TWO64 }

  /** The value of `x` taken modulo 2^n into the n-bit two's complement range. */
  function S8(x: int): s8 { if U8(x) < 0x80 then U8(x) else U8(x) - TWO8 }
  function S32(x: int): s32 { if U32(x) < TWO31 then U32(x) else U32(x) - TWO32 }
  function S64(x: int): s64 { if U64(x) < TWO63 then U64(x) else U64(x) - TWO64 }

  /** Sums may be reduced early or late. */
  lemma U64Sum(x: int, y: int)
    ensures U64(U64(x) + y) == U64(x + y)
    ensures U64(x + U64(y)) == U64(x + y)
  {
    Division.AddMultiple(x + y, -(x / TWO64), TWO64);
    Division.AddMultiple(x + y, -(y / TWO64), TWO64);
  }

  lemma U64Fixed(x: int)
    requires 0 <= x < TWO64
    ensures U64(x) == x
  {
  }

  lemma S32Fixed(x: int)
    requires -TWO31 <= x < TWO31
    ensures S32(x) == x
  {
  }

  /** Truncation keeps parity and 4-byte alignment. */
  lemma Multiples(x: int, m: nat)
    requires m in {2, 4}
    ensures U64(x) % m == x % m && U32(x) % m == x % m
  {
    if m == 2 {
      Division.ModOfMultiple(x, 2, 0x8000_0000_0000_0000);
      Division.ModOfMultiple(x, 2, 0x8000_0000);
    } else {
      Division.ModOfMultiple(x, 4, 0x4000_0000_0000_0000);
      Division.ModOfMultiple(x, 4, 0x4000_0000);
    }
  }

  function Pow2(n: nat): (r: int)
    ensures r >= 1
  {
    if n == 0 then 1 else 2 * Pow2(n - 1)
  }

  /** `x << n` before truncation. */
  function Shl(x: int, n: nat): int
    decreases n
  {
    if n == 0 then x else Shl(2 * x, n - 1)
  }

  /** `x >> n`: logical on a non-negative value, arithmetic on a signed one. */
  function Shr(x: int, n: nat): int
    decreases n
  {
    if n == 0 then x else Shr(x / 2, n - 1)
  }

  /** The bitwise operators of C on n-bit unsigned operands. */
  function BitAnd(a: nat, b: nat, n: nat): (r: nat)
    ensures r < Pow2(n)
  {
    if n == 0 then 0
    else (if a % 2 == 1 && b % 2 == 1 then 1 else 0) + 2 * BitAnd(a / 2, b / 2, n - 1)
  }

  function BitOr(a: nat, b: nat, n: nat): (r: nat)
    ensures r < Pow2(n)
  {
    if n == 0 then 0
    else (if a % 2 == 1 || b % 2 == 1 then 1 else 0) + 2 * BitOr(a / 2, b / 2, n - 1)
  }

  function BitXor(a: nat, b: nat, n: nat): (r: nat)
    ensures r < Pow2(n)
  {
    if n == 0 then 0
    else (if a % 2 != b % 2 then 1 else 0) + 2 * BitXor(a / 2, b / 2, n - 1)
  }

  lemma Pow2Values()
    ensures Pow2(8) == TWO8
    ensures Pow2(12) == 0x1000
    ensures Pow2(20) == 0x10_0000
    ensures Pow2(31) == TWO31
    ensures Pow2(32) == TWO32
    ensures Pow2(63) == TWO63
    ensures Pow2(64) == TWO64
  {
    assert Pow2(8) == 0x100 && Pow2(12) == 0x1000 && Pow2(20) == 0x10_0000;
    assert Pow2(28) == 0x1000_0000;
    assert Pow2(31) == TWO31;
    assert Pow2(40) == 0x100_0000_0000;
    assert Pow2(48) == 0x1_0000_0000_0000;
    assert Pow2(56) == 0x100_0000_0000_0000;
    assert Pow2(63) == TWO63;
  }

  function And64(a: u64, b: u64): u64 { Pow2Values(); BitAnd(a, b, 64) }
  function Or64(a: u64, b: u64): u64 { Pow2Values(); BitOr(a, b, 64) }
  function Xor64(a: u64, b: u64): u64 { Pow2Values(); BitXor(a, b, 64) }

  /** A value of the range is shifted out completely: nothing but its sign remains. */
  lemma {:induction false} ShrOut(x: int, n: nat)
    requires -Pow2(n) <= x < Pow2(n)
    ensures Shr(x, n) == if x < 0 then -1 else 0
    decreases n
  {
    if n > 0 {
      ShrOut(x / 2, n - 1);
    }
  }

  lemma {:induction false} ShrShr(x: int, m: nat, n: nat)
    ensures Shr(Shr(x, m), n) == Shr(x, m + n)
    decreases m
  {
    if m > 0 {
      ShrShr(x / 2, m - 1, n);
    }
  }

  lemma {:induction false} ShrNonNegative(x: nat, n: nat)
    ensures 0 <= Shr(x, n) <= x
    decreases n
  {
    if n > 0 {
      ShrNonNegative(x / 2, n - 1);
    }
  }

  /** A right shift of a signed value stays between the value and 0 (or -1). */
  lemma {:induction false} ShrBounds(x: int, n: nat)
    ensures if x >= 0 then 0 <= Shr(x, n) <= x else x <= Shr(x, n) <= -1
    decreases n
  {
    if n > 0 {
      ShrBounds(x / 2, n - 1);
    }
  }
}
