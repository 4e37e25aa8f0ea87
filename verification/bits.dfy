/** Two's complement bit strings, least significant bit first: the vocabulary in which
    the RISC-V manual describes its operations. */
module Bits {
  import opened Words

  /** The low `n` bits of any integer, in two's complement. */
  function ToBits(x: int, n: nat): (b: seq<bool>)
    ensures |b| == n
    decreases n
  {
    if n == 0 then [] else [x % 2 == 1] + ToBits(x / 2, n - 1)
  }

  function Nat(b: seq<bool>): nat
  {
    if b == [] then 0 else (if b[0] then 1 else 0) + 2 * Nat(b[1..])
  }

  /** The two's complement reading of a non-empty bit string. */
  function Signed(b: seq<bool>): int
    requires b != []
  {
    if b[|b| - 1] then Nat(b) - Pow2(|b|) else Nat(b)
  }

  function Copies(v: bool, n: nat): (b: seq<bool>)
    ensures |b| == n
  {
    seq(n, _ => v)
  }

  function SignExtend(b: seq<bool>, n: nat): (r: seq<bool>)
    requires 0 < |b| <= n
    ensures |r| == n
  {
    b + Copies(b[|b| - 1], n - |b|)
  }

  function ZeroExtend(b: seq<bool>, n: nat): (r: seq<bool>)
    requires |b| <= n
    ensures |r| == n
  {
    b + Copies(false, n - |b|)
  }

  /** Cutting an integer at bit `m` cuts its bits there. */
  lemma {:induction false} Split(x: int, m: nat, n: nat)
    ensures ToBits(x, m + n) == ToBits(x, m) + ToBits(Shr(x, m), n)
    decreases m
  {
    if m > 0 {
      Split(x / 2, m - 1, n);
      assert ToBits(x, m + n) == [x % 2 == 1] + ToBits(x / 2, m - 1 + n);
    }
  }

  lemma {:induction false} Prefix(x: int, m: nat, n: nat)
    requires m <= n
    ensures ToBits(x, n)[..m] == ToBits(x, m)
    ensures ToBits(x, n)[m..] == ToBits(Shr(x, m), n - m)
  {
    Split(x, m, n - m);
  }

  lemma {:induction false} BitAt(x: int, i: nat, n: nat)
    requires i < n
    ensures ToBits(x, n)[i] == (Shr(x, i) % 2 == 1)
  {
    Prefix(x, i, n);
    assert ToBits(x, n)[i] == ToBits(x, n)[i..][0];
  }

  /** Bits depend only on the value modulo 2^n. */
  lemma {:induction false} Congruent(x: int, y: int, q: int, n: nat)
    requires x - y == q * Pow2(n)
    ensures ToBits(x, n) == ToBits(y, n)
    decreases n
  {
    if n > 0 {
      assert x - y == 2 * (q * Pow2(n - 1));
      Congruent(x / 2, y / 2, q, n - 1);
    }
  }

  lemma {:induction false} NatOfBits(x: int, n: nat)
    requires 0 <= x < Pow2(n)
    ensures Nat(ToBits(x, n)) == x
    decreases n
  {
    if n > 0 {
      NatOfBits(x / 2, n - 1);
      assert ToBits(x, n)[1..] == ToBits(x / 2, n - 1);
    }
  }

  lemma {:induction false} BitsOfNat(b: seq<bool>)
    ensures Nat(b) < Pow2(|b|)
    ensures ToBits(Nat(b), |b|) == b
  {
    if b != [] {
      BitsOfNat(b[1..]);
      assert b == [b[0]] + b[1..];
    }
  }

  /** Equal bits mean equal values within the range: bits decide equality. */
  lemma {:induction false} BitsInjective(x: int, y: int, n: nat)
    requires 0 <= x < Pow2(n) && 0 <= y < Pow2(n)
    requires ToBits(x, n) == ToBits(y, n)
    ensures x == y
  {
    NatOfBits(x, n);
    NatOfBits(y, n);
  }

  lemma {:induction false} AllZero(n: nat)
    ensures ToBits(0, n) == Copies(false, n)
  {
    if n > 0 {
      AllZero(n - 1);
    }
  }

  lemma {:induction false} AllOne(n: nat)
    ensures ToBits(-1, n) == Copies(true, n)
  {
    if n > 0 {
      AllOne(n - 1);
    }
  }

  /** Shifting left pushes zeros in below. */
  lemma {:induction false} ShiftedLeft(x: int, k: nat, n: nat)
    requires k <= n
    ensures ToBits(Shl(x, k), n) == Copies(false, k) + ToBits(x, n - k)
    decreases k
  {
    if k > 0 {
      ShiftedLeft(2 * x, k - 1, n);
      assert ToBits(2 * x, n - k + 1) == [false] + ToBits(x, n - k);
      assert Copies(false, k) == Copies(false, k - 1) + [false];
    }
  }

  lemma {:induction false} SignBit(x: int, m: nat)
    requires 0 < m
    requires -Pow2(m - 1) <= x < Pow2(m - 1)
    ensures ToBits(x, m)[m - 1] == (x < 0)
  {
    ShrOut(x, m - 1);
    BitAt(x, m - 1, m);
  }

  /** A value of the signed m-bit range is its own sign extension. */
  lemma {:induction false} SignExtended(x: int, m: nat, n: nat)
    requires 0 < m <= n
    requires -Pow2(m - 1) <= x < Pow2(m - 1)
    ensures ToBits(x, n) == SignExtend(ToBits(x, m), n)
  {
    hide ToBits, Shr;
    Split(x, m, n - m);
    ShrOut(x, m);
    SignBit(x, m);
    AllZero(n - m);
    AllOne(n - m);
  }

  lemma {:induction false} SignedOfBits(x: int, m: nat)
    requires 0 < m
    requires -Pow2(m - 1) <= x < Pow2(m - 1)
    ensures Signed(ToBits(x, m)) == x
  {
    hide ToBits, Nat;
    SignBit(x, m);
    if x < 0 {
      Congruent(x, x + Pow2(m), -1, m);
      NatOfBits(x + Pow2(m), m);
    } else {
      NatOfBits(x, m);
    }
  }

  /** A value of the unsigned m-bit range is its own zero extension. */
  lemma {:induction false} ZeroExtended(x: int, m: nat, n: nat)
    requires m <= n
    requires 0 <= x < Pow2(m)
    ensures ToBits(x, n) == ZeroExtend(ToBits(x, m), n)
  {
    Split(x, m, n - m);
    ShrOut(x, m);
    AllZero(n - m);
  }

  // The C bitwise operators act bit by bit.

  lemma Halves(c: int, q: int)
    requires 0 <= c <= 1
    ensures (c + 2 * q) % 2 == c && (c + 2 * q) / 2 == q
  {
  }

  lemma BitStep(x: int, n: nat, i: nat)
    requires i < n
    ensures ToBits(x, n)[i] == if i == 0 then x % 2 == 1 else ToBits(x / 2, n - 1)[i - 1]
  {
  }

  lemma {:induction false} AndBitAt(a: nat, b: nat, n: nat, i: nat)
    requires i < n
    ensures ToBits(BitAnd(a, b, n), n)[i] == (ToBits(a, n)[i] && ToBits(b, n)[i])
  {
    hide ToBits;
    Halves(if a % 2 == 1 && b % 2 == 1 then 1 else 0, BitAnd(a / 2, b / 2, n - 1));
    BitStep(BitAnd(a, b, n), n, i);
    BitStep(a, n, i);
    BitStep(b, n, i);
    if i > 0 {
      AndBitAt(a / 2, b / 2, n - 1, i - 1);
    }
  }

  lemma {:induction false} OrBitAt(a: nat, b: nat, n: nat, i: nat)
    requires i < n
    ensures ToBits(BitOr(a, b, n), n)[i] == (ToBits(a, n)[i] || ToBits(b, n)[i])
  {
    hide ToBits;
    Halves(if a % 2 == 1 || b % 2 == 1 then 1 else 0, BitOr(a / 2, b / 2, n - 1));
    BitStep(BitOr(a, b, n), n, i);
    BitStep(a, n, i);
    BitStep(b, n, i);
    if i > 0 {
      OrBitAt(a / 2, b / 2, n - 1, i - 1);
    }
  }

  lemma {:induction false} XorBitAt(a: nat, b: nat, n: nat, i: nat)
    requires i < n
    ensures ToBits(BitXor(a, b, n), n)[i] == (ToBits(a, n)[i] != ToBits(b, n)[i])
  {
    hide ToBits;
    Halves(if a % 2 != b % 2 then 1 else 0, BitXor(a / 2, b / 2, n - 1));
    BitStep(BitXor(a, b, n), n, i);
    BitStep(a, n, i);
    BitStep(b, n, i);
    if i > 0 {
      XorBitAt(a / 2, b / 2, n - 1, i - 1);
    }
  }
}
