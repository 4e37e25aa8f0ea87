/** The emulator's arithmetic on 64-bit numbers computes the manual's operations on bits. */
module AluRefinement {
  import opened Words
  import opened Division
  import opened Bits
  import opened Instructions
  import Isa
  import opened Machine

  function B(x: int): Isa.XReg { ToBits(x, 64) }

  // ------------------------------------------------------------------ conversions keep low bits

  lemma {:induction false} WrapKeepsBits(x: int, y: int, n: nat, modulus: int)
    requires modulus == Pow2(n) && modulus > 0
    requires x % modulus == y % modulus
    ensures ToBits(x, n) == ToBits(y, n)
  {
    Congruent(x, y, x / modulus - y / modulus, n);
    assert x - y == (x / modulus - y / modulus) * modulus;
  }

  lemma BitsOfU64(x: int)
    ensures B(U64(x)) == B(x)
  {
    Pow2Values();
    WrapKeepsBits(U64(x), x, 64, TWO64);
  }

  lemma BitsOfS64(x: int)
    ensures B(S64(x)) == B(x)
  {
    Pow2Values();
    WrapKeepsBits(S64(x), x, 64, TWO64);
  }

  lemma {:induction false} BitsOfWord(x: int)
    ensures ToBits(U32(x), 32) == ToBits(S32(x), 32) == ToBits(x, 32)
  {
    Pow2Values();
    WrapKeepsBits(U32(x), x, 32, TWO32);
    WrapKeepsBits(S32(x), x, 32, TWO32);
  }

  lemma {:induction false} NatOfLowBits(x: int, n: nat)
    ensures Nat(ToBits(x, n)) == x % Pow2(n)
  {
    hide Pow2, ToBits, Nat;
    var m := Pow2(n);
    var r := x % m;
    Quotient(r, 0, r, m);
    WrapKeepsBits(r, x, n, m);
    NatOfBits(r, n);
  }

  lemma NatOf64(a: u64)
    ensures Nat(B(a)) == a
  {
    Pow2Values();
    NatOfBits(a, 64);
  }

  lemma SignedOf64(a: u64)
    ensures Signed(B(a)) == S64(a)
  {
    Pow2Values();
    BitsOfS64(a);
    SignedOfBits(S64(a), 64);
  }

  lemma {:induction false} LowWord(a: u64)
    ensures B(a)[..32] == ToBits(a, 32)
    ensures Nat(B(a)[..32]) == U32(a)
  {
    Pow2Values();
    Prefix(a, 32, 64);
    NatOfLowBits(a, 32);
  }

  lemma ShiftAmounts(b: u64)
    ensures Isa.Shamt(B(b)) == b % 64 && Isa.ShamtW(B(b)) == b % 32
  {
    Prefix(b, 6, 64);
    Prefix(b, 5, 64);
    NatOfLowBits(b, 6);
    NatOfLowBits(b, 5);
    assert Pow2(5) == 32 && Pow2(6) == 64;
  }

  /** A 32-bit result written to a register through `s32_t` is the sign extension of its word. */
  lemma {:induction false} WordResult(x: int)
    ensures B(U64(S32(x))) == Isa.SextW(ToBits(x, 32))
  {
    Pow2Values();
    BitsOfU64(S32(x));
    SignExtended(S32(x), 32, 64);
    BitsOfWord(x);
  }

  // ------------------------------------------------------------------ shifts

  lemma {:induction false} LeftShiftBits(x: int, k: nat, n: nat)
    requires k <= n
    ensures ToBits(Shl(x, k), n) == Isa.Sll(ToBits(x, n), k)
  {
    ShiftedLeft(x, k, n);
    Prefix(x, n - k, n);
  }

  /** Right shifts move bits down and fill with what lies above: zeros or copies of the sign. */
  lemma {:induction false} LogicalShiftBits(x: int, k: nat, n: nat)
    requires k <= n && 0 <= x < Pow2(n)
    ensures ToBits(Shr(x, k), n) == Isa.Srl(ToBits(x, n), k)
  {
    hide ToBits, Shr, Pow2;
    Prefix(x, k, n);
    Split(Shr(x, k), n - k, k);
    ShrShr(x, k, n - k);
    ShrOut(x, n);
    AllZero(k);
  }

  lemma Pow2Double(n: nat)
    requires n > 0
    ensures Pow2(n) == 2 * Pow2(n - 1)
  {
  }

  lemma {:induction false} ArithmeticShiftBits(x: int, k: nat, n: nat)
    requires 0 < n && k <= n && -Pow2(n - 1) <= x < Pow2(n - 1)
    ensures ToBits(Shr(x, k), n) == Isa.Sra(ToBits(x, n), k)
  {
    hide ToBits, Shr, Pow2;
    Prefix(x, k, n);
    Split(Shr(x, k), n - k, k);
    ShrShr(x, k, n - k);
    Pow2Double(n);
    ShrOut(x, n);
    SignBit(x, n);
    AllZero(k);
    AllOne(k);
  }

  lemma Shifts64(op: Opcode, a: u64, b: u64)
    requires op.SLL? || op.SLLI? || op.SRL? || op.SRLI? || op.SRA? || op.SRAI?
    ensures B(AluValue(op, a, b)) == Isa.Compute(op, B(a), B(b))
  {
    hide ToBits, Shl, Shr, Isa.Shamt, Isa.ShamtW, Isa.Sll, Isa.Srl, Isa.Sra, U64, S64, Nat;
    ShiftAmounts(b);
    Pow2Values();
    var k := b % 64;
    if op.SLL? || op.SLLI? {
      LeftShiftBits(a, k, 64);
      BitsOfU64(Shl(a, k));
    } else if op.SRL? || op.SRLI? {
      LogicalShiftBits(a, k, 64);
      BitsOfU64(Shr(a, k));
    } else {
      S64Range(a);
      BitsOfS64(a);
      ArithmeticShiftBits(S64(a), k, 64);
      BitsOfU64(Shr(S64(a), k));
    }
  }

  lemma S64Range(a: u64)
    ensures -Pow2(63) <= S64(a) < Pow2(63)
    ensures -Pow2(31) <= S32(a) < Pow2(31)
    ensures 0 <= U32(a) < Pow2(32)
  {
    Pow2Values();
  }

  lemma ShiftsWord(op: Opcode, a: u64, b: u64)
    requires op.SLLW? || op.SLLIW? || op.SRAW? || op.SRAIW?
    ensures B(AluValue(op, a, b)) == Isa.Compute(op, B(a), B(b))
  {
    hide ToBits, Shl, Shr, Isa.Shamt, Isa.ShamtW, Isa.Sll, Isa.Srl, Isa.Sra, U64, S32, Nat, Pow2, Isa.SextW;
    ShiftAmounts(b);
    var k := b % 32;
    LowWord(a);
    BitsOfWord(a);
    S64Range(a);
    if op.SLLW? || op.SLLIW? {
      LeftShiftBits(S32(a), k, 32);
      WordResult(Shl(S32(a), k));
    } else {
      ArithmeticShiftBits(S32(a), k, 32);
      ShrBounds(S32(a), k);
      S32Fixed(Shr(S32(a), k));
      WordResult(Shr(S32(a), k));
    }
  }

  /** SRLW and SRLIW zero-extend where the manual sign-extends; the difference shows exactly when
      nothing is shifted out of a word whose top bit is set. */
  predicate WordShiftDeviates(a: u64, b: u64) { b % 32 == 0 && U32(a) >= TWO31 }

  /** What they compute in every case: the shifted word below 32 zeros. */
  lemma LogicalShiftResult(op: Opcode, a: u64, b: u64)
    requires op.SRLW? || op.SRLIW?
    ensures B(AluValue(op, a, b)) == ZeroExtend(Isa.Srl(B(a)[..32], Isa.ShamtW(B(b))), 64)
  {
    hide ToBits, Shr, Isa.Shamt, Isa.ShamtW, U64, U32, Nat, Pow2;
    ShiftAmounts(b);
    var k, u := b % 32, U32(a);
    LowWord(a);
    BitsOfWord(a);
    S64Range(a);
    LogicalShiftBits(u, k, 32);
    ShrNonNegative(u, k);
    BitsOfU64(Shr(u, k));
    ZeroExtended(Shr(u, k), 32, 64);
  }

  lemma LogicalShiftWord(op: Opcode, a: u64, b: u64)
    requires op.SRLW? || op.SRLIW?
    ensures B(AluValue(op, a, b)) == Isa.Compute(op, B(a), B(b)) <==> !WordShiftDeviates(a, b)
  {
    hide ToBits, Shr, Isa.Shamt, Isa.ShamtW, U64, U32, Nat, Pow2, AluValue;
    LogicalShiftResult(op, a, b);
    ShiftAmounts(b);
    LowWord(a);
    BitsOfWord(a);
    var w := Isa.Srl(ToBits(U32(a), 32), b % 32);
    ExtensionsAgree(w);
    TopBit(U32(a));
    ShiftedTopBit(U32(a), b % 32);
  }

  /** Any shift brings a zero to the top of the word. */
  lemma {:induction false} ShiftedTopBit(u: u32, k: nat)
    requires k < 32
    ensures Isa.Srl(ToBits(u, 32), k)[31] == if k == 0 then ToBits(u, 32)[31] else false
  {
    hide ToBits;
  }

  lemma ExtensionsAgree(w: seq<bool>)
    requires |w| == 32
    ensures ZeroExtend(w, 64) == SignExtend(w, 64) <==> !w[31]
  {
    if w[31] {
      assert ZeroExtend(w, 64)[63] != SignExtend(w, 64)[63];
    }
  }

  lemma {:induction false} TopBit(u: u32)
    ensures ToBits(u, 32)[31] <==> u >= TWO31
  {
    hide ToBits, Shr, Pow2;
    Pow2Values();
    BitAt(u, 31, 32);
    if u < TWO31 {
      ShrOut(u, 31);
    } else {
      ShrOut(u - TWO31, 31);
      ShrAddMultiple(u - TWO31, 1, 31);
    }
  }

  lemma {:induction false} ShrAddMultiple(x: int, q: int, n: nat)
    ensures Shr(x + q * Pow2(n), n) == Shr(x, n) + q
    decreases n
  {
    if n > 0 {
      assert (x + q * Pow2(n)) / 2 == x / 2 + q * Pow2(n - 1);
      ShrAddMultiple(x / 2, q, n - 1);
    }
  }

  // ------------------------------------------------------------------ sums, comparisons, logic

  lemma Sums(op: Opcode, a: u64, b: u64)
    requires op.ADD? || op.ADDI? || op.SUB? || op.ADDW? || op.ADDIW? || op.SUBW?
    ensures B(AluValue(op, a, b)) == Isa.Compute(op, B(a), B(b))
  {
    hide ToBits, Nat, U64, S32, U32, Isa.SextW, Pow2;
    NatOf64(a);
    NatOf64(b);
    BitsOfU64(a + b);
    BitsOfU64(a - b);
    LowWord(a);
    LowWord(b);
    WordResult(S32(a) + S32(b));
    WordResult(S32(a) - S32(b));
    WordSums(a, b);
  }

  lemma WordSums(a: u64, b: u64)
    ensures ToBits(S32(a) + S32(b), 32) == ToBits(U32(a) + U32(b), 32)
    ensures ToBits(S32(a) - S32(b), 32) == ToBits(U32(a) - U32(b), 32)
  {
    hide ToBits, Pow2, U32;
    Pow2Values();
    var qa := if U32(a) < TWO31 then 0 else -1;
    var qb := if U32(b) < TWO31 then 0 else -1;
    assert S32(a) == U32(a) + qa * TWO32 && S32(b) == U32(b) + qb * TWO32;
    Congruent(S32(a) + S32(b), U32(a) + U32(b), qa + qb, 32);
    Congruent(S32(a) - S32(b), U32(a) - U32(b), qa - qb, 32);
  }

  lemma AndRefines(a: u64, b: u64)
    ensures B(And64(a, b)) == seq(64, i requires 0 <= i < 64 => B(a)[i] && B(b)[i])
  {
    hide ToBits, BitAnd;
    forall i | 0 <= i < 64 ensures B(And64(a, b))[i] == (B(a)[i] && B(b)[i]) {
      AndBitAt(a, b, 64, i);
    }
  }

  lemma OrRefines(a: u64, b: u64)
    ensures B(Or64(a, b)) == seq(64, i requires 0 <= i < 64 => B(a)[i] || B(b)[i])
  {
    hide ToBits, BitOr;
    forall i | 0 <= i < 64 ensures B(Or64(a, b))[i] == (B(a)[i] || B(b)[i]) {
      OrBitAt(a, b, 64, i);
    }
  }

  lemma XorRefines(a: u64, b: u64)
    ensures B(Xor64(a, b)) == seq(64, i requires 0 <= i < 64 => B(a)[i] != B(b)[i])
  {
    hide ToBits, BitXor;
    forall i | 0 <= i < 64 ensures B(Xor64(a, b))[i] == (B(a)[i] != B(b)[i]) {
      XorBitAt(a, b, 64, i);
    }
  }

  lemma Logic(op: Opcode, a: u64, b: u64)
    requires op.AND? || op.ANDI? || op.OR? || op.ORI? || op.XOR? || op.XORI?
    ensures B(AluValue(op, a, b)) == Isa.Compute(op, B(a), B(b))
  {
    hide ToBits, And64, Or64, Xor64;
    AndRefines(a, b);
    OrRefines(a, b);
    XorRefines(a, b);
  }

  lemma TruthBits(v: bool)
    ensures B(if v then 1 else 0) == Isa.Truth(v)
  {
    AllZero(63);
    assert B(1) == [true] + ToBits(0, 63);
    assert B(0) == [false] + ToBits(0, 63);
  }

  lemma Comparison(op: Opcode, a: u64, b: u64)
    requires op.SLT? || op.SLTI? || op.SLTU? || op.SLTIU?
    ensures B(if (if op.SLT? || op.SLTI? then S64(a) < S64(b) else a < b) then 1 else 0)
            == Isa.Compute(op, B(a), B(b))
  {
    hide ToBits, Isa.Truth, S64, Signed, Nat;
    SignedOf64(a);
    SignedOf64(b);
    NatOf64(a);
    NatOf64(b);
    TruthBits(S64(a) < S64(b));
    TruthBits(a < b);
  }

  /** Every register and immediate operation on 64-bit values is the manual's, with that one exception. */
  lemma AluRefines(op: Opcode, a: u64, b: u64)
    requires IsAlu(op)
    ensures B(AluValue(op, a, b)) == Isa.Compute(op, B(a), B(b))
            <==> !((op.SRLW? || op.SRLIW?) && WordShiftDeviates(a, b))
  {
    hide AluValue, Isa.Compute, WordShiftDeviates;
    match op
    case ADD | ADDI | SUB | ADDW | ADDIW | SUBW => Sums(op, a, b);
    case OR | ORI | AND | ANDI | XOR | XORI => Logic(op, a, b);
    case SLL | SLLI | SRL | SRLI | SRA | SRAI => Shifts64(op, a, b);
    case SLLW | SLLIW | SRAW | SRAIW => ShiftsWord(op, a, b);
    case SRLW | SRLIW => LogicalShiftWord(op, a, b);
  }

  // ------------------------------------------------------------------ upper immediates

  const TWO51: int := 0x8_0000_0000_0000
  const TWO52: int := 0x10_0000_0000_0000

  /** The low 52 bits of the immediate, as a signed number. */
  function Low52(imm: int): int { if imm % TWO52 < TWO51 then imm % TWO52 else imm % TWO52 - TWO52 }

  /** LUI and AUIPC do not sign-extend from bit 31; that shows exactly when the immediate is not a
      signed 20-bit number, as when 20 bits are given unsigned and bit 19 is set. */
  predicate UpperDeviates(imm: s64) { !(-0x8_0000 <= Low52(imm) < 0x8_0000) }

  lemma Pow2Of52()
    ensures Pow2(52) == TWO52 && Pow2(51) == TWO51 && Pow2(19) == 0x8_0000
  {
    assert Pow2(11) == 0x800;
    assert Pow2(19) == 0x8_0000;
    assert Pow2(27) == 0x800_0000;
    assert Pow2(35) == 0x8_0000_0000;
    assert Pow2(43) == 0x800_0000_0000;
    assert Pow2(51) == TWO51;
  }

  lemma {:induction false} UpperValueBits(imm: int)
    ensures B(U64(Shl(imm, 12))) == Copies(false, 12) + ToBits(imm, 52)
  {
    BitsOfU64(Shl(imm, 12));
    ShiftedLeft(imm, 12, 64);
  }

  lemma {:induction false} UpperImmediateBits(imm: s64)
    ensures Isa.UpperImmediate(imm) == Copies(false, 12) + SignExtend(ToBits(imm, 20), 52)
  {
  }

  /** 52 bits are a sign extension of their low 20 exactly when their value fits 20 bits. */
  lemma {:induction false} SignExtensionFits(imm: s64)
    ensures ToBits(imm, 52) == SignExtend(ToBits(imm, 20), 52) <==> !UpperDeviates(imm)
  {
    hide ToBits, Nat;
    Pow2Of52();
    Pow2Values();
    var v := Low52(imm);
    WrapKeepsBits(v, imm, 52, TWO52);
    Prefix(imm, 20, 52);
    Prefix(v, 20, 52);
    if !UpperDeviates(imm) {
      SignExtended(v, 20, 52);
    } else if ToBits(imm, 52) == SignExtend(ToBits(imm, 20), 52) {
      var w := SignedOf(ToBits(imm, 20));
      SignExtended(w, 20, 52);
      assert ToBits(w, 52) == ToBits(v, 52);
      SignedOfBits(w, 52);
      SignedOfBits(v, 52);
    }
  }

  /** The number a bit string denotes has that bit string. */
  lemma SignedOf(b: seq<bool>) returns (w: int)
    requires |b| == 20
    ensures -Pow2(19) <= w < Pow2(19) && ToBits(w, 20) == b
  {
    BitsOfNat(b);
    assert Pow2(20) == 2 * Pow2(19);
    if Nat(b) < Pow2(19) {
      w := Nat(b);
    } else {
      w := Nat(b) - Pow2(20);
      Congruent(w, Nat(b), -1, 20);
    }
  }

  lemma {:induction false} LuiRefines(imm: s64)
    ensures B(U64(Shl(imm, 12))) == Isa.UpperImmediate(imm) <==> !UpperDeviates(imm)
  {
    hide ToBits, Isa.UpperImmediate, UpperDeviates, Shl, U64;
    UpperValueBits(imm);
    UpperImmediateBits(imm);
    SignExtensionFits(imm);
    var z, x, y := Copies(false, 12), ToBits(imm, 52), SignExtend(ToBits(imm, 20), 52);
    if z + x == z + y {
      assert x == (z + x)[12..] == (z + y)[12..] == y;
    }
  }

  lemma AuipcRefines(pc: u32, imm: s64)
    ensures B(U64(pc + Shl(U64(imm), 12))) == ToBits(pc + Nat(Isa.UpperImmediate(imm)), 64) <==> !UpperDeviates(imm)
  {
    hide ToBits, Isa.UpperImmediate, UpperDeviates, Shl, Nat, Pow2, U64;
    var x, u := Shl(U64(imm), 12), Nat(Isa.UpperImmediate(imm));
    UpperValueAgain(imm);
    LuiRefines(imm);
    BitsOfNat(Isa.UpperImmediate(imm));
    BitsOfU64(x);
    BitsDecide(x, u);
    BitsOfU64(pc + x);
    BitsDecide(pc + x, pc + u);
    CongruentSums(pc, x, u);
  }

  lemma {:induction false} UpperValueAgain(imm: s64)
    ensures B(U64(Shl(U64(imm), 12))) == B(U64(Shl(imm, 12)))
  {
    hide ToBits, Shl, Pow2, U64;
    UpperValueBits(imm);
    UpperValueBits(U64(imm));
    Pow2Of52();
    Mod52(imm);
    WrapKeepsBits(U64(imm), imm, 52, TWO52);
  }

  lemma Mod52(x: int)
    ensures U64(x) % TWO52 == x % TWO52
  {
    ModOfMultiple(x, TWO52, 0x1000);
  }

  lemma BitsDecide(x: int, y: int)
    ensures B(x) == B(y) <==> U64(x) == U64(y)
  {
    hide ToBits;
    Pow2Values();
    BitsOfU64(x);
    BitsOfU64(y);
    if B(x) == B(y) {
      BitsInjective(U64(x), U64(y), 64);
    }
  }

  lemma CongruentSums(pc: int, x: int, y: int)
    ensures U64(pc + x) == U64(pc + y) <==> U64(x) == U64(y)
  {
    U64Sum(pc, x);
    U64Sum(pc, y);
    U64Sum(-pc, pc + x);
    U64Sum(-pc, pc + y);
    assert U64(-pc + U64(pc + x)) == U64(x);
    assert U64(-pc + U64(pc + y)) == U64(y);
    assert U64(pc + U64(x)) == U64(pc + x);
    assert U64(pc + U64(y)) == U64(pc + y);
  }

  // ------------------------------------------------------------------ jump targets

  lemma MaskBits()
    ensures B(TWO64 - 2) == [false] + Copies(true, 63)
  {
    Pow2Values();
    AllOne(63);
    WrapKeepsBits(TWO64 - 2, -2, 64, TWO64);
    assert B(-2) == [false] + ToBits(-1, 63);
  }

  lemma MaskedBits(x: u64)
    ensures B(ClearBit0(x)) == [false] + B(x)[1..]
  {
    hide ToBits, BitAnd;
    MaskBits();
    forall i | 0 <= i < 64 ensures B(ClearBit0(x))[i] == ([false] + B(x)[1..])[i] {
      AndBitAt(x, TWO64 - 2, 64, i);
    }
  }

  lemma EvenBits(x: u64)
    ensures B(x - x % 2) == [false] + B(x)[1..]
  {
    assert (x - x % 2) / 2 == x / 2;
    assert B(x - x % 2) == [false] + ToBits(x / 2, 63);
    assert B(x) == [x % 2 == 1] + ToBits(x / 2, 63);
  }

  /** Masking with `~1` clears bit 0 and nothing else. */
  lemma ClearBit0Bits(x: u64)
    ensures B(ClearBit0(x)) == [false] + B(x)[1..]
    ensures ClearBit0(x) == x - x % 2
  {
    hide ToBits, ClearBit0;
    Pow2Values();
    MaskedBits(x);
    EvenBits(x);
    BitsInjective(ClearBit0(x), x - x % 2, 64);
  }

  lemma IndirectTargetRefines(a: u64, offset: s64)
    ensures ClearBit0(U64(a + offset)) == Isa.IndirectTarget(B(a), offset)
  {
    hide ToBits, Nat, ClearBit0;
    NatOf64(a);
    BitsOfU64(a + offset);
    ClearBit0Bits(U64(a + offset));
    NatOf64(ClearBit0(U64(a + offset)));
  }
}
