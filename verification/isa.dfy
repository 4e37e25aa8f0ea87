/** The RV64I user-level instructions as the RISC-V Unprivileged ISA manual (version 20191213)
    describes them, sections 2.4 to 2.6 and 5.2 to 5.3, on bit strings. Nothing here is taken from
    the emulator but the shape of a decoded instruction. */
module Isa {
  import opened Words
  import opened Bits
  import opened Instructions

  type XReg = b: seq<bool> | |b| == 64 witness Copies(false, 64)
  type XRegs = r: seq<XReg> | |r| == 32 witness seq(32, _ => Copies(false, 64))
  type MemByte = b: seq<bool> | |b| == 8 witness Copies(false, 8)
  type Mem = map<u64, MemByte>

  /** Registers, PC and the mapped part of memory. */
  datatype Hart = Hart(x: XRegs, pc: u64, mem: Mem)

  /** How an instruction ends: retired, or with one of the exceptions of the manual. */
  datatype Outcome = Retired(h: Hart) | AccessFault | TargetMisaligned | EnvironmentCall | InstructionFault

  function ReadX(x: XRegs, r: u32): XReg
    requires r <= 31
  {
    if r == 0 then Copies(false, 64) else x[r]
  }

  function WriteX(x: XRegs, r: u32, v: XReg): XRegs
    requires r <= 31
  {
    if r == 0 then x else x[r := v]
  }

  // ------------------------------------------------------------------ integer computation

  function SextW(b: seq<bool>): XReg
    requires |b| == 32
  {
    SignExtend(b, 64)
  }

  /** Shift left, right logical and right arithmetic, as moves of bits. */
  function Sll(b: seq<bool>, k: nat): seq<bool>
    requires k <= |b|
  {
    Copies(false, k) + b[..|b| - k]
  }

  function Srl(b: seq<bool>, k: nat): seq<bool>
    requires k <= |b|
  {
    b[k..] + Copies(false, k)
  }

  function Sra(b: seq<bool>, k: nat): seq<bool>
    requires 0 < |b| && k <= |b|
  {
    b[k..] + Copies(b[|b| - 1], k)
  }

  function Shamt(b: XReg): (k: nat)
    ensures k < 64
  {
    BitsOfNat(b[..6]);
    assert Pow2(6) == 64;
    Nat(b[..6])
  }

  function ShamtW(b: XReg): (k: nat)
    ensures k < 32
  {
    BitsOfNat(b[..5]);
    assert Pow2(5) == 32;
    Nat(b[..5])
  }

  function Truth(v: bool): XReg { [v] + Copies(false, 63) }

  predicate IsComputation(op: Opcode)
  {
    match op
    case ADD | ADDI | SUB | OR | ORI | AND | ANDI | XOR | XORI | SLL | SLLI | SRL | SRLI | SRA | SRAI | ADDW
      | ADDIW | SUBW | SLLW | SLLIW | SRLW | SRLIW | SRAW | SRAIW | SLT | SLTI | SLTU | SLTIU => true
    case _ => false
  }

  /** Register-register and register-immediate operations; an immediate arrives sign-extended. */
  function Compute(op: Opcode, a: XReg, b: XReg): XReg
    requires IsComputation(op)
  {
    match op
    case ADD | ADDI => ToBits(Nat(a) + Nat(b), 64)
    case SUB => ToBits(Nat(a) - Nat(b), 64)
    case OR | ORI => seq(64, i requires 0 <= i < 64 => a[i] || b[i])
    case AND | ANDI => seq(64, i requires 0 <= i < 64 => a[i] && b[i])
    case XOR | XORI => seq(64, i requires 0 <= i < 64 => a[i] != b[i])
    case SLL | SLLI => Sll(a, Shamt(b))
    case SRL | SRLI => Srl(a, Shamt(b))
    case SRA | SRAI => Sra(a, Shamt(b))
    case ADDW | ADDIW => SextW(ToBits(Nat(a[..32]) + Nat(b[..32]), 32))
    case SUBW => SextW(ToBits(Nat(a[..32]) - Nat(b[..32]), 32))
    case SLLW | SLLIW => SextW(Sll(a[..32], ShamtW(b)))
    case SRLW | SRLIW => SextW(Srl(a[..32], ShamtW(b)))
    case SRAW | SRAIW => SextW(Sra(a[..32], ShamtW(b)))
    case SLT | SLTI => Truth(Signed(a) < Signed(b))
    case SLTU | SLTIU => Truth(Nat(a) < Nat(b))
  }

  /** The U-immediate: 20 bits above 12 zeros, sign-extended from bit 31. */
  function UpperImmediate(imm: s64): XReg { SextW(Copies(false, 12) + ToBits(imm, 20)) }

  // ------------------------------------------------------------------ control transfer

  predicate Taken(op: Opcode, a: XReg, b: XReg)
    requires IsBranch(op)
  {
    match op
    case BEQ => a == b
    case BNE => a != b
    case BLT => Signed(a) < Signed(b)
    case BGE => Signed(a) >= Signed(b)
    case BLTU => Nat(a) < Nat(b)
    case BGEU => Nat(a) >= Nat(b)
  }

  /** The JALR target: the sum with its least significant bit cleared. */
  function IndirectTarget(a: XReg, offset: s64): u64
  {
    var sum := ToBits(Nat(a) + offset, 64);
    BitsOfNat([false] + sum[1..]);
    Pow2Values();
    Nat([false] + sum[1..])
  }

  /** Without 16-bit instructions, a jump or taken branch to a target not 4-byte aligned traps. */
  function JumpTo(h: Hart, x: XRegs, target: u64): Outcome
  {
    if target % 4 != 0 then TargetMisaligned else Retired(Hart(x, target, h.mem))
  }

  // ------------------------------------------------------------------ loads and stores

  /** Addresses wrap around the 2^64-byte address space. */
  predicate Mapped(mem: Mem, addr: u64, w: nat)
    decreases w
  {
    w == 0 || (addr in mem && Mapped(mem, U64(addr + 1), w - 1))
  }

  function LoadBits(mem: Mem, addr: u64, w: nat): (b: seq<bool>)
    requires Mapped(mem, addr, w)
    ensures |b| == 8 * w
    decreases w
  {
    if w == 0 then [] else mem[addr] + LoadBits(mem, U64(addr + 1), w - 1)
  }

  function StoreBits(mem: Mem, addr: u64, w: nat, v: XReg): Mem
    requires w <= 8
  {
    if w == 0 then mem
    else StoreBits(mem, addr, w - 1, v)[U64(addr + (w - 1)) := v[8 * (w - 1)..8 * w]]
  }

  function Access(op: Opcode): (r: (nat, bool, bool))
    requires FormatOf(op) == FMT_ROR && op != JALR
    ensures r.0 in {1, 2, 4, 8}
  {
    // width, store, sign extension
    match op
    case SB => (1, true, false)
    case SH => (2, true, false)
    case SW => (4, true, false)
    case SD => (8, true, false)
    case LB => (1, false, true)
    case LH => (2, false, true)
    case LW => (4, false, true)
    case LBU => (1, false, false)
    case LHU => (2, false, false)
    case LWU => (4, false, false)
    case LD => (8, false, false)
  }

  function LoadOrStore(i: Instruction, h: Hart): Outcome
    requires WellFormed(i) && i.format.ROR? && i.op != JALR
  {
    var (w, isStore, signed) := Access(i.op);
    var addr := U64(Nat(ReadX(h.x, i.format.r1)) + i.format.offset);
    if !Mapped(h.mem, addr, w) then AccessFault
    else if isStore then
      Retired(Hart(h.x, U64(h.pc + 4), StoreBits(h.mem, addr, w, ReadX(h.x, i.format.r2))))
    else
      var b := LoadBits(h.mem, addr, w);
      var v := if signed then SignExtend(b, 64) else ZeroExtend(b, 64);
      Retired(Hart(WriteX(h.x, i.format.r2, v), U64(h.pc + 4), h.mem))
  }

  /** One fetched instruction of a hart; what ECALL does is up to the execution environment. */
  function Execute(i: Instruction, h: Hart): Outcome
    requires WellFormed(i)
  {
    match i.format
    case RRR(rd, rs1, rs2) =>
      Retired(Hart(WriteX(h.x, rd, Compute(i.op, ReadX(h.x, rs1), ReadX(h.x, rs2))), U64(h.pc + 4), h.mem))
    case RRI(rd, rs1, imm) =>
      if IsBranch(i.op) then
        if Taken(i.op, ReadX(h.x, rd), ReadX(h.x, rs1)) then JumpTo(h, h.x, U64(h.pc + imm))
        else Retired(Hart(h.x, U64(h.pc + 4), h.mem))
      else
        Retired(Hart(WriteX(h.x, rd, Compute(i.op, ReadX(h.x, rs1), ToBits(imm, 64))), U64(h.pc + 4), h.mem))
    case RI(rd, imm) =>
      if i.op.JAL? then JumpTo(h, WriteX(h.x, rd, ToBits(h.pc + 4, 64)), U64(h.pc + imm))
      else if i.op.LUI? then Retired(Hart(WriteX(h.x, rd, UpperImmediate(imm)), U64(h.pc + 4), h.mem))
      else Retired(Hart(WriteX(h.x, rd, ToBits(h.pc + Nat(UpperImmediate(imm)), 64)), U64(h.pc + 4), h.mem))
    case ROR(r2, r1, offset) =>
      if i.op.JALR? then
        JumpTo(h, WriteX(h.x, r2, ToBits(h.pc + 4, 64)), IndirectTarget(ReadX(h.x, r1), offset))
      else LoadOrStore(i, h)
    case Ecall => EnvironmentCall
  }
}
