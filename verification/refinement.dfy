/** The emulator refines the manual: one step of the machine is one instruction of a hart whose
    registers are the same bits and whose memory is the RAM, except exactly where `Deviates` says. */
module Refinement {
  import opened Options
  import opened Words
  import opened Bits
  import Division
  import opened Instructions
  import opened RegisterFile
  import opened MemoryModel
  import opened MemoryLaws
  import opened CacheModel
  import opened Machine
  import opened Steps
  import opened AluRefinement
  import Isa

  // ------------------------------------------------------------------ the hart behind a state

  function AbsRegs(r: Regs): Isa.XRegs { seq(32, i requires 0 <= i < 32 => B(r[i])) }

  /** The bits of the RAM byte at an address. */
  function Cell(cfg: Config, ram: seq<u8>, a: u64): Isa.MemByte
    requires |ram| == cfg.memorySz && cfg.instrUpper <= a < cfg.instrUpper + cfg.memorySz
  {
    ToBits(ram[a - cfg.instrUpper], 8)
  }

  /** Data memory occupies the addresses the configuration gives it, up to the end of the address space. */
  function AbsMem(cfg: Config, ram: seq<u8>): Isa.Mem
    requires |ram| == cfg.memorySz
  {
    map a: u64 | cfg.instrUpper <= a < cfg.instrUpper + cfg.memorySz :: Cell(cfg, ram, a)
  }

  function Abs(cfg: Config, s: State): Isa.Hart
    requires Fits(cfg, s)
  {
    Isa.Hart(AbsRegs(s.regs), s.pc, AbsMem(cfg, s.ram))
  }

  lemma AbsRead(r: Regs, i: u32)
    requires i <= 31 && r[0] == 0
    ensures Isa.ReadX(AbsRegs(r), i) == B(Get(r, i))
  {
    AllZero(64);
  }

  lemma AbsWrite(r: Regs, i: u32, v: u64)
    requires i <= 31
    ensures Isa.WriteX(AbsRegs(r), i, B(v)) == AbsRegs(Set(r, i, v))
  {
  }

  /** Writing other bits is a different register file, except into x0. */
  lemma AbsWriteDecides(r: Regs, i: u32, v: u64, b: Isa.XReg)
    requires i <= 31
    ensures Isa.WriteX(AbsRegs(r), i, b) == AbsRegs(Set(r, i, v)) <==> i == 0 || b == B(v)
  {
    AbsWrite(r, i, v);
    if i != 0 && Isa.WriteX(AbsRegs(r), i, b) == AbsRegs(Set(r, i, v)) {
      assert Isa.WriteX(AbsRegs(r), i, b)[i] == b;
      assert AbsRegs(Set(r, i, v))[i] == B(v);
    }
  }

  // ------------------------------------------------------------------ loads and stores

  /** An access to the last byte of the address space, mapped but refused by the bounds test. */
  predicate TouchesTop(cfg: Config, addr: u64, w: nat) {
    cfg.instrUpper <= addr && addr + w == TWO64 && TWO64 <= cfg.instrUpper + cfg.memorySz
  }

  /** Every byte of an access is mapped exactly when the bounds test accepts it or it touches that byte. */
  lemma {:induction false} MappedIsAccessible(cfg: Config, ram: seq<u8>, addr: u64, w: nat)
    requires |ram| == cfg.memorySz && 0 < w
    ensures Isa.Mapped(AbsMem(cfg, ram), addr, w) <==> Accessible(cfg, addr, w) || TouchesTop(cfg, addr, w)
    ensures !(Accessible(cfg, addr, w) && TouchesTop(cfg, addr, w))
    decreases w
  {
    hide ToBits;
    var mem := AbsMem(cfg, ram);
    assert addr in mem <==> cfg.instrUpper <= addr < cfg.instrUpper + cfg.memorySz;
    if w > 1 {
      MappedIsAccessible(cfg, ram, U64(addr + 1), w - 1);
    } else {
      assert Isa.Mapped(mem, U64(addr + 1), 0);
    }
  }

  lemma ByteOnTop(b: u8, r: nat, n: nat)
    ensures ToBits(b + TWO8 * r, 8 + n) == ToBits(b, 8) + ToBits(r, n)
  {
    hide ToBits, Shr, Pow2;
    var x := b + TWO8 * r;
    Pow2Values();
    Division.Quotient(x, r, b, TWO8);
    EightHalvings(x);
    Split(x, 8, n);
    Congruent(x, b, r, 8);
  }

  lemma {:induction false} EightHalvings(x: nat)
    ensures Shr(x, 8) == x / TWO8
  {
    ShrShr(x, 4, 4);
    assert Shr(x, 4) == x / 16;
    assert Shr(x / 16, 4) == x / 16 / 16;
  }

  lemma {:induction false} LoadedBits(cfg: Config, ram: seq<u8>, addr: u64, w: nat)
    requires |ram| == cfg.memorySz && 0 < w && Accessible(cfg, addr, w)
    ensures Isa.Mapped(AbsMem(cfg, ram), addr, w) && addr - cfg.instrUpper + w <= |ram|
    ensures Isa.LoadBits(AbsMem(cfg, ram), addr, w) == ToBits(Load(ram, addr - cfg.instrUpper, w), 8 * w)
    decreases w
  {
    hide ToBits;
    var mem, i := AbsMem(cfg, ram), addr - cfg.instrUpper;
    MappedIsAccessible(cfg, ram, addr, w);
    AccessibleIsInRam(cfg, addr, w);
    var rest := if w == 1 then 0 else Load(ram, i + 1, w - 1);
    ByteOnTop(ram[i], rest, 8 * (w - 1));
    if w == 1 {
      assert Load(ram, i + 1, 0) == 0;
      assert Isa.LoadBits(mem, U64(addr + 1), 0) == [] == ToBits(rest, 0);
    } else {
      assert U64(addr + 1) == addr + 1;
      LoadedBits(cfg, ram, addr + 1, w - 1);
    }
  }

  lemma {:induction false} ExtendedBits(v: nat, w: nat, signed: bool)
    requires w in {1, 2, 4, 8} && v < Pow256(w)
    ensures B(Extend(v, w, signed)) ==
            if signed then SignExtend(ToBits(v, 8 * w), 64) else ZeroExtend(ToBits(v, 8 * w), 64)
  {
    hide ToBits, U64, Pow2;
    WidthPowers(w);
    BitsOfU64(v);
    BitsOfU64(v - Pow256(w));
    if signed && v >= Pow256(w) / 2 {
      SignExtended(v - Pow256(w), 8 * w, 64);
      Congruent(v, v - Pow256(w), 1, 8 * w);
    } else if signed {
      SignExtended(v, 8 * w, 64);
    } else {
      ZeroExtended(v, 8 * w, 64);
    }
  }

  lemma {:induction false} WidthPowers(w: nat)
    requires w in {1, 2, 4, 8}
    ensures Pow256(w) == Pow2(8 * w) == 2 * Pow2(8 * w - 1)
  {
    Pow256Values();
    Pow2Values();
    assert Pow2(16) == 0x1_0000;
  }

  lemma SliceOfDrop(b: seq<bool>, i: nat, j: nat)
    requires i <= j && j + 8 <= |b|
    ensures b[8..][i..j] == b[i + 8..j + 8]
  {
  }

  lemma {:induction false} ByteBits(v: nat, k: nat, n: nat)
    requires 8 * k + 8 <= n
    ensures ToBits(v, n)[8 * k..8 * k + 8] == ToBits(Byte(v, k), 8)
    decreases k
  {
    hide ToBits;
    EightHalvings(v);
    Prefix(v, 8, n);
    if k == 0 {
      Pow2Values();
      WrapKeepsBits(U8(v), v, 8, TWO8);
    } else {
      ByteBits(v / TWO8, k - 1, n - 8);
      SliceOfDrop(ToBits(v, n), 8 * (k - 1), 8 * (k - 1) + 8);
    }
  }

  lemma {:induction false} StoredBits(cfg: Config, ram: seq<u8>, addr: u64, w: nat, v: u64)
    requires |ram| == cfg.memorySz && w <= 8
    requires cfg.instrUpper <= addr && addr + w <= MaxValidAddr(cfg)
    ensures addr - cfg.instrUpper + w <= |ram|
    ensures Isa.StoreBits(AbsMem(cfg, ram), addr, w, B(v)) == AbsMem(cfg, Store(ram, addr - cfg.instrUpper, w, v))
    decreases w
  {
    hide ToBits, Byte, AbsMem, U64, MaxValidAddr, Pow2;
    MaxInRam(cfg, addr, w);
    if w > 0 {
      var i := addr - cfg.instrUpper;
      StoredBits(cfg, ram, addr, w - 1, v);
      ByteBits(v, w - 1, 64);
      OneByteStored(cfg, Store(ram, i, w - 1, v), addr + (w - 1), Byte(v, w - 1));
      U64Fixed(addr + (w - 1));
    }
  }

  lemma MaxInRam(cfg: Config, addr: u64, w: nat)
    requires cfg.instrUpper <= addr && addr + w <= MaxValidAddr(cfg)
    ensures addr - cfg.instrUpper + w <= cfg.memorySz && addr + w < TWO64
  {
  }

  lemma {:induction false} OneByteStored(cfg: Config, ram: seq<u8>, addr: u64, b: u8)
    requires |ram| == cfg.memorySz
    requires cfg.instrUpper <= addr < MaxValidAddr(cfg)
    ensures AbsMem(cfg, ram)[addr := ToBits(b, 8)] == AbsMem(cfg, ram[addr - cfg.instrUpper := b])
  {
    hide ToBits, MaxValidAddr;
    MaxInRam(cfg, addr, 1);
    var ram' := ram[addr - cfg.instrUpper := b];
    var m, m' := AbsMem(cfg, ram)[addr := ToBits(b, 8)], AbsMem(cfg, ram');
    assert m.Keys == m'.Keys;
    forall a | a in m' ensures m[a] == m'[a] {
      assert m'[a] == Cell(cfg, ram', a);
      assert cfg.instrUpper <= a < cfg.instrUpper + cfg.memorySz;
      if a == addr {
        assert ram'[a - cfg.instrUpper] == b;
      } else {
        assert m[a] == AbsMem(cfg, ram)[a] == Cell(cfg, ram, a);
        assert ram'[a - cfg.instrUpper] == ram[a - cfg.instrUpper];
      }
    }
  }

  // ------------------------------------------------------------------ where the emulator differs

  /** Exactly the instructions on which the emulator is not the manual: SRLW and SRLIW by 0 of a word
      with bit 31 set; LUI and AUIPC of an immediate outside the signed 20 bits; loads and stores that
      touch the last byte of the address space, which it refuses; jumps and taken branches to a target
      that is not 4-byte aligned, where the manual traps. Writes to x0 hide the first two. */
  predicate Deviates(cfg: Config, i: Instruction, s: State)
    requires WellFormed(i)
  {
    match i.op
    case SRLW | SRLIW =>
      i.format.rd != 0 && WordShiftDeviates(Get(s.regs, i.format.rs1), Operand2(s.regs, i.format))
    case LUI | AUIPC => i.format.rd != 0 && UpperDeviates(i.format.imm)
    case SB | SH | SW | SD | LB | LH | LW | LD | LBU | LHU | LWU =>
      TouchesTop(cfg, EffectiveAddress(s.regs, i.format), Width(i.op))
    case JAL => (VisiblePc(s) + i.format.imm) % 4 != 0
    case JALR => (Get(s.regs, i.format.r1) + i.format.offset) % 4 >= 2
    case BEQ | BNE | BLT | BGE | BLTU | BGEU =>
      && BranchTaken(i.op, Get(s.regs, i.format.rd), Get(s.regs, i.format.rs1))
      && (VisiblePc(s) + i.format.imm) % 4 != 0
    case _ => false
  }

  /** A state in which an instruction can refine the manual's: x0 is 0, and the stored PC is the visible one. */
  predicate Normal(cfg: Config, s: State) { Fits(cfg, s) && s.regs[0] == 0 && s.pc < TWO32 }

  // ------------------------------------------------------------------ one instruction

  /** A step that writes one register: the same hart exactly when the same bits are written. */
  lemma WriteDecides(cfg: Config, s: State, rd: u32, v: u64, b: Isa.XReg, pc: u64)
    requires Fits(cfg, s) && rd <= 31
    ensures Isa.Hart(Isa.WriteX(AbsRegs(s.regs), rd, b), pc, AbsMem(cfg, s.ram))
            == Abs(cfg, s.(regs := Set(s.regs, rd, v), pc := pc))
            <==> rd == 0 || b == B(v)
  {
    hide AbsRegs, AbsMem, ToBits, Set, Isa.WriteX;
    AbsWriteDecides(s.regs, rd, v, b);
  }

  lemma NextInstruction(s: State)
    requires s.pc < TWO32
    ensures U64(s.pc + 4) == s.pc + 4 && VisiblePc(s) == s.pc
  {
  }

  lemma AluStep(cfg: Config, i: Instruction, s: State)
    requires Normal(cfg, s) && WellFormed(i) && IsAlu(i.op) && (i.format.RRR? || i.format.RRI?)
    ensures var v := AluValue(i.op, Get(s.regs, i.format.rs1), Operand2(s.regs, i.format));
            Isa.Execute(i, Abs(cfg, s))
            == Isa.Retired(Abs(cfg, s.(regs := Set(s.regs, i.format.rd, v), pc := s.pc + 4)))
            <==> !Deviates(cfg, i, s)
  {
    hide AluValue, Isa.Compute, AbsRegs, AbsMem, ToBits, Get, Set, WordShiftDeviates, U64, IsAlu, Isa.ReadX, Isa.WriteX,
         FormatOf;
    var f := i.format;
    Classes(i.op);
    NextInstruction(s);
    AbsRead(s.regs, f.rs1);
    if f.RRR? {
      AbsRead(s.regs, f.rs2);
    } else {
      BitsOfU64(f.imm);
    }
    var a, b := Get(s.regs, f.rs1), Operand2(s.regs, f);
    AluRefines(i.op, a, b);
    WriteDecides(cfg, s, f.rd, AluValue(i.op, a, b), Isa.Compute(i.op, B(a), B(b)), s.pc + 4);
  }

  /** The set-less-than operations in terms of their two operands. */
  lemma CompareState(cfg: Config, i: Instruction, s: State)
    requires WellFormed(i) && (i.op.SLT? || i.op.SLTI? || i.op.SLTU? || i.op.SLTIU?)
    ensures i.format.RRR? || i.format.RRI?
    ensures var a, b := Get(s.regs, i.format.rs1), Operand2(s.regs, i.format);
            var v := if (if i.op.SLT? || i.op.SLTI? then S64(a) < S64(b) else a < b) then 1 else 0;
            FlowOps(i, s).s == s.(regs := Set(s.regs, i.format.rd, v), pc := VisiblePc(s) + 4)
    ensures !Deviates(cfg, i, s)
  {
    hide Get, Set, U64, S64, BranchTaken, ClearBit0, Shl;
    NotTaken(i.op);
    if i.format.RRI? {
      S64Again(i.format.imm);
    }
  }

  lemma CompareStep(cfg: Config, i: Instruction, s: State)
    requires Normal(cfg, s) && WellFormed(i) && (i.op.SLT? || i.op.SLTI? || i.op.SLTU? || i.op.SLTIU?)
    ensures Isa.Execute(i, Abs(cfg, s)) == Isa.Retired(Abs(cfg, FlowOps(i, s).s)) && !Deviates(cfg, i, s)
  {
    hide AbsRegs, AbsMem, ToBits, Get, Set, U64, Isa.ReadX, Isa.WriteX, S64, Isa.Compute, FlowOps, Deviates;
    CompareState(cfg, i, s);
    var f := i.format;
    NextInstruction(s);
    AbsRead(s.regs, f.rs1);
    if f.RRR? {
      AbsRead(s.regs, f.rs2);
    } else {
      BitsOfU64(f.imm);
    }
    var a, b := Get(s.regs, f.rs1), Operand2(s.regs, f);
    Comparison(i.op, a, b);
    var v := if (if i.op.SLT? || i.op.SLTI? then S64(a) < S64(b) else a < b) then 1 else 0;
    WriteDecides(cfg, s, f.rd, v, Isa.Compute(i.op, B(a), B(b)), s.pc + 4);
  }

  lemma S64Again(x: s64)
    ensures S64(U64(x)) == x
  {
  }

  lemma UpperStep(cfg: Config, i: Instruction, s: State, v: u64)
    requires Normal(cfg, s) && WellFormed(i) && (i.op.LUI? || i.op.AUIPC?)
    requires i.format.RI?
    requires v == if i.op.LUI? then U64(Shl(i.format.imm, 12)) else U64(s.pc + Shl(U64(i.format.imm), 12))
    ensures Isa.Execute(i, Abs(cfg, s))
            == Isa.Retired(Abs(cfg, s.(regs := Set(s.regs, i.format.rd, v), pc := s.pc + 4)))
            <==> !Deviates(cfg, i, s)
  {
    hide AbsRegs, AbsMem, ToBits, Set, U64, Isa.WriteX, Shl, Isa.UpperImmediate, UpperDeviates, Nat;
    var f := i.format;
    NextInstruction(s);
    LuiRefines(f.imm);
    AuipcRefines(s.pc, f.imm);
    var b := if i.op.LUI? then Isa.UpperImmediate(f.imm) else ToBits(s.pc + Nat(Isa.UpperImmediate(f.imm)), 64);
    WriteDecides(cfg, s, f.rd, v, b, s.pc + 4);
  }

  lemma BranchRefines(op: Opcode, a: u64, b: u64)
    requires IsBranch(op)
    ensures Isa.Taken(op, B(a), B(b)) == BranchTaken(op, a, b)
  {
    hide ToBits, S64, Nat, Signed;
    SignedOf64(a);
    SignedOf64(b);
    NatOf64(a);
    NatOf64(b);
  }

  lemma BranchStep(cfg: Config, i: Instruction, s: State)
    requires Normal(cfg, s) && WellFormed(i) && IsBranch(i.op)
    ensures Isa.Execute(i, Abs(cfg, s)) == Isa.Retired(Abs(cfg, FlowOps(i, s).s)) <==> !Deviates(cfg, i, s)
  {
    hide AbsRegs, AbsMem, ToBits, Get, U64, Isa.ReadX, Isa.Taken, BranchTaken;
    var f := i.format;
    NextInstruction(s);
    AbsRead(s.regs, f.rd);
    AbsRead(s.regs, f.rs1);
    BranchRefines(i.op, Get(s.regs, f.rd), Get(s.regs, f.rs1));
    Multiples(s.pc + f.imm, 4);
  }

  /** Clearing bit 0 leaves a 4-byte aligned target exactly when bit 1 was clear. */
  lemma ClearedIsAligned(x: int)
    ensures ClearBit0(U64(x)) % 4 == 0 <==> x % 4 < 2
  {
    hide ClearBit0, U64;
    ClearBit0Bits(U64(x));
    Multiples(x, 4);
    EvenPart(U64(x));
  }

  lemma EvenPart(y: int)
    ensures (y - y % 2) % 4 == 0 <==> y % 4 < 2
  {
    var q, r := y / 4, y % 4;
    var bit := if r == 1 || r == 3 then 1 else 0;
    Division.Quotient(y, 2 * q + (r - bit) / 2, bit, 2);
    Division.Quotient(y - bit, q, r - bit, 4);
  }

  lemma JumpAndLink(cfg: Config, i: Instruction, s: State)
    requires Normal(cfg, s) && WellFormed(i) && i.op.JAL?
    ensures Isa.Execute(i, Abs(cfg, s)) == Isa.Retired(Abs(cfg, FlowOps(i, s).s)) <==> !Deviates(cfg, i, s)
  {
    hide AbsRegs, AbsMem, ToBits, Get, Set, U64, Isa.WriteX, BranchTaken;
    var f := i.format;
    NextInstruction(s);
    Multiples(s.pc + f.imm, 4);
    WriteDecides(cfg, s, f.rd, s.pc + 4, B(s.pc + 4), U64(s.pc + f.imm));
  }

  lemma JumpRegister(cfg: Config, i: Instruction, s: State)
    requires Normal(cfg, s) && WellFormed(i) && i.op.JALR?
    ensures Isa.Execute(i, Abs(cfg, s)) == Isa.Retired(Abs(cfg, FlowOps(i, s).s)) <==> !Deviates(cfg, i, s)
  {
    hide AbsRegs, AbsMem, ToBits, Get, Set, U64, Isa.ReadX, Isa.WriteX, ClearBit0, Isa.IndirectTarget, BranchTaken;
    var f := i.format;
    NextInstruction(s);
    AbsRead(s.regs, f.r1);
    IndirectTargetRefines(Get(s.regs, f.r1), f.offset);
    ClearedIsAligned(Get(s.regs, f.r1) + f.offset);
    WriteDecides(cfg, s, f.r2, s.pc + 4, B(s.pc + 4), ClearBit0(U64(Get(s.regs, f.r1) + f.offset)));
  }

  lemma AccessAgrees(op: Opcode)
    requires IsMemOp(op)
    ensures FormatOf(op) == FMT_ROR && !op.JALR?
    ensures Isa.Access(op) == (Width(op), IsStore(op), IsSignedLoad(op))
  {
  }

  /** Loads and stores: the manual's access fault exactly where the bounds test refuses, but for the
      last byte of the address space. */
  lemma MemStep(cfg: Config, i: Instruction, s: State)
    requires Normal(cfg, s) && WellFormed(i) && IsMemOp(i.op) && i.format.ROR?
    ensures Isa.Execute(i, Abs(cfg, s)) ==
            (if Accessible(cfg, EffectiveAddress(s.regs, i.format), Width(i.op))
             then Isa.Retired(Abs(cfg, Perform(cfg, i, s)))
             else Isa.AccessFault)
            <==> !Deviates(cfg, i, s)
  {
    hide AbsRegs, AbsMem, ToBits, Get, Set, U64, Isa.ReadX, Isa.WriteX, Isa.Mapped, Isa.LoadBits, Isa.StoreBits, Nat,
         Accessible, Load, Store, Extend, Isa.Access, IsMemOp, IsStore, IsLoad, IsSignedLoad, Width,
         AfterAccess, FormatOf, Deviates, TouchesTop;
    var f, w := i.format, Width(i.op);
    AccessAgrees(i.op);
    MemDeviates(cfg, i, s);
    NextInstruction(s);
    AbsRead(s.regs, f.r1);
    AbsRead(s.regs, f.r2);
    NatOf64(Get(s.regs, f.r1));
    var addr := EffectiveAddress(s.regs, f);
    MappedIsAccessible(cfg, s.ram, addr, w);
    if Accessible(cfg, addr, w) {
      AccessibleRange(cfg, addr, w);
      var index := addr - cfg.instrUpper;
      if IsStore(i.op) {
        StoredBits(cfg, s.ram, addr, w, Get(s.regs, f.r2));
      } else {
        LoadedBits(cfg, s.ram, addr, w);
        ExtendedBits(Load(s.ram, index, w), w, IsSignedLoad(i.op));
        AbsWrite(s.regs, f.r2, Extend(Load(s.ram, index, w), w, IsSignedLoad(i.op)));
      }
    }
  }

  lemma AccessibleRange(cfg: Config, addr: u64, w: nat)
    requires Accessible(cfg, addr, w) && 0 < w
    ensures cfg.instrUpper <= addr && addr + w <= MaxValidAddr(cfg) && addr - cfg.instrUpper + w <= cfg.memorySz
  {
  }

  lemma MemDeviates(cfg: Config, i: Instruction, s: State)
    requires WellFormed(i) && IsMemOp(i.op) && i.format.ROR?
    ensures Deviates(cfg, i, s) <==> TouchesTop(cfg, EffectiveAddress(s.regs, i.format), Width(i.op))
  {
    hide TouchesTop, Width, EffectiveAddress;
  }

  // ------------------------------------------------------------------ steps and runs

  /** Instruction `k` of a program lies at `instrLower + 4k`: whether one starts at an address. */
  predicate CodeAt(p: Program, pc: u64) {
    InRange(p.cfg, pc) && (pc - p.cfg.instrLower) % 4 == 0
  }

  /** One step of a hart running the program: it executes the instruction that starts at its PC and can
      fetch nothing elsewhere; the emulator's environment resumes after system call 23 and no other. */
  function HartStep(p: Program, h: Isa.Hart): Isa.Outcome
  {
    if !CodeAt(p, h.pc) then Isa.InstructionFault
    else
      var o := Isa.Execute(p.instrs[(h.pc - p.cfg.instrLower) / 4], h);
      if o.EnvironmentCall? && Nat(Isa.ReadX(h.x, 17)) == 23 then Isa.Retired(h.(pc := U64(h.pc + 4))) else o
  }

  /** The manual's name for the exception a step of the emulator reports. */
  function Trap(e: Option<Exception>): Isa.Outcome {
    match e
    case Some(MemoryException) => Isa.AccessFault
    case Some(InstructionException) => Isa.InstructionFault
    case _ => Isa.EnvironmentCall
  }

  /** What a hart has to do to match a step of the emulator. */
  function Image(cfg: Config, r: StepResult): Isa.Outcome
    requires Fits(cfg, r.s)
  {
    match r
    case Next(t) => Isa.Retired(Abs(cfg, t))
    case Fault(_, e) => Trap(e)
  }

  /** No more instructions than a 32-bit PC can tell apart. */
  predicate Addressable(p: Program) { |p.instrs| <= 0x4000_0000 }

  /** The steps of the emulator that are not the manual's: those of deviating instructions; those between
      two instructions, where it fetches the lower one; and those at a stored PC above 32 bits, of which it
      sees the low half, unless it finds no instruction there and none starts at the stored PC either. */
  predicate StepDeviates(p: Program, s: State) {
    if s.pc < TWO32 then InRange(p.cfg, s.pc) && (!CodeAt(p, s.pc) || Deviates(p.cfg, Fetch(p, s), s))
    else InRange(p.cfg, VisiblePc(s)) || CodeAt(p, s.pc)
  }

  lemma FetchedCode(p: Program, s: State)
    requires s.pc < TWO32 && CodeAt(p, s.pc)
    ensures Fetch(p, s) == p.instrs[(s.pc - p.cfg.instrLower) / 4]
  {
  }

  lemma EcallStep(p: Program, s: State)
    requires Normal(p.cfg, s) && CodeAt(p, s.pc) && Fetch(p, s).op.ECALL?
    ensures HartStep(p, Abs(p.cfg, s)) ==
            if Cause(p, s).None? then Isa.Retired(Abs(p.cfg, Completed(p, s))) else Isa.EnvironmentCall
    ensures !Deviates(p.cfg, Fetch(p, s), s)
  {
    hide AbsRegs, AbsMem, ToBits, Get, U64, Isa.ReadX, Nat, IsMemOp, IsAlu, Accessible, Fetch;
    FetchedCode(p, s);
    Classes(ECALL);
    NextInstruction(s);
    AbsRead(s.regs, 17);
    NatOf64(Get(s.regs, 17));
  }

  /** The instruction steps above, by owner. */
  lemma InstructionRefines(p: Program, s: State)
    requires Normal(p.cfg, s) && InRange(p.cfg, s.pc) && !Fetch(p, s).op.ECALL?
    ensures Isa.Execute(Fetch(p, s), Abs(p.cfg, s))
            == (if Cause(p, s).None? then Isa.Retired(Abs(p.cfg, Completed(p, s))) else Isa.AccessFault)
            <==> !Deviates(p.cfg, Fetch(p, s), s)
  {
    hide Perform, AluValue, FlowOps, Isa.Execute, AbsRegs, AbsMem, Get, Set, Shl, U64, Accessible, Operand2, Fetch,
         Deviates, EffectiveAddress, IsAlu, IsMemOp, IsFlowOp, WellFormed;
    var i := Fetch(p, s);
    Classes(i.op);
    FormatsFit(i);
    NextInstruction(s);
    if IsMemOp(i.op) {
      MemStep(p.cfg, i, s);
    } else if IsAlu(i.op) {
      AluStep(p.cfg, i, s);
    } else if i.op.LUI? {
      UpperStep(p.cfg, i, s, U64(Shl(i.format.imm, 12)));
    } else {
      FlowStep(p.cfg, i, s);
    }
  }

  lemma FlowStep(cfg: Config, i: Instruction, s: State)
    requires Normal(cfg, s) && WellFormed(i) && IsFlowOp(i.op)
    ensures Isa.Execute(i, Abs(cfg, s)) == Isa.Retired(Abs(cfg, FlowOps(i, s).s)) <==> !Deviates(cfg, i, s)
  {
    hide Isa.Execute, AbsRegs, AbsMem, Deviates, Shl, U64, Set;
    match i.op
    case SLT | SLTI | SLTU | SLTIU => CompareStep(cfg, i, s);
    case JAL => JumpAndLink(cfg, i, s);
    case JALR => JumpRegister(cfg, i, s);
    case AUIPC =>
      NextInstruction(s);
      UpperStep(cfg, i, s, U64(s.pc + Shl(U64(i.format.imm), 12)));
    case _ => BranchStep(cfg, i, s);
  }

  /** In every state with x0 zero the emulator's step is the manual's, next state or exception, except
      exactly where it deviates; a step that fails changes nothing. */
  lemma StepRefinesIsa(p: Program, s: State)
    requires Addressable(p) && Fits(p.cfg, s) && s.regs[0] == 0
    ensures HartStep(p, Abs(p.cfg, s)) == Image(p.cfg, Step(p, s)) <==> !StepDeviates(p, s)
    ensures Step(p, s).Fault? ==> Step(p, s).s == s
  {
    hide Step, Completed, Perform, AbsRegs, AbsMem, Get, Accessible, Fetch, Deviates, HartStep;
    StepIsOwners(p, s);
    FetchFaults(p, Abs(p.cfg, s));
    if s.pc < TWO32 && CodeAt(p, s.pc) {
      CodeStep(p, s);
    }
  }

  /** Where an instruction starts at a visible PC. */
  lemma CodeStep(p: Program, s: State)
    requires Normal(p.cfg, s) && CodeAt(p, s.pc)
    ensures HartStep(p, Abs(p.cfg, s)) == Image(p.cfg, Step(p, s)) <==> !Deviates(p.cfg, Fetch(p, s), s)
  {
    hide Step, Completed, Perform, Isa.Execute, AbsRegs, AbsMem, Get, Accessible, Fetch, Deviates, Nat, U64;
    StepIsOwners(p, s);
    NextInstruction(s);
    FetchedCode(p, s);
    var i := Fetch(p, s);
    if i.op.ECALL? {
      EcallStep(p, s);
    } else {
      FormatsFit(i);
      OnlyEcallCalls(i, Abs(p.cfg, s));
      InstructionRefines(p, s);
    }
  }

  /** Instructions may trap but are not unfetchable. */
  lemma FetchFaults(p: Program, h: Isa.Hart)
    ensures HartStep(p, h).InstructionFault? <==> !CodeAt(p, h.pc)
  {
    hide Isa.Compute, Isa.WriteX, Isa.ReadX, ToBits, Nat, U64, Isa.UpperImmediate, Isa.LoadBits, Isa.StoreBits,
         Isa.Mapped, Isa.Access, Isa.Taken, Isa.IndirectTarget;
  }

  /** The environment and the fetch are outside an instruction's own execution. */
  lemma OnlyEcallCalls(i: Instruction, h: Isa.Hart)
    requires WellFormed(i) && !i.op.ECALL?
    ensures !Isa.Execute(i, h).EnvironmentCall?
  {
    hide Isa.Compute, Isa.WriteX, Isa.ReadX, ToBits, Nat, U64, Isa.UpperImmediate, Isa.LoadBits, Isa.StoreBits,
         Isa.Mapped, Isa.Access, Isa.Taken, Isa.IndirectTarget;
  }

  function HartRun(p: Program, h: Isa.Hart, n: nat): Isa.Outcome
    decreases n
  {
    if n == 0 then Isa.Retired(h)
    else
      var o := HartStep(p, h);
      if o.Retired? then HartRun(p, o.h, n - 1) else o
  }

  function RunImage(cfg: Config, r: RunResult): Isa.Outcome
    requires Fits(cfg, r.s)
  {
    match r.outcome
    case StillRunning => Isa.Retired(Abs(cfg, r.s))
    case Stopped(e) => Trap(e)
  }

  /** After each of the first `n` steps the hart is where the emulator is, or both have stopped alike. */
  ghost predicate InLockstep(p: Program, s: State, n: nat)
    requires Fits(p.cfg, s)
  {
    forall m: nat :: m <= n ==> HartRun(p, Abs(p.cfg, s), m) == RunImage(p.cfg, Run(p, s, m))
  }

  /** None of the first `n` steps deviates. */
  predicate NeverDeviates(p: Program, s: State, n: nat)
    requires Fits(p.cfg, s)
    decreases n
  {
    n == 0 || (!StepDeviates(p, s) && (Step(p, s).Next? ==> NeverDeviates(p, Step(p, s).s, n - 1)))
  }

  /** Over runs: emulator and hart stay in lockstep, state by state and with the same reason to stop,
      exactly when no step deviates. */
  lemma {:induction false} RunRefinesIsa(p: Program, s: State, n: nat)
    requires Addressable(p) && Fits(p.cfg, s) && s.regs[0] == 0
    ensures InLockstep(p, s, n) <==> NeverDeviates(p, s, n)
    decreases n
  {
    hide Step, HartStep, StepDeviates, Abs, Cause, Completed;
    var h := Abs(p.cfg, s);
    if n == 0 {
      assert HartRun(p, h, 0) == RunImage(p.cfg, Run(p, s, 0));
    } else {
      StepRefinesIsa(p, s);
      StepIsOwners(p, s);
      FirstStep(p, s);
      if StepDeviates(p, s) {
        assert HartRun(p, h, 1) != RunImage(p.cfg, Run(p, s, 1));
      } else if Step(p, s).Next? {
        var t := Step(p, s).s;
        OneRegisterWritten(p, s, 0);
        RunRefinesIsa(p, t, n - 1);
        LockstepAfter(p, s, n);
      } else {
        NoStep(p, s);
      }
    }
  }

  lemma {:induction false} FirstStep(p: Program, s: State)
    requires Fits(p.cfg, s)
    ensures HartRun(p, Abs(p.cfg, s), 1) == HartStep(p, Abs(p.cfg, s))
    ensures RunImage(p.cfg, Run(p, s, 1)) == Image(p.cfg, Step(p, s))
  {
    hide Step, HartStep, Abs, Trap;
    if Step(p, s).Next? {
      assert Run(p, Step(p, s).s, 0) == RunResult(Step(p, s).s, StillRunning);
    }
  }

  /** Behind a first step in common, lockstep is that of the rest. */
  lemma LockstepAfter(p: Program, s: State, n: nat)
    requires Fits(p.cfg, s) && n > 0 && Step(p, s).Next?
    requires HartStep(p, Abs(p.cfg, s)) == Isa.Retired(Abs(p.cfg, Step(p, s).s))
    ensures InLockstep(p, s, n) <==> InLockstep(p, Step(p, s).s, n - 1)
  {
    hide Step, HartStep, Abs, RunImage;
    var h, t := Abs(p.cfg, s), Step(p, s).s;
    forall m: nat
      ensures HartRun(p, h, m + 1) == HartRun(p, Abs(p.cfg, t), m) && Run(p, s, m + 1) == Run(p, t, m)
    {
    }
    assert RunImage(p.cfg, Run(p, s, 0)) == HartRun(p, h, 0) by { NoStep(p, s); }
    if InLockstep(p, s, n) {
      forall m: nat | m <= n - 1 ensures HartRun(p, Abs(p.cfg, t), m) == RunImage(p.cfg, Run(p, t, m)) {
        assert HartRun(p, h, m + 1) == RunImage(p.cfg, Run(p, s, m + 1));
      }
    }
    if InLockstep(p, t, n - 1) {
      forall m: nat | m <= n ensures HartRun(p, h, m) == RunImage(p.cfg, Run(p, s, m)) {
        if m > 0 {
          assert HartRun(p, Abs(p.cfg, t), m - 1) == RunImage(p.cfg, Run(p, t, m - 1));
        }
      }
    }
  }

  lemma {:induction false} NoStep(p: Program, s: State)
    requires Fits(p.cfg, s)
    ensures RunImage(p.cfg, Run(p, s, 0)) == HartRun(p, Abs(p.cfg, s), 0)
  {
  }

  /** Unsigned 20-bit immediates deviate exactly when bit 19 is set; signed ones never do. */
  lemma UpperImmediatesOf20Bits(imm: s64)
    ensures 0 <= imm < 0x10_0000 ==> (UpperDeviates(imm) <==> imm >= 0x8_0000)
    ensures -0x8_0000 <= imm < 0x8_0000 ==> !UpperDeviates(imm)
  {
  }
}
