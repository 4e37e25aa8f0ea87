/** The emulator's instruction set on bits: where it is not the manual's, what it is instead. */
module Emulated {
  import opened Options
  import opened Words
  import opened Bits
  import opened Instructions
  import opened RegisterFile
  import opened MemoryModel
  import opened CacheModel
  import opened Machine
  import opened Steps
  import opened AluRefinement
  import opened Refinement
  import opened Rewrite
  import opened Runs
  import Isa

  /** 12 zeros below the low 52 bits of the immediate, with no extension from bit 31. */
  function Upper(imm: s64): Isa.XReg { Copies(false, 12) + ToBits(imm, 52) }

  function Write(h: Isa.Hart, rd: u32, v: Isa.XReg): Isa.Outcome
    requires rd <= 31
  {
    Isa.Retired(Isa.Hart(Isa.WriteX(h.x, rd, v), U64(h.pc + 4), h.mem))
  }

  function Amount(i: Instruction, h: Isa.Hart): Isa.XReg
    requires WellFormed(i) && (i.format.RRR? || i.format.RRI?)
  {
    if i.format.RRR? then Isa.ReadX(h.x, i.format.rs2) else ToBits(i.format.imm, 64)
  }

  /** The manual's instruction but for: SRLW and SRLIW, which zero-extend; LUI and AUIPC; control
      transfers, which go to any target; and accesses to the last byte of the address space. */
  function Execute(i: Instruction, h: Isa.Hart): Isa.Outcome
    requires WellFormed(i)
  {
    match i.op
    case SRLW | SRLIW =>
      Write(h, i.format.rd, ZeroExtend(Isa.Srl(Isa.ReadX(h.x, i.format.rs1)[..32], Isa.ShamtW(Amount(i, h))), 64))
    case LUI => Write(h, i.format.rd, Upper(i.format.imm))
    case AUIPC => Write(h, i.format.rd, ToBits(h.pc + Nat(Upper(i.format.imm)), 64))
    case JAL =>
      Isa.Retired(Isa.Hart(Isa.WriteX(h.x, i.format.rd, ToBits(h.pc + 4, 64)), U64(h.pc + i.format.imm), h.mem))
    case JALR =>
      Isa.Retired(Isa.Hart(Isa.WriteX(h.x, i.format.r2, ToBits(h.pc + 4, 64)),
                           Isa.IndirectTarget(Isa.ReadX(h.x, i.format.r1), i.format.offset), h.mem))
    case BEQ | BNE | BLT | BGE | BLTU | BGEU =>
      var taken := Isa.Taken(i.op, Isa.ReadX(h.x, i.format.rd), Isa.ReadX(h.x, i.format.rs1));
      Isa.Retired(h.(pc := U64(h.pc + if taken then i.format.imm else 4)))
    case SB | SH | SW | SD | LB | LH | LW | LD | LBU | LHU | LWU =>
      if AddressOf(i, h) + Isa.Access(i.op).0 == TWO64 then Isa.AccessFault else Isa.Execute(i, h)
    case _ => Isa.Execute(i, h)
  }

  function AddressOf(i: Instruction, h: Isa.Hart): u64
    requires WellFormed(i) && i.format.ROR?
  {
    U64(Nat(Isa.ReadX(h.x, i.format.r1)) + i.format.offset)
  }

  // ------------------------------------------------------------------ instruction by instruction

  lemma WordShift(cfg: Config, i: Instruction, s: State)
    requires Normal(cfg, s) && WellFormed(i) && (i.op.SRLW? || i.op.SRLIW?)
    ensures i.format.RRR? || i.format.RRI?
    ensures var v := AluValue(i.op, Get(s.regs, i.format.rs1), Operand2(s.regs, i.format));
            Execute(i, Abs(cfg, s)) == Isa.Retired(Abs(cfg, s.(regs := Set(s.regs, i.format.rd, v), pc := s.pc + 4)))
  {
    hide AbsRegs, AbsMem, ToBits, Get, Set, U64, Isa.ReadX, Isa.WriteX, AluValue, Isa.Srl, Isa.ShamtW;
    var f := i.format;
    NextInstruction(s);
    AbsRead(s.regs, f.rs1);
    if f.RRR? {
      AbsRead(s.regs, f.rs2);
    } else {
      BitsOfU64(f.imm);
    }
    var a, b := Get(s.regs, f.rs1), Operand2(s.regs, f);
    LogicalShiftResult(i.op, a, b);
    AbsWrite(s.regs, f.rd, AluValue(i.op, a, b));
  }

  lemma UpperResult(cfg: Config, i: Instruction, s: State, v: u64)
    requires Normal(cfg, s) && WellFormed(i) && (i.op.LUI? || i.op.AUIPC?)
    requires i.format.RI?
    requires v == if i.op.LUI? then U64(Shl(i.format.imm, 12)) else U64(s.pc + Shl(U64(i.format.imm), 12))
    ensures Execute(i, Abs(cfg, s))
            == Isa.Retired(Abs(cfg, s.(regs := Set(s.regs, i.format.rd, v), pc := s.pc + 4)))
  {
    hide AbsRegs, AbsMem, ToBits, Set, U64, Isa.WriteX, Shl, Nat;
    var f := i.format;
    NextInstruction(s);
    UpperValueBits(f.imm);
    AuipcValue(s.pc, f.imm);
    AbsWrite(s.regs, f.rd, v);
  }

  lemma AuipcValue(pc: u32, imm: s64)
    ensures B(U64(pc + Shl(U64(imm), 12))) == ToBits(pc + Nat(Upper(imm)), 64)
  {
    hide ToBits, Shl, Nat, Pow2, U64;
    var x, u := Shl(U64(imm), 12), Nat(Upper(imm));
    UpperValueAgain(imm);
    UpperValueBits(imm);
    BitsOfNat(Upper(imm));
    BitsOfU64(x);
    BitsDecide(x, u);
    BitsOfU64(pc + x);
    BitsDecide(pc + x, pc + u);
    CongruentSums(pc, x, u);
  }

  lemma Transfer(cfg: Config, i: Instruction, s: State)
    requires Normal(cfg, s) && WellFormed(i) && (i.op.JAL? || i.op.JALR? || IsBranch(i.op))
    ensures Execute(i, Abs(cfg, s)) == Isa.Retired(Abs(cfg, FlowOps(i, s).s))
  {
    hide AbsRegs, AbsMem, ToBits, Get, Set, U64, Isa.ReadX, Isa.WriteX, ClearBit0, Isa.IndirectTarget, Isa.Taken,
         BranchTaken;
    var f := i.format;
    NextInstruction(s);
    if i.op.JAL? {
      AbsWrite(s.regs, f.rd, s.pc + 4);
    } else if i.op.JALR? {
      AbsRead(s.regs, f.r1);
      IndirectTargetRefines(Get(s.regs, f.r1), f.offset);
      AbsWrite(s.regs, f.r2, s.pc + 4);
    } else {
      AbsRead(s.regs, f.rd);
      AbsRead(s.regs, f.rs1);
      BranchRefines(i.op, Get(s.regs, f.rd), Get(s.regs, f.rs1));
    }
  }

  lemma Memory(cfg: Config, i: Instruction, s: State)
    requires Normal(cfg, s) && WellFormed(i) && IsMemOp(i.op) && i.format.ROR?
    ensures AddressOf(i, Abs(cfg, s)) == EffectiveAddress(s.regs, i.format)
    ensures Execute(i, Abs(cfg, s)) ==
            if Accessible(cfg, EffectiveAddress(s.regs, i.format), Width(i.op))
            then Isa.Retired(Abs(cfg, Perform(cfg, i, s)))
            else Isa.AccessFault
  {
    hide AbsRegs, AbsMem, ToBits, Get, U64, Isa.ReadX, Perform, Nat, Isa.Access, Isa.Execute, Deviates;
    AbsRead(s.regs, i.format.r1);
    NatOf64(Get(s.regs, i.format.r1));
    AccessAgrees(i.op);
    MemStep(cfg, i, s);
    MemDeviates(cfg, i, s);
    var addr, w := EffectiveAddress(s.regs, i.format), Width(i.op);
    if addr + w == TWO64 && !TouchesTop(cfg, addr, w) {
      assert !Accessible(cfg, addr, w);
    }
    MemoryCases(i, Abs(cfg, s));
  }

  lemma MemoryCases(i: Instruction, h: Isa.Hart)
    requires WellFormed(i) && IsMemOp(i.op) && i.format.ROR?
    ensures FormatOf(i.op) == FMT_ROR && !i.op.JALR?
    ensures Execute(i, h) ==
            if AddressOf(i, h) + Isa.Access(i.op).0 == TWO64 then Isa.AccessFault else Isa.Execute(i, h)
  {
    hide AddressOf, Isa.Execute, Isa.Access;
  }

  /** The rest is the manual's. */
  lemma Others(cfg: Config, i: Instruction, s: State)
    requires Fits(cfg, s) && WellFormed(i) && !IsMemOp(i.op) && !IsBranch(i.op)
    requires !i.op.SRLW? && !i.op.SRLIW? && !i.op.LUI? && !i.op.AUIPC? && !i.op.JAL? && !i.op.JALR?
    ensures Execute(i, Abs(cfg, s)) == Isa.Execute(i, Abs(cfg, s)) && !Deviates(cfg, i, s)
  {
    hide Isa.Execute, Abs;
  }

  // ------------------------------------------------------------------ every step

  /** An instruction with the emulator's environment, which resumes after system call 23 and no other. */
  function Resume(i: Instruction, h: Isa.Hart): Isa.Outcome
    requires WellFormed(i)
  {
    var o := Execute(i, h);
    if o.EnvironmentCall? && Nat(Isa.ReadX(h.x, 17)) == 23 then Isa.Retired(h.(pc := U64(h.pc + 4))) else o
  }

  lemma SystemCall(cfg: Config, i: Instruction, s: State)
    requires Normal(cfg, s) && WellFormed(i) && i.op.ECALL?
    ensures Resume(i, Abs(cfg, s)) ==
            if Get(s.regs, 17) == 23 then Isa.Retired(Abs(cfg, s.(pc := s.pc + 4))) else Isa.EnvironmentCall
  {
    hide AbsRegs, AbsMem, ToBits, Get, U64, Isa.ReadX, Nat;
    NextInstruction(s);
    AbsRead(s.regs, 17);
    NatOf64(Get(s.regs, 17));
  }

  lemma NoSystemCall(i: Instruction, h: Isa.Hart)
    requires WellFormed(i) && !i.op.ECALL?
    ensures Resume(i, h) == Execute(i, h)
  {
    hide Isa.Execute, Isa.WriteX, Isa.ReadX, ToBits, Nat, U64, Isa.Access, Isa.Taken, Isa.IndirectTarget, Upper,
         Isa.Srl, Isa.ShamtW, AddressOf, Amount;
    OnlyEcallCalls(i, h);
  }

  lemma InstructionOnBits(p: Program, s: State)
    requires Normal(p.cfg, s) && InRange(p.cfg, s.pc) && !Fetch(p, s).op.ECALL?
    ensures Execute(Fetch(p, s), Abs(p.cfg, s))
            == if Cause(p, s).None? then Isa.Retired(Abs(p.cfg, Completed(p, s))) else Isa.AccessFault
  {
    hide Perform, AluValue, FlowOps, Isa.Execute, Execute, AbsRegs, AbsMem, Get, Set, Shl, U64, Accessible, Operand2,
         Fetch, Deviates, EffectiveAddress, IsAlu, IsMemOp, IsFlowOp, IsBranch, WellFormed;
    var i := Fetch(p, s);
    Classes(i.op);
    FormatsFit(i);
    NextInstruction(s);
    if IsMemOp(i.op) {
      Memory(p.cfg, i, s);
    } else if i.op.SRLW? || i.op.SRLIW? {
      WordShift(p.cfg, i, s);
    } else if i.op.LUI? {
      UpperResult(p.cfg, i, s, U64(Shl(i.format.imm, 12)));
    } else if i.op.AUIPC? {
      UpperResult(p.cfg, i, s, U64(s.pc + Shl(U64(i.format.imm), 12)));
      AuipcState(i, s);
    } else if i.op.JAL? || i.op.JALR? || IsBranch(i.op) {
      Transfer(p.cfg, i, s);
    } else {
      Others(p.cfg, i, s);
      InstructionRefines(p, s);
    }
  }

  lemma AuipcState(i: Instruction, s: State)
    requires WellFormed(i) && i.op.AUIPC? && i.format.RI? && s.pc < TWO32
    ensures FlowOps(i, s).s ==
            s.(regs := Set(s.regs, i.format.rd, U64(s.pc + Shl(U64(i.format.imm), 12))), pc := s.pc + 4)
  {
    hide Set, Shl, U64;
  }

  /** The emulator's step at a visible PC, whatever the instruction and whether or not one starts there:
      on bits it is this instruction set's, next state or exception. */
  lemma StepOnBits(p: Program, s: State)
    requires Normal(p.cfg, s)
    ensures Image(p.cfg, Step(p, s)) ==
            if !InRange(p.cfg, s.pc) then Isa.InstructionFault
            else Resume(p.instrs[(s.pc - p.cfg.instrLower) / 4], Abs(p.cfg, s))
  {
    hide Step, Perform, Resume, Execute, AbsRegs, AbsMem, Get, Accessible, Fetch, AluValue, FlowOps, EffectiveAddress;
    StepIsOwners(p, s);
    NextInstruction(s);
    if InRange(p.cfg, s.pc) {
      FetchBacked(p, s);
      var i := Fetch(p, s);
      if i.op.ECALL? {
        Classes(ECALL);
        SystemCall(p.cfg, i, s);
      } else {
        FormatsFit(i);
        InstructionOnBits(p, s);
        NoSystemCall(i, Abs(p.cfg, s));
      }
    }
  }

  /** At a stored PC above 32 bits the step is that at its low half. */
  lemma StepOnLowHalf(p: Program, s: State)
    requires Fits(p.cfg, s)
    ensures Step(p, s) ==
            match Step(p, s.(pc := s.pc % TWO32))
            case Next(t) => Next(t)
            case Fault(_, e) => Fault(s, e)
  {
    hide Step, Accessible, AluValue, FlowRegs, NextPc, OperandsOf, Load, Store, AfterAccess, Extend, Shl, U64, IsAlu,
         IsStore, IsLoad, IsFlowOp, InstructionAt, FetchOffset, EffectiveAddress, Operand2;
    var t := s.(pc := s.pc % TWO32);
    assert VisiblePc(t) == VisiblePc(s);
    assert Fetch(p, t) == Fetch(p, s) && Cause(p, t) == Cause(p, s);
    FormatsFit(Fetch(p, s));
    Classes(Fetch(p, s).op);
    StepIsOwners(p, s);
    StepIsOwners(p, t);
  }

  /** The cache sees the address of each load and store that retires, and no other. */
  lemma AccessOnBits(p: Program, s: State)
    requires Normal(p.cfg, s)
    ensures Accessed(p, s) ==
            if !InRange(p.cfg, s.pc) then None
            else
              var i := p.instrs[(s.pc - p.cfg.instrLower) / 4];
              if IsMemOp(i.op) && Resume(i, Abs(p.cfg, s)).Retired? then Some(AddressOf(i, Abs(p.cfg, s))) else None
  {
    hide Step, Perform, Resume, Execute, AbsRegs, AbsMem, Get, Accessible, Fetch, AluValue, FlowOps, EffectiveAddress,
         AddressOf;
    StepOnBits(p, s);
    StepIsOwners(p, s);
    NextInstruction(s);
    if InRange(p.cfg, s.pc) {
      FetchBacked(p, s);
      var i := Fetch(p, s);
      FormatsFit(i);
      if IsMemOp(i.op) {
        Memory(p.cfg, i, s);
      }
    }
  }
}
