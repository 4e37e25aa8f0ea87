/** What one step does, stated handler by handler: ownership, precise exceptions, and which
    parts of the state can change. */
module Steps {
  import opened Options
  import opened Words
  import opened Instructions
  import opened RegisterFile
  import opened MemoryModel
  import opened CacheModel
  import opened Machine

  /** Every opcode belongs to exactly one of the three handlers. */
  lemma OneOwner(op: Opcode)
    ensures IsRegOp(op) || IsMemOp(op) || IsFlowOp(op)
    ensures !(IsRegOp(op) && IsMemOp(op)) && !(IsRegOp(op) && IsFlowOp(op)) && !(IsMemOp(op) && IsFlowOp(op))
  {
  }

  /** The classes of each opcode, for proofs that keep their definitions out of sight. */
  lemma Classes(op: Opcode)
    ensures match op
            case ECALL | LUI =>
              IsRegOp(op) && !IsAlu(op) && !IsMemOp(op) && !IsStore(op) && !IsFlowOp(op) && !IsBranch(op)
            case SB | SH | SW | SD =>
              IsMemOp(op) && IsStore(op) && !IsAlu(op) && !IsRegOp(op) && !IsFlowOp(op) && !IsBranch(op)
            case LB | LH | LW | LD | LBU | LHU | LWU =>
              IsMemOp(op) && !IsStore(op) && !IsAlu(op) && !IsRegOp(op) && !IsFlowOp(op) && !IsBranch(op)
            case BEQ | BNE | BLT | BGE | BLTU | BGEU =>
              IsFlowOp(op) && IsBranch(op) && !IsAlu(op) && !IsRegOp(op) && !IsMemOp(op) && !IsStore(op)
            case SLT | SLTU | SLTI | SLTIU | JAL | JALR | AUIPC =>
              IsFlowOp(op) && !IsBranch(op) && !IsAlu(op) && !IsRegOp(op) && !IsMemOp(op) && !IsStore(op)
            case _ =>
              IsRegOp(op) && IsAlu(op) && !IsMemOp(op) && !IsStore(op) && !IsFlowOp(op) && !IsBranch(op)
  {
  }

  /** The formats of the table fit the handlers: register operations find their operands, memory
      operations theirs, and the fallback branch of control flow is unreachable. */
  lemma FormatsFit(i: Instruction)
    requires WellFormed(i)
    ensures IsAlu(i.op) ==> i.format.RRR? || i.format.RRI?
    ensures IsMemOp(i.op) ==> i.format.ROR?
    ensures IsFlowOp(i.op) ==> !i.format.Ecall?
    ensures IsBranch(i.op) ==> i.format.RRI?
    ensures i.op.JAL? || i.op.AUIPC? || i.op.LUI? ==> i.format.RI?
    ensures i.op.JALR? ==> i.format.ROR?
  {
  }

  /** Why a step would not complete; `None` when it does. */
  function Cause(p: Program, s: State): Option<Exception>
  {
    var i := Fetch(p, s);
    if !InRange(p.cfg, VisiblePc(s)) then Some(InstructionException)
    else if i.op.ECALL? then
      if Get(s.regs, 17) == 23 then None
      else if Get(s.regs, 17) == 2 then Some(ExitException)
      else Some(UnknownSyscallException)
    else if IsMemOp(i.op) && !Accessible(p.cfg, EffectiveAddress(s.regs, i.format), Width(i.op)) then
      Some(MemoryException)
    else None
  }

  /** The state after a step that completes, by the owner of its instruction. */
  function Completed(p: Program, s: State): State
    requires Fits(p.cfg, s) && Cause(p, s).None?
  {
    var i := Fetch(p, s);
    if IsMemOp(i.op) then Perform(p.cfg, i, s)
    else if IsRegOp(i.op) then RegOps(p.cfg, i, s).s
    else FlowOps(i, s).s
  }

  lemma EmptyRamInaccessible(cfg: Config, addr: u64, w: nat)
    requires cfg.memorySz == 0 && w > 0
    ensures !Accessible(cfg, addr, w)
  {
  }

  /** The sequence of handlers is the owner alone, and exceptions are precise: a step that does not
      complete leaves every part of the state as it was and reports its cause. */
  lemma StepIsOwners(p: Program, s: State)
    requires Fits(p.cfg, s)
    ensures Step(p, s) == if Cause(p, s).Some? then Fault(s, Cause(p, s)) else Next(Completed(p, s))
  {
    hide Perform, Accessible, AluValue, Fetch, FlowRegs, NextPc, OperandsOf, IsAlu, IsMemOp, IsFlowOp, Shl, U64;
    var i := Fetch(p, s);
    Classes(i.op);
    FormatsFit(i);
    if IsMemOp(i.op) && p.cfg.memorySz == 0 {
      EmptyRamInaccessible(p.cfg, EffectiveAddress(s.regs, i.format), Width(i.op));
    }
  }

  /** What handlers return for instructions they do not own. */
  lemma OthersPass(cfg: Config, i: Instruction, s: State)
    requires Fits(cfg, s)
    ensures WellFormed(i) && InRange(cfg, VisiblePc(s)) && !IsRegOp(i.op) ==> RegOps(cfg, i, s) == Handled(1, None, s)
    ensures !IsMemOp(i.op) ==> MemOps(cfg, i, s) == Handled(0, None, s)
    ensures !IsFlowOp(i.op) ==> FlowOps(i, s) == Handled(0, None, s)
  {
    hide IsMemOp, IsFlowOp;
  }

  /** Each handler is precise by itself: when it returns -1 it leaves the state as it was and, for the
      instructions the parser produces, has set the exception; control flow then never fails. */
  lemma HandlersPrecise(cfg: Config, i: Instruction, s: State)
    requires Fits(cfg, s) && WellFormed(i)
    ensures RegOps(cfg, i, s).ret < 0 ==> RegOps(cfg, i, s).s == s && RegOps(cfg, i, s).e.Some?
    ensures MemOps(cfg, i, s).ret < 0 ==> MemOps(cfg, i, s) == Handled(-1, Some(MemoryException), s)
    ensures FlowOps(i, s).ret == 0
  {
    hide Perform, Accessible, AluValue, FlowRegs, NextPc, OperandsOf, IsAlu, IsMemOp, IsFlowOp, WellFormed, Get,
         Set, U64;
    FormatsFit(i);
  }

  /** The system call numbers: 23 resumes behind the ECALL and changes nothing else, 2 exits, no other
      is known. */
  lemma SystemCalls(p: Program, s: State)
    requires Fits(p.cfg, s) && InRange(p.cfg, VisiblePc(s)) && Fetch(p, s).op.ECALL?
    ensures Get(s.regs, 17) == 23 ==> Step(p, s) == Next(s.(pc := VisiblePc(s) + 4))
    ensures Get(s.regs, 17) == 2 ==> Step(p, s) == Fault(s, Some(ExitException))
    ensures Get(s.regs, 17) !in {2, 23} ==> Step(p, s) == Fault(s, Some(UnknownSyscallException))
  {
    hide Step, Fetch, Get, Perform, FlowOps;
    Classes(ECALL);
    StepIsOwners(p, s);
  }

  /** The register an instruction may write; 0 when it writes none. */
  function Destination(i: Instruction): u32
  {
    match i.format
    case RRR(rd, _, _) => rd
    case RRI(rd, _, _) => if IsBranch(i.op) then 0 else rd
    case RI(rd, _) => rd
    case ROR(r2, _, _) => if IsStore(i.op) then 0 else r2
    case Ecall => 0
  }

  /** At most the destination register changes, and never x0. */
  lemma OneRegisterWritten(p: Program, s: State, r: u32)
    requires Fits(p.cfg, s) && Cause(p, s).None?
    requires r == 0 || r != Destination(Fetch(p, s))
    ensures Get(Completed(p, s).regs, r) == Get(s.regs, r)
  {
    hide Accessible, AluValue, Fetch, FlowResult, NextPc, OperandsOf, Load, Store, AfterAccess, Extend, Shl, U64, Cause,
         IsAlu, IsFlowOp, IsStore, IsLoad, IsBranch, WellFormed, Operand2;
    var i := Fetch(p, s);
    FormatsFit(i);
    Classes(i.op);
    if IsFlowOp(i.op) {
      FlowDestination(i, VisiblePc(s), s.regs);
    }
  }

  lemma NotTaken(op: Opcode)
    requires !IsBranch(op)
    ensures forall a, b :: !BranchTaken(op, a, b)
  {
  }

  lemma FlowDestination(i: Instruction, pc: u32, r: Regs)
    requires WellFormed(i) && IsFlowOp(i.op)
    ensures !i.format.Ecall?
    ensures FlowResult(i.op, pc, OperandsOf(i, r)).Some? ==> OperandsOf(i, r).rd == Destination(i)
    ensures FlowResult(i.op, pc, OperandsOf(i, r)).None? ==> IsBranch(i.op)
  {
    hide S64, U64, Shl, Get;
  }
}
