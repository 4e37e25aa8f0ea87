/** The processor object and the methods that emulate it, each proved against Machine. */
module Processors {
  import opened Options
  import opened Words
  import opened Instructions
  import opened RegisterFile
  import opened MemoryModel
  import opened CacheModel
  import opened Machine
  import opened Steps

  /** `__builtin_add_overflow` on `unsigned long` */
  method AddOverflow(a: u64, b: u64) returns (overflow: bool, sum: u64)
    ensures overflow <==> a + b >= TWO64
    ensures sum == if overflow then a + b - TWO64 else a + b
  {
    return a + b >= TWO64, U64(a + b);
  }

  /** Kind, direction, width and signedness of a memory operation. */
  method Classify(op: Opcode) returns (isMemoryOp: bool, isStore: bool, isSignedLoad: bool, accessSize: nat)
    ensures isMemoryOp == IsMemOp(op)
    ensures isMemoryOp ==> isStore == IsStore(op) && isSignedLoad == IsSignedLoad(op) && accessSize == Width(op)
  {
    isMemoryOp, isStore, isSignedLoad, accessSize := true, false, false, 0;
    match op {
      case SB => accessSize, isStore := 1, true;
      case SH => accessSize, isStore := 2, true;
      case SW => accessSize, isStore := 4, true;
      case SD => accessSize, isStore := 8, true;
      case LB => accessSize, isSignedLoad := 1, true;
      case LH => accessSize, isSignedLoad := 2, true;
      case LW => accessSize, isSignedLoad := 4, true;
      case LD => accessSize := 8;
      case LBU => accessSize := 1;
      case LHU => accessSize := 2;
      case LWU => accessSize := 4;
      case _ => isMemoryOp := false;
    }
  }

  /** The six comparisons of branches. */
  method Compare(op: Opcode, a: u64, b: u64) returns (taken: bool)
    ensures taken == BranchTaken(op, a, b)
  {
    hide S64;
    taken := false;
    match op {
      case BEQ => if a == b { taken := true; }
      case BNE => if a != b { taken := true; }
      case BLT => if S64(a) < S64(b) { taken := true; }
      case BGE => if S64(a) >= S64(b) { taken := true; }
      case BLTU => if a < b { taken := true; }
      case BGEU => if a >= b { taken := true; }
      case _ =>
    }
  }

  /** The value for the destination register, if there is one. */
  method Compute(op: Opcode, currentPc: u32, o: Operands) returns (result: Option<u64>)
    ensures result == FlowResult(op, currentPc, o)
  {
    hide U64, S64, Shl;
    result := None;
    match op {
      case SLT => result := Some(if S64(o.a) < S64(o.b) then 1 else 0);
      case SLTU => result := Some(if o.a < o.b then 1 else 0);
      case SLTI => result := Some(if S64(o.a) < o.imm then 1 else 0);
      case SLTIU => result := Some(if o.a < U64(o.imm) then 1 else 0);
      case JAL | JALR => result := Some((currentPc as int) + 4);
      case AUIPC => result := Some(U64(currentPc + Shl(U64(o.imm), 12)));
      case _ =>
    }
  }

  /** The next PC: of the following instruction unless a branch is taken or a jump made. */
  method Target(op: Opcode, currentPc: u32, o: Operands) returns (nextPc: u64)
    ensures nextPc == NextPc(op, currentPc, o)
  {
    hide U64, ClearBit0, BranchTaken;
    nextPc := (currentPc as int) + 4;
    match op {
      case JAL => nextPc := U64(currentPc + o.imm);
      case JALR => nextPc := ClearBit0(U64(o.a + o.imm));
      case _ =>
        var taken := Compare(op, o.a, o.b);
        if taken {
          nextPc := U64(currentPc + o.imm);
        }
    }
  }

  class Processor {
    const program: Program
    const cfg: Config := program.cfg
    const rs: Registers
    const mem: Memory
    const cache: Cache

    ghost predicate Valid()
    {
      && rs.Valid() && mem.Valid() && cache.Valid()
      && mem.size == cfg.memorySz
      && (mem.ram != null ==> mem.ram as object != rs.regs)
      && cache.lines as object != rs.regs
      && (mem.ram != null ==> cache.lines as object != mem.ram)
    }

    ghost function Now(): State
      requires Valid()
      reads rs, rs.regs, mem.ram, cache, cache.lines
    {
      State(rs.regs[..], rs.pc, mem.Contents(), cache.Contents())
    }

    /** `processor_alloc`, with the freshly allocated parts of src/main.c. */
    constructor (program: Program, cacheSets: u64)
      requires cacheSets > 0
      ensures Valid() && this.program == program
      ensures fresh(rs) && fresh(rs.regs) && (mem.ram != null ==> fresh(mem.ram)) && fresh(cache) && fresh(cache.lines)
      ensures Now() == Reset(program.cfg, cacheSets)
      ensures rs.pc == program.cfg.entryAddress && forall r :: 0 <= r < 32 ==> rs.regs[r] == 0
      ensures mem.size == program.cfg.memorySz && forall k :: 0 <= k < mem.size ==> mem.Contents()[k] == 0
      ensures cache.lines.Length == cacheSets && forall k :: 0 <= k < cacheSets ==> !cache.lines[k].valid
      ensures cache.numAccesses == 0 && cache.numMisses == 0
    {
      this.program := program;
      rs := new Registers(program.cfg.entryAddress);
      mem := new Memory(program.cfg.memorySz);
      cache := new Cache(cacheSets);
    }

    method RegOps(i: Instruction) returns (ret: int, e: Option<Exception>)
      requires Valid() && WellFormed(i)
      modifies rs, rs.regs
      ensures Handled(ret, e, Now()) == Machine.RegOps(cfg, i, old(Now()))
      ensures rs.pcWrites == old(rs.pcWrites) + (if ret >= 0 && IsRegOp(i.op) then 1 else 0)
    {
      hide AluValue, ImmediateValue, U64, Shl;
      var pc := rs.GetPc();
      if pc < cfg.instrLower || pc >= cfg.instrUpper {
        return -1, Some(InstructionException);
      }
      if IsAlu(i.op) {
        var a := rs.GetReg(i.format.rs1);
        if i.format.RRR? {
          var b := rs.GetReg(i.format.rs2);
          rs.SetReg(i.format.rd, AluValue(i.op, a, b));
        } else {
          ImmediateIsOperand(i.op, a, i.format.imm);
          rs.SetReg(i.format.rd, ImmediateValue(i.op, a, i.format.imm));
        }
      } else if i.op.LUI? {
        rs.SetReg(i.format.rd, U64(Shl(i.format.imm, 12)));
      } else if i.op.ECALL? {
        var syscall := rs.GetReg(17);
        if syscall == 23 {
          rs.SetPc(pc + 4);
          return 1, None;
        } else if syscall == 2 {
          return -1, Some(ExitException);
        } else {
          return -1, Some(UnknownSyscallException);
        }
      } else {
        return 1, None;
      }
      rs.SetPc(pc + 4);
      return 0, None;
    }

    /** The access itself, once its address passed the bounds test. */
    method LoadOrStore(i: Instruction, addr: u64, accessSize: nat, isStore: bool, isSignedLoad: bool)
      requires Valid() && IsMemOp(i.op) && i.format.ROR?
      requires addr == EffectiveAddress(rs.regs[..], i.format) && Accessible(cfg, addr, accessSize)
      requires accessSize == Width(i.op) && isStore == IsStore(i.op) && isSignedLoad == IsSignedLoad(i.op)
      modifies rs, rs.regs, mem.ram, cache, cache.lines
      ensures Now() == Perform(cfg, i, old(Now()))
      ensures rs.pcWrites == old(rs.pcWrites) + 1
    {
      hide Load, Store, AfterAccess, Extend, U64;
      var currentPc := rs.GetPc();
      var nextPc := (currentPc as int) + 4;
      cache.Access(addr);
      var ramIndex := addr - cfg.instrUpper;
      assert ramIndex < mem.size && ramIndex + accessSize <= mem.size;  // the assertion of the source
      if isStore {
        var value := rs.GetReg(i.format.r2);
        mem.Write(ramIndex, accessSize, value);
      } else {
        var value := mem.Read(ramIndex, accessSize);
        if i.format.r2 == 0 {
          rs.SetPc(nextPc);
          return;
        }
        rs.SetReg(i.format.r2, Extend(value, accessSize, isSignedLoad));
      }
      rs.SetPc(nextPc);
    }

    method MemOps(i: Instruction) returns (ret: int, e: Option<Exception>)
      requires Valid()
      modifies rs, rs.regs, mem.ram, cache, cache.lines
      ensures Handled(ret, e, Now()) == Machine.MemOps(cfg, i, old(Now()))
      ensures rs.pcWrites == old(rs.pcWrites) + (if ret >= 0 && IsMemOp(i.op) then 1 else 0)
    {
      hide Perform, IsMemOp, IsStore, IsLoad, IsSignedLoad, Width, U64;
      var isMemoryOp, isStore, isSignedLoad, accessSize := Classify(i.op);
      if !isMemoryOp {
        return 0, None;
      }
      if mem.ram == null {
        return -1, Some(MemoryException);
      }
      if i.format.Tag() != FMT_ROR {
        return -1, Some(InstructionException);
      }
      var base := rs.GetReg(i.format.r1);
      var effectiveAddr := U64(base + i.format.offset);

      var minValidAddr := cfg.instrUpper;
      var configOverflow, maxValidAddr := AddOverflow(cfg.instrUpper, cfg.memorySz);
      if configOverflow {
        maxValidAddr := TWO64 - 1;
      }
      var accessOverflow, accessEndAddr := AddOverflow(effectiveAddr, accessSize);
      if accessOverflow || effectiveAddr < minValidAddr || accessEndAddr > maxValidAddr {
        return -1, Some(MemoryException);
      }
      LoadOrStore(i, effectiveAddr, accessSize, isStore, isSignedLoad);
      return 0, None;
    }

    /** The operands of a control flow operation, fetched by format. */
    method FetchOperands(i: Instruction) returns (o: Operands)
      requires Valid() && !i.format.Ecall?
      ensures o == OperandsOf(i, rs.regs[..])
    {
      var rd: u32, a: u64, b: u64, imm: s64 := 0, 0, 0, 0;
      match i.format {
        case RRR(d, rs1, rs2) =>
          rd := d;
          a := rs.GetReg(rs1);
          b := rs.GetReg(rs2);
        case RRI(d, rs1, offset) =>
          imm := offset;
          var rs1Idx: u32, rs2Idx: u32;
          if IsBranch(i.op) {
            rs1Idx, rs2Idx, rd := d, rs1, 99;
          } else {
            rs1Idx, rs2Idx, rd := rs1, 99, d;
          }
          a := rs.GetReg(rs1Idx);
          if rs2Idx != 99 {
            b := rs.GetReg(rs2Idx);
          }
        case RI(d, offset) =>
          rd, imm := d, offset;
        case ROR(r2, r1, offset) =>
          rd, imm := r2, offset;
          a := rs.GetReg(r1);
        case Ecall =>
      }
      return Operands(rd, a, b, imm);
    }

    method FlowOps(i: Instruction) returns (ret: int, e: Option<Exception>)
      requires Valid()
      modifies rs, rs.regs
      ensures Handled(ret, e, Now()) == Machine.FlowOps(i, old(Now()))
      ensures rs.pcWrites == old(rs.pcWrites) + (if ret >= 0 && IsFlowOp(i.op) then 1 else 0)
    {
      if !IsFlowOp(i.op) {
        return 0, None;
      }
      if i.format.Ecall? {
        return -1, None;
      }
      var currentPc := rs.GetPc();
      var o := FetchOperands(i);
      var result := Compute(i.op, currentPc, o);
      var nextPc := Target(i.op, currentPc, o);
      if result.Some? && o.rd != 0 {
        rs.SetReg(o.rd, result.value);
      }
      rs.SetPc(nextPc);
      return 0, None;
    }

    /** One turn of the loop of `processor_emulate`. */
    method Turn() returns (ret: int, e: Option<Exception>)
      requires Valid()
      modifies rs, rs.regs, mem.ram, cache, cache.lines
      ensures Fits(cfg, old(Now()))
      ensures Step(program, old(Now())) == if ret < 0 then Fault(Now(), e) else Next(Now())
      ensures rs.pcWrites == old(rs.pcWrites) + (if ret < 0 then 0 else 1)
    {
      hide Machine.RegOps, Machine.MemOps, Machine.FlowOps, IsRegOp, IsMemOp, IsFlowOp;
      var pc := rs.GetPc();
      var offset := U64(pc - cfg.instrLower) / 4;
      var i := InstructionAt(program, offset);
      OneOwner(i.op);
      ret, e := RegOps(i);
      if ret >= 0 {
        OthersPass(cfg, i, Now());
        ret, e := MemOps(i);
        if ret >= 0 {
          OthersPass(cfg, i, Now());
          ret, e := FlowOps(i);
        }
      }
    }

    /** `processor_emulate`, for at most `fuel` turns of its loop. */
    method Emulate(fuel: nat) returns (outcome: Outcome)
      requires Valid()
      modifies rs, rs.regs, mem.ram, cache, cache.lines
      ensures Fits(cfg, old(Now()))
      ensures RunResult(Now(), outcome) == Run(program, old(Now()), fuel)
    {
      hide Step;
      var turns := 0;
      while turns < fuel
        invariant turns <= fuel
        invariant Fits(cfg, Now()) && Fits(cfg, old(Now()))
        invariant Run(program, old(Now()), fuel) == Run(program, Now(), fuel - turns)
      {
        var ret, e := Turn();
        if ret < 0 {
          return Stopped(e);
        }
        turns := turns + 1;
      }
      return StillRunning;
    }
  }
}
