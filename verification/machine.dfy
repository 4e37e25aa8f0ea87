/** The emulated processor as a state machine on values: what each of the three handlers of
    src/registers.c, src/memory.c and src/control_flow.c does to the state, and the step of
    src/processor.c that calls them in turn. */
module Machine {
  import opened Options
  import opened Words
  import opened Division
  import opened Instructions
  import opened RegisterFile
  import opened MemoryModel
  import opened CacheModel

  /** The part of `struct configuration` that execution depends on. */
  datatype Config = Config(instrLower: u64, instrUpper: u64, entryAddress: u64, memorySz: u64)

  datatype ProgramData = ProgramData(cfg: Config, instrs: seq<Instruction>)
  {
    /** Parsed instructions, as many as the header announces and an `int` can count. */
    predicate Valid() {
      && (forall i :: 0 <= i < |instrs| ==> WellFormed(instrs[i]))
      && cfg.instrUpper - cfg.instrLower <= 4 * |instrs|
      && |instrs| < TWO31
    }
  }

  type Program = p: ProgramData | p.Valid() witness ProgramData(Config(0, 0, 0, 0), [])

  datatype State = State(regs: Regs, pc: u64, ram: seq<u8>, cache: CacheState)

  datatype Exception = InstructionException | MemoryException | ExitException | UnknownSyscallException

  /** Outcome of a handler: its return value, the exception written to `e` if any, the state it leaves. */
  datatype Handled = Handled(ret: int, e: Option<Exception>, s: State)

  /** RAM of the configured size, and a cache. */
  predicate Fits(cfg: Config, s: State) {
    |s.ram| == cfg.memorySz && |s.cache.lines| > 0
  }

  /** The state a run starts from: everything zero, the PC at the entry address, a cold cache. */
  function Reset(cfg: Config, cacheSets: nat): (s: State)
    requires cacheSets > 0
    ensures Fits(cfg, s)
  {
    State(seq(32, _ => 0), cfg.entryAddress, seq(cfg.memorySz, _ => 0), Fresh(cacheSets))
  }

  /** `registers_getpc` */
  function VisiblePc(s: State): u32 { U32(s.pc) }

  predicate InRange(cfg: Config, pc: u64) { cfg.instrLower <= pc < cfg.instrUpper }

  // ------------------------------------------------------------------ register operations

  predicate IsAlu(op: Opcode) {
    match op
    case ADD | ADDI | SUB | OR | ORI | AND | ANDI | XOR | XORI | SLL | SLLI | SRL | SRLI | SRA | SRAI | ADDW
      | ADDIW | SUBW | SLLW | SLLIW | SRLW | SRLIW | SRAW | SRAIW => true
    case _ => false
  }

  predicate IsRegOp(op: Opcode) { IsAlu(op) || op.LUI? || op.ECALL? }

  /** The second operand: a register, or the immediate converted to `unsigned long`. */
  function Operand2(r: Regs, f: Format): u64
    requires f.RRR? || f.RRI?
  {
    if f.RRR? then Get(r, f.rs2) else U64(f.imm)
  }

  /** The 64-bit value computed from two 64-bit operands. */
  function AluValue(op: Opcode, a: u64, b: u64): u64
    requires IsAlu(op)
  {
    match op
    case ADD | ADDI => U64(a + b)
    case SUB => U64(a - b)
    case OR | ORI => Or64(a, b)
    case AND | ANDI => And64(a, b)
    case XOR | XORI => Xor64(a, b)
    case SLL | SLLI => U64(Shl(a, b % 64))
    case SRL | SRLI => U64(Shr(a, b % 64))
    case SRA | SRAI => U64(Shr(S64(a), b % 64))
    case ADDW | ADDIW => U64(S32(S32(a) + S32(b)))
    case SUBW => U64(S32(S32(a) - S32(b)))
    case SLLW | SLLIW => U64(S32(Shl(S32(a), b % 32)))
    case SRLW | SRLIW => U64(Shr(U32(a), b % 32))
    case SRAW | SRAIW => U64(Shr(S32(a), b % 32))
  }

  /** The same with the immediate as the code uses it, before any conversion. */
  function ImmediateValue(op: Opcode, a: u64, imm: s64): u64
    requires IsAlu(op) && FormatOf(op) == FMT_RRI
  {
    match op
    case ADDI => U64(a + imm)
    case ORI => Or64(a, U64(imm))
    case ANDI => And64(a, U64(imm))
    case XORI => Xor64(a, U64(imm))
    case SLLI => U64(Shl(a, imm % 64))
    case SRLI => U64(Shr(a, imm % 64))
    case SRAI => U64(Shr(S64(a), imm % 64))
    case ADDIW => U64(S32(S32(a) + S32(imm)))
    case SLLIW => U64(S32(Shl(S32(a), imm % 32)))
    case SRLIW => U64(Shr(U32(a), imm % 32))
    case SRAIW => U64(Shr(S32(a), imm % 32))
  }

  /** An immediate behaves like a register holding it: no operation sees the difference. */
  lemma ImmediateIsOperand(op: Opcode, a: u64, imm: s64)
    requires IsAlu(op) && FormatOf(op) == FMT_RRI
    ensures ImmediateValue(op, a, imm) == AluValue(op, a, U64(imm))
  {
    hide U64, S64, S32, U32, Shl, Shr, And64, Or64, Xor64;
    U64Sum(a, imm);
    ConversionsCompose(imm);
  }

  lemma ConversionsCompose(x: int)
    ensures U64(x) % 64 == x % 64 && U64(x) % 32 == x % 32
    ensures S32(U64(x)) == S32(x)
  {
    ModOfMultiple(x, 64, 0x400_0000_0000_0000);
    ModOfMultiple(x, 32, 0x800_0000_0000_0000);
    ModOfMultiple(x, TWO32, TWO32);
  }

  /** `processor_emulate_regops` */
  function RegOps(cfg: Config, i: Instruction, s: State): Handled
    requires WellFormed(i)
  {
    var pc := VisiblePc(s);
    if !InRange(cfg, pc) then Handled(-1, Some(InstructionException), s)
    else if IsAlu(i.op) then
      var v := AluValue(i.op, Get(s.regs, i.format.rs1), Operand2(s.regs, i.format));
      Handled(0, None, s.(regs := Set(s.regs, i.format.rd, v), pc := pc + 4))
    else if i.op.LUI? then
      Handled(0, None, s.(regs := Set(s.regs, i.format.rd, U64(Shl(i.format.imm, 12))), pc := pc + 4))
    else if i.op.ECALL? then
      var syscall := Get(s.regs, 17);
      if syscall == 23 then Handled(1, None, s.(pc := pc + 4))
      else if syscall == 2 then Handled(-1, Some(ExitException), s)
      else Handled(-1, Some(UnknownSyscallException), s)
    else Handled(1, None, s)
  }

  // ------------------------------------------------------------------ memory operations

  predicate IsStore(op: Opcode) {
    match op
    case SB | SH | SW | SD => true
    case _ => false
  }

  predicate IsLoad(op: Opcode) {
    match op
    case LB | LH | LW | LD | LBU | LHU | LWU => true
    case _ => false
  }

  predicate IsMemOp(op: Opcode) { IsStore(op) || IsLoad(op) }

  function Width(op: Opcode): (w: nat)
    requires IsMemOp(op)
    ensures w in {1, 2, 4, 8}
  {
    match op
    case SB | LB | LBU => 1
    case SH | LH | LHU => 2
    case SW | LW | LWU => 4
    case SD | LD => 8
  }

  predicate IsSignedLoad(op: Opcode) {
    match op
    case LB | LH | LW => true
    case _ => false
  }

  /** The end of data memory, saturated when it lies beyond the address space. */
  function MaxValidAddr(cfg: Config): u64 {
    if cfg.instrUpper + cfg.memorySz >= TWO64 then TWO64 - 1 else cfg.instrUpper + cfg.memorySz
  }

  /** The bounds test: no overflow of the end address, and both ends within data memory. */
  predicate Accessible(cfg: Config, addr: u64, w: nat) {
    addr + w < TWO64 && addr >= cfg.instrUpper && addr + w <= MaxValidAddr(cfg)
  }

  function EffectiveAddress(r: Regs, f: Format): u64
    requires f.ROR?
  {
    U64(Get(r, f.r1) + f.offset)
  }

  /** The memory and cache effect of an access that passed the bounds test. */
  function Perform(cfg: Config, i: Instruction, s: State): State
    requires Fits(cfg, s) && IsMemOp(i.op) && i.format.ROR?
    requires Accessible(cfg, EffectiveAddress(s.regs, i.format), Width(i.op))
  {
    var addr, w := EffectiveAddress(s.regs, i.format), Width(i.op);
    var index := addr - cfg.instrUpper;
    var t := s.(cache := AfterAccess(s.cache, addr), pc := VisiblePc(s) + 4);
    if IsStore(i.op) then t.(ram := Store(s.ram, index, w, Get(s.regs, i.format.r2)))
    else t.(regs := Set(s.regs, i.format.r2, Extend(Load(s.ram, index, w), w, IsSignedLoad(i.op))))
  }

  /** `processor_emulate_memops` */
  function MemOps(cfg: Config, i: Instruction, s: State): Handled
    requires Fits(cfg, s)
  {
    if !IsMemOp(i.op) then Handled(0, None, s)
    else if |s.ram| == 0 then Handled(-1, Some(MemoryException), s)
    else if !i.format.ROR? then Handled(-1, Some(InstructionException), s)
    else if !Accessible(cfg, EffectiveAddress(s.regs, i.format), Width(i.op)) then
      Handled(-1, Some(MemoryException), s)
    else Handled(0, None, Perform(cfg, i, s))
  }

  // ------------------------------------------------------------------ control flow operations

  predicate IsFlowOp(op: Opcode) {
    match op
    case SLT | SLTU | SLTI | SLTIU | JAL | JALR | AUIPC => true
    case _ => IsBranch(op)
  }

  /** Operands fetched by format; `rd` is 99 where there is no destination, absent ones are 0. */
  datatype Operands = Operands(rd: u32, a: u64, b: u64, imm: s64)

  function OperandsOf(i: Instruction, r: Regs): Operands
    requires !i.format.Ecall?
  {
    match i.format
    case RRR(rd, rs1, rs2) => Operands(rd, Get(r, rs1), Get(r, rs2), 0)
    case RRI(rd, rs1, imm) =>
      if IsBranch(i.op) then Operands(99, Get(r, rd), Get(r, rs1), imm)
      else Operands(rd, Get(r, rs1), 0, imm)
    case RI(rd, imm) => Operands(rd, 0, 0, imm)
    case ROR(r2, r1, offset) => Operands(r2, Get(r, r1), 0, offset)
  }

  predicate BranchTaken(op: Opcode, a: u64, b: u64) {
    match op
    case BEQ => a == b
    case BNE => a != b
    case BLT => S64(a) < S64(b)
    case BGE => S64(a) >= S64(b)
    case BLTU => a < b
    case BGEU => a >= b
    case _ => false
  }

  /** Clearing bit 0 the way the code does, with the mask `~1`. */
  function ClearBit0(x: u64): u64 { And64(x, TWO64 - 2) }

  function NextPc(op: Opcode, pc: u32, o: Operands): u64 {
    match op
    case JALR => ClearBit0(U64(o.a + o.imm))
    case JAL => U64(pc + o.imm)
    case _ => if BranchTaken(op, o.a, o.b) then U64(pc + o.imm) else pc + 4
  }

  /** The value a control flow operation gives its destination register, if it has one. */
  function FlowResult(op: Opcode, pc: u32, o: Operands): Option<u64> {
    match op
    case SLT => Some(if S64(o.a) < S64(o.b) then 1 else 0)
    case SLTU => Some(if o.a < o.b then 1 else 0)
    case SLTI => Some(if S64(o.a) < o.imm then 1 else 0)
    case SLTIU => Some(if o.a < U64(o.imm) then 1 else 0)
    case JAL | JALR => Some(pc + 4)
    case AUIPC => Some(U64(pc + Shl(U64(o.imm), 12)))
    case _ => None
  }

  function FlowRegs(op: Opcode, pc: u32, o: Operands, r: Regs): Regs {
    match FlowResult(op, pc, o)
    case Some(v) => Set(r, o.rd, v)
    case None => r
  }

  /** `processor_emulate_cntlflowops`; the exception is left unset in its fallback format branch. */
  function FlowOps(i: Instruction, s: State): Handled {
    if !IsFlowOp(i.op) then Handled(0, None, s)
    else if i.format.Ecall? then Handled(-1, None, s)
    else
      var o := OperandsOf(i, s.regs);
      Handled(0, None, s.(regs := FlowRegs(i.op, VisiblePc(s), o, s.regs), pc := NextPc(i.op, VisiblePc(s), o)))
  }

  // ------------------------------------------------------------------ the step and the run

  datatype StepResult = Next(s: State) | Fault(s: State, e: Option<Exception>)

  /** The instruction at an offset; what the pointer past the program's end designates is irrelevant. */
  function InstructionAt(p: Program, offset: nat): (i: Instruction)
    ensures WellFormed(i)
  {
    if offset < |p.instrs| then p.instrs[offset] else Instruction(ECALL, 0, Ecall)
  }

  function FetchOffset(cfg: Config, pc: u64): nat { U64(pc - cfg.instrLower) / 4 }

  function Fetch(p: Program, s: State): (i: Instruction)
    ensures WellFormed(i)
  {
    InstructionAt(p, FetchOffset(p.cfg, VisiblePc(s)))
  }

  /** One turn of the loop of `processor_emulate`: the handlers in sequence, until one fails. */
  function Step(p: Program, s: State): (r: StepResult)
    requires Fits(p.cfg, s)
    ensures Fits(p.cfg, r.s)
  {
    var i := Fetch(p, s);
    var h1 := RegOps(p.cfg, i, s);
    if h1.ret < 0 then Fault(h1.s, h1.e)
    else
      var h2 := MemOps(p.cfg, i, h1.s);
      if h2.ret < 0 then Fault(h2.s, h2.e)
      else
        var h3 := FlowOps(i, h2.s);
        if h3.ret < 0 then Fault(h3.s, h3.e) else Next(h3.s)
  }

  datatype Outcome = StillRunning | Stopped(e: Option<Exception>)

  datatype RunResult = RunResult(s: State, outcome: Outcome)

  /** At most `n` steps. */
  function Run(p: Program, s: State, n: nat): (r: RunResult)
    requires Fits(p.cfg, s)
    ensures Fits(p.cfg, r.s)
    decreases n
  {
    if n == 0 then RunResult(s, StillRunning)
    else
      match Step(p, s)
      case Next(t) => Run(p, t, n - 1)
      case Fault(t, e) => RunResult(t, Stopped(e))
  }
}
