/** Each way of deviating from the manual happens: parsed programs and, for each, a state it reaches
    from reset in which the emulator's step is not the hart's. */
module Deviations {
  import opened Options
  import opened Words
  import opened Bits
  import opened Instructions
  import opened RegisterFile
  import opened Machine
  import opened Steps
  import opened Control
  import opened AluRefinement
  import opened Refinement
  import opened Parsing
  import opened RoundTrip
  import Isa

  /** Some instructions at address 0 and data memory of a size behind them. */
  function CodeAtZero(count: nat, memorySz: u64): Config
    requires count < TWO31
  {
    Config(0, 4 * count, 0, memorySz)
  }

  /** A text whose parsed program reaches, in `n` steps from reset, a state whose step is not the manual's. */
  ghost predicate Shows(p: Program, n: nat) {
    var s := Run(p, Reset(p.cfg, 1), n).s;
    && Parse(HeaderText(p.cfg) + "\n" + ProgramText(p.instrs)) == Parsed(p.cfg, p.instrs)
    && Run(p, Reset(p.cfg, 1), n).outcome.StillRunning?
    && HartStep(p, Abs(p.cfg, s)) != Image(p.cfg, Step(p, s))
  }

  /** One instruction as a program. */
  function Single(op: Opcode, f: Format, memorySz: u64): (p: Program)
    requires WellFormed(Instruction(op, 0, f))
  {
    ProgramData(CodeAtZero(1, memorySz), [Instruction(op, 0, f)])
  }

  lemma SingleAtReset(op: Opcode, f: Format, memorySz: u64)
    requires WellFormed(Instruction(op, 0, f))
    ensures var p := Single(op, f, memorySz);
            var s := Reset(p.cfg, 1);
            && s.pc == 0 && (forall r: u32 :: Get(s.regs, r) == 0) && Fetch(p, s) == Instruction(op, 0, f)
            && InRange(p.cfg, VisiblePc(s)) && Normal(p.cfg, s)
            && (!op.ECALL? ==> HartStep(p, Abs(p.cfg, s)) == Isa.Execute(Instruction(op, 0, f), Abs(p.cfg, s)))
            && (Deviates(p.cfg, Instruction(op, 0, f), s) ==> Shows(p, 0))
  {
    hide HeaderText, ProgramText, Parse, Deviates, Step, HartStep, Isa.Execute, AbsRegs, AbsMem;
    var p := Single(op, f, memorySz);
    HartExecutes(p, Abs(p.cfg, Reset(p.cfg, 1)));
    assert Laid(p.instrs, 0);
    ParseBuilt(p.cfg, p.instrs);
    StepRefinesIsa(p, Reset(p.cfg, 1));
  }

  lemma HartExecutes(p: Program, h: Isa.Hart)
    requires CodeAt(p, h.pc)
    ensures var i := p.instrs[(h.pc - p.cfg.instrLower) / 4];
            !i.op.ECALL? ==> HartStep(p, h) == Isa.Execute(i, h)
  {
    hide Isa.Execute, Isa.ReadX, Nat;
    var i := p.instrs[(h.pc - p.cfg.instrLower) / 4];
    if !i.op.ECALL? {
      OnlyEcallCalls(i, h);
    }
  }

  /** `jal x0,2` goes to 2, where the manual has a misaligned target. */
  lemma MisalignedJump()
    ensures var p := Single(JAL, RI(0, 2), 0);
            var s := Reset(p.cfg, 1);
            Shows(p, 0) && Step(p, s) == Next(s.(pc := 2)) && HartStep(p, Abs(p.cfg, s)) == Isa.TargetMisaligned
  {
    hide Shows, Parse, Step, HartStep, AbsRegs, AbsMem, Get, ToBits, Nat, Isa.ReadX, Isa.WriteX;
    var p := Single(JAL, RI(0, 2), 0);
    SingleAtReset(JAL, RI(0, 2), 0);
    var s := Reset(p.cfg, 1);
    JalStep(p, s);
    assert Shows(p, 0);
    assert Step(p, s) == Next(s.(pc := 2));
    assert Isa.Execute(Instruction(JAL, 0, RI(0, 2)), Abs(p.cfg, s)).TargetMisaligned?;
  }

  /** `lui x5,524288` leaves 2^31, where the manual sign-extends it. */
  lemma UnextendedLui()
    ensures var p := Single(LUI, RI(5, 0x8_0000), 0);
            var s := Reset(p.cfg, 1);
            && Shows(p, 0)
            && Step(p, s) == Next(s.(regs := Set(s.regs, 5, TWO31), pc := 4))
            && HartStep(p, Abs(p.cfg, s)) ==
               Isa.Retired(Abs(p.cfg, s.(regs := Set(s.regs, 5, TWO64 - TWO31), pc := 4)))
  {
    hide Shows, Parse, HartStep, AbsRegs, AbsMem, Isa.UpperImmediate, B, Shl, Set, Get, Isa.WriteX;
    var p := Single(LUI, RI(5, 0x8_0000), 0);
    SingleAtReset(LUI, RI(5, 0x8_0000), 0);
    ManualUpper();
    StepIsOwners(p, Reset(p.cfg, 1));
    Classes(LUI);
    AbsWrite(Reset(p.cfg, 1).regs, 5, TWO64 - TWO31);
  }

  lemma ManualUpper()
    ensures Shl(0x8_0000, 12) == TWO31
    ensures Isa.UpperImmediate(0x8_0000) == B(TWO64 - TWO31)
  {
    hide ToBits, Pow2, Shl;
    LuiRefines(-0x8_0000);
    Pow2Values();
    Congruent(0x8_0000, -0x8_0000, 1, 20);
    TwelveDoublings(0x8_0000);
    TwelveDoublings(-0x8_0000);
  }

  /** `auipc x5,524288` at address 0 likewise. */
  lemma UnextendedAuipc()
    ensures var p := Single(AUIPC, RI(5, 0x8_0000), 0);
            var s := Reset(p.cfg, 1);
            && Shows(p, 0)
            && Step(p, s) == Next(s.(regs := Set(s.regs, 5, TWO31), pc := 4))
            && HartStep(p, Abs(p.cfg, s)) ==
               Isa.Retired(Abs(p.cfg, s.(regs := Set(s.regs, 5, TWO64 - TWO31), pc := 4)))
  {
    hide Shows, Parse, HartStep, AbsRegs, AbsMem, Isa.UpperImmediate, Shl, Set, Get, Isa.WriteX, ToBits, Nat;
    var p := Single(AUIPC, RI(5, 0x8_0000), 0);
    SingleAtReset(AUIPC, RI(5, 0x8_0000), 0);
    ManualUpper();
    NatOf64(TWO64 - TWO31);
    StepIsOwners(p, Reset(p.cfg, 1));
    Classes(AUIPC);
    AbsWrite(Reset(p.cfg, 1).regs, 5, TWO64 - TWO31);
  }

  /** `sb x0,-1(x0)` stores to the last byte of the address space, which is the last of a data memory of
      2^64 - 4 bytes behind one instruction; the emulator refuses it. */
  lemma RefusedTopByte()
    ensures var p := Single(SB, ROR(0, 0, -1), TWO64 - 4);
            var s := Reset(p.cfg, 1);
            && Shows(p, 0)
            && Step(p, s) == Fault(s, Some(MemoryException))
            && HartStep(p, Abs(p.cfg, s)).Retired?
  {
    hide Parse, HeaderText, ProgramText, AbsRegs, AbsMem, Set, Get, Nat, Isa.ReadX, Isa.WriteX, Isa.Mapped,
         Isa.LoadBits, Isa.StoreBits, Step, HartStep, Completed, Isa.Access;
    var p := Single(SB, ROR(0, 0, -1), TWO64 - 4);
    SingleAtReset(SB, ROR(0, 0, -1), TWO64 - 4);
    StepIsOwners(p, Reset(p.cfg, 1));
    Classes(SB);
  }

  /** `addi x5,x0,-1` and `srlw x6,x5,x0`. */
  function WordShift(): (p: Program)
    ensures p.cfg == CodeAtZero(2, 0) && |p.instrs| == 2
  {
    ProgramData(CodeAtZero(2, 0), [Instruction(ADDI, 0, RRI(5, 0, -1)), Instruction(SRLW, 4, RRR(6, 5, 0))])
  }

  /** The state between the two, which holds the word of all ones. */
  function BeforeShift(): State {
    var s := Reset(CodeAtZero(2, 0), 1);
    s.(regs := Set(s.regs, 5, TWO64 - 1), pc := 4)
  }

  lemma FirstToShift()
    ensures Step(WordShift(), Reset(CodeAtZero(2, 0), 1)) == Next(BeforeShift())
  {
    hide Step, Set, Get;
    var p := WordShift();
    var s := Reset(p.cfg, 1);
    assert Fetch(p, s) == p.instrs[0];
    StepIsOwners(p, s);
    Classes(ADDI);
    assert Get(s.regs, 0) == 0 by { ZeroAtReset(p.cfg); }
  }

  lemma ZeroAtReset(cfg: Config)
    ensures Get(Reset(cfg, 1).regs, 0) == 0
  {
  }

  lemma BeforeShiftRegs()
    ensures var s := BeforeShift();
            Get(s.regs, 5) == TWO64 - 1 && Get(s.regs, 0) == 0 && s.regs[0] == 0 && s.pc == 4
  {
  }

  lemma ShiftedWords()
    ensures AluValue(SRLW, TWO64 - 1, 0) == TWO32 - 1
    ensures WordShiftDeviates(TWO64 - 1, 0)
    ensures Isa.Compute(SRLW, B(TWO64 - 1), B(0)) == B(TWO64 - 1)
  {
    hide ToBits, Pow2, Nat;
    AluRefines(SRAW, TWO64 - 1, 0);
    ShiftAmounts(0);
    var w := B(TWO64 - 1)[..32];
    assert Isa.Srl(w, 0) == w == Isa.Sra(w, 0);
  }

  /** `jal x0,4294967296` goes to 2^32, where no instruction starts; the emulator sees the PC 0 there and
      executes the jump again and again. */
  lemma LostHighHalf()
    ensures var p := Single(JAL, RI(0, TWO32), 0);
            var s := Reset(p.cfg, 1).(pc := TWO32);
            && Run(p, Reset(p.cfg, 1), 1).s == s && Shows(p, 1)
            && Step(p, s) == Next(s)
            && HartStep(p, Abs(p.cfg, s)) == Isa.InstructionFault
  {
    hide Parse, HeaderText, ProgramText, Step, Run, AbsRegs, AbsMem, Get, Fetch, Isa.Execute;
    var p := Single(JAL, RI(0, TWO32), 0);
    var s := Reset(p.cfg, 1).(pc := TWO32);
    SingleAtReset(JAL, RI(0, TWO32), 0);
    JalStep(p, Reset(p.cfg, 1));
    assert VisiblePc(s) == VisiblePc(Reset(p.cfg, 1));
    SameFetch(p, Reset(p.cfg, 1), s);
    JalStep(p, s);
    OneTurn(p, Reset(p.cfg, 1), s);
    assert Laid(p.instrs, 0);
    ParseBuilt(p.cfg, p.instrs);
  }

  lemma SameFetch(p: Program, s: State, t: State)
    requires VisiblePc(s) == VisiblePc(t)
    ensures Fetch(p, s) == Fetch(p, t)
  {
  }

  /** One instruction at address 0 and an entry address inside it. */
  function EntryInside(): Program
  {
    ProgramData(Config(0, 4, 2, 0), [Instruction(ADDI, 0, RRI(5, 0, 1))])
  }

  /** At address 2, where no instruction starts, the emulator executes the one at 0. */
  lemma BetweenInstructions()
    ensures var p := EntryInside();
            var s := Reset(p.cfg, 1);
            && Shows(p, 0)
            && Step(p, s) == Next(s.(regs := Set(s.regs, 5, 1), pc := 6))
            && HartStep(p, Abs(p.cfg, s)) == Isa.InstructionFault
  {
    hide Parse, HeaderText, ProgramText, Step, AbsRegs, AbsMem, Set, Get, Isa.Execute;
    var p := EntryInside();
    var s := Reset(p.cfg, 1);
    assert Fetch(p, s) == p.instrs[0];
    ZeroAtReset(p.cfg);
    StepIsOwners(p, s);
    Classes(ADDI);
    assert Laid(p.instrs, 0);
    ParseBuilt(p.cfg, p.instrs);
  }

  /** The shift by 0 of a word with bit 31 set leaves 2^32 - 1, where the manual sign-extends it. */
  lemma UnextendedSrlw()
    ensures var p := WordShift();
            var s := BeforeShift();
            && Run(p, Reset(p.cfg, 1), 1).s == s && Shows(p, 1)
            && Step(p, s) == Next(s.(regs := Set(s.regs, 6, TWO32 - 1), pc := 8))
            && HartStep(p, Abs(p.cfg, s)) ==
               Isa.Retired(Abs(p.cfg, s.(regs := Set(s.regs, 6, TWO64 - 1), pc := 8)))
  {
    hide Parse, HeaderText, ProgramText, AbsRegs, AbsMem, Set, Get, ToBits, Nat, Step, Run, AluValue, BeforeShift,
         Isa.Compute, Isa.WriteX, Isa.ReadX, WordShiftDeviates, B;
    var p, s := WordShift(), BeforeShift();
    FirstToShift();
    OneTurn(p, Reset(p.cfg, 1), s);
    BeforeShiftRegs();
    ShiftedWords();
    assert Fetch(p, s) == p.instrs[1];
    StepIsOwners(p, s);
    Classes(SRLW);
    StepRefinesIsa(p, s);
    assert Laid(p.instrs, 0);
    ParseBuilt(p.cfg, p.instrs);
    AbsRead(s.regs, 5);
    AbsRead(s.regs, 0);
    AbsWrite(s.regs, 6, TWO64 - 1);
  }

  lemma {:induction false} OneTurn(p: Program, s: State, t: State)
    requires Fits(p.cfg, s) && Step(p, s) == Next(t)
    ensures Run(p, s, 1) == RunResult(t, StillRunning)
  {
    hide Step;
    assert Run(p, t, 0) == RunResult(t, StillRunning);
  }
}
