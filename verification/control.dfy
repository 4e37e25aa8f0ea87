/** Control flow over whole runs: calls return, PCs keep their alignment, fetched instructions are
    those recorded at the PC; and the two-instruction idiom that loads a 32-bit constant. */
module Control {
  import opened Words
  import opened Division
  import opened Instructions
  import opened RegisterFile
  import opened Machine
  import opened Steps
  import opened Rewrite
  import opened AluRefinement

  // ------------------------------------------------------------------ call and return

  /** None of the next `n` steps is of an instruction with destination `rd`. */
  predicate NeverWrites(p: Program, s: State, n: nat, rd: u32)
    requires Fits(p.cfg, s)
    decreases n
  {
    n == 0
    || (Destination(Fetch(p, s)) != rd && (Step(p, s).Next? ==> NeverWrites(p, Step(p, s).s, n - 1, rd)))
  }

  lemma {:induction false} RegisterKept(p: Program, s: State, n: nat, rd: u32)
    requires Fits(p.cfg, s) && NeverWrites(p, s, n, rd)
    ensures Get(Run(p, s, n).s.regs, rd) == Get(s.regs, rd)
    decreases n
  {
    hide Step, Fetch, Cause, Completed, Destination;
    if n > 0 {
      StepIsOwners(p, s);
      if Step(p, s).Next? {
        OneRegisterWritten(p, s, rd);
        RegisterKept(p, Step(p, s).s, n - 1, rd);
      }
    }
  }

  /** JALR jumps relative to the base register as it was before the step, also when that register is
      the destination, and leaves the address of the next instruction there. */
  lemma JalrStep(p: Program, s: State)
    requires Fits(p.cfg, s) && InRange(p.cfg, VisiblePc(s)) && Fetch(p, s).op.JALR?
    ensures var f := Fetch(p, s).format;
            && f.ROR?
            && Step(p, s) == Next(s.(regs := Set(s.regs, f.r2, VisiblePc(s) + 4), pc := Step(p, s).s.pc))
            && Step(p, s).s.pc == U64(Get(s.regs, f.r1) + f.offset) - U64(Get(s.regs, f.r1) + f.offset) % 2
  {
    hide Step, Fetch, U64, Get, Set, Accessible, ClearBit0, RegOps, FlowOps, Perform;
    var i := Fetch(p, s);
    FormatsFit(i);
    StepIsOwners(p, s);
    Classes(JALR);
    JalrJumps(i, s);
    ClearBit0Bits(U64(Get(s.regs, i.format.r1) + i.format.offset));
  }

  lemma JalrJumps(i: Instruction, s: State)
    requires WellFormed(i) && i.op.JALR?
    ensures i.format.ROR?
    ensures FlowOps(i, s).s == s.(regs := Set(s.regs, i.format.r2, VisiblePc(s) + 4),
                                  pc := ClearBit0(U64(Get(s.regs, i.format.r1) + i.format.offset)))
  {
    hide U64, Get, Set, ClearBit0, BranchTaken;
  }

  lemma JalStep(p: Program, s: State)
    requires Fits(p.cfg, s) && InRange(p.cfg, VisiblePc(s)) && Fetch(p, s).op.JAL?
    ensures var f := Fetch(p, s).format;
            && f.RI?
            && Step(p, s) ==
               Next(s.(regs := Set(s.regs, f.rd, VisiblePc(s) + 4), pc := U64(VisiblePc(s) + f.imm)))
  {
    hide Step, Fetch, U64, Get, Set;
    var i := Fetch(p, s);
    FormatsFit(i);
    StepIsOwners(p, s);
    TargetedStep(p, s, i);
    JalJumps(i, s);
  }

  lemma JalJumps(i: Instruction, s: State)
    requires WellFormed(i) && i.op.JAL?
    ensures HasTarget(i.op) && Jumps(i, s) && TargetOf(i) == i.format.imm
  {
  }

  /** A JAL that saves its return address in `rd`, any number of steps that never write `rd`, and a
      `jalr x0,0(rd)`: execution is at the instruction after the JAL, no other register changed by the return. */
  lemma {:induction false} CallReturns(p: Program, s: State, n: nat, rd: u32)
    requires Fits(p.cfg, s) && InRange(p.cfg, VisiblePc(s)) && VisiblePc(s) % 2 == 0 && VisiblePc(s) < TWO32 - 4
    requires Fetch(p, s).op.JAL? && 0 < rd <= 31 && Fetch(p, s).format == RI(rd, Fetch(p, s).format.imm)
    requires var r := Run(p, Step(p, s).s, n);
             && NeverWrites(p, Step(p, s).s, n, rd)
             && r.outcome.StillRunning?
             && InRange(p.cfg, VisiblePc(r.s))
             && Fetch(p, r.s).op.JALR? && Fetch(p, r.s).format == ROR(0, rd, 0)
    ensures var r := Run(p, Step(p, s).s, n).s;
            && Step(p, r) == Next(r.(pc := VisiblePc(s) + 4))
            && VisiblePc(Step(p, r).s) == VisiblePc(s) + 4
  {
    hide Step, Run, Fetch, NeverWrites, InRange;
    JalStep(p, s);
    RegisterKept(p, Step(p, s).s, n, rd);
    JalrStep(p, Run(p, Step(p, s).s, n).s);
  }

  /** `jal x1,8`, `ecall` and `jalr x0,0(x1)`. */
  function CallAndReturn(): (p: Program)
    ensures p.cfg == Config(0, 12, 0, 0) && |p.instrs| == 3
    ensures p.instrs[0] == Instruction(JAL, 0, RI(1, 8)) && p.instrs[2] == Instruction(JALR, 8, ROR(0, 1, 0))
  {
    ProgramData(Config(0, 12, 0, 0), [Instruction(JAL, 0, RI(1, 8)), Instruction(ECALL, 4, Ecall),
                                      Instruction(JALR, 8, ROR(0, 1, 0))])
  }

  /** The smallest call: back at the ECALL after two steps. */
  lemma SmallestCall()
    ensures var p := CallAndReturn();
            Run(p, Reset(p.cfg, 1), 2).outcome.StillRunning? && Run(p, Reset(p.cfg, 1), 2).s.pc == 4
  {
    hide Step, CallAndReturn, Get, Set;
    var p := CallAndReturn();
    var s := Reset(p.cfg, 1);
    assert Fetch(p, s) == p.instrs[0];
    JalStep(p, s);
    var t := Step(p, s).s;
    assert t.pc == 8 && Fetch(p, t) == p.instrs[2];
    assert Run(p, t, 0) == RunResult(t, StillRunning);
    CallReturns(p, s, 0, 1);
    assert Run(p, s, 2) == Run(p, t, 1) == Run(p, Step(p, t).s, 0);
  }

  // ------------------------------------------------------------------ parity and alignment

  /** Offsets of branches and JAL are multiples of `m`. */
  ghost predicate OffsetsMultipleOf(p: Program, m: nat)
    requires m > 0
  {
    forall k :: 0 <= k < |p.instrs| ==> OffsetMultipleOf(p.instrs[k], m)
  }

  predicate OffsetMultipleOf(i: Instruction, m: nat)
    requires m > 0
  {
    WellFormed(i) && (HasTarget(i.op) ==> TargetOf(i) % m == 0)
  }

  /** One step keeps the PC a multiple of 2, and of 4 if it is not a JALR. */
  lemma StepKeepsAlignment(p: Program, s: State, m: nat)
    requires m in {2, 4} && Fits(p.cfg, s) && s.pc % m == 0 && OffsetsMultipleOf(p, m) && Step(p, s).Next?
    requires Fetch(p, s).op.JALR? ==> m == 2
    ensures Step(p, s).s.pc % m == 0
  {
    hide Step, Fetch, Completed, Get, Set, U64, U32, Jumps, HasTarget, TargetOf, InRange, Cause;
    StepIsOwners(p, s);
    InRangeWhenCompleted(p, s);
    FetchBacked(p, s);
    Multiples(s.pc, m);
    var i := Fetch(p, s);
    if i.op.JALR? {
      JalrStep(p, s);
      EvenDown(U64(Get(s.regs, i.format.r1) + i.format.offset));
    } else if HasTarget(i.op) {
      assert OffsetMultipleOf(p.instrs[(VisiblePc(s) - p.cfg.instrLower) / 4], m);
      TargetedStep(p, s, i);
      Multiples(VisiblePc(s) + TargetOf(i), m);
      SumOfMultiples(VisiblePc(s), TargetOf(i), m);
    } else {
      FallsThrough(p, s);
    }
    SumOfMultiples(VisiblePc(s), 4, m);
  }

  lemma InRangeWhenCompleted(p: Program, s: State)
    requires Cause(p, s).None?
    ensures InRange(p.cfg, VisiblePc(s))
  {
  }

  lemma SumOfMultiples(x: int, y: int, m: nat)
    requires m in {2, 4} && x % m == 0 && y % m == 0
    ensures (x + y) % m == 0
  {
    if m == 2 {
    } else {
    }
  }

  lemma EvenDown(x: int)
    ensures (x - x % 2) % 2 == 0
  {
  }

  /** From an even entry with even offsets, every reachable PC is even, whatever the registers hold. */
  lemma {:induction false} PcStaysEven(p: Program, s: State, n: nat)
    requires Fits(p.cfg, s) && s.pc % 2 == 0 && OffsetsMultipleOf(p, 2)
    ensures Run(p, s, n).s.pc % 2 == 0
    decreases n
  {
    hide Step, Fetch, Cause, Completed;
    if n > 0 {
      StepIsOwners(p, s);
      if Step(p, s).Next? {
        StepKeepsAlignment(p, s, 2);
        PcStaysEven(p, Step(p, s).s, n - 1);
      }
    }
  }

  ghost predicate NoJalr(p: Program) {
    forall k :: 0 <= k < |p.instrs| ==> !p.instrs[k].op.JALR?
  }

  /** Instructions record the addresses the parser gives them. */
  ghost predicate AddressesRecorded(p: Program) {
    forall k :: 0 <= k < |p.instrs| ==> p.instrs[k].addr == U64(p.cfg.instrLower + k * 4)
  }

  lemma FetchesItsAddress(p: Program, s: State)
    requires AddressesRecorded(p) && p.cfg.instrLower % 4 == 0 && s.pc % 4 == 0 && InRange(p.cfg, VisiblePc(s))
    ensures Fetch(p, s).addr == VisiblePc(s)
  {
    hide Fetch, U32, FetchOffset;
    FetchBacked(p, s);
    Multiples(s.pc, 4);
    var k := (VisiblePc(s) - p.cfg.instrLower) / 4;
    assert p.cfg.instrLower + k * 4 == VisiblePc(s);
    U64Fixed(VisiblePc(s));
  }

  /** Without JALR and with everything 4-aligned, each reachable in-range fetch yields the instruction
      whose recorded address is the PC. */
  lemma {:induction false} FetchMatchesAddress(p: Program, s: State, n: nat)
    requires Fits(p.cfg, s) && s.pc % 4 == 0 && p.cfg.instrLower % 4 == 0
    requires OffsetsMultipleOf(p, 4) && NoJalr(p) && AddressesRecorded(p)
    ensures var t := Run(p, s, n).s;
            t.pc % 4 == 0 && (InRange(p.cfg, VisiblePc(t)) ==> Fetch(p, t).addr == VisiblePc(t))
    decreases n
  {
    hide Step, Fetch, Completed;
    if InRange(p.cfg, VisiblePc(s)) {
      FetchesItsAddress(p, s);
    }
    if n > 0 {
      StepIsOwners(p, s);
      if Step(p, s).Next? {
        FetchBacked(p, s);
        StepKeepsAlignment(p, s, 4);
        FetchMatchesAddress(p, Step(p, s).s, n - 1);
      }
    }
  }

  // ------------------------------------------------------------------ loading a 32-bit constant

  /** The rounded upper 20 bits of a constant and the signed low 12 that remain. */
  function Upper(v: s32): int { (v + 0x800) / 0x1000 }

  function Lower(v: s32): int { v - Upper(v) * 0x1000 }

  lemma {:induction false} TwelveDoublings(x: int)
    ensures Shl(x, 12) == x * 0x1000
  {
    assert Shl(x, 6) == x * 0x40;
    ShlShl(x, 6, 6);
    assert Shl(x * 0x40, 6) == x * 0x40 * 0x40;
  }

  lemma {:induction false} ShlShl(x: int, m: nat, n: nat)
    ensures Shl(Shl(x, m), n) == Shl(x, m + n)
    decreases m
  {
    if m > 0 {
      ShlShl(2 * x, m - 1, n);
    }
  }

  lemma S32Periodic(x: int, q: int)
    ensures S32(x + q * TWO32) == S32(x)
  {
    AddMultiple(x, q, TWO32);
  }

  /** Adding the low part to what LUI left gives the constant, whether its immediate is written signed
      or as 20 unsigned bits. */
  lemma {:induction false} ConstantValue(v: s32, h: s64)
    requires h == Upper(v) || h == Upper(v) % 0x10_0000
    ensures -0x800 <= Lower(v) < 0x800
    ensures AluValue(ADDIW, U64(Shl(h, 12)), U64(Lower(v))) == U64(v)
  {
    hide Shl, S32, U32, U64, Upper, Lower, AluValue;
    LowerRange(v);
    UpperWord(v, h);
    ConversionsCompose(Shl(h, 12));
    ConversionsCompose(Lower(v));
    S32Sum(Upper(v) * 0x1000, Lower(v));
    S32Fixed(v);
    AddiwValue(U64(Shl(h, 12)), U64(Lower(v)));
  }

  lemma AddiwValue(a: u64, b: u64)
    ensures AluValue(ADDIW, a, b) == U64(S32(S32(a) + S32(b)))
  {
  }

  lemma LowerRange(v: s32)
    ensures -0x800 <= Lower(v) < 0x800 && Upper(v) * 0x1000 + Lower(v) == v
  {
  }

  lemma {:induction false} UpperWord(v: s32, h: s64)
    requires h == Upper(v) || h == Upper(v) % 0x10_0000
    ensures S32(Shl(h, 12)) == S32(Upper(v) * 0x1000)
  {
    hide Shl, S32, Upper;
    TwelveDoublings(h);
    var q := if h == Upper(v) then 0 else -(Upper(v) / 0x10_0000);
    assert h * 0x1000 == Upper(v) * 0x1000 + q * TWO32;
    S32Periodic(Upper(v) * 0x1000, q);
  }

  lemma S32Sum(x: int, y: int)
    ensures S32(S32(x) + S32(y)) == S32(x + y)
  {
    var qx, qy := (S32(x) - x) / TWO32, (S32(y) - y) / TWO32;
    assert S32(x) == x + qx * TWO32 && S32(y) == y + qy * TWO32;
    S32Periodic(x + y, qx + qy);
  }

  /** The signed 32-bit addition overflows exactly for the constants 0x7FFFF800 and up. */
  lemma ConstantOverflow(v: s32)
    ensures !(-TWO31 <= S32(Upper(v) * 0x1000) + Lower(v) < TWO31) <==> v >= 0x7FFF_F800
  {
  }

  /** `lui rd,upper; addiw rd,rd,lower` leaves the constant sign-extended to 64 bits in `rd`. */
  lemma LoadConstant(p: Program, s: State, v: s32, h: s64, rd: u32)
    requires Fits(p.cfg, s) && InRange(p.cfg, VisiblePc(s)) && 0 < rd <= 31
    requires h == Upper(v) || h == Upper(v) % 0x10_0000
    requires Fetch(p, s).op.LUI? && Fetch(p, s).format == RI(rd, h)
    requires var t := s.(regs := Set(s.regs, rd, U64(Shl(h, 12))), pc := VisiblePc(s) + 4);
             && InRange(p.cfg, VisiblePc(t))
             && Fetch(p, t).op.ADDIW? && Fetch(p, t).format == RRI(rd, rd, Lower(v))
    ensures Run(p, s, 2).outcome.StillRunning? && Run(p, s, 2).s.regs == Set(s.regs, rd, U64(v))
  {
    hide Step, Fetch, AluValue, U64, U32, Shl, Upper, Lower, Accessible;
    var t := s.(regs := Set(s.regs, rd, U64(Shl(h, 12))), pc := VisiblePc(s) + 4);
    StepIsOwners(p, s);
    StepIsOwners(p, t);
    Classes(LUI);
    Classes(ADDIW);
    ConstantValue(v, h);
    assert Step(p, s) == Next(t);
    assert Step(p, t).Next? && Step(p, t).s.regs == Set(t.regs, rd, U64(v));
    assert Run(p, s, 2) == Run(p, t, 1);
    assert Run(p, t, 1) == Run(p, Step(p, t).s, 0);
  }
}
