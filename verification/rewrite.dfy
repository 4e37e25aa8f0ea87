/** The object builder's rewriting of absolute branch and jump targets into PC-relative offsets
    (object_create/obj_create.py), on instructions already parsed. */
module Rewrite {
  import opened Options
  import opened Words
  import opened Instructions
  import opened RegisterFile
  import opened MemoryModel
  import opened CacheModel
  import opened Machine
  import opened Steps

  /** One entry of the fixup list: the mnemonic it matches and whether it makes the operand relative.
      The other entries only normalise how a number is written. */
  datatype Fixup = Fixup(op: Opcode, relative: bool)

  const REWRITTEN: seq<Fixup> := [
    Fixup(JALR, false), Fixup(AUIPC, false), Fixup(LUI, false), Fixup(SLLI, false), Fixup(SRLI, false),
    Fixup(SRAI, false), Fixup(SLLIW, false), Fixup(SRLIW, false), Fixup(SRAIW, false)
  ]

  const RELOCATED: seq<Fixup> := [
    Fixup(JAL, true), Fixup(BEQ, true), Fixup(BNE, true), Fixup(BLT, true), Fixup(BGE, true), Fixup(BLTU, true),
    Fixup(BGEU, true)
  ]

  const FIXUPS: seq<Fixup> := REWRITTEN + RELOCATED

  /** Branches and JAL carry a target. */
  predicate HasTarget(op: Opcode) { op.JAL? || IsBranch(op) }

  function TargetOf(i: Instruction): s64
    requires WellFormed(i) && HasTarget(i.op)
  {
    FormatsFit(i);
    i.format.imm
  }

  /** objdump prints targets as unsigned numbers. */
  predicate AbsoluteTarget(i: Instruction)
    requires WellFormed(i)
  {
    HasTarget(i.op) ==> TargetOf(i) >= 0
  }

  /** The instruction at line `k` with its target `T` replaced by `T - 4k`. */
  function Relative(k: nat, i: Instruction): (r: Instruction)
    requires WellFormed(i) && AbsoluteTarget(i) && k < TWO31
    ensures WellFormed(r) && r.op == i.op && r.addr == i.addr
    ensures HasTarget(i.op) ==> TargetOf(r) == TargetOf(i) - k * 4
    ensures !HasTarget(i.op) ==> r == i
  {
    FormatsFit(i);
    if HasTarget(i.op) then i.(format := i.format.(imm := i.format.imm - k * 4)) else i
  }

  /** The list relocates exactly the opcodes with a target. */
  lemma FixupRows(n: nat)
    requires n < 16
    ensures |FIXUPS| == 16 && FIXUPS[n].relative == HasTarget(FIXUPS[n].op)
  {
    if n < 9 {
      assert FIXUPS[n] == REWRITTEN[n];
      match n { case 0 => case 1 => case 2 => case 3 => case 4 => case 5 => case 6 => case 7 => case _ => }
    } else {
      assert FIXUPS[n] == RELOCATED[n - 9];
      match n { case 9 => case 10 => case 11 => case 12 => case 13 => case 14 => case _ => }
    }
  }

  lemma TargetHasRow(op: Opcode) returns (n: nat)
    requires HasTarget(op)
    ensures |FIXUPS| == 16 && n < 16 && FIXUPS[n].op == op
  {
    match op
    case JAL => n := 9;
    case BEQ => n := 10;
    case BNE => n := 11;
    case BLT => n := 12;
    case BGE => n := 13;
    case BLTU => n := 14;
    case BGEU => n := 15;
  }

  /** `instruction_fixup`: the first fixup that matches is applied, and only that one. */
  method InstructionFixup(k: nat, i: Instruction) returns (l: Instruction)
    requires WellFormed(i) && AbsoluteTarget(i) && k < TWO31
    ensures l == Relative(k, i)
  {
    hide Relative, HasTarget;
    var fixups := FIXUPS;
    if HasTarget(i.op) {
      ghost var row := TargetHasRow(i.op);
    }
    l := i;
    for n := 0 to |fixups|
      invariant l == i
      invariant forall m :: 0 <= m < n ==> fixups[m].op != i.op
    {
      FixupRows(n);
      if fixups[n].op == i.op {
        if fixups[n].relative {
          l := Relative(k, i);
        }
        break;
      }
    }
  }

  ghost predicate Absolute(p: Program) {
    forall k :: 0 <= k < |p.instrs| ==> AbsoluteTarget(p.instrs[k])
  }

  /** The whole program rewritten, line by line. */
  function RelativeProgram(p: Program): (q: Program)
    requires Absolute(p)
    ensures q.cfg == p.cfg && |q.instrs| == |p.instrs|
    ensures forall k :: 0 <= k < |p.instrs| ==> q.instrs[k] == Relative(k, p.instrs[k])
  {
    ProgramData(p.cfg, seq(|p.instrs|, k requires 0 <= k < |p.instrs| => Relative(k, p.instrs[k])))
  }

  // ------------------------------------------------------------------ the machine that jumps to targets

  predicate Jumps(i: Instruction, s: State)
    requires WellFormed(i)
  {
    FormatsFit(i);
    i.op.JAL? || (IsBranch(i.op) && BranchTaken(i.op, Get(s.regs, i.format.rd), Get(s.regs, i.format.rs1)))
  }

  /** A step that takes targets as absolute addresses and is otherwise the emulator's. */
  function AbsoluteStep(p: Program, s: State): (r: StepResult)
    requires Fits(p.cfg, s)
    ensures Fits(p.cfg, r.s)
  {
    var i := Fetch(p, s);
    match Step(p, s)
    case Next(t) => if Jumps(i, s) then Next(t.(pc := U64(TargetOf(i)))) else Next(t)
    case Fault(t, e) => Fault(t, e)
  }

  function AbsoluteRun(p: Program, s: State, n: nat): (r: RunResult)
    requires Fits(p.cfg, s)
    ensures Fits(p.cfg, r.s)
    decreases n
  {
    if n == 0 then RunResult(s, StillRunning)
    else
      match AbsoluteStep(p, s)
      case Next(t) => AbsoluteRun(p, t, n - 1)
      case Fault(t, e) => RunResult(t, Stopped(e))
  }

  /** The fetched instructions correspond, at the index the PC designates. */
  lemma FetchRewritten(p: Program, s: State)
    requires Absolute(p) && InRange(p.cfg, VisiblePc(s))
    ensures var k := (VisiblePc(s) - p.cfg.instrLower) / 4;
            && k < |p.instrs| && FetchOffset(p.cfg, VisiblePc(s)) == k
            && Fetch(p, s) == p.instrs[k]
            && Fetch(RelativeProgram(p), s) == Relative(k, Fetch(p, s))
  {
  }

  lemma OffRangeStep(p: Program, s: State)
    requires Fits(p.cfg, s) && !InRange(p.cfg, VisiblePc(s))
    ensures Step(p, s) == Fault(s, Some(InstructionException))
  {
    hide Step, Completed;
    StepIsOwners(p, s);
  }

  /** The relative step is the absolute one exactly when it does not jump or the code starts at
      address 0 and the PC is a multiple of 4. */
  lemma StepRewritten(p: Program, s: State)
    requires Absolute(p) && Fits(p.cfg, s) && InRange(p.cfg, VisiblePc(s))
    ensures Step(RelativeProgram(p), s) == AbsoluteStep(p, s)
            <==> !Jumps(Fetch(p, s), s) || (p.cfg.instrLower == 0 && VisiblePc(s) % 4 == 0)
  {
    hide Step, Perform, RelativeProgram, Fetch, AluValue, FlowResult, BranchTaken, Accessible, OperandsOf,
         IsMemOp, IsRegOp, U64, Shl, Get, Set, IsAlu;
    var q, i := RelativeProgram(p), Fetch(p, s);
    FetchRewritten(p, s);
    StepIsOwners(p, s);
    StepIsOwners(q, s);
    if HasTarget(i.op) {
      var k := (VisiblePc(s) - p.cfg.instrLower) / 4;
      TargetedStep(p, s, i);
      TargetedStep(q, s, Fetch(q, s));
      Landing(VisiblePc(s), p.cfg.instrLower, TargetOf(i));
    } else {
      assert Fetch(q, s) == i;
      NoTarget(i, s);
    }
  }

  lemma NoTarget(i: Instruction, s: State)
    requires WellFormed(i) && !HasTarget(i.op)
    ensures !Jumps(i, s)
  {
  }

  /** A branch or JAL completes, writes at most the return address, and goes to its offset if it jumps. */
  lemma TargetedStep(p: Program, s: State, i: Instruction)
    requires Fits(p.cfg, s) && InRange(p.cfg, VisiblePc(s)) && i == Fetch(p, s) && HasTarget(i.op)
    ensures Cause(p, s).None?
    ensures var t := Completed(p, s);
            && t.pc == (if Jumps(i, s) then U64(VisiblePc(s) + TargetOf(i)) else VisiblePc(s) + 4)
            && t == s.(regs := if i.op.JAL? then Set(s.regs, i.format.rd, VisiblePc(s) + 4) else s.regs, pc := t.pc)
  {
    hide Fetch, BranchTaken, Accessible, U64, Get, Set;
    FormatsFit(i);
    TargetsAreFlow(i.op);
  }

  lemma TargetsAreFlow(op: Opcode)
    requires HasTarget(op)
    ensures IsFlowOp(op) && !IsMemOp(op) && !IsRegOp(op) && !op.ECALL? && !op.JALR?
    ensures IsBranch(op) ==> !op.JAL?
    ensures op.JAL? ==> forall a, b :: !BranchTaken(op, a, b)
  {
  }

  lemma Landing(pc: u32, lower: u64, target: s64)
    requires lower <= pc && target >= 0
    ensures U64(pc + (target - (pc - lower) / 4 * 4)) == U64(target) <==> lower == 0 && pc % 4 == 0
  {
    var d := pc - (pc - lower) / 4 * 4;
    assert d == lower + (pc - lower) % 4;
    assert pc + (target - (pc - lower) / 4 * 4) == target + d;
  }

  /** A step that the rewriting relocates exactly: it does not jump, or the code is at address 0 and the
      PC a multiple of 4. */
  predicate Relocates(p: Program, s: State) {
    InRange(p.cfg, VisiblePc(s)) && Jumps(Fetch(p, s), s) ==> p.cfg.instrLower == 0 && VisiblePc(s) % 4 == 0
  }

  /** So do the first `n` steps of the machine that jumps to targets. */
  predicate AlwaysRelocates(p: Program, s: State, n: nat)
    requires Fits(p.cfg, s)
    decreases n
  {
    n == 0
    || (Relocates(p, s) && (AbsoluteStep(p, s).Next? ==> AlwaysRelocates(p, AbsoluteStep(p, s).s, n - 1)))
  }

  lemma RelocatesExactly(p: Program, s: State)
    requires Absolute(p) && Fits(p.cfg, s)
    ensures Step(RelativeProgram(p), s) == AbsoluteStep(p, s) <==> Relocates(p, s)
  {
    hide Step, RelativeProgram, Fetch, Jumps;
    if InRange(p.cfg, VisiblePc(s)) {
      StepRewritten(p, s);
    } else {
      OffRangeStep(p, s);
      OffRangeStep(RelativeProgram(p), s);
    }
  }

  /** After each of the first `n` steps both machines are in the same state, or have stopped alike. */
  ghost predicate RunsAlike(p: Program, s: State, n: nat)
    requires Absolute(p) && Fits(p.cfg, s)
  {
    forall m: nat :: m <= n ==> Run(RelativeProgram(p), s, m) == AbsoluteRun(p, s, m)
  }

  /** Rewriting preserves a run, state by state, exactly when it relocates each of its steps: for code at
      any address and every run length. */
  lemma {:induction false} RunRewritten(p: Program, s: State, n: nat)
    requires Absolute(p) && Fits(p.cfg, s)
    ensures RunsAlike(p, s, n) <==> AlwaysRelocates(p, s, n)
    decreases n
  {
    hide Step, RelativeProgram, Relocates, AbsoluteStep;
    var q := RelativeProgram(p);
    RelocatesExactly(p, s);
    if n == 0 {
    } else if !Relocates(p, s) {
      OneStepEach(p, s);
    } else if AbsoluteStep(p, s).Next? {
      RunRewritten(p, AbsoluteStep(p, s).s, n - 1);
      AlikeAfter(p, s, n);
    }
  }

  lemma {:induction false} OneStepEach(p: Program, s: State)
    requires Absolute(p) && Fits(p.cfg, s) && Step(RelativeProgram(p), s) != AbsoluteStep(p, s)
    ensures Run(RelativeProgram(p), s, 1) != AbsoluteRun(p, s, 1)
  {
    hide Step, RelativeProgram, AbsoluteStep, Run, AbsoluteRun, AsRun, Fits;
    RunOnce(RelativeProgram(p), s);
    AbsoluteRunOnce(p, s);
    DifferentSteps(Step(RelativeProgram(p), s), AbsoluteStep(p, s));
  }

  lemma DifferentSteps(a: StepResult, b: StepResult)
    requires a != b
    ensures AsRun(a) != AsRun(b)
  {
  }

  /** What a step is as a run. */
  function AsRun(r: StepResult): RunResult {
    match r
    case Next(t) => RunResult(t, StillRunning)
    case Fault(t, e) => RunResult(t, Stopped(e))
  }

  lemma {:induction false} RunOnce(p: Program, s: State)
    requires Fits(p.cfg, s)
    ensures Run(p, s, 1) == AsRun(Step(p, s))
  {
    hide Step;
    var t := Step(p, s).s;
    assert Run(p, t, 0) == RunResult(t, StillRunning);
  }

  lemma {:induction false} AbsoluteRunOnce(p: Program, s: State)
    requires Fits(p.cfg, s)
    ensures AbsoluteRun(p, s, 1) == AsRun(AbsoluteStep(p, s))
  {
    hide AbsoluteStep;
    var t := AbsoluteStep(p, s).s;
    assert AbsoluteRun(p, t, 0) == RunResult(t, StillRunning);
  }

  lemma AlikeAfter(p: Program, s: State, n: nat)
    requires Absolute(p) && Fits(p.cfg, s) && n > 0
    requires Step(RelativeProgram(p), s) == AbsoluteStep(p, s) && AbsoluteStep(p, s).Next?
    ensures RunsAlike(p, s, n) <==> RunsAlike(p, AbsoluteStep(p, s).s, n - 1)
  {
    hide Step, RelativeProgram, AbsoluteStep;
    var q, t := RelativeProgram(p), AbsoluteStep(p, s).s;
    forall m: nat ensures Run(q, s, m + 1) == Run(q, t, m) && AbsoluteRun(p, s, m + 1) == AbsoluteRun(p, t, m) {
    }
    if RunsAlike(p, s, n) {
      forall m: nat | m <= n - 1 ensures Run(q, t, m) == AbsoluteRun(p, t, m) {
        assert Run(q, s, m + 1) == AbsoluteRun(p, s, m + 1);
      }
    }
    if RunsAlike(p, t, n - 1) {
      forall m: nat | m <= n ensures Run(q, s, m) == AbsoluteRun(p, s, m) {
        if m > 0 {
          assert Run(q, t, m - 1) == AbsoluteRun(p, t, m - 1);
        }
      }
    }
  }

  // ------------------------------------------------------------------ when alignment is guaranteed

  /** Targets are multiples of 4 and nothing jumps through a register. */
  ghost predicate DirectAndAligned(p: Program) {
    forall k :: 0 <= k < |p.instrs| ==> DirectAligned(p.instrs[k])
  }

  predicate DirectAligned(i: Instruction) {
    WellFormed(i) && !i.op.JALR? && (HasTarget(i.op) ==> TargetOf(i) % 4 == 0)
  }

  lemma AbsoluteStepAligned(p: Program, s: State)
    requires DirectAndAligned(p) && Fits(p.cfg, s) && s.pc % 4 == 0 && AbsoluteStep(p, s).Next?
    ensures AbsoluteStep(p, s).s.pc % 4 == 0
  {
    hide Step, Perform, Fetch, AluValue, FlowResult, BranchTaken, Accessible, U64, Shl, Get, Set, IsAlu;
    StepIsOwners(p, s);
    FetchBacked(p, s);
    var i := Fetch(p, s);
    if HasTarget(i.op) {
      TargetedStep(p, s, i);
      Multiples(TargetOf(i), 4);
    } else {
      NoTarget(i, s);
      FallsThrough(p, s);
    }
  }

  lemma FetchBacked(p: Program, s: State)
    requires InRange(p.cfg, VisiblePc(s))
    ensures FetchOffset(p.cfg, VisiblePc(s)) == (VisiblePc(s) - p.cfg.instrLower) / 4 < |p.instrs|
    ensures Fetch(p, s) == p.instrs[(VisiblePc(s) - p.cfg.instrLower) / 4]
  {
  }

  /** Every completed instruction that is no branch, JAL or JALR goes on to the next one. */
  lemma FallsThrough(p: Program, s: State)
    requires Fits(p.cfg, s) && Cause(p, s).None? && !HasTarget(Fetch(p, s).op) && !Fetch(p, s).op.JALR?
    ensures Completed(p, s).pc == VisiblePc(s) + 4
  {
    hide Fetch, AluValue, FlowResult, Accessible, U64, Shl, Get, Set, Load, Store, AfterAccess, Extend;
    OneOwner(Fetch(p, s).op);
    FormatsFit(Fetch(p, s));
    NotTaken(Fetch(p, s).op);
  }

  /** Then rewriting preserves every run from an aligned entry, without a condition on the run. */
  lemma {:induction false} AlignedProgramRewritten(p: Program, s: State, n: nat)
    requires Absolute(p) && DirectAndAligned(p) && Fits(p.cfg, s) && p.cfg.instrLower == 0 && s.pc % 4 == 0
    ensures Run(RelativeProgram(p), s, n) == AbsoluteRun(p, s, n)
  {
    hide AlwaysRelocates, Run, AbsoluteRun;
    AlwaysAligned(p, s, n);
    RunRewritten(p, s, n);
  }

  lemma {:induction false} AlwaysAligned(p: Program, s: State, n: nat)
    requires DirectAndAligned(p) && Fits(p.cfg, s) && p.cfg.instrLower == 0 && s.pc % 4 == 0
    ensures AlwaysRelocates(p, s, n)
    decreases n
  {
    hide Step, Fetch, Jumps, AbsoluteStep;
    Multiples(s.pc, 4);
    if n > 0 && AbsoluteStep(p, s).Next? {
      AbsoluteStepAligned(p, s);
      AlwaysAligned(p, AbsoluteStep(p, s).s, n - 1);
    }
  }
}
