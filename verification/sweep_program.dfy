/** The repository's own cache test, tests/archobjs/52_multiple.archobj, for any number of passes and
    cache lines: the run of the emulator on it, from reset to exit, and what the cache counts. */
module SweepProgram {
  import opened Options
  import opened Words
  import Division
  import opened Instructions
  import opened RegisterFile
  import opened MemoryModel
  import opened CacheModel
  import opened CacheTraces
  import opened CacheSweeps
  import opened Machine
  import opened Steps
  import opened Runs

  // ------------------------------------------------------------------ the program

  function Imm(op: Opcode, k: nat, rd: u32, rs1: u32, imm: s64): Instruction
    requires k < 100
  {
    Instruction(op, 4 * k, RRI(rd, rs1, imm))
  }

  /** The buffer's address into x9, a 64-bit constant into x18, the numbers of passes and of lines
      into x10 and x11, and the pass counter x5 cleared. */
  function Setup(passes: s64, lineCount: s64): (t: seq<Instruction>)
    ensures |t| == 13
  {
    [Instruction(LUI, 0, RI(9, 1)), Imm(ADDI, 1, 9, 9, 0), Instruction(LUI, 8, RI(18, 6699)),
     Imm(ADDIW, 3, 18, 18, 965), Imm(SLLI, 4, 18, 18, 13), Imm(ADDI, 5, 18, 18, -1347), Imm(SLLI, 6, 18, 18, 12),
     Imm(ADDI, 7, 18, 18, -529), Imm(SLLI, 8, 18, 18, 12), Imm(ADDI, 9, 18, 18, 18), Imm(ADDI, 10, 10, 0, passes),
     Imm(ADDI, 11, 11, 0, lineCount), Imm(ADDI, 12, 5, 0, 0)]
  }

  /** Two nested loops storing to one cache line after the other, then exit. */
  function Loops(): (t: seq<Instruction>)
    ensures |t| == 10
  {
    [Imm(ADDI, 13, 6, 0, 0), Instruction(ADD, 56, RRR(19, 0, 9)), Instruction(SD, 60, ROR(20, 19, 0)),
     Imm(ADDI, 16, 19, 19, 64), Imm(ADDI, 17, 6, 6, 1), Imm(BLT, 18, 6, 11, -12), Imm(ADDI, 19, 5, 5, 1),
     Imm(BLT, 20, 5, 10, -28), Imm(ADDI, 21, 17, 0, 2), Instruction(ECALL, 88, Ecall)]
  }

  const BASE: int := 4096

  /** Numbers of passes and lines the loops can count to. */
  predicate Counted(passes: nat, lineCount: nat) { 0 < passes < TWO31 && 0 < lineCount < TWO31 }

  /** The store to line `i` ends within data memory, which begins behind the 23 instructions. */
  predicate LineFits(i: nat, memorySz: u64) { BASE + 64 * i + 8 <= 92 + memorySz }

  /** All lines fit if the last one does. */
  predicate Sized(passes: nat, lineCount: nat, memorySz: u64) {
    Counted(passes, lineCount) && LineFits(lineCount - 1, memorySz)
  }

  predicate AllWellFormed(t: seq<Instruction>) {
    forall k :: 0 <= k < |t| ==> WellFormed(t[k])
  }

  lemma SetupWellFormed(passes: s64, lineCount: s64)
    ensures AllWellFormed(Setup(passes, lineCount))
  {
  }

  lemma LoopsWellFormed()
    ensures AllWellFormed(Loops())
  {
  }

  function Multiple(passes: nat, lineCount: nat, memorySz: u64): (p: Program)
    requires Counted(passes, lineCount)
    ensures p.cfg == Config(0, 92, 0, memorySz) && p.instrs == Setup(passes, lineCount) + Loops()
  {
    SetupWellFormed(passes, lineCount);
    LoopsWellFormed();
    ProgramData(Config(0, 92, 0, memorySz), Setup(passes, lineCount) + Loops())
  }

  // ------------------------------------------------------------------ runs with their traces

  /** `n` steps lead from `s` to `t`, accessing the addresses `a` in memory. */
  predicate Reaches(p: Program, s: State, n: nat, t: State, a: seq<u64>)
    requires Fits(p.cfg, s)
  {
    Run(p, s, n) == RunResult(t, StillRunning) && Trace(p, s, n) == a
  }

  lemma {:induction false} TraceSum(p: Program, s: State, m: nat, n: nat)
    requires Fits(p.cfg, s) && Run(p, s, m).outcome.StillRunning?
    ensures Trace(p, s, m + n) == Trace(p, s, m) + Trace(p, Run(p, s, m).s, n)
    decreases m
  {
    hide Step, Accessed;
    if m > 0 {
      TraceSum(p, Step(p, s).s, m - 1, n);
    }
  }

  lemma Chain(p: Program, s: State, m: nat, t: State, a: seq<u64>, n: nat, u: State, b: seq<u64>)
    requires Fits(p.cfg, s) && Fits(p.cfg, t) && Reaches(p, s, m, t, a) && Reaches(p, t, n, u, b)
    ensures Reaches(p, s, m + n, u, a + b)
  {
    hide Run, Trace;
    RunSum(p, s, m, n);
    TraceSum(p, s, m, n);
  }

  lemma OneStep(p: Program, s: State, t: State)
    requires Fits(p.cfg, s) && Step(p, s) == Next(t)
    ensures Fits(p.cfg, t)
    ensures Reaches(p, s, 1, t, if Accessed(p, s).Some? then [Accessed(p, s).value] else [])
  {
    hide Step, Accessed;
    assert Run(p, s, 1) == Run(p, t, 0);
    assert Trace(p, t, 0) == [];
  }

  // ------------------------------------------------------------------ its instructions

  /** The instruction at index `k` is fetched at PC 4k. */
  lemma FetchAt(p: Program, s: State, k: nat)
    requires p.cfg.instrLower == 0 && k < |p.instrs| && s.pc == 4 * k && k < 100
    ensures VisiblePc(s) == 4 * k && Fetch(p, s) == p.instrs[k]
  {
  }

  /** An immediate or register addition at index `k`. */
  lemma AddStep(p: Program, s: State, k: nat, rd: u32, v: u64) returns (t: State)
    requires Fits(p.cfg, s) && p.cfg == Config(0, 92, 0, p.cfg.memorySz) && s.pc == 4 * k && k < 23 <= |p.instrs|
    requires var i := p.instrs[k];
             || (i.op.ADDI? && i.format.RRI? && rd == i.format.rd && v == U64(Get(s.regs, i.format.rs1) + i.format.imm))
             || (i.op.ADD? && i.format.RRR? && rd == i.format.rd
                 && v == U64(Get(s.regs, i.format.rs1) + Get(s.regs, i.format.rs2)))
    ensures t == s.(regs := Set(s.regs, rd, v), pc := 4 * (k + 1)) && Fits(p.cfg, t) && Reaches(p, s, 1, t, [])
  {
    hide Step, Fetch, Reaches, U64, U32, Get, Set;
    t := s.(regs := Set(s.regs, rd, v), pc := 4 * (k + 1));
    FetchAt(p, s, k);
    StepIsOwners(p, s);
    Classes(p.instrs[k].op);
    U64Sum(Get(s.regs, p.instrs[k].format.rs1), if p.instrs[k].op.ADDI? then p.instrs[k].format.imm else 0);
    OneStep(p, s, t);
  }

  /** A `blt` at index `k` on two non-negative counters. */
  lemma BltStep(p: Program, s: State, k: nat, back: nat) returns (t: State)
    requires Fits(p.cfg, s) && p.cfg == Config(0, 92, 0, p.cfg.memorySz) && s.pc == 4 * k && k < 23 <= |p.instrs|
    requires var i := p.instrs[k];
             && i.op.BLT? && i.format.RRI? && back <= k && i.format.imm == -4 * back
             && Get(s.regs, i.format.rd) < TWO32 && Get(s.regs, i.format.rs1) < TWO32
    ensures var i := p.instrs[k];
            && t == s.(pc := if Get(s.regs, i.format.rd) < Get(s.regs, i.format.rs1) then 4 * (k - back)
                             else 4 * (k + 1))
            && Fits(p.cfg, t) && Reaches(p, s, 1, t, [])
  {
    hide Step, Fetch, Reaches, Get, RegOps, Perform;
    var i := p.instrs[k];
    t := s.(pc := if Get(s.regs, i.format.rd) < Get(s.regs, i.format.rs1) then 4 * (k - back) else 4 * (k + 1));
    FetchAt(p, s, k);
    StepIsOwners(p, s);
    Classes(BLT);
    OneStep(p, s, t);
  }

  /** The `sd x20,0(x19)`: some RAM changes, the cache is touched, the registers stay. */
  lemma SdStep(p: Program, s: State, addr: u64) returns (t: State)
    requires Fits(p.cfg, s) && p.cfg == Config(0, 92, 0, p.cfg.memorySz) && s.pc == 60 && 23 <= |p.instrs|
    requires p.instrs[15] == Instruction(SD, 60, ROR(20, 19, 0)) && Get(s.regs, 19) == addr
    requires BASE <= addr && addr + 8 <= 92 + p.cfg.memorySz && addr + 8 < TWO64
    ensures t.regs == s.regs && t.pc == 64 && Fits(p.cfg, t) && Reaches(p, s, 1, t, [addr])
  {
    hide Step, Fetch, Reaches, Get, Store, AfterAccess;
    FetchAt(p, s, 15);
    StepIsOwners(p, s);
    Classes(SD);
    t := Completed(p, s);
    OneStep(p, s, t);
  }

  /** The same beyond data memory. */
  lemma SdFault(p: Program, s: State, addr: u64)
    requires Fits(p.cfg, s) && p.cfg == Config(0, 92, 0, p.cfg.memorySz) && s.pc == 60 && 23 <= |p.instrs|
    requires p.instrs[15] == Instruction(SD, 60, ROR(20, 19, 0)) && Get(s.regs, 19) == addr
    requires addr + 8 > 92 + p.cfg.memorySz
    ensures Step(p, s) == Fault(s, Some(MemoryException))
  {
    hide Step, Fetch, Get, Completed;
    FetchAt(p, s, 15);
    StepIsOwners(p, s);
    Classes(SD);
  }

  /** Any other immediate arithmetic: some value for its destination. */
  lemma SomeStep(p: Program, s: State, k: nat, rd: u32) returns (t: State, v: u64)
    requires Fits(p.cfg, s) && p.cfg == Config(0, 92, 0, p.cfg.memorySz) && s.pc == 4 * k && k < 23 <= |p.instrs|
    requires var i := p.instrs[k]; IsAlu(i.op) && i.format.RRI? && rd == i.format.rd
    ensures t == s.(regs := Set(s.regs, rd, v), pc := 4 * (k + 1)) && Fits(p.cfg, t) && Reaches(p, s, 1, t, [])
  {
    hide Step, Fetch, Reaches, Get, Set, AluValue, IsAlu, IsMemOp;
    FetchAt(p, s, k);
    StepIsOwners(p, s);
    Classes(p.instrs[k].op);
    v := AluValue(p.instrs[k].op, Get(s.regs, p.instrs[k].format.rs1), Operand2(s.regs, p.instrs[k].format));
    t := s.(regs := Set(s.regs, rd, v), pc := 4 * (k + 1));
    OneStep(p, s, t);
  }

  lemma LuiStep(p: Program, s: State) returns (t: State)
    requires Fits(p.cfg, s) && p.cfg == Config(0, 92, 0, p.cfg.memorySz) && s.pc == 0 && 23 <= |p.instrs|
    requires p.instrs[0] == Instruction(LUI, 0, RI(9, 1))
    ensures t == s.(regs := Set(s.regs, 9, BASE), pc := 4) && Fits(p.cfg, t) && Reaches(p, s, 1, t, [])
  {
    hide Step, Fetch, Reaches, Get, Set;
    FetchAt(p, s, 0);
    StepIsOwners(p, s);
    Classes(LUI);
    ShiftedOne();
    t := s.(regs := Set(s.regs, 9, BASE), pc := 4);
    OneStep(p, s, t);
  }

  lemma ShiftedOne()
    ensures U64(Shl(1, 12)) == BASE
  {
    assert Shl(1, 6) == 64;
    assert Shl(64, 6) == 4096;
    assert Shl(1, 12) == Shl(2, 11) == Shl(4, 10) == Shl(8, 9) == Shl(16, 8) == Shl(32, 7) == Shl(64, 6);
  }

  lemma GetSet(r: Regs, i: u32, v: u64, j: u32)
    requires 0 < i <= 31
    ensures Get(Set(r, i, v), j) == if j == i then v else Get(r, j)
  {
  }

  // ------------------------------------------------------------------ the loops

  /** What the loops leave alone: x0, the buffer's address and the two bounds. */
  predicate Env(r: Regs, passes: nat, lineCount: nat) {
    Get(r, 0) == 0 && Get(r, 9) == BASE && Get(r, 10) == passes && Get(r, 11) == lineCount
  }

  /** About to store to line `i` of pass `k`. */
  predicate AtStore(s: State, passes: nat, lineCount: nat, k: nat, i: nat) {
    && s.pc == 60 && Env(s.regs, passes, lineCount)
    && Get(s.regs, 5) == k && Get(s.regs, 6) == i && Get(s.regs, 19) == BASE + 64 * i
  }

  /** The addresses of the lines from `i` up to `end`. */
  function Addresses(i: nat, end: nat): (a: seq<u64>)
    requires i <= end < TWO31
    ensures |a| == end - i
  {
    seq(end - i, j requires 0 <= j < end - i => BASE + 64 * (i + j))
  }

  lemma Code(passes: nat, lineCount: nat, memorySz: u64, k: nat)
    requires Counted(passes, lineCount) && k < 23
    ensures var p := Multiple(passes, lineCount, memorySz);
            |p.instrs| == 23 && p.instrs[k] == if k < 13 then Setup(passes, lineCount)[k] else Loops()[k - 13]
  {
    hide Setup, Loops;
  }

  lemma LoopCode()
    ensures var t := Loops();
            && t[0] == Imm(ADDI, 13, 6, 0, 0) && t[1] == Instruction(ADD, 56, RRR(19, 0, 9))
            && t[2] == Instruction(SD, 60, ROR(20, 19, 0)) && t[3] == Imm(ADDI, 16, 19, 19, 64)
            && t[4] == Imm(ADDI, 17, 6, 6, 1) && t[5] == Imm(BLT, 18, 6, 11, -12) && t[6] == Imm(ADDI, 19, 5, 5, 1)
            && t[7] == Imm(BLT, 20, 5, 10, -28) && t[8] == Imm(ADDI, 21, 17, 0, 2)
            && t[9] == Instruction(ECALL, 88, Ecall)
  {
  }

  /** One turn of the inner loop: one store, and on to the next line or out. */
  lemma InnerTurn(p: Program, s: State, passes: nat, lineCount: nat, k: nat, i: nat) returns (t: State)
    requires Counted(passes, lineCount) && p == Multiple(passes, lineCount, p.cfg.memorySz)
    requires Fits(p.cfg, s) && AtStore(s, passes, lineCount, k, i) && i < lineCount
    requires LineFits(i, p.cfg.memorySz)
    ensures Fits(p.cfg, t) && Reaches(p, s, 4, t, [BASE + 64 * i])
    ensures if i + 1 < lineCount then AtStore(t, passes, lineCount, k, i + 1)
            else t.pc == 76 && Env(t.regs, passes, lineCount) && Get(t.regs, 5) == k
  {
    hide Reaches, Get, Set, Multiple, Loops, Setup;
    LoopCode();
    forall j | 0 <= j < 23 ensures |p.instrs| == 23 && (j >= 13 ==> p.instrs[j] == Loops()[j - 13]) {
      Code(passes, lineCount, p.cfg.memorySz, j);
    }
    var s1 := SdStep(p, s, BASE + 64 * i);
    U64Fixed(BASE + 64 * i + 64);
    var s2 := AddStep(p, s1, 16, 19, BASE + 64 * (i + 1));
    RegsAfter(s1.regs, 19, BASE + 64 * (i + 1), passes, lineCount);
    U64Fixed(i + 1);
    var s3 := AddStep(p, s2, 17, 6, i + 1);
    RegsAfter(s2.regs, 6, i + 1, passes, lineCount);
    t := BltStep(p, s3, 18, 3);
    Chain(p, s, 1, s1, [BASE + 64 * i], 1, s2, []);
    Chain(p, s, 2, s2, [BASE + 64 * i] + [], 1, s3, []);
    Chain(p, s, 3, s3, [BASE + 64 * i] + [] + [], 1, t, []);
    assert [BASE + 64 * i] + [] + [] + [] == [BASE + 64 * i];
  }

  /** A write to a loop register: it has the new value, the others theirs. */
  lemma RegsAfter(r: Regs, i: u32, v: u64, passes: nat, lineCount: nat)
    requires Env(r, passes, lineCount) && (i == 5 || i == 6 || i == 17 || i == 19)
    ensures Env(Set(r, i, v), passes, lineCount) && Get(Set(r, i, v), i) == v
    ensures i != 5 ==> Get(Set(r, i, v), 5) == Get(r, 5)
    ensures i != 6 ==> Get(Set(r, i, v), 6) == Get(r, 6)
    ensures i != 19 ==> Get(Set(r, i, v), 19) == Get(r, 19)
  {
  }

  /** Part of a pass, from line `i` up to line `j`. */
  lemma {:induction false} InnerPart(p: Program, s: State, passes: nat, lineCount: nat, k: nat, i: nat, j: nat)
    returns (t: State)
    requires Counted(passes, lineCount) && p == Multiple(passes, lineCount, p.cfg.memorySz)
    requires Fits(p.cfg, s) && AtStore(s, passes, lineCount, k, i) && i <= j < lineCount
    requires i < j ==> LineFits(j - 1, p.cfg.memorySz)
    ensures Fits(p.cfg, t) && Reaches(p, s, 4 * (j - i), t, Addresses(i, j))
    ensures AtStore(t, passes, lineCount, k, j)
    decreases j - i
  {
    hide Reaches, Env, Get, Multiple;
    if i == j {
      t := s;
      NoSteps(p, s);
      assert Addresses(i, j) == [];
    } else {
      var u := InnerTurn(p, s, passes, lineCount, k, i);
      t := InnerPart(p, u, passes, lineCount, k, i + 1, j);
      Chain(p, s, 4, u, [BASE + 64 * i], 4 * (j - i - 1), t, Addresses(i + 1, j));
      assert [BASE + 64 * i] + Addresses(i + 1, j) == Addresses(i, j);
      assert 4 + 4 * (j - i - 1) == 4 * (j - i);
    }
  }

  /** The rest of a pass from line `i`. */
  lemma InnerLoop(p: Program, s: State, passes: nat, lineCount: nat, k: nat, i: nat) returns (t: State)
    requires Sized(passes, lineCount, p.cfg.memorySz) && p == Multiple(passes, lineCount, p.cfg.memorySz)
    requires Fits(p.cfg, s) && AtStore(s, passes, lineCount, k, i) && i < lineCount
    ensures Fits(p.cfg, t) && Reaches(p, s, 4 * (lineCount - i), t, Addresses(i, lineCount))
    ensures t.pc == 76 && Env(t.regs, passes, lineCount) && Get(t.regs, 5) == k
  {
    hide Reaches, Env, Get, Multiple;
    var last := lineCount - 1;
    var u := InnerPart(p, s, passes, lineCount, k, i, last);
    t := InnerTurn(p, u, passes, lineCount, k, last);
    Chain(p, s, 4 * (last - i), u, Addresses(i, last), 4, t, [BASE + 64 * last]);
    assert Addresses(i, last) + [BASE + 64 * last] == Addresses(i, lineCount);
  }

  /** About to begin pass `k`. */
  predicate AtPass(s: State, passes: nat, lineCount: nat, k: nat) {
    s.pc == 52 && Env(s.regs, passes, lineCount) && Get(s.regs, 5) == k
  }

  /** Into a pass, to its first line. */
  lemma PassStart(p: Program, s: State, passes: nat, lineCount: nat, k: nat) returns (t: State)
    requires Counted(passes, lineCount) && p == Multiple(passes, lineCount, p.cfg.memorySz)
    requires Fits(p.cfg, s) && AtPass(s, passes, lineCount, k)
    ensures Fits(p.cfg, t) && Reaches(p, s, 2, t, []) && AtStore(t, passes, lineCount, k, 0)
  {
    hide Reaches, Get, Set, Multiple, Loops, Setup;
    LoopCode();
    forall j | 0 <= j < 23 ensures |p.instrs| == 23 && (j >= 13 ==> p.instrs[j] == Loops()[j - 13]) {
      Code(passes, lineCount, p.cfg.memorySz, j);
    }
    U64Fixed(0);
    var u := AddStep(p, s, 13, 6, 0);
    RegsAfter(s.regs, 6, 0, passes, lineCount);
    U64Fixed(BASE);
    t := AddStep(p, u, 14, 19, BASE);
    RegsAfter(u.regs, 19, BASE, passes, lineCount);
    var none: seq<u64> := [];
    Chain(p, s, 1, u, none, 1, t, none);
    assert none + none == none;
  }

  /** One whole pass, and on to the next one or out. */
  lemma OnePass(p: Program, s: State, passes: nat, lineCount: nat, k: nat) returns (t: State)
    requires Sized(passes, lineCount, p.cfg.memorySz) && p == Multiple(passes, lineCount, p.cfg.memorySz)
    requires Fits(p.cfg, s) && AtPass(s, passes, lineCount, k) && k < passes
    ensures Fits(p.cfg, t) && Reaches(p, s, 4 * lineCount + 4, t, Addresses(0, lineCount))
    ensures if k + 1 < passes then AtPass(t, passes, lineCount, k + 1)
            else t.pc == 84 && Env(t.regs, passes, lineCount)
  {
    hide Reaches, Get, Set, Multiple, Loops, Setup;
    LoopCode();
    forall j | 0 <= j < 23 ensures |p.instrs| == 23 && (j >= 13 ==> p.instrs[j] == Loops()[j - 13]) {
      Code(passes, lineCount, p.cfg.memorySz, j);
    }
    var a := Addresses(0, lineCount);
    var s2 := PassStart(p, s, passes, lineCount, k);
    var s3 := InnerLoop(p, s2, passes, lineCount, k, 0);
    U64Fixed(k + 1);
    var s4 := AddStep(p, s3, 19, 5, k + 1);
    RegsAfter(s3.regs, 5, k + 1, passes, lineCount);
    t := BltStep(p, s4, 20, 7);
    Chain(p, s, 2, s2, [], 4 * lineCount, s3, a);
    Chain(p, s, 2 + 4 * lineCount, s3, [] + a, 1, s4, []);
    Chain(p, s, 3 + 4 * lineCount, s4, [] + a + [], 1, t, []);
    assert [] + a + [] + [] == a;
  }

  /** The addresses of `n` passes. */
  function Repeated(n: nat, lineCount: nat): seq<u64>
    requires lineCount < TWO31
  {
    if n == 0 then [] else Addresses(0, lineCount) + Repeated(n - 1, lineCount)
  }

  lemma {:induction false} AllPasses(p: Program, s: State, passes: nat, lineCount: nat, k: nat) returns (t: State)
    requires Sized(passes, lineCount, p.cfg.memorySz) && p == Multiple(passes, lineCount, p.cfg.memorySz)
    requires Fits(p.cfg, s) && AtPass(s, passes, lineCount, k) && k < passes
    ensures Fits(p.cfg, t) && t.pc == 84 && Env(t.regs, passes, lineCount)
    ensures Reaches(p, s, (passes - k) * (4 * lineCount + 4), t, Repeated(passes - k, lineCount))
    decreases passes - k
  {
    hide Reaches, Env, Get, Multiple;
    var a, m := Addresses(0, lineCount), 4 * lineCount + 4;
    t := OnePass(p, s, passes, lineCount, k);
    if k + 1 < passes {
      var u := t;
      t := AllPasses(p, u, passes, lineCount, k + 1);
      Chain(p, s, m, u, a, (passes - k - 1) * m, t, Repeated(passes - k - 1, lineCount));
      assert m + (passes - k - 1) * m == (passes - k) * m;
    } else {
      assert Repeated(1, lineCount) == a + Repeated(0, lineCount) == a;
      assert (passes - k) * m == m;
    }
  }

  // ------------------------------------------------------------------ setup and exit

  lemma SetupCode(passes: s64, lineCount: s64)
    ensures var t := Setup(passes, lineCount);
            && t[0] == Instruction(LUI, 0, RI(9, 1)) && t[1] == Imm(ADDI, 1, 9, 9, 0)
            && (forall j :: 2 < j < 10 ==> ScratchOp(t[j])) && t[2] == Instruction(LUI, 8, RI(18, 6699))
            && t[10] == Imm(ADDI, 10, 10, 0, passes) && t[11] == Imm(ADDI, 11, 11, 0, lineCount)
            && t[12] == Imm(ADDI, 12, 5, 0, 0)
  {
  }

  /** Arithmetic on x18 alone. */
  predicate ScratchOp(i: Instruction) {
    (i.op.ADDI? || i.op.ADDIW? || i.op.SLLI?) && i.format.RRI? && i.format.rd == 18
  }

  lemma ScratchIsAlu(i: Instruction)
    requires ScratchOp(i)
    ensures IsAlu(i.op)
  {
  }

  /** Building the constant in x18: `n` steps from index 3. */
  lemma {:induction false} Scratch(p: Program, s: State, k: nat) returns (t: State)
    requires p.cfg == Config(0, 92, 0, p.cfg.memorySz) && Fits(p.cfg, s) && 3 <= k <= 10 && 23 <= |p.instrs|
    requires s.pc == 4 * k && forall j :: 2 < j < 10 ==> ScratchOp(p.instrs[j])
    ensures Fits(p.cfg, t) && Reaches(p, s, 10 - k, t, []) && t.pc == 40
    ensures forall r: u32 :: r != 18 ==> Get(t.regs, r) == Get(s.regs, r)
    decreases 10 - k
  {
    hide Reaches, IsAlu, Get, Set, ScratchOp;
    if k == 10 {
      t := s;
      NoSteps(p, s);
    } else {
      assert ScratchOp(p.instrs[k]);
      ScratchIsAlu(p.instrs[k]);
      ScratchTarget(p.instrs[k]);
      var u, v := SomeStep(p, s, k, 18);
      forall r: u32 | r != 18 ensures Get(u.regs, r) == Get(s.regs, r) {
        GetSet(s.regs, 18, v, r);
      }
      t := Scratch(p, u, k + 1);
      var none: seq<u64> := [];
      Chain(p, s, 1, u, none, 10 - k - 1, t, none);
      assert none + none == none;
    }
  }

  lemma ScratchTarget(i: Instruction)
    requires ScratchOp(i)
    ensures i.format.RRI? && i.format.rd == 18
  {
  }

  lemma NoSteps(p: Program, s: State)
    requires Fits(p.cfg, s)
    ensures Reaches(p, s, 0, s, [])
  {
  }

  /** The second LUI, into the scratch register. */
  lemma ScratchLui(p: Program, s: State) returns (t: State, v: u64)
    requires Fits(p.cfg, s) && p.cfg == Config(0, 92, 0, p.cfg.memorySz) && s.pc == 8 && 23 <= |p.instrs|
    requires p.instrs[2] == Instruction(LUI, 8, RI(18, 6699))
    ensures t == s.(regs := Set(s.regs, 18, v), pc := 12) && Fits(p.cfg, t) && Reaches(p, s, 1, t, [])
  {
    hide Step, Fetch, Reaches, Get, Set, Shl, U64;
    FetchAt(p, s, 2);
    StepIsOwners(p, s);
    Classes(LUI);
    v := U64(Shl(6699, 12));
    t := s.(regs := Set(s.regs, 18, v), pc := 12);
    OneStep(p, s, t);
  }

  /** From reset to the first pass in 13 steps without a memory access. */
  lemma SetupRun(p: Program, s: State, passes: nat, lineCount: nat) returns (t: State)
    requires Counted(passes, lineCount) && p == Multiple(passes, lineCount, p.cfg.memorySz)
    requires Fits(p.cfg, s) && s.pc == 0 && forall r: u32 :: Get(s.regs, r) == 0
    ensures Fits(p.cfg, t) && Reaches(p, s, 13, t, []) && AtPass(t, passes, lineCount, 0)
  {
    hide Reaches, Get, Set, Multiple, Loops, Setup, ScratchOp;
    SetupCode(passes, lineCount);
    forall j | 0 <= j < 23 ensures |p.instrs| == 23 && (j < 13 ==> p.instrs[j] == Setup(passes, lineCount)[j]) {
      Code(passes, lineCount, p.cfg.memorySz, j);
    }
    var s1 := LuiStep(p, s);
    GetSetAll(s.regs, 9, BASE);
    U64Fixed(BASE);
    var s2 := AddStep(p, s1, 1, 9, BASE);
    GetSetAll(s1.regs, 9, BASE);
    var s3, v := ScratchLui(p, s2);
    GetSetAll(s2.regs, 18, v);
    var s4 := Scratch(p, s3, 3);
    U64Fixed(passes);
    var s5 := AddStep(p, s4, 10, 10, passes);
    GetSetAll(s4.regs, 10, passes);
    U64Fixed(lineCount);
    var s6 := AddStep(p, s5, 11, 11, lineCount);
    GetSetAll(s5.regs, 11, lineCount);
    U64Fixed(0);
    t := AddStep(p, s6, 12, 5, 0);
    GetSetAll(s6.regs, 5, 0);
    var none: seq<u64> := [];
    assert none + none == none;
    Chain(p, s, 1, s1, none, 1, s2, none);
    Chain(p, s, 2, s2, none, 1, s3, none);
    Chain(p, s, 3, s3, none, 7, s4, none);
    Chain(p, s, 10, s4, none, 1, s5, none);
    Chain(p, s, 11, s5, none, 1, s6, none);
    Chain(p, s, 12, s6, none, 1, t, none);
  }

  lemma GetSetAll(r: Regs, i: u32, v: u64)
    requires 0 < i <= 31
    ensures forall j: u32 :: Get(Set(r, i, v), j) == if j == i then v else Get(r, j)
  {
  }

  /** From the end of the loops: x17 becomes 2 and the system call stops the run. */
  lemma {:induction false} ExitRun(p: Program, s: State, passes: nat, lineCount: nat, n: nat)
    requires Counted(passes, lineCount) && p == Multiple(passes, lineCount, p.cfg.memorySz)
    requires Fits(p.cfg, s) && s.pc == 84 && Env(s.regs, passes, lineCount) && n >= 2
    ensures Run(p, s, n).outcome == Stopped(Some(ExitException)) && Trace(p, s, n) == []
  {
    hide Reaches, Get, Set, Multiple, Loops, Setup, Step, Run, Trace, Fetch;
    LoopCode();
    Code(passes, lineCount, p.cfg.memorySz, 21);
    Code(passes, lineCount, p.cfg.memorySz, 22);
    U64Fixed(2);
    var t := AddStep(p, s, 21, 17, 2);
    RegsAfter(s.regs, 17, 2, passes, lineCount);
    FetchAt(p, t, 22);
    StepIsOwners(p, t);
    StopsAt(p, t, n - 1);
    ReachesThen(p, s, 1, t, [], n - 1);
  }

  lemma {:induction false} StopsAt(p: Program, s: State, n: nat)
    requires Fits(p.cfg, s) && n > 0 && Step(p, s).Fault?
    ensures Run(p, s, n) == RunResult(Step(p, s).s, Stopped(Step(p, s).e)) && Trace(p, s, n) == []
  {
    hide Step;
  }

  lemma ReachesThen(p: Program, s: State, m: nat, t: State, a: seq<u64>, n: nat)
    requires Fits(p.cfg, s) && Fits(p.cfg, t) && Reaches(p, s, m, t, a)
    ensures Run(p, s, m + n) == Run(p, t, n) && Trace(p, s, m + n) == a + Trace(p, t, n)
  {
    hide Run, Trace;
    RunSum(p, s, m, n);
    TraceSum(p, s, m, n);
  }

  // ------------------------------------------------------------------ what the cache counts

  lemma {:induction false} PassSweepCommute(base: nat, len: nat, n: nat)
    ensures Pass(base, len) + Sweep(base, len, n) == Sweep(base, len, n + 1)
  {
    hide Pass;
    if n > 0 {
      PassSweepCommute(base, len, n - 1);
      var a, b := Pass(base, len), Sweep(base, len, n - 1);
      assert a + (b + a) == (a + b) + a;
    } else {
      assert Sweep(base, len, 0) + Pass(base, len) == Pass(base, len) == Pass(base, len) + Sweep(base, len, 0);
    }
  }

  lemma BlocksOfPass(lineCount: nat)
    requires lineCount < TWO31
    ensures Blocks(Addresses(0, lineCount)) == Pass(64, lineCount)
  {
  }

  lemma BlocksConcat(a: seq<u64>, b: seq<u64>)
    ensures Blocks(a + b) == Blocks(a) + Blocks(b)
  {
  }

  lemma {:induction false} RepeatedIsSweep(n: nat, lineCount: nat)
    requires lineCount < TWO31
    ensures Blocks(Repeated(n, lineCount)) == Sweep(64, lineCount, n)
    ensures |Repeated(n, lineCount)| == n * lineCount
  {
    hide Blocks, Addresses, Pass;
    if n > 0 {
      RepeatedIsSweep(n - 1, lineCount);
      PassSweepCommute(64, lineCount, n - 1);
      BlocksOfPass(lineCount);
      BlocksConcat(Addresses(0, lineCount), Repeated(n - 1, lineCount));
      assert lineCount + (n - 1) * lineCount == n * lineCount;
    }
  }

  lemma CostFits(lineCount: nat, passes: nat, sets: nat)
    requires 0 < passes < TWO31 && lineCount < TWO31 && sets > 0
    ensures 0 <= SweepCost(lineCount, passes, sets) <= passes * lineCount < TWO64
  {
    Products(lineCount, passes);
    MissBounds(Sweep(64, lineCount, passes), sets);
    SweepMisses(64, lineCount, passes, sets);
    RepeatedIsSweep(passes, lineCount);
  }

  lemma Products(a: nat, b: nat)
    requires a < TWO31 && b < TWO31
    ensures b * a < TWO64
  {
    Division.Monotone(b, TWO31, a);
  }

  /** For any number of passes, any number of lines that fit data memory, and any cache: the program exits,
      having made one access for each line of each pass, and missed exactly as the sweep formula says. */
  lemma {:induction false} MultipleRuns(passes: nat, lineCount: nat, memorySz: u64, sets: nat, n: nat)
    requires Sized(passes, lineCount, memorySz) && sets > 0
    requires n >= 13 + passes * (4 * lineCount + 4) + 2
    ensures var p := Multiple(passes, lineCount, memorySz);
            var r := Run(p, Reset(p.cfg, sets), n);
            && r.outcome == Stopped(Some(ExitException))
            && r.s.cache.accesses == passes * lineCount
            && r.s.cache.misses == SweepCost(lineCount, passes, sets)
  {
    hide Run, Trace, Reaches, Multiple, AccessAll, Misses, Env, SweepCost, Get, U64;
    var p := Multiple(passes, lineCount, memorySz);
    var s, m := Reset(p.cfg, sets), passes * (4 * lineCount + 4);
    ResetRegs(p.cfg, sets);
    var t := SetupRun(p, s, passes, lineCount);
    var u := AllPasses(p, t, passes, lineCount, 0);
    Chain(p, s, 13, t, [], m, u, Repeated(passes, lineCount));
    ExitRun(p, u, passes, lineCount, n - 13 - m);
    var a := [] + Repeated(passes, lineCount);
    ReachesThen(p, s, 13 + m, u, a, n - 13 - m);
    assert a + [] == Repeated(passes, lineCount);
    RunCache(p, s, n);
    FreshCounters(sets, Repeated(passes, lineCount));
    RepeatedIsSweep(passes, lineCount);
    SweepMisses(64, lineCount, passes, sets);
    CostFits(lineCount, passes, sets);
    U64Fixed(passes * lineCount);
    U64Fixed(SweepCost(lineCount, passes, sets));
  }

  /** The number of lines that fit data memory. */
  function Fitting(memorySz: u64): nat {
    if LineFits(0, memorySz) then (92 + memorySz - BASE - 8) / 64 + 1 else 0
  }

  lemma FittingLines(memorySz: u64, i: nat)
    ensures LineFits(i, memorySz) <==> i < Fitting(memorySz)
  {
  }

  /** With more lines than fit, the program stops in its first pass at the first line that does not, having
      made one access to each line that does and missed on all of them, whatever the cache. */
  lemma {:induction false} MultipleFaults(passes: nat, lineCount: nat, memorySz: u64, sets: nat, n: nat)
    requires Counted(passes, lineCount) && !LineFits(lineCount - 1, memorySz) && sets > 0
    requires n > 13 + 2 + 4 * Fitting(memorySz)
    ensures var p := Multiple(passes, lineCount, memorySz);
            var r := Run(p, Reset(p.cfg, sets), n);
            && r.outcome == Stopped(Some(MemoryException))
            && r.s.cache.accesses == r.s.cache.misses == Fitting(memorySz)
  {
    hide Run, Trace, Reaches, Multiple, AccessAll, Misses, Env, SweepCost, Get, U64, Fitting, Step, Loops, Setup;
    var p, f := Multiple(passes, lineCount, memorySz), Fitting(memorySz);
    var s := Reset(p.cfg, sets);
    ResetRegs(p.cfg, sets);
    FittingLines(memorySz, lineCount - 1);
    FittingLines(memorySz, f);
    var t := SetupRun(p, s, passes, lineCount);
    var u := PassStart(p, t, passes, lineCount, 0);
    if f > 0 {
      FittingLines(memorySz, f - 1);
    }
    var v := InnerPart(p, u, passes, lineCount, 0, 0, f);
    Code(passes, lineCount, memorySz, 15);
    LoopCode();
    SdFault(p, v, BASE + 64 * f);
    var a, m := Addresses(0, f), 13 + 2 + 4 * f;
    Chain(p, s, 13, t, [], 2, u, []);
    Chain(p, s, 13 + 2, u, [] + [], 4 * f, v, a);
    StopsAt(p, v, n - m);
    ReachesThen(p, s, m, v, [] + [] + a, n - m);
    assert [] + [] + a + [] == a;
    RunCache(p, s, n);
    FreshCounters(sets, a);
    BlocksOfPass(f);
    OneSweep(f, sets);
    U64Fixed(f);
  }

  lemma {:induction false} OneSweep(len: nat, sets: nat)
    requires sets > 0
    ensures Misses(Pass(64, len), sets) == len
  {
    hide Misses, Pass;
    assert Sweep(64, len, 0) == [];
    assert Sweep(64, len, 1) == [] + Pass(64, len) == Pass(64, len);
    SweepMisses(64, len, 1, sets);
  }

  lemma ResetRegs(cfg: Config, sets: nat)
    requires sets > 0
    ensures forall r: u32 :: Get(Reset(cfg, sets).regs, r) == 0
    ensures Reset(cfg, sets).pc == cfg.entryAddress && Reset(cfg, sets).cache == Fresh(sets)
  {
  }
}
