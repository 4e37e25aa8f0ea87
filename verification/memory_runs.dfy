/** RAM over whole runs: it is what the completed stores made of it, so a load returns what was last
    stored at its address however many instructions ran in between. */
module MemoryRuns {
  import opened Options
  import opened Words
  import opened Instructions
  import opened RegisterFile
  import opened MemoryModel
  import opened MemoryLaws
  import opened CacheModel
  import opened Machine
  import opened Steps

  /** The address of the load or store at the PC. */
  function AddressAt(p: Program, s: State): u64
    requires IsMemOp(Fetch(p, s).op)
  {
    FormatsFit(Fetch(p, s));
    EffectiveAddress(s.regs, Fetch(p, s).format)
  }

  /** The store a step completes, if it does: where in RAM, how wide, and the register stored. */
  function Stored(p: Program, s: State): (o: Option<StoreOp>)
    requires Fits(p.cfg, s)
    ensures o.Some? ==> IsMemOp(Fetch(p, s).op) && o.value.i + o.value.w <= |s.ram|
  {
    var i := Fetch(p, s);
    if Cause(p, s).None? && IsStore(i.op) then
      FormatsFit(i);
      var addr := AddressAt(p, s);
      AccessibleIsInRam(p.cfg, addr, Width(i.op));
      Some(StoreOp(addr - p.cfg.instrUpper, Width(i.op), Get(s.regs, i.format.r2)))
    else None
  }

  /** The stores completed in the first `n` steps, in order. */
  function StoresOf(p: Program, s: State, n: nat): (ops: seq<StoreOp>)
    requires Fits(p.cfg, s)
    ensures Inside(ops, |s.ram|)
    decreases n
  {
    if n == 0 then []
    else
      match Step(p, s)
      case Fault(_, _) => []
      case Next(t) => (if Stored(p, s).Some? then [Stored(p, s).value] else []) + StoresOf(p, t, n - 1)
  }

  lemma StepStores(p: Program, s: State)
    requires Fits(p.cfg, s) && Step(p, s).Next?
    ensures Step(p, s).s.ram ==
            match Stored(p, s)
            case Some(o) => Store(s.ram, o.i, o.w, o.v)
            case None => s.ram
  {
    hide Step, Fetch, Accessible, AluValue, FlowRegs, NextPc, OperandsOf, Load, Store, AfterAccess, Extend, Get, Set,
         Shl, U64, IsAlu, IsStore, IsLoad, IsBranch, IsFlowOp, WellFormed, Operand2, Width;
    StepIsOwners(p, s);
    FormatsFit(Fetch(p, s));
    Classes(Fetch(p, s).op);
  }

  lemma {:induction false} NoStores(ram: seq<u8>)
    ensures Inside([], |ram|) && ApplyAll(ram, []) == ram
  {
  }

  /** The RAM a run leaves is the RAM it began with after its completed stores, one by one. */
  lemma {:induction false} RamIsStores(p: Program, s: State, n: nat)
    requires Fits(p.cfg, s)
    ensures Run(p, s, n).s.ram == ApplyAll(s.ram, StoresOf(p, s, n))
    decreases n
  {
    hide Step, Stored, Store, Cause, Completed, ApplyAll, Inside;
    StepIsOwners(p, s);
    NoStores(s.ram);
    if n > 0 && Step(p, s).Next? {
      var t := Step(p, s).s;
      RamIsStores(p, t, n - 1);
      StepStores(p, s);
      if Stored(p, s).Some? {
        ApplyOne(s.ram, Stored(p, s).value);
        assert StoresOf(p, s, n) == [Stored(p, s).value] + StoresOf(p, t, n - 1);
        ApplyAllCons(s.ram, Stored(p, s).value, StoresOf(p, t, n - 1));
      } else {
        assert StoresOf(p, s, n) == StoresOf(p, t, n - 1);
      }
    }
  }

  /** What a load makes of a stored register: its low 1, 2, 4 or 8 bytes, extended. */
  function Reloaded(op: Opcode, v: u64): u64
    requires IsLoad(op)
  {
    match op
    case LBU => v % 0x100
    case LHU => v % 0x1_0000
    case LWU => U32(v)
    case LD => v
    case LB => U64(if v % 0x100 < 0x80 then v % 0x100 else v % 0x100 - 0x100)
    case LH => U64(if v % 0x1_0000 < 0x8000 then v % 0x1_0000 else v % 0x1_0000 - 0x1_0000)
    case LW => U64(S32(v))
  }

  lemma {:induction false} Reload(op: Opcode, ram: seq<u8>, i: nat, v: u64, ops: seq<StoreOp>)
    requires IsLoad(op) && i + Width(op) <= |ram| && Inside(ops, |ram|) && DisjointFrom(ops, i, Width(op))
    ensures Extend(Load(ApplyAll(Store(ram, i, Width(op), v), ops), i, Width(op)), Width(op), IsSignedLoad(op))
            == Reloaded(op, v)
  {
    hide Store, Load, ApplyAll, DisjointFrom, Inside, Extend;
    StoreLoadRoundTrip(ram, i, v, ops, Width(op));
  }

  lemma StoreCompletes(p: Program, s: State)
    requires Fits(p.cfg, s) && Stored(p, s).Some?
    ensures Step(p, s).Next?
    ensures var o := Stored(p, s).value;
            && o.v < TWO64 && o.i + o.w <= |s.ram|
            && AddressAt(p, s) - p.cfg.instrUpper == o.i && Accessible(p.cfg, AddressAt(p, s), o.w)
  {
    hide Step, Fetch, Accessible, Completed, Get, EffectiveAddress, Width, IsStore;
    StepIsOwners(p, s);
    Classes(Fetch(p, s).op);
  }

  lemma StoreKeepsRegs(p: Program, s: State)
    requires Fits(p.cfg, s) && Stored(p, s).Some?
    ensures Step(p, s).s.regs == s.regs && Step(p, s).s.pc == VisiblePc(s) + 4
  {
    hide Step, Fetch, Accessible, Get, EffectiveAddress, Store, AfterAccess;
    StepIsOwners(p, s);
    Classes(Fetch(p, s).op);
  }

  lemma LoadCompletes(p: Program, u: State)
    requires Fits(p.cfg, u) && InRange(p.cfg, VisiblePc(u)) && IsLoad(Fetch(p, u).op)
    requires Accessible(p.cfg, AddressAt(p, u), Width(Fetch(p, u).op))
    ensures var i, w, at := Fetch(p, u), Width(Fetch(p, u).op), AddressAt(p, u) - p.cfg.instrUpper;
            && 0 <= at && at + w <= |u.ram| && i.format.ROR? && Step(p, u).Next?
            && Step(p, u).s.regs == Set(u.regs, i.format.r2, Extend(Load(u.ram, at, w), w, IsSignedLoad(i.op)))
  {
    hide Step, Fetch, Load, Extend, Get, Set, EffectiveAddress, AfterAccess;
    StepIsOwners(p, u);
    FormatsFit(Fetch(p, u));
    AccessibleIsInRam(p.cfg, AddressAt(p, u), Width(Fetch(p, u).op));
  }

  /** A completed store, any run whose completed stores are disjoint from it, then a load of the same
      width at the same address: the load completes, and its register holds the low bytes of the
      register stored, sign-extended by LB, LH and LW and zero-extended by the others. */
  lemma {:induction false} StoreThenLoad(p: Program, s: State, n: nat)
    requires Fits(p.cfg, s) && Stored(p, s).Some?
    requires var o, r := Stored(p, s).value, Run(p, Step(p, s).s, n);
             var op := Fetch(p, r.s).op;
             && DisjointFrom(StoresOf(p, Step(p, s).s, n), o.i, o.w)
             && r.outcome.StillRunning? && InRange(p.cfg, VisiblePc(r.s))
             && IsLoad(op) && Width(op) == o.w
             && AddressAt(p, r.s) == AddressAt(p, s)
    ensures Step(p, s).Next?
    ensures var u := Run(p, Step(p, s).s, n).s;
            var i := Fetch(p, u);
            && i.format.ROR? && Step(p, u).Next?
            && Step(p, u).s.regs == Set(u.regs, i.format.r2, Reloaded(i.op, Stored(p, s).value.v))
  {
    hide Step, Fetch, Run, StoresOf, Stored, Store, Load, ApplyAll, DisjointFrom, Inside, Extend, Get, Set, Accessible,
         AddressAt, Reloaded, IsLoad, IsMemOp, Width, U64, AfterAccess;
    var o, t := Stored(p, s).value, Step(p, s).s;
    var u := Run(p, t, n).s;
    StoreCompletes(p, s);
    StepStores(p, s);
    RamIsStores(p, t, n);
    LoadCompletes(p, u);
    Reload(Fetch(p, u).op, s.ram, o.i, o.v, StoresOf(p, t, n));
  }

  lemma {:induction false} ZeroBytes(k: nat)
    ensures Byte(0, k) == 0
  {
    if k > 0 {
      ZeroBytes(k - 1);
    }
  }

  lemma {:induction false} UnwrittenByte(ram: seq<u8>, ops: seq<StoreOp>, j: nat)
    requires Inside(ops, |ram|) && j < |ram| && ram[j] == 0
    requires forall m :: 0 <= m < |ops| ==> !ops[m].Covers(j)
    ensures ApplyAll(ram, ops)[j] == 0
  {
    LastWriterWins(ram, ops, j, 0);
  }

  /** From reset, a load that no completed store of the run overlaps leaves 0 in its register. */
  lemma {:induction false} UnwrittenIsZero(p: Program, sets: nat, n: nat)
    requires sets > 0
    requires var s, u := Reset(p.cfg, sets), Run(p, Reset(p.cfg, sets), n).s;
             var op := Fetch(p, u).op;
             && InRange(p.cfg, VisiblePc(u)) && IsLoad(op) && Accessible(p.cfg, AddressAt(p, u), Width(op))
             && DisjointFrom(StoresOf(p, s, n), AddressAt(p, u) - p.cfg.instrUpper, Width(op))
    ensures var u := Run(p, Reset(p.cfg, sets), n).s;
            var i := Fetch(p, u);
            i.format.ROR? && Step(p, u).Next? && Step(p, u).s.regs == Set(u.regs, i.format.r2, 0)
  {
    hide Step, Fetch, Run, StoresOf, Store, Load, ApplyAll, Get, Set, Accessible, AddressAt, Width;
    var s := Reset(p.cfg, sets);
    var u := Run(p, s, n).s;
    var i := Fetch(p, u);
    var at, w := AddressAt(p, u) - p.cfg.instrUpper, Width(i.op);
    RamIsStores(p, s, n);
    LoadCompletes(p, u);
    forall k | 0 <= k < w ensures u.ram[at + k] == Byte(0, k) {
      UnwrittenByte(s.ram, StoresOf(p, s, n), at + k);
      ZeroBytes(k);
    }
    LoadOfBytes(u.ram, at, w, 0);
  }

  /** `sd x1,8(x0)` and `ld x2,8(x0)`. */
  function StoreAndLoad(): (p: Program)
    ensures p.cfg == Config(0, 8, 0, 8) && |p.instrs| == 2
    ensures p.instrs[0] == Instruction(SD, 0, ROR(1, 0, 8)) && p.instrs[1] == Instruction(LD, 4, ROR(2, 0, 8))
  {
    ProgramData(Config(0, 8, 0, 8), [Instruction(SD, 0, ROR(1, 0, 8)), Instruction(LD, 4, ROR(2, 0, 8))])
  }

  /** The smallest instance: x2 receives what x1 held. */
  lemma {:induction false} CopyThroughMemory(s: State, v: u64)
    requires Fits(StoreAndLoad().cfg, s) && s.pc == 0 && Get(s.regs, 0) == 0 && Get(s.regs, 1) == v
    ensures Run(StoreAndLoad(), s, 2).outcome.StillRunning?
    ensures Get(Run(StoreAndLoad(), s, 2).s.regs, 2) == v
  {
    hide Step, StoreAndLoad, Get, Set, Store, Load, AfterAccess, Extend;
    var p := StoreAndLoad();
    assert Fetch(p, s) == p.instrs[0];
    assert Stored(p, s) == Some(StoreOp(0, 8, v));
    StoreKeepsRegs(p, s);
    var t := Step(p, s).s;
    assert t.pc == 4 && Fetch(p, t) == p.instrs[1];
    assert Run(p, t, 0) == RunResult(t, StillRunning) && StoresOf(p, t, 0) == [];
    Classes(LD);
    StoreThenLoad(p, s, 0);
    assert Get(Set(t.regs, 2, v), 2) == v by { GetOfSet(t.regs, v); }
    assert Run(p, s, 2) == Run(p, t, 1) == Run(p, Step(p, t).s, 0);
  }

  lemma GetOfSet(r: Regs, v: u64)
    ensures Get(Set(r, 2, v), 2) == v
  {
  }
}
