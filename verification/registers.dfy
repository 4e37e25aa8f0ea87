/** The register file of src/registers.c. */
module RegisterFile {
  import opened Words

  type Regs = r: seq<u64> | |r| == 32 witness seq(32, _ => 0)

  /** Register `i`; numbers that name no register read as 0. */
  function Get(r: Regs, i: u32): u64 {
    if i > 31 then 0 else r[i]
  }

  /** Register `i` replaced; x0 and numbers that name no register are left alone. */
  function Set(r: Regs, i: u32, v: u64): Regs {
    if i > 31 || i == 0 then r else r[i := v]
  }

  class Registers {
    const regs: array<u64>
    var pc: u64
    ghost var pcWrites: nat  // how often the PC was set, for the claim that a step sets it once

    ghost predicate Valid()
    {
      regs.Length == 32
    }

    /** `registers_alloc` */
    constructor (initPcValue: u64)
      ensures Valid() && fresh(regs)
      ensures pc == initPcValue
      ensures regs[..] == seq(32, _ => 0)
    {
      pc := initPcValue;
      pcWrites := 0;
      regs := new u64[32];
      new;
      for i := 0 to 32
        invariant forall j :: 0 <= j < i ==> regs[j] == 0
        invariant pc == initPcValue
      {
        regs[i] := 0;
      }
    }

    /** `registers_getreg` */
    method GetReg(regno: u32) returns (v: u64)
      requires Valid()
      ensures v == if regno < 32 then regs[regno] else 0
    {
      if regno > 31 {
        return 0;
      }
      return regs[regno];
    }

    /** `registers_setreg` */
    method SetReg(regno: u32, value: u64)
      requires Valid()
      modifies regs
      ensures regs[..] == if 0 < regno < 32 then old(regs[..])[regno := value] else old(regs[..])
    {
      if regno > 31 {
        return;
      }
      if regno != 0 {
        regs[regno] := value;
      }
    }

    /** `registers_getpc`, which returns an `unsigned int`: the high half of the stored PC is lost. */
    method GetPc() returns (v: u32)
      ensures v == U32(pc)
    {
      return U32(pc);
    }

    /** `registers_setpc` */
    method SetPc(value: u64)
      modifies this`pc, this`pcWrites
      ensures pc == value && pcWrites == old(pcWrites) + 1
    {
      pc := value;
      pcWrites := pcWrites + 1;
    }
  }
}
