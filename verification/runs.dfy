/** Whole runs: what the cache can and cannot influence, what it counts, and the invariants
    of every reachable state. */
module Runs {
  import opened Options
  import opened Words
  import opened MemoryModel
  import opened CacheModel
  import opened CacheTraces
  import opened Machine
  import opened Steps

  // ------------------------------------------------------------------ the cache is write-only

  /** The address a step accesses in memory, if it completes a load or store. */
  function Accessed(p: Program, s: State): Option<u64>
  {
    var i := Fetch(p, s);
    if Cause(p, s).None? && IsMemOp(i.op) then Some(EffectiveAddress(s.regs, i.format)) else None
  }

  /** The addresses accessed in the first `n` steps, in order. */
  function Trace(p: Program, s: State, n: nat): seq<u64>
    requires Fits(p.cfg, s)
    decreases n
  {
    if n == 0 then []
    else
      match Step(p, s)
      case Fault(_, _) => []
      case Next(t) => (if Accessed(p, s).Some? then [Accessed(p, s).value] else []) + Trace(p, t, n - 1)
  }

  /** The loads and stores completed in the first `n` steps. */
  function MemoryOpsDone(p: Program, s: State, n: nat): nat
    requires Fits(p.cfg, s)
    decreases n
  {
    if n == 0 then 0
    else
      match Step(p, s)
      case Fault(_, _) => 0
      case Next(t) => (if IsMemOp(Fetch(p, s).op) then 1 else 0) + MemoryOpsDone(p, t, n - 1)
  }

  function Touch(c: CacheState, a: Option<u64>): (r: CacheState)
    requires |c.lines| > 0
    ensures |r.lines| == |c.lines|
  {
    if a.Some? then AfterAccess(c, a.value) else c
  }

  /** Replacing the cache changes nothing in a step but the cache. */
  lemma StepWithCache(p: Program, s: State, c: CacheState)
    requires Fits(p.cfg, s) && |c.lines| > 0
    ensures var s' := s.(cache := c);
            && Accessed(p, s') == Accessed(p, s)
            && Fetch(p, s') == Fetch(p, s)
            && Step(p, s') ==
               match Step(p, s)
               case Next(t) => Next(t.(cache := Touch(c, Accessed(p, s))))
               case Fault(t, e) => Fault(t.(cache := c), e)
    ensures Step(p, s).Next? ==> Step(p, s).s.cache == Touch(s.cache, Accessed(p, s))
  {
    hide Step, Accessible, AluValue, FlowRegs, NextPc, OperandsOf, Load, Store, AfterAccess, Extend, Shl, U64,
         IsAlu, IsStore, IsLoad, IsFlowOp, InstructionAt, FetchOffset, EffectiveAddress, Operand2;
    var s' := s.(cache := c);
    assert Fetch(p, s') == Fetch(p, s);
    assert Cause(p, s') == Cause(p, s);
    StepIsOwners(p, s);
    StepIsOwners(p, s');
  }

  lemma {:induction false} AccessAllCons(c: CacheState, a: u64, t: seq<u64>)
    requires |c.lines| > 0
    ensures AccessAll(c, [a] + t) == AccessAll(AfterAccess(c, a), t)
  {
    hide AfterAccess;
    if t == [] {
      assert Front([a] + t) == [] && Last([a] + t) == a;
    } else {
      assert Front([a] + t) == [a] + Front(t) && Last([a] + t) == Last(t);
      AccessAllCons(c, a, Front(t));
    }
  }

  /** The cache never feeds back into a run: with any other cache the run has the same outcome,
      registers, PC, RAM and access trace, and its cache is that cache after that trace. */
  lemma {:induction false} RunWithCache(p: Program, s: State, c: CacheState, n: nat)
    requires Fits(p.cfg, s) && |c.lines| > 0
    ensures Trace(p, s.(cache := c), n) == Trace(p, s, n)
    ensures Run(p, s.(cache := c), n) ==
            RunResult(Run(p, s, n).s.(cache := AccessAll(c, Trace(p, s, n))), Run(p, s, n).outcome)
    decreases n
  {
    hide Step, Accessed, AfterAccess;
    if n > 0 {
      StepWithCache(p, s, c);
      if Step(p, s).Next? {
        var t := Step(p, s).s;
        var c' := Touch(c, Accessed(p, s));
        RunWithCache(p, t, c', n - 1);
        if Accessed(p, s).Some? {
          AccessAllCons(c, Accessed(p, s).value, Trace(p, t, n - 1));
        } else {
          assert Trace(p, s, n) == Trace(p, t, n - 1);
        }
      }
    }
  }

  lemma {:induction false} RunCache(p: Program, s: State, n: nat)
    requires Fits(p.cfg, s)
    ensures Run(p, s, n).s.cache == AccessAll(s.cache, Trace(p, s, n))
  {
    hide Run, Trace, AccessAll;
    RunWithCache(p, s, s.cache, n);
    assert s.(cache := s.cache) == s;
  }

  /** Running with `k` times as many cache sets changes no register, PC, RAM byte, outcome or access
      count; every hit stays a hit and misses never increase. */
  lemma {:induction false} MoreSetsSameRun(p: Program, s: State, sets: nat, k: nat, n: nat)
    requires Fits(p.cfg, s) && sets > 0 && k > 0
    ensures k * sets > 0
    ensures var r, r' := Run(p, s.(cache := Fresh(sets)), n), Run(p, s.(cache := Fresh(k * sets)), n);
            var t := Blocks(Trace(p, s, n));
            && r'.outcome == r.outcome
            && r'.s.(cache := r.s.cache) == r.s
            && r'.s.cache.accesses == r.s.cache.accesses == U64(|t|)
            && (forall j :: 0 <= j < |t| && HitAt(t, j, sets) ==> HitAt(t, j, k * sets))
            && r.s.cache.misses == U64(Misses(t, sets))
            && r'.s.cache.misses == U64(Misses(t, k * sets))
            && Misses(t, k * sets) <= Misses(t, sets)
            && (|t| < TWO64 ==> r'.s.cache.misses <= r.s.cache.misses)
  {
    hide Run, Trace, Misses, HitAt, AccessAll, U64;
    var t := Blocks(Trace(p, s, n));
    MoreSetsFewerMisses(t, sets, k);
    RunWithCache(p, s, Fresh(sets), n);
    RunWithCache(p, s, Fresh(k * sets), n);
    FreshCounters(sets, Trace(p, s, n));
    FreshCounters(k * sets, Trace(p, s, n));
    forall j | 0 <= j < |t| && HitAt(t, j, sets) ensures HitAt(t, j, k * sets) {
      HitsCarryOver(t, j, sets, k);
    }
    MissBounds(t, sets);
    MissBounds(t, k * sets);
    if |t| < TWO64 {
      U64Fixed(Misses(t, sets));
      U64Fixed(Misses(t, k * sets));
    }
  }

  // ------------------------------------------------------------------ what the cache counts

  /** An access is traced exactly for each completed load or store: loads to x0 included,
      faulting accesses excluded. */
  lemma {:induction false} TraceCounts(p: Program, s: State, n: nat)
    requires Fits(p.cfg, s)
    ensures |Trace(p, s, n)| == MemoryOpsDone(p, s, n)
    decreases n
  {
    hide Step, Cause, Fetch, IsMemOp, EffectiveAddress;
    if n > 0 {
      StepIsOwners(p, s);
      if Step(p, s).Next? {
        TraceCounts(p, Step(p, s).s, n - 1);
      }
    }
  }

  /** From a cold cache the counters of every run are, modulo 2^64, the numbers of completed loads and stores
      and of misses of their blocks. */
  lemma {:induction false} CountersModulo(p: Program, s: State, sets: nat, n: nat)
    requires Fits(p.cfg, s) && sets > 0 && s.cache == Fresh(sets)
    ensures Run(p, s, n).s.cache.accesses == U64(MemoryOpsDone(p, s, n))
    ensures Run(p, s, n).s.cache.misses == U64(Misses(Blocks(Trace(p, s, n)), sets))
  {
    hide Run, Trace, MemoryOpsDone, Misses, AccessAll, U64;
    RunCache(p, s, n);
    TraceCounts(p, s, n);
    FreshCounters(sets, Trace(p, s, n));
  }

  /** From a cold cache, the counters of a run: accesses are the completed loads and stores; distinct
      blocks touched <= misses <= accesses (all below 2^64 if the accesses are). */
  lemma {:induction false} RunCounters(p: Program, s: State, sets: nat, n: nat)
    requires Fits(p.cfg, s) && sets > 0 && s.cache == Fresh(sets)
    requires MemoryOpsDone(p, s, n) < TWO64
    ensures var c := Run(p, s, n).s.cache;
            && c.accesses == MemoryOpsDone(p, s, n)
            && |Distinct(Blocks(Trace(p, s, n)))| <= c.misses <= c.accesses
            && (ConflictFree(Blocks(Trace(p, s, n)), sets) ==> c.misses == |Distinct(Blocks(Trace(p, s, n)))|)
  {
    hide Run, Trace, Misses, AccessAll, U64, MemoryOpsDone, ConflictFree, Distinct;
    var t := Blocks(Trace(p, s, n));
    CountersModulo(p, s, sets, n);
    TraceCounts(p, s, n);
    MissBounds(t, sets);
    U64Fixed(|t|);
    U64Fixed(Misses(t, sets));
    if ConflictFree(t, sets) {
      ConflictFreeMisses(t, sets);
    }
  }

  // ------------------------------------------------------------------ invariants of reachable states

  /** x0 is 0 in every reachable state. */
  lemma {:induction false} ZeroRegister(p: Program, s: State, n: nat)
    requires Fits(p.cfg, s) && s.regs[0] == 0
    ensures Run(p, s, n).s.regs[0] == 0
    decreases n
  {
    hide Step, Cause, Completed;
    if n > 0 {
      StepIsOwners(p, s);
      if Step(p, s).Next? {
        OneRegisterWritten(p, s, 0);
        ZeroRegister(p, Step(p, s).s, n - 1);
      }
    }
  }

  /** Exceptions are precise over whole runs: the state a stopped run leaves is one in which the next
      step has the reported cause; the exception is always set. */
  lemma {:induction false} RunStopsAtCause(p: Program, s: State, n: nat)
    requires Fits(p.cfg, s)
    ensures Run(p, s, n).outcome.Stopped? ==>
              && Run(p, s, n).outcome.e.Some?
              && Cause(p, Run(p, s, n).s) == Run(p, s, n).outcome.e
    decreases n
  {
    hide Step, Cause, Completed;
    if n > 0 {
      StepIsOwners(p, s);
      if Step(p, s).Next? {
        RunStopsAtCause(p, Step(p, s).s, n - 1);
      }
    }
  }

  /** Runs compose. */
  lemma {:induction false} RunSum(p: Program, s: State, m: nat, n: nat)
    requires Fits(p.cfg, s)
    ensures Run(p, s, m + n) == if Run(p, s, m).outcome.StillRunning? then Run(p, Run(p, s, m).s, n) else Run(p, s, m)
    decreases m
  {
    hide Step;
    if m > 0 && Step(p, s).Next? {
      RunSum(p, Step(p, s).s, m - 1, n);
    }
  }
}
