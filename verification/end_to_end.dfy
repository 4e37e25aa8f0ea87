/** From the object builder's absolute targets to a run of the emulator: rewritten, printed with its
    header, parsed again and executed. */
module EndToEnd {
  import opened Options
  import opened Words
  import opened Instructions
  import opened Machine
  import opened Rewrite
  import opened Parsing
  import opened RoundTrip
  import opened LineSplitting
  import opened CacheTraces
  import opened Runs
  import opened Processors

  /** The text the object builder prints for a program with absolute targets. */
  function BuiltText(p: Program): string
    requires Absolute(p)
  {
    HeaderText(p.cfg) + "\n" + ProgramText(RelativeProgram(p).instrs)
  }

  /** Parsing that text yields exactly the rewritten program, and from any state and for every run length it
      runs, state by state, like the machine that jumps straight to the absolute targets exactly when each
      step is relocated. */
  lemma {:induction false} BuiltProgramRuns(p: Program, s: State, n: nat)
    requires Absolute(p) && p.instrs != [] && Laid(p.instrs, p.cfg.instrLower) && Fits(p.cfg, s)
    ensures Parse(BuiltText(p)) == Parsed(p.cfg, RelativeProgram(p).instrs)
    ensures RunsAlike(p, s, n) <==> AlwaysRelocates(p, s, n)
  {
    hide Parse, HeaderText, ProgramText, RunsAlike, AlwaysRelocates, Relative, WellFormed;
    var q := RelativeProgram(p);
    forall k | 0 <= k < |q.instrs| ensures WellFormed(q.instrs[k]) && q.instrs[k].addr == p.instrs[k].addr {
      assert q.instrs[k] == Relative(k, p.instrs[k]);
    }
    ParseBuilt(p.cfg, q.instrs);
    RunRewritten(p, s, n);
  }

  // ------------------------------------------------------------------ the main program

  datatype MainResult =
    | Unparsed
    | AssertionFailed
    | OutOfBounds  // the parser or the printer wrote outside a buffer
    | Mismatch  // the printed program is not the input
    | Ran(outcome: Outcome, accesses: u64, misses: u64)

  /** What the parser does not check and a run relies on: instructions for all announced addresses. */
  predicate Backed(cfg: Config, instrs: seq<Instruction>) {
    cfg.instrUpper - cfg.instrLower <= 4 * |instrs| && |instrs| < TWO31
  }

  /** A processor run from reset reports the completed loads and stores, and the misses of their blocks. */
  method Simulate(program: Program, cacheSets: u64, fuel: nat) returns (outcome: Outcome, accesses: u64, misses: u64)
    requires cacheSets > 0
    ensures outcome == Run(program, Reset(program.cfg, cacheSets), fuel).outcome
    ensures accesses == U64(MemoryOpsDone(program, Reset(program.cfg, cacheSets), fuel))
    ensures misses == U64(Misses(Blocks(Trace(program, Reset(program.cfg, cacheSets), fuel)), cacheSets))
  {
    hide Run, Trace, MemoryOpsDone, Misses, AccessAll, U64;
    var p := new Processor(program, cacheSets);
    outcome := p.Emulate(fuel);
    accesses, misses := p.cache.Statistics();
    CountersModulo(program, Reset(program.cfg, cacheSets), cacheSets, fuel);
  }

  /** The main program: parse, check that printing gives the input back, run. Of the two arguments of
      the check, the one that asserts a newline in the input is evaluated first. */
  method EmulateText(text: string, cacheSets: u64, fuel: nat) returns (r: MainResult)
    requires cacheSets > 0
    requires Parse(text).Parsed? ==> Backed(Parse(text).cfg, Parse(text).instrs)
    ensures Parse(text).Rejected? ==> r == Unparsed
    ensures Parse(text).Overrun? ==> r == OutOfBounds
    ensures Parse(text).Aborted? || (Parse(text).Parsed? && LineLength(text) == |text|) ==> r == AssertionFailed
    ensures Parse(text).Parsed? && LineLength(text) < |text| ==>
              var p := ProgramData(Parse(text).cfg, Parse(text).instrs);
              && p.Valid()
              && var s := Reset(p.cfg, cacheSets);
                 r == if !FitsBuffer(p.instrs) then OutOfBounds
                      else if !Reproduced(text) then Mismatch
                      else Ran(Run(p, s, fuel).outcome, U64(MemoryOpsDone(p, s, fuel)),
                               U64(Misses(Blocks(Trace(p, s, fuel)), cacheSets)))
  {
    hide Parse, Run, Trace, MemoryOpsDone, Misses, ProgramText, WellFormed, LineLength, U64, Reset;
    var parsed := InstructionsParse(text);
    if parsed.Rejected? {
      return Unparsed;
    }
    if parsed.Overrun? {
      return OutOfBounds;
    }
    if parsed.Aborted? || LineLength(text) == |text| {
      return AssertionFailed;
    }
    ParsedIsProgram(text);
    ParsedIsWellFormed(text);
    var printed := StringifyProgram(parsed.instrs);
    if printed == None {
      return OutOfBounds;
    }
    if text[LineLength(text) + 1..] != printed.value {
      return Mismatch;
    }
    var program: Program := ProgramData(parsed.cfg, parsed.instrs);
    var outcome, accesses, misses := Simulate(program, cacheSets, fuel);
    return Ran(outcome, accesses, misses);
  }
}
