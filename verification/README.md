# RV64I emulator: model and proofs

The repository is an emulator for RV64I assembly text with a direct-mapped cache simulator, and a
script that turns an ELF object into that text. This project models the machine (registers, PC, RAM,
cache and counters), its three instruction handlers, its run loop, the parser and printer of the
assembly text, and the script's rewriting of absolute jump targets. It proves what every step and every
run keeps, how the emulator relates to the RISC-V manual, what the cache does on every access trace, and
that printing and parsing are inverses.

| file | models |
|---|---|
| `words.dfy`, `division.dfy`, `bits.dfy` | C integer conversions and shifts; remainders; two's complement bit strings |
| `cache.dfy` | src/cache.c |
| `cache_traces.dfy`, `cache_sweeps.dfy` | theorems over all access traces; exact miss counts of sweeps |
| `registers.dfy`, `memory.dfy` | register file of src/registers.c; RAM of src/memory.c |
| `memory_laws.dfy`, `memory_runs.dfy` | mixed-width accesses, the bounds test; stores and loads over whole runs |
| `instructions.dfy` | src/instructions.h and the instruction table of src/utilities.c |
| `machine.dfy` | the three handlers, the step and the run as functions on states |
| `processor.dfy` | the processor object; its methods update it in place and are proved equal to `machine.dfy` |
| `steps.dfy`, `runs.dfy`, `control.dfy` | ownership, precise exceptions, independence of the cache, counters, calls, alignment |
| `isa.dfy` | the manual's instructions on bit strings, written without reference to the emulator |
| `alu_refinement.dfy`, `refinement.dfy` | the emulator against the manual, instruction by instruction and over runs |
| `emulated.dfy` | the emulator's own instruction set on bits, which every step follows |
| `deviations.dfy` | parsed programs on which it differs, one for each way it does |
| `rewrite.dfy` | `instruction_fixup` of object_create/obj_create.py |
| `lines.dfy`, `text.dfy`, `parser.dfy`, `round_trip.dfy` | splitting into lines, scanf and printf, the parser, the printer |
| `line_texts.dfy`, `scan_laws.dfy` | the characters of each kind of line, which lines are accepted; what scanf reads of other texts |
| `printer_buffer.dfy` | the lengths of printed lines and the printer's buffer |
| `end_to_end.dfy` | object builder to run, and the main program |
| `sweep_program.dfy`, `sweep_text.dfy` | the program of tests/archobjs/52_multiple.archobj, for all sizes from reset to exit; its text, from characters to counters |

Each handler is a method of the class `Processor` that changes the registers, RAM, PC and cache in place.
Its contract equates the whole new state with a function on states, and the theorems are about that
function; so they hold of the methods. Specification functions are fixed in turn by statements that do not mention them:
on bits, on addresses, on characters. `hide` statements keep definitions that a proof does not need out of its
context, and every induction is written out (`{:induction false}`).

The independent reference is the RISC-V Unprivileged ISA manual, version 20191213: sections 2.4 to 2.6
(RV32I) and 5.2 to 5.3 (RV64I).

Reading choices that matter:

- `registers_getpc` returns 32 bits, so a step sees the stored PC modulo 2^32.
- Signed overflow in ADDW, ADDIW and SUBW and left shifts of negative numbers are undefined in C; the model
  wraps around. Right shifts of negative numbers are arithmetic. The host is little-endian.
- The counters of the cache wrap at 2^64, and the theorems say so or assume fewer accesses.
- An immediate is any signed 64-bit number, as the parser accepts it. The manual's operations receive it
  sign-extended; for LUI and AUIPC its low 20 bits are the immediate.
- scanf's hexadecimal numbers take a sign and a prefix as strtoul does; a prefix without digits is no number, as
  the C standard has it.

Where code and documentation disagree, the model follows the code:

- src/processor.h says a handler returns 1 for an instruction it does not own; `processor_emulate_memops` and
  `processor_emulate_cntlflowops` return 0, and system call 23, which is executed, returns 1.
- The range test in `processor_emulate` (src/processor.c:21-23) prints but does not stop; the guard in
  `processor_emulate_regops` (src/registers.c:138-141) does.
- `e` is left unset in the fallback format branch of control flow (src/control_flow.c:79-80). Parsed
  instructions never reach it.
- SRLW and SRLIW zero-extend, LUI and AUIPC do not sign-extend from bit 31, jumps to targets that are not
  4-byte aligned do not trap, and the saturated bounds test refuses the last byte of the address space even when
  data memory contains it: `Refinement.Deviates`. Besides, the emulator executes the lower instruction at a PC
  between two, and sees the low half of a stored PC above 32 bits, so that it may go on where nothing can be
  fetched: `Refinement.StepDeviates`. The refinement is proved to hold if and only if that predicate is false, for
  programs of at most 2^30 instructions, and `deviations.dfy` has a program for each of these cases.
- The comment of `stringify_program` allows nine characters for a 32-bit immediate, which may need eleven; lines
  with longer immediates can overrun its buffer.
- The second `sscanf` of register-register-immediate lines (src/instructions.c:120-131) has the format of the
  first and so never succeeds after it.

## Model

| member | source | states |
|---|---|---|
| CacheModel.Cache.Allocate | src/cache.c:23-56 | A cache is refused exactly for zero sets; otherwise it is cold, with zero counters, whatever line count was asked for |
| CacheModel.Cache.Access | src/cache.c:74-110 | One access in place: the whole new cache, lines and both counters, is the specified one |
| CacheTraces.BlockSpan | src/cache.c:84-87 | Block q is the 64 bytes from 64q on |
| CacheTraces.NextAccess | src/cache.c:84-109 | After an access, the next one hits in the same 64 bytes, misses in others of the same set, and finds the other sets as they were |
| CacheTraces.NextCounters | src/cache.c:82-109 | From a cold cache, after any accesses, the next one misses iff its 64 bytes were not the last seen of their set |
| CacheTraces.UnalignedAccesses | tests/archobjs/31_locality.archobj:7-9 | Three words of one block miss once, the bytes around a block's end twice |
| CacheTraces.FreshAfterTrace | src/cache.c:74-110 | After any trace from a cold cache: line i is valid iff some access mapped to set i, and then holds the last such block; the counters are the numbers of accesses and misses modulo 2^64 |
| CacheTraces.TagsMapToTheirLine | src/cache.c:84-109 | A valid line holds a block that was accessed and maps to that line |
| CacheTraces.LastInIsHit | src/cache.c:93-95 | The code's hit test is: the block was seen before and nothing else mapped to its set since |
| CacheTraces.MissesCount | src/cache.c:95-109 | Misses are exactly the accesses that are not hits in that sense |
| CacheTraces.HitsCarryOver | src/cache.c:84-95 | Every hit with n sets is a hit with k*n sets |
| CacheTraces.MoreSetsFewerMisses | src/cache.c:84-109 | Misses with k*n sets never exceed misses with n sets |
| CacheTraces.FewerMissesExactly | src/cache.c:84-109 | A cache of m sets misses at most as often as one of n sets on every trace iff n divides m |
| CacheTraces.MissBounds | src/cache.c:82-109 | Distinct blocks <= misses <= accesses, for every trace |
| CacheTraces.ConflictFreeMisses | src/cache.c:87-109 | If no two distinct blocks share a set, misses equal the number of distinct blocks in any order |
| CacheTraces.MissesSumOverSets | src/cache.c:87-109 | Misses are the sum over the sets of the misses of each set's own accesses |
| CacheTraces.StutteringIsFree | src/cache.c:95-97 | Repeating accesses inside the current block adds no miss |
| CacheSweeps.RevisitMisses | src/cache.c:84-109 | From the second sweep on, a visit misses iff another swept block shares its set |
| CacheSweeps.SweepMisses | src/cache.c:84-109 | K sweeps over L consecutive blocks on a cold cache of S sets miss exactly L, L + 2(K-1)(L-S) or K*L times (L <= S, S < L <= 2S, L >= 2S), from any base block |
| CacheSweeps.SweepThroughCache | tests/assembly/52_multiple.S:13-19 | The miss counter after such sweeps with any number of accesses inside each block |
| RegisterFile.Registers.constructor | src/registers.c:36-46 | All 32 registers are 0 and the PC is the given one |
| RegisterFile.Registers.GetReg | src/registers.c:66-71 | The register's value, 0 for a number beyond 31 |
| RegisterFile.Registers.SetReg | src/registers.c:82-89 | Exactly the numbered register changes; x0 and numbers beyond 31 leave the file as it is |
| MemoryModel.Memory.constructor | src/memory.c:26-51 | No RAM block for size 0, otherwise that many zero bytes |
| MemoryModel.Memory.GetByte | src/memory.c:72-78 | The byte at an index as a signed char, 0 beyond the end |
| MemoryModel.Memory.Write | src/memory.c:172-181 | The RAM after a store of 1, 2, 4 or 8 bytes is the specified one, in little-endian order |
| MemoryModel.Memory.Read | src/memory.c:201-216 | A load of 1, 2, 4 or 8 bytes returns their little-endian value |
| MemoryLaws.StoreAt | src/memory.c:172-181 | A store of width w changes exactly its w bytes |
| MemoryLaws.LastWriterWins | src/memory.c:172-181 | After any stores of any widths and overlaps, each byte is that of the last store covering it |
| MemoryLaws.BytesInAnyOrder | src/memory.c:176-181 | A wide store leaves the RAM of its single-byte stores in any order, SD that of eight SB |
| MemoryLaws.LoadIsSumOfBytes | src/memory.c:203-216 | LD is the little-endian sum of eight LBU |
| MemoryRuns.RamIsStores | src/memory.c:169-182 | The RAM every run leaves is the RAM it began with after its completed stores, one by one |
| MemoryRuns.StoreThenLoad | src/memory.c:144-219 | A completed store, any run whose completed stores are disjoint from it, and a load of the same width at the same address: the load completes and its register holds the stored register's low bytes, correctly sign- or zero-extended |
| MemoryRuns.CopyThroughMemory | src/memory.c:144-219 | An instance: SD and LD copy any register value through memory |
| MemoryRuns.UnwrittenIsZero | src/memory.c:36-46 | From reset, a load that no completed store of the run overlaps leaves 0 in its register |
| MemoryLaws.AccessibleExactly | src/memory.c:144-159 | For every configuration, overflowing or not, the bounds test accepts exactly accesses within data memory that end at or below 2^64-1 |
| MemoryLaws.NothingInsideRefused | src/memory.c:147-159 | While data memory ends below 2^64, exactly the accesses wholly inside it are accepted |
| MemoryLaws.AccessibleIsInRam | src/memory.c:165-167 | An accepted access satisfies the later assertion on the RAM index |
| Machine.ImmediateIsOperand | src/registers.c:150-277 | Immediate operations compute what register operations compute on the immediate converted to 64 bits |
| Processors.Processor.constructor | src/processor.c:42-57 | All registers and RAM bytes are 0, the PC is the entry address, the cache is cold and its counters 0 |
| Processors.Processor.RegOps | src/registers.c:113-310 | The register handler in place: return value, exception and whole new state are the specified ones; the PC is written once iff it owns and completes the instruction |
| Processors.Classify | src/memory.c:95-113 | Kind, direction, width and signedness of the eleven memory operations |
| Processors.Processor.LoadOrStore | src/memory.c:161-219 | The access in place: cache, RAM or register, and PC; the source's assertion holds |
| Processors.Processor.MemOps | src/memory.c:81-222 | The memory handler in place, with its error paths in order |
| Processors.Processor.FetchOperands | src/control_flow.c:41-82 | Operands by format, branches taking both sources from the first two fields |
| Processors.Processor.FlowOps | src/control_flow.c:10-177 | The control flow handler in place, for every instruction and format |
| Processors.Processor.Turn | src/processor.c:19-35 | One turn of the loop is one step of the machine; a completed step writes the PC exactly once, a failing one never |
| Processors.Processor.Emulate | src/processor.c:12-39 | The loop is the run of the machine: same final state and outcome |
| Steps.OneOwner | src/processor.c:29-31 | Every opcode belongs to exactly one of the three handlers |
| Steps.FormatsFit | src/control_flow.c:79-80 | Parsed formats fit the handlers; the fallback branch of control flow is unreachable |
| Steps.HandlersPrecise | src/registers.c:137-141 | A handler that returns -1 leaves the state as it was with the exception set; on parsed instructions memory operations fail only on bad addresses and control flow never |
| Steps.SystemCalls | src/registers.c:282-297 | System call 23 resumes behind the ECALL and changes nothing else, 2 exits, no other is known |
| Steps.StepIsOwners | src/processor.c:29-34 | The sequence of handlers is its owner alone; a step that fails leaves registers, PC, RAM, cache and counters as they were and sets the exception of its cause |
| Steps.OneRegisterWritten | src/registers.c:82-89 | A completed step changes no register but its destination, and never x0 |
| Runs.StepWithCache | src/memory.c:161-163 | Replacing the cache changes nothing in a step but the cache, which is accessed iff a load or store completes |
| Runs.RunWithCache | src/processor.c:19-38 | With any other cache a run has the same outcome, registers, PC, RAM and trace; its cache is that cache after the trace |
| Runs.MoreSetsSameRun | src/cache.c:87-109 | Running with k*n instead of n sets: same run and access count, every hit stays a hit, misses never increase |
| Runs.TraceCounts | src/memory.c:156-163 | Accesses are exactly the completed loads and stores, loads to x0 included, faulting ones excluded |
| Runs.CountersModulo | src/cache.c:82-109 | The counters of every run from a cold cache, modulo 2^64, whatever its length |
| Runs.RunCounters | src/cache.c:82-109 | Counters of every run from a cold cache: accesses, distinct blocks <= misses <= accesses, equality without conflicts |
| Runs.ZeroRegister | src/registers.c:82-89 | x0 is 0 in every reachable state |
| Runs.RunStopsAtCause | src/processor.c:29-34 | A run that stops has an exception set, and it is the cause in the state it leaves |
| AluRefinement.AluRefines | src/registers.c:143-277 | Every register and immediate operation is the manual's on bits, except exactly SRLW and SRLIW by 0 of a word with bit 31 set |
| AluRefinement.LuiRefines | src/registers.c:278-281 | LUI is the manual's iff the immediate's low 52 bits are a signed 20-bit number |
| AluRefinement.AuipcRefines | src/control_flow.c:160-167 | AUIPC is the manual's under the same condition and no other |
| AluRefinement.ClearBit0Bits | src/control_flow.c:151-157 | Masking the JALR target with ~1 clears bit 0 and nothing else |
| Refinement.BranchRefines | src/control_flow.c:111-141 | The six comparisons decide on 64-bit numbers as the manual's branches do on bits |
| Refinement.MappedIsAccessible | src/memory.c:144-159 | Every byte of an access belongs to the configured data memory iff the bounds test accepts it or it touches the last byte of the address space, never both |
| Refinement.MemStep | src/memory.c:140-220 | Loads and stores are the manual's on bits, faulting exactly where the manual faults, iff they do not touch that last byte |
| Refinement.StepRefinesIsa | src/processor.c:19-35 | From every state with x0 zero, whatever the PC, the step is the manual's, next state or exception, iff it does not deviate; a failing step changes nothing |
| Refinement.RunRefinesIsa | src/processor.c:19-38 | Emulator and hart agree after each of the first n steps, with the same reason to stop, iff none of these steps deviates |
| Deviations.UnextendedSrlw | src/registers.c:256-261 | A parsed program reaches an SRLW that leaves 2^32 - 1 where the manual leaves 2^64 - 1 |
| Deviations.UnextendedLui | src/registers.c:278-281 | A parsed program whose LUI leaves 2^31 where the manual sign-extends it |
| Deviations.UnextendedAuipc | src/control_flow.c:160-167 | The same for AUIPC |
| Deviations.MisalignedJump | src/control_flow.c:144-150 | A parsed program whose JAL goes to address 2 where the manual has a misaligned target |
| Deviations.RefusedTopByte | src/memory.c:147-159 | A parsed program whose store to the last byte of the address space is refused although data memory contains that byte |
| Deviations.LostHighHalf | src/registers.c:98-100 | A parsed program that jumps to 2^32 and, seeing PC 0 there, for ever again, where the manual can fetch nothing |
| Deviations.BetweenInstructions | src/processor.c:20-25 | A parsed program entered at address 2, between instructions, executes the one at 0 |
| Emulated.StepOnBits | src/processor.c:19-35 | Every step at a visible PC, deviating or not: on bits it is the emulator's instruction set, the manual's with SRLW, LUI, AUIPC, transfers and the last byte as coded |
| Emulated.StepOnLowHalf | src/registers.c:98-100 | At a stored PC above 32 bits the step is the one at its low half |
| Emulated.AccessOnBits | src/memory.c:161-163 | The cache sees the address, register plus offset, of each load and store that retires and no other |
| AluRefinement.LogicalShiftResult | src/registers.c:256-266 | SRLW and SRLIW leave the shifted word below 32 zeros, for all operands |
| AluRefinement.UpperValueBits | src/registers.c:278-281 | LUI leaves 12 zeros below the immediate's low 52 bits |
| Refinement.UpperImmediatesOf20Bits | src/registers.c:278-281 | Of 20-bit immediates, exactly the unsigned ones with bit 19 set deviate |
| Rewrite.InstructionFixup | object_create/obj_create.py:109-141 | The first matching fixup is applied: a target T on line i becomes T - 4i, everything else keeps its value |
| Rewrite.StepRewritten | object_create/obj_create.py:112-134 | A rewritten step is the step with absolute targets iff it does not jump, or the code is at 0 and the PC is a multiple of 4 |
| Rewrite.RunRewritten | object_create/obj_create.py:112-141 | For code at any address and runs of every length: rewritten and absolute program agree after each of the first n steps iff each of these jumps, if at all, at a multiple of 4 with the code at 0 |
| Rewrite.AlignedProgramRewritten | object_create/obj_create.py:112-141 | With aligned entry and targets and no JALR it preserves all runs |
| Control.JalrStep | src/control_flow.c:151-157 | JALR uses the base as it was before the step, also when it is the destination |
| Control.CallReturns | src/control_flow.c:144-157 | A JAL, any steps that never write rd, and `jalr x0,0(rd)` land on the instruction after the JAL |
| Control.SmallestCall | src/control_flow.c:144-157 | An instance: a call and its return in two steps from reset |
| Control.StepKeepsAlignment | src/control_flow.c:112-174 | A step keeps the PC even if offsets are even, and 4-aligned if offsets are and it is no JALR |
| Control.PcStaysEven | src/control_flow.c:112-174 | From an even entry with even offsets every reachable PC is even |
| Control.FetchMatchesAddress | src/instructions.c:87 | With aligned code, entry and offsets and no JALR, every in-range fetch is of the instruction recorded at the PC |
| Control.ConstantOverflow | src/registers.c:233-237 | The ADDIW of a constant load overflows exactly for 0x7FFFF800 and above |
| Control.LoadConstant | src/registers.c:278-281 | LUI and ADDIW of the split parts leave any signed 32-bit constant sign-extended in the register |
| Instructions.ImetaIsTable | src/utilities.c:102-154 | The table has 50 entries; each tells the format and mnemonic of its opcode, and every opcode has one |
| Instructions.SourceTable | src/utilities.c:102-154 | The format and mnemonic of each of the fifty opcodes, literally |
| Instructions.NamesDistinct | src/utilities.c:102-154 | Different opcodes have different mnemonics |
| Instructions.LookupFormat | src/utilities.c:160-170 | The lookup loop returns the opcode's format and never the error format |
| Instructions.LookupName | src/utilities.c:172-182 | The lookup loop returns the opcode's mnemonic |
| Instructions.LookupNum | src/utilities.c:188-197 | The lookup loop returns the opcode of a mnemonic, and INSTRINVALID exactly for strings that are none |
| LineSplitting.Lines | src/utilities.c:25-67 | Both passes: the tokens, or the failed assertion when one is missing |
| LineSplitting.TokensAreNonEmptyLines | src/utilities.c:58-64 | The token pass finds exactly the non-empty lines |
| LineSplitting.LinesExact | src/utilities.c:42-65 | Never more tokens than counted lines; as many iff no line is empty, and then joining restores the text up to a final newline |
| Text.ScanPrinted | src/utilities.c:262-294 | scanf inverts printf for every delimited format and all values that fit it |
| ScanLaws.ScanWord | src/instructions.c:71 | `%s` skips blanks and ends before the next |
| ScanLaws.ScanDecimal | src/instructions.c:71-182 | `%d` and `%ld` of blanks, a sign and digits: their value, saturated to 64 bits and cut to 32 |
| ScanLaws.ScanHex | src/instructions.c:40 | `%lx` with a sign, a prefix and digits of either case |
| ScanLaws.ScanStops | src/instructions.c:71-182 | Conversion ends where a word, number or literal is missing |
| ScanLaws.DigitCharacters | src/utilities.c:262-294 | The sixteen digits and their capitals |
| ScanLaws.DigitRanges | src/instructions.c:40 | No other character is a digit |
| ScanLaws.SpaceCharacters | src/instructions.c:71 | White space is the blank and the characters 9 to 13 |
| ScanLaws.LastDigit | src/instructions.c:71-182 | A numeral reads as its front times the base plus its last digit |
| LineTexts.LineText | src/utilities.c:262-288 | The text of each kind of line, character by character |
| LineTexts.HeaderLine | src/instructions.c:40 | The header's text: four hexadecimal numbers in this order |
| LineTexts.AcceptedRrr | src/instructions.c:91-107 | A line with any three register numbers is accepted, as that instruction, iff they are 0..31 |
| LineTexts.AcceptedRri | src/instructions.c:109-138 | The same with two registers and any immediate |
| LineTexts.AcceptedRi | src/instructions.c:140-156 | The same with one register and any immediate |
| LineTexts.AcceptedRor | src/instructions.c:157-195 | The same with two registers and any offset, JALR included |
| LineTexts.MissingThird | src/instructions.c:91-138 | A line without its third operand is rejected |
| LineTexts.MissingImmediate | src/instructions.c:140-147 | So is one without its immediate |
| LineTexts.MissingBase | src/instructions.c:157-181 | So is one without its base register |
| LineTexts.OverrunLength | src/instructions.c:65-71 | The mnemonic buffer overruns iff the first word has ten characters or more |
| Parsing.ParseOne | src/instructions.c:63-203 | One line: mnemonic, format, operands and address, or rejection |
| Parsing.InstructionsParse | src/instructions.c:19-213 | The parsing loop returns the specified result for every text |
| Parsing.ParsedIsWellFormed | src/instructions.c:78-87 | Parsed instructions have the table's format, existing registers and consecutive addresses |
| RoundTrip.StringifyProgram | src/utilities.c:244-299 | The printer's loop yields the printed lines joined by newlines, none at the end, and writes outside its buffer iff there is no instruction or the lines with their newlines and terminator exceed 26 bytes a line |
| PrinterBuffer.ShortImmediatesFit | src/utilities.c:246-258 | Every program whose immediates print in nine characters fits that buffer |
| PrinterBuffer.OneLineFits | src/utilities.c:256-296 | A one-line program fits the printer's buffer iff its line has at most 24 characters |
| PrinterBuffer.LongLine | src/utilities.c:246-258 | A 32-bit immediate with which a program does not |
| RoundTrip.InstructionBack | src/instructions.c:71-202 | Parsing the printed line of any well-formed instruction gives it back |
| RoundTrip.ParsePrinted | src/utilities.c:236-242 | For every header line and non-empty laid-out program, parsing the line followed by the printed program gives back the line's configuration and the same instructions, formats and addresses |
| RoundTrip.ReproducedExactly | src/main.c:70-88 | For texts with an instruction, the main program's comparison of input and printed program succeeds iff the text is a header line followed by the printed form of a laid-out program |
| RoundTrip.PrintingIsInjective | src/utilities.c:244-299 | Different instruction sequences print differently |
| SweepProgram.MultipleRuns | tests/archobjs/52_multiple.archobj:1-24 | With any number of passes K, any number of lines L that fit data memory to its last byte, and any cache of S sets, this program runs to its exit with exactly K*L accesses and the misses of the sweep formula |
| SweepProgram.MultipleFaults | tests/archobjs/52_multiple.archobj:1-24 | With more lines than fit it stops with a memory exception at the first that does not, after one access and one miss for each line that does |
| SweepProgram.InnerPart | tests/archobjs/52_multiple.archobj:17-20 | From any line of a pass up to any other, the inner loop stores once to each line between, in order |
| SweepProgram.AllPasses | tests/archobjs/52_multiple.archobj:15-22 | From any pass, the outer loop repeats the whole sweep for the remaining passes |
| SweepText.FileParses | tests/archobjs/52_multiple.archobj:1-24 | The file's 24 lines parse to that program with K = 3 and L = 8, are reproduced by the printer and fit its buffer |
| SweepText.EmulateFile | src/main.c:66-95 | The main program on the file's characters: exit after 24 accesses, with 8, 8 + 4(8-S) or 24 misses for S sets |
| EndToEnd.BuiltProgramRuns | object_create/obj_create.py:143-149 | A program with absolute targets, rewritten, printed and parsed, runs like the machine that jumps straight to the targets iff each of its steps is relocated |
| EndToEnd.Simulate | src/main.c:90-93 | A processor run from reset reports the completed memory operations and the misses of their blocks |
| EndToEnd.EmulateText | src/main.c:66-95 | The main program on any text: rejected, failed assertion, write outside the parser's or printer's buffer, mismatch, or the run of the parsed program |

## Left out

- Emulate: takes a number of turns, because the loop of the source need not end; the theorems hold for every number.
- EmulateText: requires of a parsed text that its header announces no more instructions than are present, which the source does not check before it reads past the array; argument parsing, reading of input, exit codes and the report of a mismatch are not modelled.
- StepRefinesIsa: assumes at most 2^30 instructions, as many as a 32-bit PC can tell apart; the main program reads at most 16 KiB of text.
- RunRefinesIsa: the same.
- InstructionFixup: works on parsed instructions; regular expressions, objdump, ELF headers and shell calls are not modelled, nor targets beyond signed 64 bits.
- Runs.RunCounters: assumes fewer than 2^64 memory operations; without the assumption the counters agree modulo 2^64 (`CountersModulo`).
- The machine requires at least one cache set; accesses to a cache that could not be allocated are not modelled.
- Console output: instruction, register, memory and cache prints, exception messages and the hit rate.
- Allocation failure, freeing and NULL arguments.
- The instruction a pointer past the program designates: outside the instruction range the register handler stops before it is read.
- Makefiles, linker script, C sources of the example programs and recorded outputs.
