/** The text of tests/archobjs/52_multiple.archobj, from its characters to what the cache counts. */
module SweepText {
  import opened Options
  import opened Words
  import opened Instructions
  import opened Machine
  import opened Text
  import opened LineSplitting
  import opened Parsing
  import opened RoundTrip
  import opened LineTexts
  import opened CacheSweeps
  import opened SweepProgram
  import opened PrinterBuffer
  import opened CacheTraces
  import opened Runs
  import opened EndToEnd

  const HEADER_LINE: string := "0x0 0x5c 0x0 0x2000"

  function SetupText(): (t: seq<string>)
    ensures |t| == 13
  {
    ["lui x9,1", "addi x9,x9,0", "lui x18,6699", "addiw x18,x18,965", "slli x18,x18,13",
     "addi x18,x18,-1347", "slli x18,x18,12", "addi x18,x18,-529", "slli x18,x18,12", "addi x18,x18,18",
     "addi x10,x0,3", "addi x11,x0,8", "addi x5,x0,0"]
  }

  function LoopText(): (t: seq<string>)
    ensures |t| == 10
  {
    ["addi x6,x0,0", "add x19,x0,x9", "sd x20,0(x19)", "addi x19,x19,64", "addi x6,x6,1",
     "blt x6,x11,-12", "addi x5,x5,1", "blt x5,x10,-28", "addi x17,x0,2", "ecall"]
  }

  /** The file: its lines with newlines between them. */
  function FileText(): string { Join([HEADER_LINE] + SetupText() + LoopText()) }

  const FILE_CONFIG: Config := Config(0, 92, 0, 0x2000)

  lemma SmallNumbers()
    ensures Decimal(0) == "0" && Decimal(1) == "1" && Decimal(2) == "2" && Decimal(3) == "3" && Decimal(5) == "5"
    ensures Decimal(6) == "6" && Decimal(8) == "8" && Decimal(9) == "9" && Decimal(10) == "10" && Decimal(11) == "11"
    ensures Decimal(12) == "12" && Decimal(13) == "13"
  {
  }

  lemma OtherNumbers()
    ensures Decimal(17) == "17" && Decimal(18) == "18" && Decimal(19) == "19" && Decimal(20) == "20"
    ensures Decimal(64) == "64" && Decimal(965) == "965" && Decimal(6699) == "6699" && Decimal(-12) == "-12"
    ensures Decimal(-28) == "-28" && Decimal(-529) == "-529" && Decimal(-1347) == "-1347"
  {
  }

  lemma Names()
    ensures NameOf(LUI) == "lui" && NameOf(ADDI) == "addi" && NameOf(ADDIW) == "addiw" && NameOf(SLLI) == "slli"
    ensures NameOf(ADD) == "add" && NameOf(SD) == "sd" && NameOf(BLT) == "blt" && NameOf(ECALL) == "ecall"
  {
    hide NameOf, FormatOf;
    SourceTable(LUI);
    SourceTable(ADDI);
    SourceTable(ADDIW);
    SourceTable(SLLI);
    SourceTable(ADD);
    SourceTable(SD);
    SourceTable(BLT);
    SourceTable(ECALL);
  }

  // A line from the spellings of its parts.

  function RrrLine(name: string, a: string, b: string, c: string): string { name + " x" + a + ",x" + b + ",x" + c }

  function RriLine(name: string, a: string, b: string, c: string): string { name + " x" + a + ",x" + b + "," + c }

  function RiLine(name: string, a: string, c: string): string { name + " x" + a + "," + c }

  function RorLine(name: string, a: string, c: string, b: string): string { name + " x" + a + "," + c + "(x" + b + ")" }

  lemma RrrSpelled(i: Instruction, name: string, a: string, b: string, c: string)
    requires WellFormed(i) && i.format.RRR? && NameOf(i.op) == name
    requires Decimal(i.format.rd) == a && Decimal(i.format.rs1) == b && Decimal(i.format.rs2) == c
    ensures Print(i) == RrrLine(name, a, b, c)
  {
    hide NameOf, Decimal, IsName, PrintLine;
    PrintUnfolds(i);
    LineText(name, i.format);
  }

  lemma RriSpelled(i: Instruction, name: string, a: string, b: string, c: string)
    requires WellFormed(i) && i.format.RRI? && NameOf(i.op) == name
    requires Decimal(i.format.rd) == a && Decimal(i.format.rs1) == b && Decimal(i.format.imm) == c
    ensures Print(i) == RriLine(name, a, b, c)
  {
    hide NameOf, Decimal, IsName, PrintLine;
    PrintUnfolds(i);
    LineText(name, i.format);
  }

  lemma RiSpelled(i: Instruction, name: string, a: string, c: string)
    requires WellFormed(i) && i.format.RI? && NameOf(i.op) == name
    requires Decimal(i.format.rd) == a && Decimal(i.format.imm) == c
    ensures Print(i) == RiLine(name, a, c)
  {
    hide NameOf, Decimal, IsName, PrintLine;
    PrintUnfolds(i);
    LineText(name, i.format);
  }

  lemma RorSpelled(i: Instruction, name: string, a: string, c: string, b: string)
    requires WellFormed(i) && i.format.ROR? && NameOf(i.op) == name
    requires Decimal(i.format.r2) == a && Decimal(i.format.offset) == c && Decimal(i.format.r1) == b
    ensures Print(i) == RorLine(name, a, c, b)
  {
    hide NameOf, Decimal, IsName, PrintLine;
    PrintUnfolds(i);
    LineText(name, i.format);
  }

  lemma EcallSpelled(i: Instruction)
    requires WellFormed(i) && i.format.Ecall?
    ensures Print(i) == NameOf(i.op)
  {
    hide NameOf, IsName, PrintLine;
    PrintUnfolds(i);
    LineText(NameOf(i.op), i.format);
  }

  lemma Texts0()
    ensures RiLine("lui", "9", "1") == "lui x9,1"
    ensures RriLine("addi", "9", "9", "0") == "addi x9,x9,0"
    ensures RiLine("lui", "18", "6699") == "lui x18,6699"
    ensures RriLine("addiw", "18", "18", "965") == "addiw x18,x18,965"
    ensures RriLine("slli", "18", "18", "13") == "slli x18,x18,13"
    ensures RriLine("addi", "18", "18", "-1347") == "addi x18,x18,-1347"
  {
  }

  lemma Texts1()
    ensures RriLine("slli", "18", "18", "12") == "slli x18,x18,12"
    ensures RriLine("addi", "18", "18", "-529") == "addi x18,x18,-529"
    ensures RriLine("addi", "18", "18", "18") == "addi x18,x18,18"
    ensures RriLine("addi", "10", "0", "3") == "addi x10,x0,3"
    ensures RriLine("addi", "11", "0", "8") == "addi x11,x0,8"
    ensures RriLine("addi", "5", "0", "0") == "addi x5,x0,0"
  {
  }

  lemma Texts2()
    ensures RriLine("addi", "6", "0", "0") == "addi x6,x0,0"
    ensures RrrLine("add", "19", "0", "9") == "add x19,x0,x9"
    ensures RorLine("sd", "20", "0", "19") == "sd x20,0(x19)"
    ensures RriLine("addi", "19", "19", "64") == "addi x19,x19,64"
    ensures RriLine("addi", "6", "6", "1") == "addi x6,x6,1"
    ensures RriLine("blt", "6", "11", "-12") == "blt x6,x11,-12"
  {
  }

  lemma Texts3()
    ensures RriLine("addi", "5", "5", "1") == "addi x5,x5,1"
    ensures RriLine("blt", "5", "10", "-28") == "blt x5,x10,-28"
    ensures RriLine("addi", "17", "0", "2") == "addi x17,x0,2"
  {
  }

  lemma SetupEntries()
    ensures var t, u := Setup(3, 8), SetupText();
            && t[0] == Instruction(LUI, 0, RI(9, 1)) && u[0] == "lui x9,1"
            && t[1] == Imm(ADDI, 1, 9, 9, 0) && u[1] == "addi x9,x9,0"
            && t[2] == Instruction(LUI, 8, RI(18, 6699)) && u[2] == "lui x18,6699"
            && t[3] == Imm(ADDIW, 3, 18, 18, 965) && u[3] == "addiw x18,x18,965"
            && t[4] == Imm(SLLI, 4, 18, 18, 13) && u[4] == "slli x18,x18,13"
            && t[5] == Imm(ADDI, 5, 18, 18, -1347) && u[5] == "addi x18,x18,-1347"
            && t[6] == Imm(SLLI, 6, 18, 18, 12) && u[6] == "slli x18,x18,12"
            && t[7] == Imm(ADDI, 7, 18, 18, -529) && u[7] == "addi x18,x18,-529"
            && t[8] == Imm(SLLI, 8, 18, 18, 12) && u[8] == "slli x18,x18,12"
            && t[9] == Imm(ADDI, 9, 18, 18, 18) && u[9] == "addi x18,x18,18"
            && t[10] == Imm(ADDI, 10, 10, 0, 3) && u[10] == "addi x10,x0,3"
            && t[11] == Imm(ADDI, 11, 11, 0, 8) && u[11] == "addi x11,x0,8"
            && t[12] == Imm(ADDI, 12, 5, 0, 0) && u[12] == "addi x5,x0,0"
  {
  }

  lemma SetupPrinted(k: nat)
    requires k < 13
    ensures WellFormed(Setup(3, 8)[k]) && Print(Setup(3, 8)[k]) == SetupText()[k]
  {
    hide Print, PrintLine, NameOf, Decimal, IsName, WellFormed, RrrLine, RriLine, RiLine, RorLine, Setup, SetupText;
    var t := Setup(3, 8);
    SetupWellFormed(3, 8);
    SmallNumbers();
    OtherNumbers();
    Names();
    SetupEntries();
    Texts0();
    Texts1();
    Texts2();
    Texts3();
    match k {
      case 0 => RiSpelled(t[0], "lui", "9", "1");
      case 1 => RriSpelled(t[1], "addi", "9", "9", "0");
      case 2 => RiSpelled(t[2], "lui", "18", "6699");
      case 3 => RriSpelled(t[3], "addiw", "18", "18", "965");
      case 4 => RriSpelled(t[4], "slli", "18", "18", "13");
      case 5 => RriSpelled(t[5], "addi", "18", "18", "-1347");
      case 6 => RriSpelled(t[6], "slli", "18", "18", "12");
      case 7 => RriSpelled(t[7], "addi", "18", "18", "-529");
      case 8 => RriSpelled(t[8], "slli", "18", "18", "12");
      case 9 => RriSpelled(t[9], "addi", "18", "18", "18");
      case 10 => RriSpelled(t[10], "addi", "10", "0", "3");
      case 11 => RriSpelled(t[11], "addi", "11", "0", "8");
      case _ => RriSpelled(t[12], "addi", "5", "0", "0");
    }
  }

  lemma LoopPrinted(k: nat)
    requires k < 10
    ensures WellFormed(Loops()[k]) && Print(Loops()[k]) == LoopText()[k]
  {
    hide Print, PrintLine, NameOf, Decimal, IsName, WellFormed, RrrLine, RriLine, RiLine, RorLine;
    var t := Loops();
    LoopsWellFormed();
    SmallNumbers();
    OtherNumbers();
    Names();
    Texts0();
    Texts1();
    Texts2();
    Texts3();
    match k {
      case 0 => RriSpelled(t[0], "addi", "6", "0", "0");
      case 1 => RrrSpelled(t[1], "add", "19", "0", "9");
      case 2 => RorSpelled(t[2], "sd", "20", "0", "19");
      case 3 => RriSpelled(t[3], "addi", "19", "19", "64");
      case 4 => RriSpelled(t[4], "addi", "6", "6", "1");
      case 5 => RriSpelled(t[5], "blt", "6", "11", "-12");
      case 6 => RriSpelled(t[6], "addi", "5", "5", "1");
      case 7 => RriSpelled(t[7], "blt", "5", "10", "-28");
      case 8 => RriSpelled(t[8], "addi", "17", "0", "2");
      case _ => EcallSpelled(t[9]);
    }
  }

  // ------------------------------------------------------------------ the file

  function FileProgram(): (p: Program)
    ensures p.cfg == FILE_CONFIG && p.instrs == Setup(3, 8) + Loops()
  {
    Multiple(3, 8, 0x2000)
  }

  lemma FileHeader()
    ensures HEADER_LINE == HeaderText(FILE_CONFIG) && IsLine(HEADER_LINE)
    ensures ParseHeader(HEADER_LINE) == Some(FILE_CONFIG)
  {
    hide HeaderText, ParseHeader, IsLine;
    HeaderLine(FILE_CONFIG);
    HeaderBack(FILE_CONFIG);
    assert Numeral(0, 16) == "0" && Numeral(92, 16) == "5c" && Numeral(0x2000, 16) == "2000";
  }

  lemma FileLaid()
    ensures Laid(FileProgram().instrs, 0)
    ensures forall k :: 0 <= k < 23 ==> IsShort(Immediate(FileProgram().instrs[k].format))
  {
    hide Setup, Loops, WellFormed, IsShort;
    SetupWellFormed(3, 8);
    LoopsWellFormed();
    forall k | 0 <= k < 23
      ensures WellFormed(FileProgram().instrs[k]) && FileProgram().instrs[k].addr == 4 * k
      ensures IsShort(Immediate(FileProgram().instrs[k].format))
    {
      if k < 13 {
        SetupPlaced(k);
      } else {
        LoopPlaced(k - 13);
      }
    }
  }

  lemma SetupPlaced(k: nat)
    requires k < 13
    ensures Setup(3, 8)[k].addr == 4 * k && IsShort(Immediate(Setup(3, 8)[k].format))
  {
  }

  lemma LoopPlaced(k: nat)
    requires k < 10
    ensures Loops()[k].addr == 4 * (13 + k) && IsShort(Immediate(Loops()[k].format))
  {
  }

  lemma FileBody()
    ensures Laid(FileProgram().instrs, 0) && PrintAll(FileProgram().instrs) == SetupText() + LoopText()
  {
    hide Print, WellFormed, Setup, Loops, SetupText, LoopText;
    FileLaid();
    var instrs, t := FileProgram().instrs, SetupText() + LoopText();
    forall k | 0 <= k < 23 ensures PrintAll(instrs)[k] == t[k] {
      if k < 13 {
        SetupPrinted(k);
      } else {
        LoopPrinted(k - 13);
      }
    }
  }

  /** The file parses to the program of the sweep theorems and is reproduced by the printer. */
  lemma FileParses()
    ensures Parse(FileText()) == Parsed(FILE_CONFIG, FileProgram().instrs)
    ensures Reproduced(FileText()) && WellFormedAll(FileProgram().instrs) && FitsBuffer(FileProgram().instrs)
  {
    hide Parse, Reproduced, ParseHeader, IsLine, FileProgram, WellFormed, ProgramText, SetupText, LoopText, IsShort,
         FitsBuffer;
    var instrs := FileProgram().instrs;
    FileHeader();
    FileLaid();
    FileBody();
    JoinCons(HEADER_LINE, SetupText() + LoopText());
    assert [HEADER_LINE] + SetupText() + LoopText() == [HEADER_LINE] + (SetupText() + LoopText());
    assert FileText() == HEADER_LINE + "\n" + ProgramText(instrs) by { TextOfAll(instrs); }
    PrintedIsReproduced(FileText(), HEADER_LINE, FILE_CONFIG, instrs);
    ShortImmediatesFit(instrs);
  }

  predicate WellFormedAll(instrs: seq<Instruction>) {
    forall k :: 0 <= k < |instrs| ==> WellFormed(instrs[k])
  }

  lemma TextOfAll(instrs: seq<Instruction>)
    requires WellFormedAll(instrs)
    ensures ProgramText(instrs) == Join(PrintAll(instrs))
  {
  }

  /** The misses of three sweeps over eight lines. */
  function FileMisses(sets: nat): nat {
    if sets >= 8 then 8 else if sets >= 4 then 8 + 4 * (8 - sets) else 24
  }

  /** The main program on the file's characters, with any cache and enough turns: the program exits after 24
      accesses, with that many misses. */
  method EmulateFile(sets: u64, fuel: nat) returns (r: MainResult)
    requires sets > 0 && fuel >= 123
    ensures r == Ran(Stopped(Some(ExitException)), 24, FileMisses(sets))
  {
    hide Parse, Reproduced, Multiple, FitsBuffer, Run, Trace, MemoryOpsDone, Misses, Reset, U64, LineLength, FileText,
         SweepCost;
    FileParses();
    PastFirstLine(FileText());
    ghost var p := FileProgram();
    MultipleRuns(3, 8, 0x2000, sets, fuel);
    ResetRegs(p.cfg, sets);
    CountersModulo(p, Reset(p.cfg, sets), sets, fuel);
    FileCost(sets);
    r := EmulateText(FileText(), sets, fuel);
  }

  lemma {:induction false} PastFirstLine(text: string)
    requires Reproduced(text)
    ensures LineLength(text) < |text|
  {
    hide Parse, ProgramText;
  }

  lemma FileCost(sets: nat)
    requires sets > 0
    ensures SweepCost(8, 3, sets) == FileMisses(sets)
  {
  }
}
