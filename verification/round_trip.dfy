/** Printing a program and parsing it again gives the program back (src/utilities.c:236-242 calls
    the two functions inverses; src/main.c:72-88 exits when they are not). */
module RoundTrip {
  import opened Options
  import opened Words
  import opened Instructions
  import opened Machine
  import opened Text
  import opened LineSplitting
  import opened Parsing

  // ------------------------------------------------------------------ printed lines are lines

  /** Formats that print no line end of their own. */
  predicate OneLine(f: seq<Dir>) {
    forall k :: 0 <= k < |f| ==> f[k] != Lit('\n')
  }

  lemma PrintedOneIsPlain(d: Dir, v: Val)
    requires Converts(d) && Printable(d, v)
    ensures PrintOne(d, v) != "" && '\n' !in PrintOne(d, v)
  {
    hide Numeral;
    match d
    case Str =>
      NewlineIsSpace();
    case Hex64 => NumeralDigits(v.h, 16);
    case Dec32 | Dec64 => NumeralDigits(if v.n < 0 then -(v.n as int) else v.n, 10);
    case _ =>
  }

  lemma NewlineIsSpace()
    ensures IsSpace('\n')
  {
  }

  lemma {:induction false} PrintedIsOneLine(f: seq<Dir>, vs: seq<Val>)
    requires Matches(f, vs) && OneLine(f)
    ensures '\n' !in Sprintf(f, vs)
    decreases f
  {
    hide PrintOne, Printable;
    if f != [] {
      if Converts(f[0]) {
        PrintedOneIsPlain(f[0], vs[0]);
        PrintedIsOneLine(f[1..], vs[1..]);
      } else {
        assert f[0] != Lit('\n');
        PrintedIsOneLine(f[1..], vs);
      }
    }
  }

  lemma FormatsAreOneLine(t: Tag)
    requires t != FMT_ERROR
    ensures OneLine(PrintFormat(t)) && OneLine(HEADER)
    ensures PrintFormat(t) != [] && PrintFormat(t)[0] == Str
  {
  }

  lemma PrintLineIsLine(name: string, f: Format)
    requires IsName(name) && f.RegistersExist()
    ensures IsLine(PrintLine(name, f))
  {
    hide IsName, PrintFormat, PrintValues, OneLine, Sprintf;
    ValuesMatch(name, f);
    FormatsAreOneLine(f.Tag());
    PrintedIsOneLine(PrintFormat(f.Tag()), PrintValues(name, f));
    FirstPrinted(PrintFormat(f.Tag()), PrintValues(name, f));
  }

  // ------------------------------------------------------------------ one instruction back

  /** The first conversion of a format is what scanning for the mnemonic alone finds. */
  lemma {:induction false} MnemonicFirst(line: string, f: seq<Dir>, v: Val)
    requires f != [] && f[0].Str? && Sscanf(line, f) != [] && Sscanf(line, f)[0] == v
    ensures Sscanf(line, WORD) == [v]
  {
  }

  lemma {:induction false} JalrScansAlike(line: string)
    ensures Sscanf(line, JALR_FORMAT) == Sscanf(line, ROR_FORMAT)
  {
    var front, rest := ROR_FORMAT[..5], ROR_FORMAT[5..];
    assert ROR_FORMAT == front + rest && JALR_FORMAT == front + [Space] + rest;
    SpaceBeforeNumber(line, front, rest);
  }

  /** Scanning a printed line with its own format gives the values back, the mnemonic first. */
  lemma ValuesBack(name: string, f: Format)
    requires IsName(name) && f.RegistersExist()
    ensures Sscanf(PrintLine(name, f), PrintFormat(f.Tag())) == PrintValues(name, f)
    ensures Sscanf(PrintLine(name, f), WORD) == [S(name)]
  {
    hide Sscanf, Sprintf, Matches, Delimited, IsName, PrintFormat;
    ValuesMatch(name, f);
    ScanPrinted(PrintFormat(f.Tag()), PrintValues(name, f));
    FormatsAreOneLine(f.Tag());
    MnemonicFirst(PrintLine(name, f), PrintFormat(f.Tag()), S(name));
  }

  lemma OperandsBack(op: Opcode, f: Format)
    requires f.Tag() == FormatOf(op) && f.RegistersExist() && IsName(NameOf(op))
    ensures ParseOperands(f.Tag(), op, PrintLine(NameOf(op), f)) == Some(f)
  {
    hide Sscanf, IsName, NameOf, FormatOf, PrintLine;
    ValuesBack(NameOf(op), f);
    if f.ROR? {
      JalrScansAlike(PrintLine(NameOf(op), f));
    }
    FieldsBack(NameOf(op), f);
  }

  /** The parser reads the fields from where the printer put them. */
  lemma FieldsBack(name: string, f: Format)
    requires f.RegistersExist()
    ensures var vs := PrintValues(name, f);
            match f
            case RRR(rd, rs1, rs2) => |vs| == 4 && Num(vs[1]) == rd && Num(vs[2]) == rs1 && Num(vs[3]) == rs2
            case RRI(rd, rs1, imm) => |vs| == 4 && Num(vs[1]) == rd && Num(vs[2]) == rs1 && Num(vs[3]) == imm
            case RI(rd, imm) => |vs| == 3 && Num(vs[1]) == rd && Num(vs[2]) == imm
            case ROR(r2, r1, offset) => |vs| == 4 && Num(vs[1]) == r2 && Num(vs[2]) == offset && Num(vs[3]) == r1
            case Ecall => true
  {
  }

  /** The printed line of a well-formed instruction. */
  function Print(i: Instruction): string
    requires WellFormed(i)
  {
    NamesAreLetters(i.op);
    PrintLine(NameOf(i.op), i.format)
  }

  lemma InstructionBack(i: Instruction, k: nat, lower: u64)
    requires WellFormed(i) && i.addr == U64(lower + k * 4)
    ensures ParseLine(Print(i), k, lower) == Some(i)
  {
    hide Sscanf, PrintLine, ParseOperands, NameOf, FormatOf, IsName;
    NamesAreLetters(i.op);
    OperandsBack(i.op, i.format);
    ValuesBack(NameOf(i.op), i.format);
    NumOfName(i.op);
  }

  // ------------------------------------------------------------------ the whole program back

  /** Instructions at consecutive addresses from `lower`, as the parser produces them. */
  predicate Laid(instrs: seq<Instruction>, lower: u64) {
    forall k :: 0 <= k < |instrs| ==> WellFormed(instrs[k]) && instrs[k].addr == U64(lower + k * 4)
  }

  function PrintAll(instrs: seq<Instruction>): (ls: seq<string>)
    requires forall k :: 0 <= k < |instrs| ==> WellFormed(instrs[k])
    ensures |ls| == |instrs|
  {
    seq(|instrs|, k requires 0 <= k < |instrs| => Print(instrs[k]))
  }

  /** The text of the instructions: lines separated by newlines, none at the end. */
  function ProgramText(instrs: seq<Instruction>): string
    requires forall k :: 0 <= k < |instrs| ==> WellFormed(instrs[k])
  {
    Join(PrintAll(instrs))
  }

  /** `max_instr_str_sz` */
  const LINE_SIZE: nat := 26

  /** The printed lines, their newlines and a terminator fit a buffer of 26 bytes a line. */
  predicate FitsBuffer(instrs: seq<Instruction>)
    requires forall k :: 0 <= k < |instrs| ==> WellFormed(instrs[k])
  {
    instrs != [] && |ProgramText(instrs)| + 2 <= LINE_SIZE * |instrs|
  }

  /** `stringify_program`: each line with a newline after it, the last newline dropped. `None` when it
      writes outside its buffer: behind it when the lines are too long, before it when there is no
      instruction and so no newline to drop. */
  method StringifyProgram(instrs: seq<Instruction>) returns (text: Option<string>)
    requires forall k :: 0 <= k < |instrs| ==> WellFormed(instrs[k])
    ensures text == if FitsBuffer(instrs) then Some(ProgramText(instrs)) else None
  {
    hide Print, PrintLine, WellFormed, Join, NameOf;
    var o := "";
    ghost var ls := PrintAll(instrs);
    for i := 0 to |instrs|
      invariant o == Terminated(ls[..i])
      invariant i > 0 ==> |o| + 1 <= LINE_SIZE * |instrs|
    {
      var name := InstrName(instrs[i].op);
      NamesAreLetters(instrs[i].op);
      PrintUnfolds(instrs[i]);
      var line := PrintLine(name, instrs[i].format);
      TerminatedSnoc(ls[..i], line);
      assert ls[..i + 1] == ls[..i] + [line];
      if |o| + |line| + 2 > LINE_SIZE * |instrs| {
        TerminatedPrefix(ls, i + 1);
        TerminatedIsJoin(ls);
        return None;
      }
      o := o + line + "\n";
    }
    assert ls[..|instrs|] == ls;
    if |o| == 0 {
      assert ls == [];
      return None;
    }
    assert ls != [];
    TerminatedIsJoin(ls);
    assert o == Join(ls) + "\n";
    o := o[..|o| - 1];
    assert o == Join(ls);
    return Some(o);
  }

  lemma PrintUnfolds(i: Instruction)
    requires WellFormed(i)
    ensures i.format.RegistersExist() && IsName(NameOf(i.op)) && Print(i) == PrintLine(NameOf(i.op), i.format)
  {
    NamesAreLetters(i.op);
  }

  /** Lines with a newline after each. */
  function Terminated(ls: seq<string>): string {
    if ls == [] then "" else ls[0] + "\n" + Terminated(ls[1..])
  }

  lemma {:induction false} TerminatedSnoc(ls: seq<string>, line: string)
    ensures Terminated(ls + [line]) == Terminated(ls) + line + "\n"
  {
    if ls == [] {
      assert [] + [line] == [line] && [line][1..] == [];
      assert Terminated([line]) == line + "\n" + "";
    } else {
      assert (ls + [line])[1..] == ls[1..] + [line];
      TerminatedSnoc(ls[1..], line);
      assert ls[0] + "\n" + (Terminated(ls[1..]) + line + "\n") == (ls[0] + "\n" + Terminated(ls[1..])) + line + "\n";
    }
  }

  lemma {:induction false} TerminatedPrefix(ls: seq<string>, k: nat)
    requires k <= |ls|
    ensures |Terminated(ls[..k])| <= |Terminated(ls)|
    decreases |ls| - k
  {
    if k < |ls| {
      TerminatedSnoc(ls[..k], ls[k]);
      assert ls[..k + 1] == ls[..k] + [ls[k]];
      TerminatedPrefix(ls, k + 1);
    } else {
      assert ls[..k] == ls;
    }
  }

  lemma {:induction false} TerminatedIsJoin(ls: seq<string>)
    requires ls != []
    ensures Terminated(ls) == Join(ls) + "\n"
  {
    if |ls| == 1 {
      assert Terminated(ls) == ls[0] + "\n" + "";
    } else {
      TerminatedIsJoin(ls[1..]);
      assert ls[0] + "\n" + (Join(ls[1..]) + "\n") == (ls[0] + "\n" + Join(ls[1..])) + "\n";
    }
  }

  /** The header as the object builder prints it: `0x` and hexadecimal digits, four times. */
  function HeaderText(cfg: Config): string {
    HeaderMatches(cfg);
    Sprintf(HEADER, HeaderValues(cfg))
  }

  lemma HeaderBack(cfg: Config)
    ensures IsLine(HeaderText(cfg)) && ParseHeader(HeaderText(cfg)) == Some(cfg)
  {
    hide Sscanf, Sprintf, Matches, Delimited;
    HeaderMatches(cfg);
    ScanPrinted(HEADER, HeaderValues(cfg));
    FormatsAreOneLine(FMT_ECALL);
    PrintedIsOneLine(HEADER, HeaderValues(cfg));
    FirstPrinted(HEADER, HeaderValues(cfg));
  }

  /** For every header line and every non-empty laid-out program: parsing the header followed by the
      printed program gives back the header's configuration and the same instructions, formats and addresses. */
  lemma ParsePrinted(header: string, cfg: Config, instrs: seq<Instruction>)
    requires IsLine(header) && ParseHeader(header) == Some(cfg)
    requires instrs != [] && Laid(instrs, cfg.instrLower)
    ensures Parse(header + "\n" + ProgramText(instrs)) == Parsed(cfg, instrs)
  {
    hide Print, Join, LinesOf, ParseHeader, ParseLine, IsLine, WellFormed;
    var text, ls := header + "\n" + ProgramText(instrs), [header] + PrintAll(instrs);
    JoinCons(header, PrintAll(instrs));
    forall k | 0 <= k < |ls| ensures IsLine(ls[k]) {
      if k > 0 {
        PrintIsLine(instrs[k - 1]);
      }
    }
    LinesOfJoined(ls);
    assert ls[1..] == PrintAll(instrs);
    forall k | 0 <= k < |instrs| ensures ParseLine(ls[1..][k], k, cfg.instrLower) == Some(instrs[k]) {
      InstructionBack(instrs[k], k, cfg.instrLower);
    }
    assert AllParse(ls[1..], cfg.instrLower);
    assert Parse(text).instrs == instrs;
  }

  /** The same for the header the object builder prints. */
  lemma ParseBuilt(cfg: Config, instrs: seq<Instruction>)
    requires instrs != [] && Laid(instrs, cfg.instrLower)
    ensures Parse(HeaderText(cfg) + "\n" + ProgramText(instrs)) == Parsed(cfg, instrs)
  {
    hide HeaderText, Parse, ParseHeader, IsLine, Laid, ProgramText;
    HeaderBack(cfg);
    ParsePrinted(HeaderText(cfg), cfg, instrs);
  }

  lemma PrintIsLine(i: Instruction)
    requires WellFormed(i)
    ensures IsLine(Print(i))
  {
    NamesAreLetters(i.op);
    PrintLineIsLine(NameOf(i.op), i.format);
  }

  /** The check of src/main.c succeeds: past its first newline the input is the printed program. */
  ghost predicate Reproduced(text: string) {
    ParsedIsWellFormed(text);
    && Parse(text).Parsed? && Parse(text).instrs != [] && LineLength(text) < |text|
    && text[LineLength(text) + 1..] == ProgramText(Parse(text).instrs)
  }

  /** A header line and the printed form of a laid-out program. */
  ghost predicate IsPrinted(text: string, header: string, cfg: Config, instrs: seq<Instruction>) {
    && IsLine(header) && ParseHeader(header) == Some(cfg)
    && instrs != [] && Laid(instrs, cfg.instrLower)
    && text == header + "\n" + ProgramText(instrs)
  }

  /** The check succeeds on such texts, */
  lemma PrintedIsReproduced(text: string, header: string, cfg: Config, instrs: seq<Instruction>)
    requires IsPrinted(text, header, cfg, instrs)
    ensures Reproduced(text) && Parse(text) == Parsed(cfg, instrs)
  {
    hide ProgramText, Parse, ParseHeader, LineLength, WellFormed;
    ParsePrinted(header, cfg, instrs);
    var rest := "\n" + ProgramText(instrs);
    FirstLineLength(header, rest);
    assert text == header + rest;
  }

  /** and on no others: what parses and is reproduced is a header line and a printed program. */
  lemma {:induction false} ReproducedIsPrinted(text: string)
    requires Reproduced(text)
    ensures IsPrinted(text, text[..LineLength(text)], Parse(text).cfg, Parse(text).instrs)
  {
    hide ProgramText, ParseHeader, ParseLine, WellFormed, Parse, IsLine, LineLength;
    var n := LineLength(text);
    ParsedIsWellFormed(text);
    FirstLineIsHeader(text);
    assert text == text[..n] + "\n" + text[n + 1..];
  }

  lemma {:induction false} FirstLineIsHeader(text: string)
    requires Parse(text).Parsed?
    ensures IsLine(text[..LineLength(text)])
    ensures ParseHeader(text[..LineLength(text)]) == Some(Parse(text).cfg)
  {
    hide ParseHeader, ParseLine, LineLength;
    FirstOfLines(text);
  }

  lemma {:induction false} FirstOfLines(text: string)
    requires LinesOf(text).Some? && LinesOf(text).value != []
    ensures LinesOf(text).value[0] == text[..LineLength(text)] && IsLine(text[..LineLength(text)])
  {
    hide LineLength, Tokens;
    TokensAreNonEmptyLines(text);
    assert LinesOf(text).value == Split(text);
    assert Split(text)[0] in Split(text);
  }

  /** So the check succeeds exactly on the texts of that form. */
  lemma ReproducedExactly(text: string)
    ensures Reproduced(text) <==> exists header, cfg, instrs :: IsPrinted(text, header, cfg, instrs)
  {
    hide IsPrinted, Parse, ProgramText, LineLength;
    if Reproduced(text) {
      ReproducedIsPrinted(text);
      assert IsPrinted(text, text[..LineLength(text)], Parse(text).cfg, Parse(text).instrs);
    }
    forall header, cfg, instrs | IsPrinted(text, header, cfg, instrs) ensures Reproduced(text) {
      PrintedIsReproduced(text, header, cfg, instrs);
    }
  }

  /** Different instruction sequences print differently. */
  lemma PrintingIsInjective(a: seq<Instruction>, b: seq<Instruction>, lower: u64)
    requires a != [] && b != [] && Laid(a, lower) && Laid(b, lower)
    requires ProgramText(a) == ProgramText(b)
    ensures a == b
  {
    hide HeaderText, ProgramText, Parse;
    ParseBuilt(Config(lower, 0, 0, 0), a);
    ParseBuilt(Config(lower, 0, 0, 0), b);
  }
}
