/** The parser of src/instructions.c and the printer it is the inverse of, `stringify_program` of
    src/utilities.c. */
module Parsing {
  import opened Options
  import opened Words
  import opened Instructions
  import opened Machine
  import opened Text
  import opened LineSplitting

  // ------------------------------------------------------------------ the formats

  const WORD: seq<Dir> := [Str]
  const HEADER: seq<Dir> := [
    Lit('0'), Lit('x'), Hex64, Space, Lit('0'), Lit('x'), Hex64, Space, Lit('0'), Lit('x'), Hex64, Space, Lit('0'),
    Lit('x'), Hex64
  ]
  const RRR_FORMAT: seq<Dir> := [
    Str, Space, Lit('x'), Dec32, Lit(','), Lit('x'), Dec32, Lit(','), Lit('x'), Dec32
  ]
  const RRI_FORMAT: seq<Dir> := [Str, Space, Lit('x'), Dec32, Lit(','), Lit('x'), Dec32, Lit(','), Dec64]
  const RI_FORMAT: seq<Dir> := [Str, Space, Lit('x'), Dec32, Lit(','), Dec64]
  const ROR_FORMAT: seq<Dir> := [Str, Space, Lit('x'), Dec32, Lit(','), Dec64, Lit('('), Lit('x'), Dec32, Lit(')')]
  const JALR_FORMAT: seq<Dir> := [
    Str, Space, Lit('x'), Dec32, Lit(','), Space, Dec64, Lit('('), Lit('x'), Dec32, Lit(')')
  ]

  // ------------------------------------------------------------------ one line

  /** The number a decimal conversion stored. */
  function Num(v: Val): s64 { if v.N? then v.n else 0 }

  predicate IsReg(v: Val) { 0 <= Num(v) <= 31 }

  /** The operands of a line in a format; `None` when it is rejected. */
  function ParseOperands(fmt: Tag, op: Opcode, line: string): (r: Option<Format>)
    ensures r.Some? ==> r.value.Tag() == fmt && r.value.RegistersExist()
  {
    match fmt
    case FMT_RRR =>
      var vs := Sscanf(line, RRR_FORMAT);
      if |vs| == 4 && IsReg(vs[1]) && IsReg(vs[2]) && IsReg(vs[3]) then
        Some(RRR(Num(vs[1]), Num(vs[2]), Num(vs[3])))
      else None
    case FMT_RRI =>
      var vs := Sscanf(line, RRI_FORMAT);
      if |vs| == 4 && IsReg(vs[1]) && IsReg(vs[2]) then Some(RRI(Num(vs[1]), Num(vs[2]), Num(vs[3]))) else None
    case FMT_RI =>
      var vs := Sscanf(line, RI_FORMAT);
      if |vs| == 3 && IsReg(vs[1]) then Some(RI(Num(vs[1]), Num(vs[2]))) else None
    case FMT_ROR =>
      var vs := Sscanf(line, if op.JALR? then JALR_FORMAT else ROR_FORMAT);
      if |vs| == 4 && IsReg(vs[1]) && IsReg(vs[3]) then Some(ROR(Num(vs[1]), Num(vs[3]), Num(vs[2]))) else None
    case FMT_ECALL => Some(Ecall)
    case FMT_ERROR => None
  }

  /** Line `k` of the instructions. */
  ghost function ParseLine(line: string, k: nat, lower: u64): (r: Option<Instruction>)
    ensures r.Some? ==> WellFormed(r.value) && r.value.addr == U64(lower + k * 4)
  {
    var word := Sscanf(line, WORD);
    if |word| != 1 || !word[0].S? then None
    else
      match NumOf(word[0].s)
      case None => None
      case Some(op) =>
        match ParseOperands(FormatOf(op), op, line)
        case None => None
        case Some(f) => Some(Instruction(op, U64(lower + k * 4), f))
  }

  // ------------------------------------------------------------------ the whole text

  datatype ParseResult =
    | Parsed(cfg: Config, instrs: seq<Instruction>)
    | Rejected
    | Aborted  // an assertion of `lines` failed
    | Overrun  // a first word too long for its buffer

  function Hex(v: Val): u64 { if v.H? then v.h else 0 }

  function ParseHeader(line: string): Option<Config>
  {
    var vs := Sscanf(line, HEADER);
    if |vs| == 4 then Some(Config(Hex(vs[0]), Hex(vs[1]), Hex(vs[2]), Hex(vs[3]))) else None
  }

  ghost predicate AllParse(ls: seq<string>, lower: u64) {
    forall k :: 0 <= k < |ls| ==> ParseLine(ls[k], k, lower).Some?
  }

  /** A first word that does not fit the ten bytes of its buffer, the terminator included. */
  predicate Overruns(line: string) { WordLength(SkipSpace(line)) >= 10 }

  /** Some line overruns the buffer before any line is rejected. */
  ghost predicate SomeOverrun(ls: seq<string>, lower: u64) {
    exists k :: 0 <= k < |ls| && Overruns(ls[k]) && AllParse(ls[..k], lower)
  }

  ghost function Parse(text: string): ParseResult
  {
    match LinesOf(text)
    case None => Aborted
    case Some(ls) =>
      if ls == [] then Rejected
      else
        match ParseHeader(ls[0])
        case None => Rejected
        case Some(cfg) =>
          var body := ls[1..];
          if AllParse(body, cfg.instrLower) then
            Parsed(cfg, seq(|body|, k requires 0 <= k < |body| => ParseLine(body[k], k, cfg.instrLower).value))
          else if SomeOverrun(body, cfg.instrLower) then Overrun
          else Rejected
  }

  /** The instruction of one line, as the loop of `instructions_parse` reads it. */
  method ParseOne(line: string, k: nat, lower: u64) returns (r: Option<Instruction>)
    ensures r == ParseLine(line, k, lower)
  {
    hide Sscanf, FormatOf, ParseOperands;
    var word := Sscanf(line, WORD);
    if |word| != 1 || !word[0].S? {
      return None;
    }
    var op := InstrNum(word[0].s);
    if op == None {
      return None;
    }
    var fmt := InstrFormat(op.value);
    var format := ParseOperands(fmt, op.value, line);
    if format == None {
      return None;
    }
    return Some(Instruction(op.value, U64(lower + k * 4), format.value));
  }

  /** No mnemonic is that long. */
  lemma OverrunsNoMnemonic(line: string, k: nat, lower: u64)
    requires Overruns(line)
    ensures ParseLine(line, k, lower) == None
  {
    hide IsName, ParseOperands;
    var t := SkipSpace(line);
    var word := t[..WordLength(t)];
    assert Sscanf(line, WORD) == [S(word)];
    if NumOf(word).Some? {
      NamesAreLetters(NumOf(word).value);
      NameIsShort(word);
    }
  }

  lemma NameIsShort(name: string)
    requires IsName(name)
    ensures |name| <= 5
  {
  }

  /** The first line that does not parse decides which way the parser fails. */
  lemma OverrunDecides(body: seq<string>, k: nat, lower: u64)
    requires k < |body| && Overruns(body[k]) && AllParse(body[..k], lower)
    ensures !AllParse(body, lower) && SomeOverrun(body, lower)
  {
    hide ParseLine, Overruns;
    OverrunsNoMnemonic(body[k], k, lower);
  }

  lemma RejectionDecides(body: seq<string>, k: nat, lower: u64)
    requires k < |body| && ParseLine(body[k], k, lower) == None && !Overruns(body[k]) && AllParse(body[..k], lower)
    ensures !AllParse(body, lower) && !SomeOverrun(body, lower)
  {
    hide ParseLine, Overruns;
    if SomeOverrun(body, lower) {
      var j :| 0 <= j < |body| && Overruns(body[j]) && AllParse(body[..j], lower);
      if j < k {
        OverrunsNoMnemonic(body[j], j, lower);
      }
    }
  }

  /** `instructions_parse` */
  method InstructionsParse(text: string) returns (r: ParseResult)
    ensures r == Parse(text)
  {
    hide ParseLine, ParseHeader, LinesOf;
    var programLines := Lines(text);
    if programLines == None {
      return Aborted;
    }
    var ls := programLines.value;
    if |ls| == 0 {
      return Rejected;
    }
    var header := ParseHeader(ls[0]);
    if header == None {
      return Rejected;
    }
    var cfg := header.value;
    var instrs: seq<Instruction> := [];
    ghost var body := ls[1..];
    for i := 1 to |ls|
      invariant |instrs| == i - 1
      invariant forall k :: 0 <= k < i - 1 ==> ParseLine(body[k], k, cfg.instrLower) == Some(instrs[k])
    {
      assert ls[i] == body[i - 1];
      if Overruns(ls[i]) {
        OverrunDecides(body, i - 1, cfg.instrLower);
        return Overrun;
      }
      var one := ParseOne(ls[i], i - 1, cfg.instrLower);
      if one == None {
        RejectionDecides(body, i - 1, cfg.instrLower);
        return Rejected;
      }
      instrs := instrs + [one.value];
    }
    return Parsed(cfg, instrs);
  }

  /** Whatever is parsed is well formed and records its own address: what the emulator relies on. */
  lemma ParsedIsWellFormed(text: string)
    ensures Parse(text).Parsed? ==>
              forall k :: 0 <= k < |Parse(text).instrs| ==>
                WellFormed(Parse(text).instrs[k])
                && Parse(text).instrs[k].addr == U64(Parse(text).cfg.instrLower + k * 4)
  {
    hide ParseLine, ParseHeader, LinesOf;
  }

  /** A parsed text whose header announces no more instructions than it has is a program to emulate. */
  lemma ParsedIsProgram(text: string)
    requires Parse(text).Parsed?
    requires var r := Parse(text); r.cfg.instrUpper - r.cfg.instrLower <= 4 * |r.instrs| && |r.instrs| < TWO31
    ensures ProgramData(Parse(text).cfg, Parse(text).instrs).Valid()
  {
    hide Parse, WellFormed;
    ParsedIsWellFormed(text);
  }

  // ------------------------------------------------------------------ printing

  function PrintFormat(t: Tag): seq<Dir>
    requires t != FMT_ERROR
  {
    match t
    case FMT_RRR => RRR_FORMAT
    case FMT_RRI => RRI_FORMAT
    case FMT_RI => RI_FORMAT
    case FMT_ROR => ROR_FORMAT
    case FMT_ECALL => WORD
  }

  function PrintValues(name: string, f: Format): seq<Val>
  {
    match f
    case RRR(rd, rs1, rs2) => [S(name), N(rd), N(rs1), N(rs2)]
    case RRI(rd, rs1, imm) => [S(name), N(rd), N(rs1), N(imm)]
    case RI(rd, imm) => [S(name), N(rd), N(imm)]
    case ROR(r2, r1, offset) => [S(name), N(r2), N(offset), N(r1)]
    case Ecall => [S(name)]
  }

  lemma NamesAreLetters(op: Opcode)
    ensures IsName(NameOf(op))
  {
    hide IsName;
  }

  lemma NameIsPrintable(name: string)
    requires IsName(name)
    ensures Printable(Str, S(name))
  {
    forall c | c in name ensures !IsSpace(c) {
      var k :| 0 <= k < |name| && name[k] == c;
      assert LetterAt(name, k);
    }
  }

  lemma RegisterIsPrintable(r: u32)
    requires r <= 31
    ensures Printable(Dec32, N(r))
  {
  }

  const LEAD: seq<Dir> := [Str, Space, Lit('x'), Dec32, Lit(',')]

  lemma {:induction false} MatchesOther(d: Dir, f: seq<Dir>, vs: seq<Val>)
    requires !Converts(d) && Matches(f, vs)
    ensures Matches([d] + f, vs)
  {
    assert ([d] + f)[1..] == f;
  }

  lemma {:induction false} MatchesConversion(d: Dir, v: Val, f: seq<Dir>, vs: seq<Val>)
    requires Converts(d) && Printable(d, v) && Matches(f, vs)
    ensures Matches([d] + f, [v] + vs)
  {
    assert ([d] + f)[1..] == f && ([v] + vs)[1..] == vs;
  }

  /** The mnemonic and first register, before any further operands. */
  lemma {:induction false} Operands(name: string, r: u32, f: seq<Dir>, vs: seq<Val>)
    requires IsName(name) && r <= 31 && Matches(f, vs)
    ensures Matches(LEAD + f, [S(name), N(r)] + vs)
  {
    hide IsName, Matches, Printable;
    NameIsPrintable(name);
    RegisterIsPrintable(r);
    var f1, rs := [Lit(',')] + f, [N(r)] + vs;
    MatchesOther(Lit(','), f, vs);
    MatchesConversion(Dec32, N(r), f1, vs);
    var f2 := [Dec32] + f1;
    MatchesOther(Lit('x'), f2, rs);
    var f3 := [Lit('x')] + f2;
    MatchesOther(Space, f3, rs);
    MatchesConversion(Str, S(name), [Space] + f3, rs);
    assert [Str] + ([Space] + f3) == LEAD + f;
    assert [S(name)] + rs == [S(name), N(r)] + vs;
  }

  // Each format, read from its end: no conversion can swallow its successor, and the operands fit.

  lemma RrrTail(rs1: u32, rs2: u32)
    requires rs1 <= 31 && rs2 <= 31
    ensures Matches([Lit('x'), Dec32, Lit(','), Lit('x'), Dec32], [N(rs1), N(rs2)])
  {
  }

  lemma RrrMatches(name: string, rd: u32, rs1: u32, rs2: u32)
    requires IsName(name) && rd <= 31 && rs1 <= 31 && rs2 <= 31
    ensures Matches(RRR_FORMAT, [S(name), N(rd), N(rs1), N(rs2)])
  {
    hide Matches, IsName;
    RrrTail(rs1, rs2);
    var tail := [Lit('x'), Dec32, Lit(','), Lit('x'), Dec32];
    Operands(name, rd, tail, [N(rs1), N(rs2)]);
    assert [S(name), N(rd)] + [N(rs1), N(rs2)] == [S(name), N(rd), N(rs1), N(rs2)];
    assert RRR_FORMAT == LEAD + tail;
  }

  lemma RrrDelimited()
    ensures Delimited(RRR_FORMAT)
  {
  }

  lemma RriTail(rs1: u32, imm: s64)
    requires rs1 <= 31
    ensures Matches([Lit('x'), Dec32, Lit(','), Dec64], [N(rs1), N(imm)])
  {
  }

  lemma RriMatches(name: string, rd: u32, rs1: u32, imm: s64)
    requires IsName(name) && rd <= 31 && rs1 <= 31
    ensures Matches(RRI_FORMAT, [S(name), N(rd), N(rs1), N(imm)])
  {
    hide Matches, IsName;
    RriTail(rs1, imm);
    var tail := [Lit('x'), Dec32, Lit(','), Dec64];
    Operands(name, rd, tail, [N(rs1), N(imm)]);
    assert [S(name), N(rd)] + [N(rs1), N(imm)] == [S(name), N(rd), N(rs1), N(imm)];
    assert RRI_FORMAT == LEAD + tail;
  }

  lemma RriDelimited()
    ensures Delimited(RRI_FORMAT)
  {
  }

  lemma RiMatches(name: string, rd: u32, imm: s64)
    requires IsName(name) && rd <= 31
    ensures Matches(RI_FORMAT, [S(name), N(rd), N(imm)])
  {
    hide IsName;
    NameIsPrintable(name);
  }

  lemma RiDelimited()
    ensures Delimited(RI_FORMAT)
  {
  }

  lemma RorMatches(name: string, r2: u32, r1: u32, offset: s64)
    requires IsName(name) && r2 <= 31 && r1 <= 31
    ensures Matches(ROR_FORMAT, [S(name), N(r2), N(offset), N(r1)])
  {
    var tail := [Lit('('), Lit('x'), Dec32, Lit(')')];
    assert Matches(tail, [N(r1)]);
    Operands(name, r2, [Dec64] + tail, [N(offset), N(r1)]);
    assert ([Dec64] + tail)[1..] == tail && [N(offset), N(r1)][1..] == [N(r1)];
    assert ROR_FORMAT == LEAD + ([Dec64] + tail);
  }

  lemma RorDelimited()
    ensures Delimited(ROR_FORMAT)
  {
  }

  const HEX_FIELD: seq<Dir> := [Lit('0'), Lit('x'), Hex64]

  lemma {:induction false} HeaderField(f: seq<Dir>, h: u64, vs: seq<Val>)
    requires Delimited(f) && Matches(f, vs) && f != [] && f[0] == Lit('0')
    ensures Delimited(HEX_FIELD + [Space] + f) && Matches(HEX_FIELD + [Space] + f, [H(h)] + vs)
  {
    var f1, f2, f3 := [Space] + f, [Hex64, Space] + f, [Lit('x'), Hex64, Space] + f;
    assert f1[1..] == f && f2[1..] == f1 && f3[1..] == f2;
    assert (HEX_FIELD + [Space] + f)[1..] == f3;
    assert ([H(h)] + vs)[1..] == vs;
    assert Matches(f1, vs) && Delimited(f1);
    assert Matches(f2, [H(h)] + vs) && Delimited(f2);
    assert Matches(f3, [H(h)] + vs) && Delimited(f3);
  }

  lemma LastHeaderField(h: u64)
    ensures Delimited(HEX_FIELD) && Matches(HEX_FIELD, [H(h)])
  {
  }

  lemma HeaderMatches(cfg: Config)
    ensures Delimited(HEADER) && Matches(HEADER, HeaderValues(cfg))
  {
    var last := [H(cfg.memorySz)];
    LastHeaderField(cfg.memorySz);
    hide Delimited, Matches;
    var two, three := HEX_FIELD + [Space] + HEX_FIELD, HEX_FIELD + [Space] + (HEX_FIELD + [Space] + HEX_FIELD);
    HeaderField(HEX_FIELD, cfg.entryAddress, last);
    HeaderField(two, cfg.instrUpper, [H(cfg.entryAddress)] + last);
    HeaderField(three, cfg.instrLower, [H(cfg.instrUpper)] + ([H(cfg.entryAddress)] + last));
    assert HEADER == HEX_FIELD + [Space] + three;
    assert HeaderValues(cfg) == [H(cfg.instrLower)] + ([H(cfg.instrUpper)] + ([H(cfg.entryAddress)] + last));
  }

  function HeaderValues(cfg: Config): seq<Val> {
    [H(cfg.instrLower), H(cfg.instrUpper), H(cfg.entryAddress), H(cfg.memorySz)]
  }

  lemma ValuesMatch(name: string, f: Format)
    requires IsName(name) && f.RegistersExist()
    ensures Matches(PrintFormat(f.Tag()), PrintValues(name, f))
    ensures Delimited(PrintFormat(f.Tag()))
  {
    hide IsName;
    match f
    case RRR(rd, rs1, rs2) =>
      RrrMatches(name, rd, rs1, rs2);
      RrrDelimited();
    case RRI(rd, rs1, imm) =>
      RriMatches(name, rd, rs1, imm);
      RriDelimited();
    case RI(rd, imm) =>
      RiMatches(name, rd, imm);
      RiDelimited();
    case ROR(r2, r1, offset) =>
      RorMatches(name, r2, r1, offset);
      RorDelimited();
    case Ecall =>
      WordMatches(name);
  }

  lemma WordMatches(name: string)
    requires IsName(name)
    ensures Matches(WORD, [S(name)]) && Delimited(WORD)
  {
    hide IsName;
    NameIsPrintable(name);
  }

  function PrintLine(name: string, f: Format): string
    requires IsName(name) && f.RegistersExist()
  {
    ValuesMatch(name, f);
    Sprintf(PrintFormat(f.Tag()), PrintValues(name, f))
  }
}
