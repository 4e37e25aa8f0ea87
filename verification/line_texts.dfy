/** The assembly text itself: what each kind of line and the header look like. */
module LineTexts {
  import opened Options
  import opened Words
  import opened Instructions
  import opened Machine
  import opened Text
  import opened Parsing
  import opened RoundTrip
  import opened ScanLaws

  // One directive of a format at a time.

  lemma {:induction false} PrintLit(c: char, f: seq<Dir>, vs: seq<Val>)
    requires Matches(f, vs)
    ensures Matches([Lit(c)] + f, vs) && Sprintf([Lit(c)] + f, vs) == [c] + Sprintf(f, vs)
  {
    assert ([Lit(c)] + f)[1..] == f;
  }

  lemma {:induction false} PrintBlank(f: seq<Dir>, vs: seq<Val>)
    requires Matches(f, vs)
    ensures Matches([Space] + f, vs) && Sprintf([Space] + f, vs) == " " + Sprintf(f, vs)
  {
    assert ([Space] + f)[1..] == f;
  }

  lemma {:induction false} PrintConversion(d: Dir, v: Val, f: seq<Dir>, vs: seq<Val>)
    requires Converts(d) && Printable(d, v) && Matches(f, vs)
    ensures Matches([d] + f, [v] + vs) && Sprintf([d] + f, [v] + vs) == PrintOne(d, v) + Sprintf(f, vs)
  {
    assert ([d] + f)[1..] == f && ([v] + vs)[1..] == vs;
  }

  /** `x` and a register number, of an existing register or not. */
  lemma {:induction false} PrintRegister(r: s32, f: seq<Dir>, vs: seq<Val>)
    requires Matches(f, vs)
    ensures Matches([Lit('x'), Dec32] + f, [N(r)] + vs)
    ensures Sprintf([Lit('x'), Dec32] + f, [N(r)] + vs) == "x" + Decimal(r) + Sprintf(f, vs)
  {
    hide Matches, Sprintf, Decimal;
    PrintConversion(Dec32, N(r), f, vs);
    PrintLit('x', [Dec32] + f, [N(r)] + vs);
    assert [Lit('x')] + ([Dec32] + f) == [Lit('x'), Dec32] + f;
    assert "x" + (Decimal(r) + Sprintf(f, vs)) == "x" + Decimal(r) + Sprintf(f, vs);
  }

  /** A mnemonic, a blank, the first register and a comma. */
  lemma {:induction false} PrintLead(name: string, r: s32, f: seq<Dir>, vs: seq<Val>)
    requires IsName(name) && Matches(f, vs)
    ensures Matches(LEAD + f, [S(name), N(r)] + vs)
    ensures Sprintf(LEAD + f, [S(name), N(r)] + vs) == name + " x" + Decimal(r) + "," + Sprintf(f, vs)
  {
    hide Matches, Sprintf, Decimal, IsName;
    var comma := [Lit(',')] + f;
    var register := [Lit('x'), Dec32] + comma;
    var rs := [N(r)] + vs;
    PrintLit(',', f, vs);
    PrintRegister(r, comma, vs);
    PrintBlank(register, rs);
    NameIsPrintable(name);
    PrintConversion(Str, S(name), [Space] + register, rs);
    assert [Str] + ([Space] + register) == LEAD + f;
    assert [S(name)] + rs == [S(name), N(r)] + vs;
    assert name + (" " + ("x" + Decimal(r) + ("," + Sprintf(f, vs))))
        == name + " x" + Decimal(r) + "," + Sprintf(f, vs);
  }

  lemma {:induction false} PrintNumber(imm: s64, f: seq<Dir>, vs: seq<Val>)
    requires Matches(f, vs)
    ensures Matches([Dec64] + f, [N(imm)] + vs) && Sprintf([Dec64] + f, [N(imm)] + vs) == Decimal(imm) + Sprintf(f, vs)
  {
    PrintConversion(Dec64, N(imm), f, vs);
  }

  lemma PrintNothing()
    ensures Matches([], []) && Sprintf([], []) == ""
  {
  }

  lemma LastRegister(r: s32)
    ensures Matches([Lit('x'), Dec32], [N(r)]) && Sprintf([Lit('x'), Dec32], [N(r)]) == "x" + Decimal(r)
  {
    hide Matches, Sprintf, Decimal;
    PrintNothing();
    PrintRegister(r, [], []);
    assert [Lit('x'), Dec32] + [] == [Lit('x'), Dec32] && [N(r)] + [] == [N(r)];
    assert "x" + Decimal(r) + "" == "x" + Decimal(r);
  }

  lemma LastNumber(imm: s64)
    ensures Matches([Dec64], [N(imm)]) && Sprintf([Dec64], [N(imm)]) == Decimal(imm)
  {
    hide Matches, Sprintf, Decimal;
    PrintNothing();
    PrintNumber(imm, [], []);
    assert [Dec64] + [] == [Dec64] && [N(imm)] + [] == [N(imm)] && Decimal(imm) + "" == Decimal(imm);
  }

  lemma RrrText(name: string, rd: s32, rs1: s32, rs2: s32)
    requires IsName(name)
    ensures Matches(RRR_FORMAT, [S(name), N(rd), N(rs1), N(rs2)])
    ensures Sprintf(RRR_FORMAT, [S(name), N(rd), N(rs1), N(rs2)]) ==
            name + " x" + Decimal(rd) + ",x" + Decimal(rs1) + ",x" + Decimal(rs2)
  {
    hide Matches, Sprintf, Decimal, IsName;
    var last, comma := [Lit('x'), Dec32], [Lit(',')] + [Lit('x'), Dec32];
    LastRegister(rs2);
    PrintLit(',', last, [N(rs2)]);
    PrintRegister(rs1, comma, [N(rs2)]);
    PrintLead(name, rd, [Lit('x'), Dec32] + comma, [N(rs1)] + [N(rs2)]);
    assert LEAD + ([Lit('x'), Dec32] + comma) == RRR_FORMAT;
    assert [S(name), N(rd)] + ([N(rs1)] + [N(rs2)]) == [S(name), N(rd), N(rs1), N(rs2)];
    var a, b, c := Decimal(rd), Decimal(rs1), Decimal(rs2);
    assert name + " x" + a + "," + ("x" + b + ("," + ("x" + c))) == name + " x" + a + ",x" + b + ",x" + c;
  }

  lemma LineIs(name: string, f: Format)
    requires IsName(name) && f.RegistersExist()
    ensures Matches(PrintFormat(f.Tag()), PrintValues(name, f))
    ensures PrintLine(name, f) == Sprintf(PrintFormat(f.Tag()), PrintValues(name, f))
  {
    hide IsName, PrintFormat, PrintValues, Sprintf;
    ValuesMatch(name, f);
  }

  lemma RriText(name: string, rd: s32, rs1: s32, imm: s64)
    requires IsName(name)
    ensures Matches(RRI_FORMAT, [S(name), N(rd), N(rs1), N(imm)])
    ensures Sprintf(RRI_FORMAT, [S(name), N(rd), N(rs1), N(imm)]) ==
            name + " x" + Decimal(rd) + ",x" + Decimal(rs1) + "," + Decimal(imm)
  {
    hide Matches, Sprintf, Decimal, IsName;
    var comma := [Lit(',')] + [Dec64];
    LastNumber(imm);
    PrintLit(',', [Dec64], [N(imm)]);
    PrintRegister(rs1, comma, [N(imm)]);
    PrintLead(name, rd, [Lit('x'), Dec32] + comma, [N(rs1)] + [N(imm)]);
    assert LEAD + ([Lit('x'), Dec32] + comma) == RRI_FORMAT;
    assert [S(name), N(rd)] + ([N(rs1)] + [N(imm)]) == [S(name), N(rd), N(rs1), N(imm)];
    var a, b, c := Decimal(rd), Decimal(rs1), Decimal(imm);
    assert name + " x" + a + "," + ("x" + b + ("," + c)) == name + " x" + a + ",x" + b + "," + c;
  }

  lemma RiText(name: string, rd: s32, imm: s64)
    requires IsName(name)
    ensures Matches(RI_FORMAT, [S(name), N(rd), N(imm)])
    ensures Sprintf(RI_FORMAT, [S(name), N(rd), N(imm)]) == name + " x" + Decimal(rd) + "," + Decimal(imm)
  {
    hide Matches, Sprintf, Decimal, IsName;
    LastNumber(imm);
    PrintLead(name, rd, [Dec64], [N(imm)]);
    assert LEAD + [Dec64] == RI_FORMAT;
    assert [S(name), N(rd)] + [N(imm)] == [S(name), N(rd), N(imm)];
  }

  lemma RorText(name: string, r2: s32, r1: s32, offset: s64)
    requires IsName(name)
    ensures Matches(ROR_FORMAT, [S(name), N(r2), N(offset), N(r1)])
    ensures Sprintf(ROR_FORMAT, [S(name), N(r2), N(offset), N(r1)]) ==
            name + " x" + Decimal(r2) + "," + Decimal(offset) + "(x" + Decimal(r1) + ")"
  {
    hide Matches, Sprintf, Decimal, IsName;
    PrintNothing();
    PrintLit(')', [], []);
    var close := [Lit(')')] + [];
    PrintRegister(r1, close, []);
    var register := [Lit('x'), Dec32] + close;
    PrintLit('(', register, [N(r1)] + []);
    var paren := [Lit('(')] + register;
    PrintNumber(offset, paren, [N(r1)] + []);
    PrintLead(name, r2, [Dec64] + paren, [N(offset)] + ([N(r1)] + []));
    assert LEAD + ([Dec64] + paren) == ROR_FORMAT;
    assert [S(name), N(r2)] + ([N(offset)] + ([N(r1)] + [])) == [S(name), N(r2), N(offset), N(r1)];
    var a, b, c := Decimal(r2), Decimal(offset), Decimal(r1);
    assert name + " x" + a + "," + (b + ("(" + ("x" + c + (")" + "")))) == name + " x" + a + "," + b + "(x" + c + ")";
  }

  lemma EcallText(name: string)
    requires IsName(name)
    ensures PrintLine(name, Ecall) == name
  {
    hide IsName;
    LineIs(name, Ecall);
    assert WORD[1..] == [] && name + "" == name;
  }

  /** Every kind of line, character by character. */
  lemma LineText(name: string, f: Format)
    requires IsName(name) && f.RegistersExist()
    ensures PrintLine(name, f) ==
            match f
            case RRR(rd, rs1, rs2) => name + " x" + Decimal(rd) + ",x" + Decimal(rs1) + ",x" + Decimal(rs2)
            case RRI(rd, rs1, imm) => name + " x" + Decimal(rd) + ",x" + Decimal(rs1) + "," + Decimal(imm)
            case RI(rd, imm) => name + " x" + Decimal(rd) + "," + Decimal(imm)
            case ROR(r2, r1, offset) => name + " x" + Decimal(r2) + "," + Decimal(offset) + "(x" + Decimal(r1) + ")"
            case Ecall => name
  {
    hide PrintLine, Decimal, IsName, Matches, Sprintf;
    LineIs(name, f);
    match f
    case RRR(rd, rs1, rs2) => RrrText(name, rd, rs1, rs2);
    case RRI(rd, rs1, imm) => RriText(name, rd, rs1, imm);
    case RI(rd, imm) => RiText(name, rd, imm);
    case ROR(r2, r1, offset) => RorText(name, r2, r1, offset);
    case Ecall => EcallText(name);
  }

  // ------------------------------------------------------------------ which lines are accepted

  predicate InFile(r: int) { 0 <= r <= 31 }

  /** A line printed in its mnemonic's format scans back, and its first word is the mnemonic. */
  lemma {:induction false} ScannedLine(op: Opcode, vs: seq<Val>)
    requires FormatOf(op) != FMT_ERROR && Matches(PrintFormat(FormatOf(op)), vs) && vs != [] && vs[0] == S(NameOf(op))
    ensures var line := Sprintf(PrintFormat(FormatOf(op)), vs);
            && Sscanf(line, PrintFormat(FormatOf(op))) == vs
            && Sscanf(line, WORD) == [S(NameOf(op))] && NumOf(NameOf(op)) == Some(op)
  {
    hide Sprintf, Sscanf, Matches, Delimited, NameOf, FormatOf;
    FormatsDelimited();
    FormatsAreOneLine(FormatOf(op));
    ScanPrinted(PrintFormat(FormatOf(op)), vs);
    MnemonicFirst(Sprintf(PrintFormat(FormatOf(op)), vs), PrintFormat(FormatOf(op)), vs[0]);
    NumOfName(op);
  }

  lemma FormatsDelimited()
    ensures Delimited(RRR_FORMAT) && Delimited(RRI_FORMAT) && Delimited(RI_FORMAT) && Delimited(ROR_FORMAT)
    ensures Delimited(WORD)
  {
    NamesAreLetters(ECALL);
    WordMatches(NameOf(ECALL));
    RrrDelimited();
    RriDelimited();
    RiDelimited();
    RorDelimited();
  }

  /** With any numbers for the operands, a line is accepted exactly when its registers exist. */
  lemma AcceptedRrr(op: Opcode, a: s32, b: s32, c: s32, k: nat, lower: u64)
    requires FormatOf(op) == FMT_RRR
    ensures ParseLine(NameOf(op) + " x" + Decimal(a) + ",x" + Decimal(b) + ",x" + Decimal(c), k, lower) ==
            if InFile(a) && InFile(b) && InFile(c) then Some(Instruction(op, U64(lower + k * 4), RRR(a, b, c)))
            else None
  {
    hide Sprintf, Sscanf, Matches, NameOf, Decimal;
    NamesAreLetters(op);
    RrrText(NameOf(op), a, b, c);
    ScannedLine(op, [S(NameOf(op)), N(a), N(b), N(c)]);
  }

  lemma AcceptedRri(op: Opcode, a: s32, b: s32, imm: s64, k: nat, lower: u64)
    requires FormatOf(op) == FMT_RRI
    ensures ParseLine(NameOf(op) + " x" + Decimal(a) + ",x" + Decimal(b) + "," + Decimal(imm), k, lower) ==
            if InFile(a) && InFile(b) then Some(Instruction(op, U64(lower + k * 4), RRI(a, b, imm))) else None
  {
    hide Sprintf, Sscanf, Matches, NameOf, Decimal;
    NamesAreLetters(op);
    RriText(NameOf(op), a, b, imm);
    ScannedLine(op, [S(NameOf(op)), N(a), N(b), N(imm)]);
  }

  lemma AcceptedRi(op: Opcode, a: s32, imm: s64, k: nat, lower: u64)
    requires FormatOf(op) == FMT_RI
    ensures ParseLine(NameOf(op) + " x" + Decimal(a) + "," + Decimal(imm), k, lower) ==
            if InFile(a) then Some(Instruction(op, U64(lower + k * 4), RI(a, imm))) else None
  {
    hide Sprintf, Sscanf, Matches, NameOf, Decimal;
    NamesAreLetters(op);
    RiText(NameOf(op), a, imm);
    ScannedLine(op, [S(NameOf(op)), N(a), N(imm)]);
  }

  lemma AcceptedRor(op: Opcode, a: s32, b: s32, offset: s64, k: nat, lower: u64)
    requires FormatOf(op) == FMT_ROR
    ensures ParseLine(NameOf(op) + " x" + Decimal(a) + "," + Decimal(offset) + "(x" + Decimal(b) + ")", k, lower) ==
            if InFile(a) && InFile(b) then Some(Instruction(op, U64(lower + k * 4), ROR(a, b, offset))) else None
  {
    hide Sprintf, Sscanf, Matches, NameOf, Decimal;
    NamesAreLetters(op);
    RorText(NameOf(op), a, b, offset);
    ScannedLine(op, [S(NameOf(op)), N(a), N(offset), N(b)]);
    JalrScansAlike(Sprintf(ROR_FORMAT, [S(NameOf(op)), N(a), N(offset), N(b)]));
  }

  /** A line that lacks its last operand is rejected: the text of a shorter format leaves the longer one with
      fewer conversions than it counts. */
  lemma {:induction false} CutLine(op: Opcode, f: seq<Dir>, vs: seq<Val>, more: seq<Dir>, k: nat, lower: u64)
    requires FormatOf(op) != FMT_ECALL && FormatOf(op) != FMT_ERROR && PrintFormat(FormatOf(op)) == f + more
    requires f != [] && f[0].Str? && vs != [] && vs[0] == S(NameOf(op))
    requires Delimited(f) && Matches(f, vs) && |vs| < (if FormatOf(op) == FMT_RI then 3 else 4)
    ensures ParseLine(Sprintf(f, vs), k, lower) == None
  {
    hide Sprintf, Sscanf, Matches, Delimited, NameOf;
    ScanCutShort(f, vs, more);
    ScanPrinted(f, vs);
    MnemonicFirst(Sprintf(f, vs), f, vs[0]);
    NumOfName(op);
    JalrScansAlike(Sprintf(f, vs));
  }

  const ONE: seq<Dir> := [Str, Space, Lit('x'), Dec32]
  const TWO: seq<Dir> := [Str, Space, Lit('x'), Dec32, Lit(','), Lit('x'), Dec32]

  lemma ShortDelimited()
    ensures Delimited(ONE) && Delimited(TWO)
    ensures RRR_FORMAT == TWO + [Lit(','), Lit('x'), Dec32] && RRI_FORMAT == TWO + [Lit(','), Dec64]
    ensures RI_FORMAT == ONE + [Lit(','), Dec64]
  {
  }

  /** `add x1,x2`, say, or `addi x1,x2`. */
  lemma MissingThird(op: Opcode, a: s32, b: s32, k: nat, lower: u64)
    requires FormatOf(op) == FMT_RRR || FormatOf(op) == FMT_RRI
    ensures ParseLine(NameOf(op) + " x" + Decimal(a) + ",x" + Decimal(b), k, lower) == None
  {
    hide Sprintf, Matches, NameOf, Decimal, Delimited, ParseLine, IsName;
    var name, last := NameOf(op), [Lit('x'), Dec32];
    NamesAreLetters(op);
    ShortDelimited();
    LastRegister(b);
    PrintLead(name, a, last, [N(b)]);
    assert LEAD + last == TWO;
    assert name + " x" + Decimal(a) + "," + ("x" + Decimal(b)) == name + " x" + Decimal(a) + ",x" + Decimal(b);
    var more := if FormatOf(op) == FMT_RRR then [Lit(','), Lit('x'), Dec32] else [Lit(','), Dec64];
    CutLine(op, TWO, [S(name), N(a)] + [N(b)], more, k, lower);
  }

  /** `lui x1`, say. */
  lemma MissingImmediate(op: Opcode, a: s32, k: nat, lower: u64)
    requires FormatOf(op) == FMT_RI
    ensures ParseLine(NameOf(op) + " x" + Decimal(a), k, lower) == None
  {
    hide Sprintf, Matches, NameOf, Decimal, Delimited, ParseLine, IsName;
    var name, register, rs := NameOf(op), [Lit('x'), Dec32], [N(a)];
    NamesAreLetters(op);
    NameIsPrintable(name);
    ShortDelimited();
    LastRegister(a);
    PrintBlank(register, rs);
    PrintConversion(Str, S(name), [Space] + register, rs);
    assert [Str] + ([Space] + register) == ONE;
    assert name + (" " + ("x" + Decimal(a))) == name + " x" + Decimal(a);
    CutLine(op, ONE, [S(name)] + rs, [Lit(','), Dec64], k, lower);
  }

  /** `ld x1,8`, say. */
  lemma MissingBase(op: Opcode, a: s32, offset: s64, k: nat, lower: u64)
    requires FormatOf(op) == FMT_ROR
    ensures ParseLine(NameOf(op) + " x" + Decimal(a) + "," + Decimal(offset), k, lower) == None
  {
    hide Sprintf, Matches, NameOf, Decimal, Delimited, ParseLine, IsName;
    NamesAreLetters(op);
    FormatsDelimited();
    RiText(NameOf(op), a, offset);
    var more := [Lit('('), Lit('x'), Dec32, Lit(')')];
    assert RI_FORMAT + more == ROR_FORMAT;
    CutLine(op, RI_FORMAT, [S(NameOf(op)), N(a), N(offset)], more, k, lower);
  }

  /** A line overruns the mnemonic's buffer exactly when its first word has ten characters or more. */
  lemma OverrunLength(blank: string, word: string, rest: string)
    requires Blank(blank) && word != [] && (forall c :: c in word ==> !IsSpace(c))
    requires rest != [] ==> IsSpace(rest[0])
    ensures Overruns(blank + word + rest) <==> |word| >= 10
  {
    hide IsSpace;
    assert word[0] in word;
    assert blank + word + rest == blank + (word + rest);
    SkipBlank(blank, word + rest);
    WordThen(word, rest);
  }

  // ------------------------------------------------------------------ the header

  lemma {:induction false} PrintHex(h: u64, f: seq<Dir>, vs: seq<Val>)
    requires Matches(f, vs)
    ensures Matches(HEX_FIELD + f, [H(h)] + vs)
    ensures Sprintf(HEX_FIELD + f, [H(h)] + vs) == "0x" + Numeral(h, 16) + Sprintf(f, vs)
  {
    hide Matches, Sprintf, Numeral;
    PrintConversion(Hex64, H(h), f, vs);
    PrintLit('x', [Hex64] + f, [H(h)] + vs);
    PrintLit('0', [Lit('x')] + ([Hex64] + f), [H(h)] + vs);
    assert [Lit('0')] + ([Lit('x')] + ([Hex64] + f)) == HEX_FIELD + f;
    assert "0" + ("x" + (Numeral(h, 16) + Sprintf(f, vs))) == "0x" + Numeral(h, 16) + Sprintf(f, vs);
  }

  /** The header, its four numbers in this order. */
  lemma HeaderLine(cfg: Config)
    ensures HeaderText(cfg) ==
            "0x" + Numeral(cfg.instrLower, 16) + " 0x" + Numeral(cfg.instrUpper, 16)
            + " 0x" + Numeral(cfg.entryAddress, 16) + " 0x" + Numeral(cfg.memorySz, 16)
  {
    hide Matches, Sprintf, Numeral, Delimited;
    HeaderMatches(cfg);
    PrintNothing();
    var v4, v3 := [H(cfg.memorySz)] + [], [H(cfg.entryAddress)] + ([H(cfg.memorySz)] + []);
    var v2 := [H(cfg.instrUpper)] + v3;
    var f4 := HEX_FIELD + [];
    var f3 := HEX_FIELD + ([Space] + f4);
    var f2 := HEX_FIELD + ([Space] + f3);
    PrintHex(cfg.memorySz, [], []);
    PrintBlank(f4, v4);
    PrintHex(cfg.entryAddress, [Space] + f4, v4);
    PrintBlank(f3, v3);
    PrintHex(cfg.instrUpper, [Space] + f3, v3);
    PrintBlank(f2, v2);
    PrintHex(cfg.instrLower, [Space] + f2, v2);
    assert HEX_FIELD + ([Space] + f2) == HEADER;
    assert [H(cfg.instrLower)] + v2 == HeaderValues(cfg);
    Regrouped(Numeral(cfg.instrLower, 16), Numeral(cfg.instrUpper, 16), Numeral(cfg.entryAddress, 16),
              Numeral(cfg.memorySz, 16));
  }

  lemma Regrouped(a: string, b: string, c: string, d: string)
    ensures "0x" + a + (" " + ("0x" + b + (" " + ("0x" + c + (" " + ("0x" + d + ""))))))
            == "0x" + a + " 0x" + b + " 0x" + c + " 0x" + d
  {
  }
}
