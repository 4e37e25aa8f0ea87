/** Instructions and the table of their formats and mnemonics (src/instructions.h and the
    first half of src/utilities.c). */
module Instructions {
  import opened Options
  import opened Words

  /** `enum instruction_num`, in its order. */
  datatype Opcode =
    | ECALL | ADD | ADDW | ADDI | ADDIW | SUB | SUBW | SLL | SLLW | SRL
    | SRLW | SRA | SRAW | SLLI | SLLIW | SRLI | SRLIW | SRAI | SRAIW | OR
    | ORI | AND | ANDI | XOR | XORI | LUI | SLT | SLTU | SLTI | SLTIU
    | SB | SH | SW | LB | LH | LW | LBU | LHU | LWU | LD
    | SD | BEQ | BNE | BLT | BGE | BLTU | BGEU | AUIPC | JAL | JALR

  datatype Tag = FMT_RRR | FMT_RRI | FMT_RI | FMT_ROR | FMT_ECALL | FMT_ERROR

  /** The operand union together with its tag. Branches keep their two sources in `rd` and `rs1`. */
  datatype Format =
    | RRR(rd: u32, rs1: u32, rs2: u32)
    | RRI(rd: u32, rs1: u32, imm: s64)
    | RI(rd: u32, imm: s64)
    | ROR(r2: u32, r1: u32, offset: s64)
    | Ecall
  {
    function Tag(): Tag {
      match this
      case RRR(_, _, _) => FMT_RRR
      case RRI(_, _, _) => FMT_RRI
      case RI(_, _) => FMT_RI
      case ROR(_, _, _) => FMT_ROR
      case Ecall => FMT_ECALL
    }

    predicate RegistersExist() {
      match this
      case RRR(rd, rs1, rs2) => rd <= 31 && rs1 <= 31 && rs2 <= 31
      case RRI(rd, rs1, _) => rd <= 31 && rs1 <= 31
      case RI(rd, _) => rd <= 31
      case ROR(r2, r1, _) => r2 <= 31 && r1 <= 31
      case Ecall => true
    }
  }

  datatype Instruction = Instruction(op: Opcode, addr: u64, format: Format)

  /** What the parser guarantees about an instruction. */
  predicate WellFormed(i: Instruction) {
    i.format.Tag() == FormatOf(i.op) && i.format.RegistersExist()
  }

  /** `inst_no >= BEQ && inst_no <= BGEU` */
  predicate IsBranch(op: Opcode) {
    match op
    case BEQ | BNE | BLT | BGE | BLTU | BGEU => true
    case _ => false
  }

  /** The operand format of each opcode. */
  function FormatOf(op: Opcode): Tag {
    match op
    case ADD | ADDW | SUB | SUBW | SLL | SLLW | SRL | SRLW | SRA | SRAW | OR | AND | XOR | SLT | SLTU => FMT_RRR
    case ADDI | ADDIW | SLLI | SLLIW | SRLI | SRLIW | SRAI | SRAIW | ORI | ANDI | XORI | SLTI | SLTIU
      | BEQ | BNE | BLT | BGE | BLTU | BGEU => FMT_RRI
    case LUI | AUIPC | JAL => FMT_RI
    case SB | SH | SW | LB | LH | LW | LBU | LHU | LWU | LD | SD | JALR => FMT_ROR
    case ECALL => FMT_ECALL
  }

  /** The character at an index, a blank past the end. */
  function CharAt(s: string, k: nat): char { if k < |s| then s[k] else ' ' }

  /** The word, immediate and immediate word variants of an operation with a three-letter name. */
  function DecodeVariant(s: string, base: Opcode, word: Opcode, imm: Opcode, immWord: Opcode): Opcode {
    match CharAt(s, 3)
    case ' ' => base
    case 'w' => word
    case _ => if CharAt(s, 4) == 'w' then immWord else imm
  }

  function DecodeS(s: string): Opcode {
    match CharAt(s, 1)
    case 'b' => SB
    case 'h' => SH
    case 'w' => SW
    case 'd' => SD
    case 'u' => if CharAt(s, 3) == 'w' then SUBW else SUB
    case 'r' =>
      if CharAt(s, 2) == 'l' then DecodeVariant(s, SRL, SRLW, SRLI, SRLIW)
      else DecodeVariant(s, SRA, SRAW, SRAI, SRAIW)
    case _ =>
      if CharAt(s, 2) == 'l' then DecodeVariant(s, SLL, SLLW, SLLI, SLLIW)
      else if CharAt(s, 3) == ' ' then SLT
      else if CharAt(s, 3) == 'u' then SLTU
      else if CharAt(s, 4) == 'u' then SLTIU
      else SLTI
  }

  function DecodeA(s: string): Opcode {
    match CharAt(s, 1)
    case 'd' => DecodeVariant(s, ADD, ADDW, ADDI, ADDIW)
    case 'n' => if CharAt(s, 3) == 'i' then ANDI else AND
    case _ => AUIPC
  }

  function DecodeB(s: string): Opcode {
    match CharAt(s, 1)
    case 'e' => BEQ
    case 'n' => BNE
    case 'l' => if CharAt(s, 3) == 'u' then BLTU else BLT
    case _ => if CharAt(s, 3) == 'u' then BGEU else BGE
  }

  function DecodeL(s: string): Opcode {
    match CharAt(s, 1)
    case 'b' => if CharAt(s, 2) == 'u' then LBU else LB
    case 'h' => if CharAt(s, 2) == 'u' then LHU else LH
    case 'w' => if CharAt(s, 2) == 'u' then LWU else LW
    case 'd' => LD
    case _ => LUI
  }

  /** Reads a mnemonic letter by letter: five letters tell any two apart. */
  function Decode(s: string): Opcode {
    match CharAt(s, 0)
    case 's' => DecodeS(s)
    case 'a' => DecodeA(s)
    case 'b' => DecodeB(s)
    case 'l' => DecodeL(s)
    case 'e' => ECALL
    case 'o' => if CharAt(s, 2) == 'i' then ORI else OR
    case 'x' => if CharAt(s, 3) == 'i' then XORI else XOR
    case _ => if CharAt(s, 3) == 'r' then JALR else JAL
  }

  predicate LetterAt(s: string, k: nat) { k < |s| ==> 'a' <= s[k] <= 'z' }

  /** One to five lower-case letters. */
  predicate IsName(s: string) {
    0 < |s| <= 5 && LetterAt(s, 0) && LetterAt(s, 1) && LetterAt(s, 2) && LetterAt(s, 3) && LetterAt(s, 4)
  }

  datatype Meta = Meta(n: Opcode, f: Tag, s: string)

  // What the table says of each opcode, by format; a mnemonic is a word that says which opcode it is.

  function RrrEntry(op: Opcode): (m: Meta)
    requires FormatOf(op) == FMT_RRR
    ensures m.n == op && m.f == FormatOf(op) && Decode(m.s) == op && IsName(m.s)
  {
    match op
    case ADD => Meta(ADD, FMT_RRR, "add")
    case ADDW => Meta(ADDW, FMT_RRR, "addw")
    case SUB => Meta(SUB, FMT_RRR, "sub")
    case SUBW => Meta(SUBW, FMT_RRR, "subw")
    case SLL => Meta(SLL, FMT_RRR, "sll")
    case SLLW => Meta(SLLW, FMT_RRR, "sllw")
    case SRL => Meta(SRL, FMT_RRR, "srl")
    case SRLW => Meta(SRLW, FMT_RRR, "srlw")
    case SRA => Meta(SRA, FMT_RRR, "sra")
    case SRAW => Meta(SRAW, FMT_RRR, "sraw")
    case OR => Meta(OR, FMT_RRR, "or")
    case AND => Meta(AND, FMT_RRR, "and")
    case XOR => Meta(XOR, FMT_RRR, "xor")
    case SLT => Meta(SLT, FMT_RRR, "slt")
    case SLTU => Meta(SLTU, FMT_RRR, "sltu")
  }

  function RriEntry(op: Opcode): (m: Meta)
    requires FormatOf(op) == FMT_RRI
    ensures m.n == op && m.f == FormatOf(op) && Decode(m.s) == op && IsName(m.s)
  {
    match op
    case ADDI => Meta(ADDI, FMT_RRI, "addi")
    case ADDIW => Meta(ADDIW, FMT_RRI, "addiw")
    case SLLI => Meta(SLLI, FMT_RRI, "slli")
    case SLLIW => Meta(SLLIW, FMT_RRI, "slliw")
    case SRLI => Meta(SRLI, FMT_RRI, "srli")
    case SRLIW => Meta(SRLIW, FMT_RRI, "srliw")
    case SRAI => Meta(SRAI, FMT_RRI, "srai")
    case SRAIW => Meta(SRAIW, FMT_RRI, "sraiw")
    case ORI => Meta(ORI, FMT_RRI, "ori")
    case ANDI => Meta(ANDI, FMT_RRI, "andi")
    case XORI => Meta(XORI, FMT_RRI, "xori")
    case SLTI => Meta(SLTI, FMT_RRI, "slti")
    case SLTIU => Meta(SLTIU, FMT_RRI, "sltiu")
    case BEQ => Meta(BEQ, FMT_RRI, "beq")
    case BNE => Meta(BNE, FMT_RRI, "bne")
    case BLT => Meta(BLT, FMT_RRI, "blt")
    case BGE => Meta(BGE, FMT_RRI, "bge")
    case BLTU => Meta(BLTU, FMT_RRI, "bltu")
    case BGEU => Meta(BGEU, FMT_RRI, "bgeu")
  }

  function RorEntry(op: Opcode): (m: Meta)
    requires FormatOf(op) == FMT_ROR
    ensures m.n == op && m.f == FormatOf(op) && Decode(m.s) == op && IsName(m.s)
  {
    match op
    case SB => Meta(SB, FMT_ROR, "sb")
    case SH => Meta(SH, FMT_ROR, "sh")
    case SW => Meta(SW, FMT_ROR, "sw")
    case SD => Meta(SD, FMT_ROR, "sd")
    case LB => Meta(LB, FMT_ROR, "lb")
    case LH => Meta(LH, FMT_ROR, "lh")
    case LW => Meta(LW, FMT_ROR, "lw")
    case LWU => Meta(LWU, FMT_ROR, "lwu")
    case LD => Meta(LD, FMT_ROR, "ld")
    case LBU => Meta(LBU, FMT_ROR, "lbu")
    case LHU => Meta(LHU, FMT_ROR, "lhu")
    case JALR => Meta(JALR, FMT_ROR, "jalr")
  }

  function OtherEntry(op: Opcode): (m: Meta)
    requires FormatOf(op) == FMT_RI || FormatOf(op) == FMT_ECALL
    ensures m.n == op && m.f == FormatOf(op) && Decode(m.s) == op && IsName(m.s)
  {
    match op
    case AUIPC => Meta(AUIPC, FMT_RI, "auipc")
    case LUI => Meta(LUI, FMT_RI, "lui")
    case JAL => Meta(JAL, FMT_RI, "jal")
    case ECALL => Meta(ECALL, FMT_ECALL, "ecall")
  }

  function Describe(op: Opcode): (m: Meta)
    ensures m.n == op && m.f == FormatOf(op) && Decode(m.s) == op && IsName(m.s)
  {
    match FormatOf(op)
    case FMT_RRR => RrrEntry(op)
    case FMT_RRI => RriEntry(op)
    case FMT_ROR => RorEntry(op)
    case FMT_RI | FMT_ECALL => OtherEntry(op)
  }

  /** The mnemonic of each opcode. */
  function NameOf(op: Opcode): string { Describe(op).s }

  /** The table of the source, line by line: the format and mnemonic of each opcode. */
  lemma SourceTable(op: Opcode)
    ensures (FormatOf(op), NameOf(op)) ==
            match op
            case AUIPC => (FMT_RI, "auipc")
            case ADD => (FMT_RRR, "add")
            case ADDW => (FMT_RRR, "addw")
            case ADDI => (FMT_RRI, "addi")
            case ADDIW => (FMT_RRI, "addiw")
            case SUB => (FMT_RRR, "sub")
            case SUBW => (FMT_RRR, "subw")
            case SLL => (FMT_RRR, "sll")
            case SLLW => (FMT_RRR, "sllw")
            case SRL => (FMT_RRR, "srl")
            case SRLW => (FMT_RRR, "srlw")
            case SRA => (FMT_RRR, "sra")
            case SRAW => (FMT_RRR, "sraw")
            case SLLI => (FMT_RRI, "slli")
            case SLLIW => (FMT_RRI, "slliw")
            case SRLI => (FMT_RRI, "srli")
            case SRLIW => (FMT_RRI, "srliw")
            case SRAI => (FMT_RRI, "srai")
            case SRAIW => (FMT_RRI, "sraiw")
            case OR => (FMT_RRR, "or")
            case ORI => (FMT_RRI, "ori")
            case AND => (FMT_RRR, "and")
            case ANDI => (FMT_RRI, "andi")
            case XOR => (FMT_RRR, "xor")
            case XORI => (FMT_RRI, "xori")
            case LUI => (FMT_RI, "lui")
            case SB => (FMT_ROR, "sb")
            case SH => (FMT_ROR, "sh")
            case SW => (FMT_ROR, "sw")
            case SD => (FMT_ROR, "sd")
            case LB => (FMT_ROR, "lb")
            case LH => (FMT_ROR, "lh")
            case LW => (FMT_ROR, "lw")
            case LWU => (FMT_ROR, "lwu")
            case LD => (FMT_ROR, "ld")
            case LBU => (FMT_ROR, "lbu")
            case LHU => (FMT_ROR, "lhu")
            case SLT => (FMT_RRR, "slt")
            case SLTU => (FMT_RRR, "sltu")
            case SLTI => (FMT_RRI, "slti")
            case SLTIU => (FMT_RRI, "sltiu")
            case BEQ => (FMT_RRI, "beq")
            case BNE => (FMT_RRI, "bne")
            case BLT => (FMT_RRI, "blt")
            case BGE => (FMT_RRI, "bge")
            case BLTU => (FMT_RRI, "bltu")
            case BGEU => (FMT_RRI, "bgeu")
            case JAL => (FMT_RI, "jal")
            case JALR => (FMT_ROR, "jalr")
            case ECALL => (FMT_ECALL, "ecall")
  {
  }

  /** Different opcodes have different mnemonics. */
  lemma NamesDistinct(a: Opcode, b: Opcode)
    requires NameOf(a) == NameOf(b)
    ensures a == b
  {
    hide Decode;
  }

  const INSTRCNT: nat := 50

  /** The order of the table. */
  function Nth(i: nat): Opcode {
    match i
    case 0 => AUIPC case 1 => ADD case 2 => ADDW case 3 => ADDI case 4 => ADDIW
    case 5 => SUB case 6 => SUBW case 7 => SLL case 8 => SLLW case 9 => SRL
    case 10 => SRLW case 11 => SRA case 12 => SRAW case 13 => SLLI case 14 => SLLIW
    case 15 => SRLI case 16 => SRLIW case 17 => SRAI case 18 => SRAIW case 19 => OR
    case 20 => ORI case 21 => AND case 22 => ANDI case 23 => XOR case 24 => XORI
    case 25 => LUI case 26 => SB case 27 => SH case 28 => SW case 29 => SD
    case 30 => LB case 31 => LH case 32 => LW case 33 => LWU case 34 => LD
    case 35 => LBU case 36 => LHU case 37 => SLT case 38 => SLTU case 39 => SLTI
    case 40 => SLTIU case 41 => BEQ case 42 => BNE case 43 => BLT case 44 => BGE
    case 45 => BLTU case 46 => BGEU case 47 => JAL case 48 => JALR case _ => ECALL
  }

  function Place(op: Opcode): (i: nat)
    ensures i < INSTRCNT && Nth(i) == op
  {
    match op
    case AUIPC => 0 case ADD => 1 case ADDW => 2 case ADDI => 3 case ADDIW => 4
    case SUB => 5 case SUBW => 6 case SLL => 7 case SLLW => 8 case SRL => 9
    case SRLW => 10 case SRA => 11 case SRAW => 12 case SLLI => 13 case SLLIW => 14
    case SRLI => 15 case SRLIW => 16 case SRAI => 17 case SRAIW => 18 case OR => 19
    case ORI => 20 case AND => 21 case ANDI => 22 case XOR => 23 case XORI => 24
    case LUI => 25 case SB => 26 case SH => 27 case SW => 28 case SD => 29
    case LB => 30 case LH => 31 case LW => 32 case LWU => 33 case LD => 34
    case LBU => 35 case LHU => 36 case SLT => 37 case SLTU => 38 case SLTI => 39
    case SLTIU => 40 case BEQ => 41 case BNE => 42 case BLT => 43 case BGE => 44
    case BLTU => 45 case BGEU => 46 case JAL => 47 case JALR => 48 case ECALL => 49
  }

  const IMETA: seq<Meta> := seq(INSTRCNT, i requires 0 <= i < INSTRCNT => Describe(Nth(i)))

  predicate Correct(m: Meta) { m.f == FormatOf(m.n) && m.s == NameOf(m.n) }

  ghost predicate HasEntry(t: seq<Meta>, op: Opcode) {
    exists i :: 0 <= i < |t| && t[i].n == op
  }

  /** Every entry tells the format and mnemonic of its opcode, and every opcode has an entry. */
  ghost predicate IsTable(t: seq<Meta>) {
    && (forall i :: 0 <= i < |t| ==> Correct(t[i]))
    && (forall op: Opcode :: HasEntry(t, op))
  }

  lemma ImetaIsTable()
    ensures |IMETA| == INSTRCNT && IsTable(IMETA)
  {
    hide Describe, Nth, Place, FormatOf;
    forall op: Opcode ensures HasEntry(IMETA, op) {
      assert IMETA[Place(op)].n == op;
    }
  }

  /** The opcode a mnemonic stands for; `None` is INSTRINVALID. */
  ghost function NumOf(s: string): (r: Option<Opcode>)
    ensures r.Some? ==> NameOf(r.value) == s
    ensures r.None? ==> forall op :: NameOf(op) != s
  {
    if op: Opcode :| NameOf(op) == s then Some(op) else None
  }

  lemma NumOfName(op: Opcode)
    ensures NumOf(NameOf(op)) == Some(op)
  {
    NamesDistinct(op, NumOf(NameOf(op)).value);
  }

  // The three lookups of src/utilities.c, each a loop over the whole table.

  method LookupFormat(imeta: seq<Meta>, n: Opcode) returns (f: Tag)
    requires IsTable(imeta)
    ensures f == FormatOf(n)
  {
    hide FormatOf, NameOf;
    assert HasEntry(imeta, n);
    for i := 0 to |imeta|
      invariant forall j :: 0 <= j < i ==> imeta[j].n != n
    {
      if imeta[i].n == n {
        return imeta[i].f;
      }
    }
    assert false;
  }

  method LookupName(imeta: seq<Meta>, n: Opcode) returns (s: string)
    requires IsTable(imeta)
    ensures s == NameOf(n)
  {
    hide FormatOf, NameOf;
    assert HasEntry(imeta, n);
    for i := 0 to |imeta|
      invariant forall j :: 0 <= j < i ==> imeta[j].n != n
    {
      if imeta[i].n == n {
        return imeta[i].s;
      }
    }
    assert false;
  }

  method LookupNum(imeta: seq<Meta>, instr: string) returns (n: Option<Opcode>)
    requires IsTable(imeta)
    ensures n == NumOf(instr)
  {
    hide FormatOf, NameOf;
    for i := 0 to |imeta|
      invariant forall j :: 0 <= j < i ==> imeta[j].s != instr
    {
      if instr == imeta[i].s {
        NumOfName(imeta[i].n);
        return Some(imeta[i].n);
      }
    }
    assert NumOf(instr).Some? ==> HasEntry(imeta, NumOf(instr).value);
    return None;
  }

  method InstrFormat(n: Opcode) returns (f: Tag)
    ensures f == FormatOf(n)
  {
    ImetaIsTable();
    f := LookupFormat(IMETA, n);
  }

  method InstrName(n: Opcode) returns (s: string)
    ensures s == NameOf(n)
  {
    ImetaIsTable();
    s := LookupName(IMETA, n);
  }

  method InstrNum(instr: string) returns (n: Option<Opcode>)
    ensures n == NumOf(instr)
  {
    ImetaIsTable();
    n := LookupNum(IMETA, instr);
  }
}
