/** How long printed lines get, and when the printer of src/utilities.c stays within its buffer. */
module PrinterBuffer {
  import opened Words
  import opened Instructions
  import opened Text
  import opened Parsing
  import opened RoundTrip
  import opened ScanLaws

  function PrintedLength(v: Val): nat {
    match v
    case S(s) => |s|
    case N(n) => |Decimal(n)|
    case H(h) => |Numeral(h, 16)|
  }

  function Total(vs: seq<Val>): nat {
    if vs == [] then 0 else PrintedLength(vs[0]) + Total(vs[1..])
  }

  /** The characters a format prints of its own. */
  function Fixed(f: seq<Dir>): nat {
    if f == [] then 0 else (if Converts(f[0]) then 0 else 1) + Fixed(f[1..])
  }

  lemma {:induction false} SprintfLength(f: seq<Dir>, vs: seq<Val>)
    requires Matches(f, vs)
    ensures |Sprintf(f, vs)| == Fixed(f) + Total(vs)
    decreases f
  {
    hide Decimal, Numeral;
    if f != [] {
      SprintfLength(f[1..], if Converts(f[0]) then vs[1..] else vs);
    }
  }

  lemma {:induction false} FixedConcat(f: seq<Dir>, g: seq<Dir>)
    ensures Fixed(f + g) == Fixed(f) + Fixed(g)
  {
    if f == [] {
      assert f + g == g;
    } else {
      assert (f + g)[1..] == f[1..] + g;
      FixedConcat(f[1..], g);
    }
  }

  lemma FormatLengths()
    ensures Fixed(RRR_FORMAT) == 6 && Fixed(RRI_FORMAT) == 5 && Fixed(RI_FORMAT) == 3
    ensures Fixed(ROR_FORMAT) == 6 && Fixed(WORD) == 0
  {
    TailLengths();
    OffsetLengths();
    hide Fixed;
    var rrr, rri := [Lit('x'), Dec32, Lit(','), Lit('x'), Dec32], [Lit('x'), Dec32, Lit(','), Dec64];
    var ror := [Dec64, Lit('('), Lit('x'), Dec32, Lit(')')];
    FixedConcat(LEAD, rrr);
    FixedConcat(LEAD, rri);
    FixedConcat(LEAD, [Dec64]);
    FixedConcat(LEAD, ror);
    assert RRR_FORMAT == LEAD + rrr && RRI_FORMAT == LEAD + rri;
    assert RI_FORMAT == LEAD + [Dec64] && ROR_FORMAT == LEAD + ror;
  }

  lemma TailLengths()
    ensures Fixed(LEAD) == 3 && Fixed(WORD) == 0 && Fixed([Dec64]) == 0
    ensures Fixed([Lit('x'), Dec32, Lit(','), Lit('x'), Dec32]) == 3
  {
  }

  lemma OffsetLengths()
    ensures Fixed([Lit('x'), Dec32, Lit(','), Dec64]) == 2
    ensures Fixed([Dec64, Lit('('), Lit('x'), Dec32, Lit(')')]) == 3
  {
  }

  /** The immediate of an instruction, if it has one. */
  function Immediate(f: Format): s64 {
    match f
    case RRI(_, _, imm) => imm
    case RI(_, imm) => imm
    case ROR(_, _, offset) => offset
    case _ => 0
  }

  /** Printed in at most nine characters, the sign included. */
  predicate IsShort(imm: s64) { -100_000_000 < imm < 1_000_000_000 }

  lemma DecimalLength(n: s64)
    ensures |Decimal(n)| <= 9 <==> IsShort(n)
    ensures 0 <= n <= 31 ==> |Decimal(n)| <= 2
  {
    hide Numeral, Power;
    Powers();
    if n < 0 {
      NumeralLength(-(n as int), 10, 8);
    } else {
      NumeralLength(n, 10, 9);
      NumeralLength(n, 10, 2);
    }
  }

  lemma Powers()
    ensures Power(10, 2) == 100 && Power(10, 8) == 100_000_000 && Power(10, 9) == 1_000_000_000
  {
    assert Power(10, 4) == 10_000;
    assert Power(10, 6) == 1_000_000;
  }

  /** A line with a short immediate leaves room for its newline and one more byte. */
  lemma ShortLine(name: string, f: Format)
    requires IsName(name) && f.RegistersExist() && IsShort(Immediate(f))
    ensures |PrintLine(name, f)| + 1 < LINE_SIZE
  {
    hide Decimal, Fixed, Sprintf, Matches, IsName, PrintLine, Total;
    PrintLineUnfolds(name, f);
    SprintfLength(PrintFormat(f.Tag()), PrintValues(name, f));
    FormatLengths();
    NameIsShort(name);
    match f
    case RRR(rd, rs1, rs2) =>
      DecimalLength(rd);
      DecimalLength(rs1);
      DecimalLength(rs2);
      TotalOf4(PrintValues(name, f));
    case RRI(rd, rs1, imm) =>
      DecimalLength(rd);
      DecimalLength(rs1);
      DecimalLength(imm);
      TotalOf4(PrintValues(name, f));
    case RI(rd, imm) =>
      DecimalLength(rd);
      DecimalLength(imm);
      TotalOf3(PrintValues(name, f));
    case ROR(r2, r1, offset) =>
      DecimalLength(r2);
      DecimalLength(r1);
      DecimalLength(offset);
      TotalOf4(PrintValues(name, f));
    case Ecall =>
      TotalOf1(S(name));
  }

  lemma TotalOf1(v: Val)
    ensures Total([v]) == PrintedLength(v)
  {
    hide PrintedLength;
    assert Total([]) == 0;
  }

  lemma {:induction false} TotalOf3(vs: seq<Val>)
    requires |vs| == 3
    ensures Total(vs) == PrintedLength(vs[0]) + PrintedLength(vs[1]) + PrintedLength(vs[2])
  {
    hide PrintedLength;
    assert vs[1..][1..] == vs[2..] && vs[2..][1..] == [];
    assert Total(vs[2..]) == PrintedLength(vs[2]) + Total([]);
  }

  lemma {:induction false} TotalOf4(vs: seq<Val>)
    requires |vs| == 4
    ensures Total(vs) == PrintedLength(vs[0]) + PrintedLength(vs[1]) + PrintedLength(vs[2]) + PrintedLength(vs[3])
  {
    hide PrintedLength;
    assert vs[1..][1..] == vs[2..] && vs[2..][1..] == vs[3..] && vs[3..][1..] == [];
    assert Total(vs[2..]) == PrintedLength(vs[2]) + Total(vs[3..]);
    assert Total(vs[3..]) == PrintedLength(vs[3]) + Total([]);
  }

  /** Programs whose immediates print in nine characters fit, whatever their length and operands. */
  lemma ShortImmediatesFit(instrs: seq<Instruction>)
    requires instrs != []
    requires forall k :: 0 <= k < |instrs| ==> WellFormed(instrs[k]) && IsShort(Immediate(instrs[k].format))
    ensures FitsBuffer(instrs)
  {
    hide Print, WellFormed, IsShort;
    var ls := PrintAll(instrs);
    forall k | 0 <= k < |ls| ensures |ls[k]| + 1 < LINE_SIZE {
      PrintUnfolds(instrs[k]);
      ShortLine(NameOf(instrs[k].op), instrs[k].format);
    }
    TerminatedIsJoin(ls);
    TerminatedLength(ls, LINE_SIZE - 1);
  }

  lemma {:induction false} TerminatedLength(ls: seq<string>, size: nat)
    requires forall k :: 0 <= k < |ls| ==> |ls[k]| + 1 <= size
    ensures |Terminated(ls)| <= size * |ls|
  {
    if ls != [] {
      TerminatedLength(ls[1..], size);
      assert size + size * (|ls| - 1) == size * |ls|;
    }
  }

  /** A program of one line fits when the line has at most 24 characters, and no more. */
  lemma OneLineFits(i: Instruction)
    requires WellFormed(i)
    ensures FitsBuffer([i]) <==> |Print(i)| <= 24
  {
    hide Print, WellFormed;
    assert PrintAll([i]) == [Print(i)];
  }

  /** Not every 32-bit immediate fits: `addiw x31,x31,-2147483648` overruns the buffer of its program. */
  lemma LongLine()
    ensures var i := Instruction(ADDIW, 0, RRI(31, 31, -TWO31));
            WellFormed(i) && !FitsBuffer([i])
  {
    hide Decimal, Fixed, Sprintf, Matches, IsName, NameOf, PrintLine, Total, Print;
    var i := Instruction(ADDIW, 0, RRI(31, 31, -TWO31));
    var vs := PrintValues(NameOf(ADDIW), i.format);
    LongNumerals();
    NamesAreLetters(ADDIW);
    AddiwName();
    PrintLineUnfolds(NameOf(ADDIW), i.format);
    SprintfLength(RRI_FORMAT, vs);
    FormatLengths();
    TotalOf4(vs);
    PrintUnfolds(i);
    assert PrintAll([i]) == [Print(i)];
  }

  lemma LongNumerals()
    ensures |Decimal(-TWO31)| == 11 && |Decimal(31)| == 2
  {
    hide Numeral, Power;
    Powers();
    assert Power(10, 1) == 10 && Power(10, 10) == 10_000_000_000 by { FewPowers(); }
    NumeralLength(TWO31, 10, 9);
    NumeralLength(TWO31, 10, 10);
    NumeralLength(31, 10, 1);
    NumeralLength(31, 10, 2);
  }

  lemma FewPowers()
    ensures Power(10, 1) == 10 && Power(10, 10) == 10_000_000_000
  {
    Powers();
  }

  lemma AddiwName()
    ensures |NameOf(ADDIW)| == 5
  {
  }

  lemma PrintLineUnfolds(name: string, f: Format)
    requires IsName(name) && f.RegistersExist()
    ensures Matches(PrintFormat(f.Tag()), PrintValues(name, f))
    ensures PrintLine(name, f) == Sprintf(PrintFormat(f.Tag()), PrintValues(name, f))
  {
    ValuesMatch(name, f);
  }
}
