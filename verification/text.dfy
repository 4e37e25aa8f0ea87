/** The part of scanf and printf that the assembly text uses, as one list of directives for both:
    what is printed with a format is scanned back with it. */
module Text {
  import opened Words

  // ------------------------------------------------------------------ numerals

  predicate IsSpace(c: char) { c == ' ' || '\t' <= c <= '\r' }

  function Digit(d: nat): char
    requires d < 16
  {
    if d < 10 then '0' + d as char else 'a' + (d - 10) as char
  }

  function DigitValue(c: char): nat {
    if '0' <= c <= '9' then (c - '0') as nat
    else if 'a' <= c <= 'f' then (c - 'a') as nat + 10
    else if 'A' <= c <= 'F' then (c - 'A') as nat + 10
    else 99
  }

  predicate IsDigit(c: char, base: nat) { DigitValue(c) < base }

  function Numeral(n: nat, base: nat): (s: string)
    requires 2 <= base <= 16
    ensures s != []
    decreases n
  {
    if n < base then [Digit(n)]
    else
      assert n / base < n by { Smaller(n, base); }
      Numeral(n / base, base) + [Digit(n % base)]
  }

  lemma Smaller(n: nat, base: nat)
    requires 2 <= base <= n
    ensures 0 < n / base < n
  {
    var q := n / base;
    assert n == q * base + n % base;
    assert q * base >= q * 2;
  }

  function Value(s: string, base: nat): nat {
    if s == [] then 0 else Value(s[..|s| - 1], base) * base + DigitValue(s[|s| - 1])
  }

  lemma DigitIsDigit(d: nat)
    requires d < 16
    ensures DigitValue(Digit(d)) == d && Plain(Digit(d))
  {
  }

  /** A visible character that is neither a sign nor a line end. */
  predicate Plain(c: char) { !IsSpace(c) && c != '-' && c != '+' && c != '\n' }

  lemma {:induction false} NumeralDigits(n: nat, base: nat)
    requires 2 <= base <= 16
    ensures forall c :: c in Numeral(n, base) ==> IsDigit(c, base) && Plain(c)
    decreases n
  {
    hide Digit, DigitValue, Plain;
    if n < base {
      DigitIsDigit(n);
    } else {
      Smaller(n, base);
      DigitIsDigit(n % base);
      NumeralDigits(n / base, base);
    }
  }

  lemma {:induction false} NumeralValue(n: nat, base: nat)
    requires 2 <= base <= 16
    ensures Value(Numeral(n, base), base) == n
    decreases n
  {
    hide Digit, DigitValue, Value;
    if n < base {
      DigitIsDigit(n);
      ValueSnoc("", Digit(n), base);
      assert "" + [Digit(n)] == Numeral(n, base);
    } else {
      var q, r := n / base, n % base;
      assert n == q * base + r;
      Smaller(n, base);
      DigitIsDigit(r);
      NumeralValue(q, base);
      ValueSnoc(Numeral(q, base), Digit(r), base);
    }
  }

  lemma {:induction false} ValueSnoc(s: string, c: char, base: nat)
    ensures Value(s + [c], base) == Value(s, base) * base + DigitValue(c)
    ensures Value("", base) == 0
  {
    assert (s + [c])[..|s|] == s;
  }

  function Decimal(n: int): string {
    if n < 0 then "-" + Numeral(-n, 10) else Numeral(n, 10)
  }

  // ------------------------------------------------------------------ scanning

  function SkipSpace(s: string): (r: string)
    ensures |r| <= |s|
  {
    if s != [] && IsSpace(s[0]) then SkipSpace(s[1..]) else s
  }

  /** The length of the longest prefix without white space. */
  function WordLength(s: string): (n: nat)
    ensures n <= |s|
  {
    if s != [] && !IsSpace(s[0]) then 1 + WordLength(s[1..]) else 0
  }

  function DigitCount(s: string, base: nat): (n: nat)
    ensures n <= |s|
  {
    if s != [] && IsDigit(s[0], base) then 1 + DigitCount(s[1..], base) else 0
  }

  /** strtol's saturation. */
  function Saturate(n: int): s64 {
    if n < -TWO63 then -TWO63 else if n >= TWO63 then TWO63 - 1 else n
  }

  /** strtoul's: a minus sign negates modulo 2^64. */
  function SaturateUnsigned(m: nat, negative: bool): u64 {
    if m >= TWO64 then TWO64 - 1 else if negative then U64(-(m as int)) else m
  }

  /** The length of an optional sign. */
  function SignLength(t: string): (n: nat)
    ensures n <= |t| && n <= 1
  {
    if t != [] && (t[0] == '-' || t[0] == '+') then 1 else 0
  }

  /** The length of an optional `0x`. */
  function PrefixLength(t: string): (n: nat)
    ensures n <= |t| && n <= 2
  {
    if |t| >= 2 && t[0] == '0' && (t[1] == 'x' || t[1] == 'X') then 2 else 0
  }

  datatype Dir = Space | Lit(c: char) | Str | Dec32 | Dec64 | Hex64

  /** A converted word, signed number or unsigned number. */
  datatype Val = S(s: string) | N(n: s64) | H(h: u64)

  /** The conversions scanf completes, in order; their number is its result. */
  function Sscanf(s: string, f: seq<Dir>): (vs: seq<Val>)
    ensures |vs| <= |f|
    decreases |f|
  {
    if f == [] then []
    else
      match f[0]
      case Space => Sscanf(SkipSpace(s), f[1..])
      case Lit(c) => if s != [] && s[0] == c then Sscanf(s[1..], f[1..]) else []
      case Str =>
        var t := SkipSpace(s);
        var n := WordLength(t);
        if n == 0 then [] else [S(t[..n])] + Sscanf(t[n..], f[1..])
      case Dec32 | Dec64 =>
        var t := SkipSpace(s);
        var sign := SignLength(t);
        var n := DigitCount(t[sign..], 10);
        if n == 0 then []
        else
          var m := Value(t[sign..sign + n], 10);
          var v := Saturate(if sign == 1 && t[0] == '-' then -(m as int) else m);
          [N(if f[0].Dec32? then S32(v) else v)] + Sscanf(t[sign + n..], f[1..])
      case Hex64 =>
        var t := SkipSpace(s);
        var sign := SignLength(t);
        var lead := sign + PrefixLength(t[sign..]);
        var n := DigitCount(t[lead..], 16);
        if n == 0 then []
        else
          [H(SaturateUnsigned(Value(t[lead..lead + n], 16), sign == 1 && t[0] == '-'))] + Sscanf(t[lead + n..], f[1..])
  }

  // ------------------------------------------------------------------ printing

  predicate Printable(d: Dir, v: Val) {
    match d
    case Str => v.S? && v.s != [] && forall c :: c in v.s ==> !IsSpace(c)
    case Dec32 => v.N? && -TWO31 <= v.n < TWO31
    case Dec64 => v.N?
    case Hex64 => v.H?
    case _ => false
  }

  predicate Converts(d: Dir) { d.Str? || d.Dec32? || d.Dec64? || d.Hex64? }

  /** The values fit the conversions of the format, one for one. */
  predicate Matches(f: seq<Dir>, vs: seq<Val>)
    decreases f
  {
    if f == [] then vs == []
    else if Converts(f[0]) then vs != [] && Printable(f[0], vs[0]) && Matches(f[1..], vs[1..])
    else Matches(f[1..], vs)
  }

  function PrintOne(d: Dir, v: Val): string
    requires Converts(d) && Printable(d, v)
  {
    match d
    case Str => v.s
    case Dec32 | Dec64 => Decimal(v.n)
    case Hex64 => Numeral(v.h, 16)
  }

  function Sprintf(f: seq<Dir>, vs: seq<Val>): string
    requires Matches(f, vs)
  {
    if f == [] then ""
    else
      match f[0]
      case Space => " " + Sprintf(f[1..], vs)
      case Lit(c) => [c] + Sprintf(f[1..], vs)
      case _ => PrintOne(f[0], vs[0]) + Sprintf(f[1..], vs[1..])
  }

  // ------------------------------------------------------------------ scanning what was printed

  /** Neither a hexadecimal digit nor the `x` of a prefix. */
  predicate EndsHex(c: char) { !IsDigit(c, 16) && c != 'x' && c != 'X' }

  /** No conversion can swallow what follows it, and white space is followed by something visible. */
  predicate Delimited(f: seq<Dir>)
    decreases f
  {
    f == []
    || (Delimited(f[1..])
        && match f[0]
           case Space => |f| > 1 && !f[1].Space? && (f[1].Lit? ==> !IsSpace(f[1].c))
           case Lit(c) => !IsSpace(c)
           case Str => |f| == 1 || f[1].Space?
           case Dec32 | Dec64 => |f| == 1 || f[1].Space? || (f[1].Lit? && !IsDigit(f[1].c, 10))
           case Hex64 => |f| == 1 || f[1].Space? || (f[1].Lit? && EndsHex(f[1].c)))
  }

  lemma {:induction false} WordThen(w: string, rest: string)
    requires forall c :: c in w ==> !IsSpace(c)
    requires rest != [] ==> IsSpace(rest[0])
    ensures WordLength(w + rest) == |w|
  {
    hide IsSpace;
    if w == [] {
      assert w + rest == rest;
    } else {
      assert (w + rest)[1..] == w[1..] + rest;
      assert w[0] in w;
      WordThen(w[1..], rest);
    }
  }

  lemma {:induction false} DigitsThen(w: string, rest: string, base: nat)
    requires forall c :: c in w ==> IsDigit(c, base)
    requires rest != [] ==> !IsDigit(rest[0], base)
    ensures DigitCount(w + rest, base) == |w|
  {
    hide IsDigit;
    if w == [] {
      assert w + rest == rest;
    } else {
      assert (w + rest)[1..] == w[1..] + rest;
      assert w[0] in w;
      DigitsThen(w[1..], rest, base);
    }
  }

  /** A printed conversion is scanned back, up to the delimiter. */
  lemma {:induction false} OneBack(d: Dir, v: Val, rest: string, f: seq<Dir>)
    requires Converts(d) && Printable(d, v)
    requires d.Str? ==> rest == [] || IsSpace(rest[0])
    requires d.Dec32? || d.Dec64? ==> rest == [] || !IsDigit(rest[0], 10)
    requires d.Hex64? ==> rest == [] || EndsHex(rest[0])
    ensures Sscanf(PrintOne(d, v) + rest, [d] + f) == [v] + Sscanf(rest, f)
  {
    match d
    case Str => StrBack(v, rest, f);
    case Hex64 => HexBack(v, rest, f);
    case _ => DecBack(d, v, rest, f);
  }

  lemma {:induction false} StrBack(v: Val, rest: string, f: seq<Dir>)
    requires Printable(Str, v) && (rest == [] || IsSpace(rest[0]))
    ensures Sscanf(v.s + rest, [Str] + f) == [v] + Sscanf(rest, f)
  {
    hide IsSpace;
    var t := v.s + rest;
    assert v.s[0] in v.s;
    assert SkipSpace(t) == t;
    WordThen(v.s, rest);
    assert t[..|v.s|] == v.s && t[|v.s|..] == rest;
    assert ([Str] + f)[1..] == f;
  }

  lemma {:induction false} HexBack(v: Val, rest: string, f: seq<Dir>)
    requires Printable(Hex64, v) && (rest == [] || EndsHex(rest[0]))
    ensures Sscanf(Numeral(v.h, 16) + rest, [Hex64] + f) == [v] + Sscanf(rest, f)
  {
    hide IsSpace, IsDigit, Numeral, Value;
    var w := Numeral(v.h, 16);
    var t := w + rest;
    NumeralValue(v.h, 16);
    NumeralDigits(v.h, 16);
    assert w[0] in w;
    assert SkipSpace(t) == t;
    assert SignLength(t) == 0 && t[0..] == t;
    NoPrefix(w, rest);
    DigitsThen(w, rest, 16);
    assert t[..|w|] == w && t[|w|..] == rest;
    assert ([Hex64] + f)[1..] == f;
  }

  /** A numeral of hexadecimal digits shows no prefix. */
  lemma NoPrefix(w: string, rest: string)
    requires w != [] && (forall c :: c in w ==> IsDigit(c, 16)) && (rest == [] || EndsHex(rest[0]))
    ensures PrefixLength(w + rest) == 0
  {
    if |w| > 1 {
      assert w[1] in w;
    }
  }

  lemma {:induction false} DecBack(d: Dir, v: Val, rest: string, f: seq<Dir>)
    requires (d.Dec32? || d.Dec64?) && Printable(d, v) && (rest == [] || !IsDigit(rest[0], 10))
    ensures Sscanf(Decimal(v.n) + rest, [d] + f) == [v] + Sscanf(rest, f)
  {
    hide IsDigit, Numeral, Value, S32;
    var m: nat, sign := if v.n < 0 then -(v.n as int) else v.n, if v.n < 0 then 1 else 0;
    var w := Numeral(m, 10);
    var t := Decimal(v.n) + rest;
    NumeralValue(m, 10);
    NumeralDigits(m, 10);
    assert Plain(w[0]) by {
      assert w[0] in w;
    }
    MinusIsVisible();
    DigitsThen(w, rest, 10);
    Signed(t, sign, w, rest);
    assert ([d] + f)[1..] == f;
    if d.Dec32? {
      S32Fixed(v.n);
    }
  }

  /** The parts scanf cuts a signed numeral into. */
  lemma {:induction false} Signed(t: string, sign: nat, w: string, rest: string)
    requires w != [] && Plain(w[0]) && sign <= 1
    requires t == (if sign == 1 then "-" else "") + w + rest
    ensures SkipSpace(t) == t
    ensures SignLength(t) == sign && (sign == 1 ==> t[0] == '-')
    ensures t[sign..] == w + rest && t[sign..sign + |w|] == w && t[sign + |w|..] == rest
  {
    hide IsSpace;
    MinusIsVisible();
    var u := w + rest;
    assert t == (if sign == 1 then ['-'] else []) + u;
    assert t[sign..] == u && u[..|w|] == w && u[|w|..] == rest;
    assert t[sign..sign + |w|] == u[..|w|] && t[sign + |w|..] == u[|w|..];
  }

  lemma {:induction false} FirstPrinted(f: seq<Dir>, vs: seq<Val>)
    requires f != [] && Matches(f, vs)
    ensures f[0].Space? ==> Sprintf(f, vs) != [] && Sprintf(f, vs)[0] == ' '
    ensures f[0].Lit? ==> Sprintf(f, vs) != [] && Sprintf(f, vs)[0] == f[0].c
    ensures Converts(f[0]) ==> Sprintf(f, vs) != [] && !IsSpace(Sprintf(f, vs)[0])
  {
    hide IsSpace, Numeral;
    if Converts(f[0]) {
      var v := vs[0];
      if f[0].Str? {
        assert v.s[0] in v.s;
      } else {
        var m: nat := if f[0].Hex64? then v.h else if v.n < 0 then -(v.n as int) else v.n;
        var base := if f[0].Hex64? then 16 else 10;
        NumeralDigits(m, base);
        assert Numeral(m, base)[0] in Numeral(m, base);
        MinusIsVisible();
      }
    }
  }

  lemma MinusIsVisible()
    ensures !IsSpace('-') && IsSpace(' ') && !IsDigit(' ', 10) && EndsHex(' ')
  {
  }

  lemma {:induction false} NothingLeft(f: seq<Dir>)
    ensures Sscanf("", f) == []
    decreases f
  {
    if f != [] && f[0].Space? {
      NothingLeft(f[1..]);
    }
  }

  /** What was printed with a format is scanned back with it; a longer format finds nothing more. */
  lemma {:induction false} ScanCutShort(f: seq<Dir>, vs: seq<Val>, more: seq<Dir>)
    requires Delimited(f) && Matches(f, vs)
    ensures Sscanf(Sprintf(f, vs), f + more) == vs
    decreases |f|
  {
    hide IsSpace, IsDigit, EndsHex, Printable, PrintOne;
    if f == [] {
      assert f + more == more;
      NothingLeft(more);
    } else {
      MinusIsVisible();
      var s := Sprintf(f, vs);
      assert (f + more)[0] == f[0] && (f + more)[1..] == f[1..] + more;
      if f[0].Space? {
        ScanCutShort(f[1..], vs, more);
        FirstPrinted(f[1..], vs);
        assert s[1..] == Sprintf(f[1..], vs);
        assert SkipSpace(s[1..]) == s[1..];
      } else if f[0].Lit? {
        ScanCutShort(f[1..], vs, more);
        assert s[1..] == Sprintf(f[1..], vs);
      } else {
        ScanCutShort(f[1..], vs[1..], more);
        if |f| > 1 {
          FirstPrinted(f[1..], vs[1..]);
        }
        OneBack(f[0], vs[0], Sprintf(f[1..], vs[1..]), f[1..] + more);
        assert [f[0]] + (f[1..] + more) == f + more;
        assert [vs[0]] + vs[1..] == vs;
      }
    }
  }

  /** scanf inverts printf on every delimited format and all values that fit it. */
  lemma {:induction false} ScanPrinted(f: seq<Dir>, vs: seq<Val>)
    requires Delimited(f) && Matches(f, vs)
    ensures Sscanf(Sprintf(f, vs), f) == vs
  {
    hide Sscanf, Sprintf, Delimited, Matches;
    ScanCutShort(f, vs, []);
    assert f + [] == f;
  }

  lemma {:induction false} SkipTwice(s: string)
    ensures SkipSpace(SkipSpace(s)) == SkipSpace(s)
  {
    if s != [] && IsSpace(s[0]) {
      SkipTwice(s[1..]);
    }
  }

  /** White space in a format before a number changes nothing: numbers skip it themselves. */
  lemma {:induction false} SpaceBeforeNumber(s: string, front: seq<Dir>, rest: seq<Dir>)
    requires rest != [] && rest[0].Dec64?
    ensures Sscanf(s, front + [Space] + rest) == Sscanf(s, front + rest)
    decreases |front|
  {
    hide SaturateUnsigned, Saturate, SignLength, PrefixLength, Value, S32, DigitCount;
    var f, g := front + [Space] + rest, front + rest;
    if front == [] {
      assert f[1..] == rest && g == rest;
      SkipTwice(s);
    } else {
      assert f[1..] == front[1..] + [Space] + rest && g[1..] == front[1..] + rest;
      assert f[0] == g[0];
      forall t: string ensures Sscanf(t, f[1..]) == Sscanf(t, g[1..]) {
        SpaceBeforeNumber(t, front[1..], rest);
      }
    }
  }
}
