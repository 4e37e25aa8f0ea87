/** What scanf reads of texts no printf wrote: blanks, signs, prefixes, capitals and early ends. */
module ScanLaws {
  import opened Words
  import opened Text

  // ------------------------------------------------------------------ characters

  /** White space is the blank and the characters 9 to 13. */
  lemma SpaceCharacters(c: char)
    ensures IsSpace(c) <==> c as int == 32 || 9 <= c as int <= 13
  {
  }

  /** The sixteen digits, and their capitals. */
  lemma DigitCharacters(d: nat)
    requires d < 16
    ensures Digit(d) == "0123456789abcdef"[d]
    ensures DigitValue("0123456789abcdef"[d]) == DigitValue("0123456789ABCDEF"[d]) == d
  {
    match d {
      case 0 => case 1 => case 2 => case 3 => case 4 => case 5 => case 6 => case 7 => case 8 => case 9 => case 10 =>
      case 11 => case 12 => case 13 => case 14 => case _ =>
    }
  }

  /** Nothing else is a digit. */
  lemma DigitRanges(c: char)
    ensures IsDigit(c, 10) <==> 48 <= c as int <= 57
    ensures IsDigit(c, 16) <==> 48 <= c as int <= 57 || 65 <= c as int <= 70 || 97 <= c as int <= 102
  {
  }

  /** A numeral reads as its front times the base plus its last digit. */
  lemma {:induction false} LastDigit(s: string, c: char, base: nat)
    ensures Value("", base) == 0
    ensures Value(s + [c], base) == Value(s, base) * base + DigitValue(c)
  {
    ValueSnoc(s, c, base);
  }

  function Power(base: nat, k: nat): nat {
    if k == 0 then 1 else base * Power(base, k - 1)
  }

  /** Numerals have no leading zeros: at most `k` digits exactly when the number is below base^k. */
  lemma {:induction false} NumeralLength(n: nat, base: nat, k: nat)
    requires 2 <= base <= 16 && k > 0
    ensures |Numeral(n, base)| <= k <==> n < Power(base, k)
    decreases k
  {
    PowerGrows(base, k);
    if n >= base && k > 1 {
      NumeralLength(n / base, base, k - 1);
      BelowProduct(n, base, Power(base, k - 1));
    }
  }

  lemma {:induction false} PowerGrows(base: nat, k: nat)
    requires 2 <= base && k > 0
    ensures Power(base, k) >= base
    ensures Power(base, 1) == base
  {
    assert Power(base, 0) == 1;
    if k > 1 {
      PowerGrows(base, k - 1);
      assert base * Power(base, k - 1) >= base * 1;
    }
  }

  lemma BelowProduct(n: nat, base: nat, m: nat)
    requires base > 0
    ensures n / base < m <==> n < base * m
  {
    var q, r := n / base, n % base;
    assert n == base * q + r;
    if q < m {
      assert base * (q + 1) <= base * m;
    } else {
      assert base * q >= base * m;
    }
  }

  // ------------------------------------------------------------------ blanks, signs, prefixes

  predicate Blank(s: string) { forall c :: c in s ==> IsSpace(c) }

  predicate Numerals(s: string, base: nat) { s != [] && forall c :: c in s ==> IsDigit(c, base) }

  lemma {:induction false} SkipBlank(blank: string, t: string)
    requires Blank(blank) && t != [] && !IsSpace(t[0])
    ensures SkipSpace(blank + t) == t
  {
    hide IsSpace;
    if blank == [] {
      assert blank + t == t;
    } else {
      assert (blank + t)[1..] == blank[1..] + t;
      assert blank[0] in blank;
      SkipBlank(blank[1..], t);
    }
  }

  /** A word ends before the next blank. */
  lemma {:induction false} ScanWord(blank: string, word: string, rest: string, f: seq<Dir>)
    requires Blank(blank) && word != [] && (forall c :: c in word ==> !IsSpace(c))
    requires rest != [] ==> IsSpace(rest[0])
    ensures Sscanf(blank + word + rest, [Str] + f) == [S(word)] + Sscanf(rest, f)
  {
    hide IsSpace;
    var t := word + rest;
    assert word[0] in word;
    assert blank + word + rest == blank + t;
    SkipBlank(blank, t);
    WordThen(word, rest);
    assert t[..|word|] == word && t[|word|..] == rest;
    assert ([Str] + f)[1..] == f;
  }

  /** A decimal number may follow blanks and a sign; beyond 64 bits it saturates, and `%d` keeps 32. */
  lemma {:induction false} ScanDecimal(blank: string, sign: string, digits: string, rest: string, d: Dir, f: seq<Dir>)
    requires Blank(blank) && (sign == "" || sign == "-" || sign == "+")
    requires Numerals(digits, 10) && (rest == [] || !IsDigit(rest[0], 10)) && (d.Dec32? || d.Dec64?)
    ensures var m: int := Value(digits, 10);
            var n: int := if sign == "-" then -m else m;
            var v := if n < -TWO63 then -TWO63 else if n > TWO63 - 1 then TWO63 - 1 else n;
            Sscanf(blank + sign + digits + rest, [d] + f) ==
            [N(if d.Dec32? then S32(v) else v)] + Sscanf(rest, f)
  {
    hide IsSpace, IsDigit, Value, S32, Blank, SkipSpace, SignLength, DigitCount;
    DecimalParts(blank, sign, digits, rest);
    assert ([d] + f)[1..] == f;
  }

  /** The parts scanf cuts such a number into. */
  lemma {:induction false} DecimalParts(blank: string, sign: string, digits: string, rest: string)
    requires Blank(blank) && (sign == "" || sign == "-" || sign == "+")
    requires Numerals(digits, 10) && (rest == [] || !IsDigit(rest[0], 10))
    ensures var t := SkipSpace(blank + sign + digits + rest);
            && t != [] && SignLength(t) == |sign| && (sign == "-" <==> SignLength(t) == 1 && t[0] == '-')
            && |sign| + |digits| <= |t| && DigitCount(t[|sign|..], 10) == |digits|
            && t[|sign|..|sign| + |digits|] == digits && t[|sign| + |digits|..] == rest
  {
    hide IsSpace, IsDigit, Blank, SkipSpace, SignLength, DigitCount;
    var t := sign + digits + rest;
    assert digits[0] in digits;
    DigitIsPlain(digits[0], 10);
    SignCut(sign, digits + rest);
    assert t == sign + (digits + rest);
    assert blank + sign + digits + rest == blank + t;
    SkipBlank(blank, t);
    DigitsThen(digits, rest, 10);
    Cut(sign, digits, rest);
  }

  /** A sign in front of something that shows none. */
  lemma SignCut(sign: string, u: string)
    requires (sign == "" || sign == "-" || sign == "+") && u != "" && Plain(u[0])
    ensures !IsSpace((sign + u)[0]) && SignLength(sign + u) == |sign|
    ensures sign == "-" <==> SignLength(sign + u) == 1 && (sign + u)[0] == '-'
    ensures (sign + u)[|sign|..] == u
  {
    SignsAndPrefixes();
  }

  lemma Cut(a: string, b: string, c: string)
    ensures var t := a + b + c;
            t[|a|..] == b + c && t[|a|..|a| + |b|] == b && t[|a| + |b|..] == c
  {
    var t := a + b + c;
    assert t[|a|..] == b + c;
    assert t[|a|..|a| + |b|] == b;
  }

  lemma DigitIsPlain(c: char, base: nat)
    requires IsDigit(c, base) && base <= 16
    ensures Plain(c)
  {
  }

  /** A hexadecimal number also takes a prefix and capitals; a minus sign negates modulo 2^64. */
  lemma {:induction false} ScanHex(blank: string, sign: string, prefix: string, digits: string, rest: string,
                                   f: seq<Dir>)
    requires Blank(blank) && (sign == "" || sign == "-" || sign == "+")
    requires prefix == "" || prefix == "0x" || prefix == "0X"
    requires Numerals(digits, 16) && (rest == [] || EndsHex(rest[0]))
    ensures var m: int := Value(digits, 16);
            var v := if m >= TWO64 then TWO64 - 1 else if sign == "-" then U64(-m) else m;
            Sscanf(blank + sign + prefix + digits + rest, [Hex64] + f) == [H(v)] + Sscanf(rest, f)
  {
    hide IsSpace, IsDigit, Value, Blank, SkipSpace, SignLength, PrefixLength, DigitCount;
    HexParts(blank, sign, prefix, digits, rest);
    assert ([Hex64] + f)[1..] == f;
  }

  /** The parts scanf cuts such a number into. */
  lemma {:induction false} HexParts(blank: string, sign: string, prefix: string, digits: string, rest: string)
    requires Blank(blank) && (sign == "" || sign == "-" || sign == "+")
    requires prefix == "" || prefix == "0x" || prefix == "0X"
    requires Numerals(digits, 16) && (rest == [] || EndsHex(rest[0]))
    ensures var t := SkipSpace(blank + sign + prefix + digits + rest);
            var lead := |sign| + |prefix|;
            && t != [] && SignLength(t) == |sign| && PrefixLength(t[|sign|..]) == |prefix|
            && (sign == "-" <==> SignLength(t) == 1 && t[0] == '-')
            && lead + |digits| <= |t| && DigitCount(t[lead..], 16) == |digits|
            && t[lead..lead + |digits|] == digits && t[lead + |digits|..] == rest
  {
    hide IsSpace, IsDigit, Blank, SkipSpace, SignLength, PrefixLength, DigitCount;
    var u := prefix + digits + rest;
    var t := sign + u;
    PrefixCut(prefix, digits, rest);
    SignCut(sign, u);
    Regroup(blank, sign, prefix, digits, rest);
    SkipBlank(blank, t);
    DigitsThen(digits, rest, 16);
    Cut(sign + prefix, digits, rest);
  }

  lemma Regroup(a: string, b: string, c: string, d: string, e: string)
    ensures a + b + c + d + e == a + (b + (c + d + e))
    ensures b + (c + d + e) == (b + c) + d + e
  {
    assert b + (c + d + e) == (b + c) + d + e;
  }

  lemma PrefixCut(prefix: string, digits: string, rest: string)
    requires prefix == "" || prefix == "0x" || prefix == "0X"
    requires Numerals(digits, 16) && (rest == [] || EndsHex(rest[0]))
    ensures var u := prefix + digits + rest;
            u != "" && Plain(u[0]) && PrefixLength(u) == |prefix|
  {
    hide IsDigit;
    assert digits[0] in digits;
    DigitIsPlain(digits[0], 16);
    SignsAndPrefixes();
    if prefix == "" {
      NoPrefix(digits, rest);
      assert prefix + digits + rest == digits + rest;
    }
  }

  lemma SignsAndPrefixes()
    ensures !IsSpace('-') && !IsSpace('+') && !IsSpace('0')
  {
  }

  /** Where a number, a word or a literal is missing, scanning ends. */
  lemma {:induction false} ScanStops(s: string, d: Dir, f: seq<Dir>)
    ensures d.Lit? && (s == [] || s[0] != d.c) ==> Sscanf(s, [d] + f) == []
    ensures d.Str? && SkipSpace(s) == [] ==> Sscanf(s, [d] + f) == []
    ensures (d.Dec32? || d.Dec64?) && NoDigits(SkipSpace(s), 10) ==> Sscanf(s, [d] + f) == []
    ensures d.Hex64? && NoDigits(SkipSpace(s), 16) && PrefixLength(SkipSpace(s)) == 0 ==> Sscanf(s, [d] + f) == []
  {
  }

  /** No digit at the beginning, nor behind a sign there. */
  predicate NoDigits(t: string, base: nat) {
    t == [] || (!IsDigit(t[0], base) && (t[0] == '-' || t[0] == '+' ==> |t| == 1 || !IsDigit(t[1], base)))
  }
}
