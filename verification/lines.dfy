/** `lines` of src/utilities.c: one pass counts the lines of a text, a second cuts it into tokens
    and asserts that there is one for each line. */
module LineSplitting {
  import opened Options

  /** The length of the first line, its newline excluded. */
  function LineLength(t: string): (n: nat)
    ensures n <= |t|
    ensures forall i :: 0 <= i < n ==> t[i] != '\n'
    ensures n < |t| ==> t[n] == '\n'
  {
    if t != [] && t[0] != '\n' then 1 + LineLength(t[1..]) else 0
  }

  /** The lines of a text; a final newline ends the last one. */
  function Split(t: string): seq<string>
    decreases |t|
  {
    if t == [] then []
    else
      var n := LineLength(t);
      [t[..n]] + (if n < |t| then Split(t[n + 1..]) else [])
  }

  /** What strtok_r finds: maximal runs of other characters between newlines. */
  function Tokens(t: string): seq<string>
    decreases |t|
  {
    if t == [] then []
    else if t[0] == '\n' then Tokens(t[1..])
    else [t[..LineLength(t)]] + Tokens(t[LineLength(t)..])
  }

  function NonEmpty(ls: seq<string>): (r: seq<string>)
    ensures |r| <= |ls|
    ensures |r| == |ls| ==> r == ls
    ensures |r| == |ls| <==> "" !in ls
  {
    if ls == [] then []
    else if ls[0] == "" then NonEmpty(ls[1..])
    else [ls[0]] + NonEmpty(ls[1..])
  }

  function Join(ls: seq<string>): string
  {
    if ls == [] then "" else if |ls| == 1 then ls[0] else ls[0] + "\n" + Join(ls[1..])
  }

  /** No newline stands first or follows another: every line but a last unfinished one has text. */
  predicate NoEmptyLine(t: string) {
    forall i :: 0 <= i < |t| && t[i] == '\n' ==> i > 0 && t[i - 1] != '\n'
  }

  /** The token pass skips exactly the empty lines. */
  lemma {:induction false} TokensAreNonEmptyLines(t: string)
    ensures Tokens(t) == NonEmpty(Split(t))
    decreases |t|
  {
    if t != [] {
      var n := LineLength(t);
      if n == 0 {
        TokensAreNonEmptyLines(t[1..]);
        assert Split(t) == [""] + Split(t[1..]);
      } else if n < |t| {
        TokensAreNonEmptyLines(t[n + 1..]);
        assert t[n..][1..] == t[n + 1..];
        assert Split(t)[1..] == Split(t[n + 1..]);
      } else {
        assert t[n..] == [];
        assert Split(t) == [t[..n]];
      }
    }
  }

  /** Past a first line with text, the rest of the text decides. */
  lemma RestDecides(t: string, n: nat)
    requires 0 < n < |t| && t[n] == '\n' && forall i :: 0 <= i < n ==> t[i] != '\n'
    ensures NoEmptyLine(t) <==> NoEmptyLine(t[n + 1..])
  {
    var rest := t[n + 1..];
    if NoEmptyLine(t) {
      forall i | 0 <= i < |rest| && rest[i] == '\n' ensures i > 0 && rest[i - 1] != '\n' {
        assert t[n + 1 + i] == '\n';
      }
    }
    if NoEmptyLine(rest) {
      forall i | 0 <= i < |t| && t[i] == '\n' ensures i > 0 && t[i - 1] != '\n' {
        if i > n {
          assert rest[i - n - 1] == '\n';
        }
      }
    }
  }

  lemma {:induction false} EmptyLineShows(t: string)
    ensures "" !in Split(t) <==> NoEmptyLine(t)
    decreases |t|
  {
    hide NoEmptyLine, LineLength;
    if t == [] {
      OneUnfinished(t);
    } else {
      var n := LineLength(t);
      var line := t[..n];
      var more := if n < |t| then Split(t[n + 1..]) else [];
      assert Split(t) == [line] + more;
      InCons("", line, more);
      if n == 0 {
        EmptyFirst(t);
      } else if n < |t| {
        RestDecides(t, n);
        EmptyLineShows(t[n + 1..]);
      } else {
        OneUnfinished(t);
      }
    }
  }

  /** Lines contain no newline. */
  lemma {:induction false} SplitLines(t: string, k: nat)
    requires k < |Split(t)|
    ensures '\n' !in Split(t)[k]
    decreases |t|
  {
    var n := LineLength(t);
    if k > 0 {
      SplitLines(t[n + 1..], k - 1);
    }
  }

  lemma InCons(x: string, a: string, ls: seq<string>)
    ensures x in [a] + ls <==> x == a || x in ls
  {
  }

  lemma EmptyFirst(t: string)
    requires t != [] && t[0] == '\n'
    ensures !NoEmptyLine(t)
  {
  }

  lemma {:induction false} OneUnfinished(t: string)
    requires LineLength(t) == |t|
    ensures NoEmptyLine(t)
  {
  }

  /** The newline that ended the last line, if one did. */
  function FinalNewline(t: string): string {
    if t != "" && t[|t| - 1] == '\n' then "\n" else ""
  }

  lemma {:induction false} JoinCons(a: string, ls: seq<string>)
    requires ls != []
    ensures Join([a] + ls) == a + "\n" + Join(ls)
  {
    assert ([a] + ls)[1..] == ls;
  }

  lemma FinalOfConcat(a: string, rest: string)
    ensures FinalNewline(a + "\n" + rest) == if rest == "" then "\n" else FinalNewline(rest)
  {
    if rest != "" {
      assert (a + "\n" + rest)[|a| + |rest|] == rest[|rest| - 1];
    }
  }

  /** Joining the lines restores the text, up to one final newline. */
  lemma {:induction false} JoinRestores(t: string)
    ensures Join(Split(t)) + FinalNewline(t) == t
    decreases |t|
  {
    hide LineLength, Join, FinalNewline;
    if t == [] {
      assert Join([]) + FinalNewline("") == "" by { JoinNone(); }
    } else {
      var n := LineLength(t);
      var line := t[..n];
      JoinOne(line);
      if n < |t| {
        var rest := t[n + 1..];
        assert t == line + "\n" + rest;
        FinalOfConcat(line, rest);
        JoinRestores(rest);
        if rest == "" {
          assert Split(t) == [line];
        } else {
          JoinCons(line, Split(rest));
          Regroup(line, Join(Split(rest)), FinalNewline(rest));
        }
      } else {
        assert Split(t) == [line] && line == t;
        NoFinal(t);
      }
    }
  }

  lemma JoinNone()
    ensures Join([]) + FinalNewline("") == ""
  {
  }

  lemma JoinOne(a: string)
    ensures Join([a]) == a
  {
  }

  lemma {:induction false} NoFinal(t: string)
    requires LineLength(t) == |t|
    ensures FinalNewline(t) == "" && t + "" == t
  {
  }

  lemma Regroup(a: string, b: string, c: string)
    ensures a + "\n" + b + c == a + "\n" + (b + c)
  {
  }

  /** What `lines` returns; `None` when a token is missing and its assertion fails. */
  function LinesOf(t: string): Option<seq<string>> {
    if |Tokens(t)| == |Split(t)| then Some(Tokens(t)) else None
  }

  /** There are never more tokens than counted lines; as many exactly when no line is empty, and then
      the lines joined are the text up to its final newline. */
  lemma {:induction false} LinesExact(t: string)
    ensures |Tokens(t)| <= |Split(t)|
    ensures LinesOf(t).Some? <==> NoEmptyLine(t)
    ensures LinesOf(t).Some? ==>
              Join(LinesOf(t).value) + FinalNewline(t) == t
  {
    TokensAreNonEmptyLines(t);
    EmptyLineShows(t);
    JoinRestores(t);
  }

  predicate IsLine(s: string) { s != "" && '\n' !in s }

  lemma {:induction false} FirstLineLength(a: string, rest: string)
    requires '\n' !in a && (rest == "" || rest[0] == '\n')
    ensures LineLength(a + rest) == |a|
  {
    if a == "" {
      assert a + rest == rest;
    } else {
      assert (a + rest)[1..] == a[1..] + rest;
      FirstLineLength(a[1..], rest);
    }
  }

  /** Splitting undoes joining. */
  lemma {:induction false} SplitJoined(ls: seq<string>)
    requires forall k :: 0 <= k < |ls| ==> IsLine(ls[k])
    ensures Split(Join(ls)) == ls
    decreases |ls|
  {
    if |ls| == 1 {
      assert ls[0] + "" == ls[0];
      FirstLineLength(ls[0], "");
    } else if |ls| > 1 {
      var rest := "\n" + Join(ls[1..]);
      SplitJoined(ls[1..]);
      assert Join(ls) == ls[0] + rest;
      FirstLineLength(ls[0], rest);
      assert Join(ls)[..|ls[0]|] == ls[0] && Join(ls)[|ls[0]| + 1..] == Join(ls[1..]);
      assert [ls[0]] + ls[1..] == ls;
    }
  }

  lemma {:induction false} LinesOfJoined(ls: seq<string>)
    requires forall k :: 0 <= k < |ls| ==> IsLine(ls[k])
    ensures LinesOf(Join(ls)) == Some(ls)
  {
    SplitJoined(ls);
    TokensAreNonEmptyLines(Join(ls));
    assert "" !in ls;
  }

  function SkipNewlines(t: string): (r: string)
    ensures |r| <= |t|
    ensures r != [] ==> r[0] != '\n'
    ensures Tokens(r) == Tokens(t)
  {
    if t != [] && t[0] == '\n' then SkipNewlines(t[1..]) else t
  }

  /** The counting pass of `lines`: from newline to newline, then whether text is left over. */
  method CountLines(program: string) returns (count: nat)
    ensures count == |Split(program)|
  {
    var str := program;
    count := 0;
    while LineLength(str) < |str|
      invariant |Split(program)| == count + |Split(str)|
      decreases |str|
    {
      count := count + 1;
      str := str[LineLength(str) + 1..];
    }
    if str != "" {
      count := count + 1;
    }
  }

  /** The token pass: `count` calls of strtok_r, the first missing token failing the assertion. */
  method CutTokens(program: string, count: nat) returns (tokens: Option<seq<string>>)
    requires |Tokens(program)| <= count
    ensures tokens == if |Tokens(program)| == count then Some(Tokens(program)) else None
  {
    hide LineLength;
    var found: seq<string>, pos := [], program;
    while |found| != count
      invariant |found| <= count
      invariant Tokens(program) == found + Tokens(pos)
      decreases count - |found|
    {
      pos := SkipNewlines(pos);
      if pos == "" {
        return None;
      }
      found := found + [pos[..LineLength(pos)]];
      pos := pos[LineLength(pos)..];
    }
    assert Tokens(pos) == [];
    assert found + [] == found;
    return Some(found);
  }

  /** `lines` */
  method Lines(program: string) returns (lines: Option<seq<string>>)
    ensures lines == LinesOf(program)
  {
    LinesExact(program);
    var count := CountLines(program);
    lines := CutTokens(program, count);
  }
}
