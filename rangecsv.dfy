/**
 * The CSV exporter's helpers: column letters to numbers (bijective base 26),
 * the simplified A1 range parser, the header slice for a range, fixed-width
 * rows, and the choice of an output file name that is not taken yet.
 */
module RangeCsv {

  import opened Wrappers
  import opened Text
  import opened Sheet

  // ---------------------------------------------------------------------------
  // Column letters (`_col_letter_to_index`)
  // ---------------------------------------------------------------------------

  predicate IsUpperLetter(c: char) { 'A' <= c <= 'Z' }

  predicate AllUpper(s: string) { forall i :: 0 <= i < |s| ==> IsUpperLetter(s[i]) }

  /** The number written by upper-case letters in bijective base 26: "A" is 1, "Z" 26, "AA" 27. */
  function ColumnNumber(s: string): nat
    requires AllUpper(s)
  {
    if s == [] then 0 else ColumnNumber(s[..|s| - 1]) * 26 + (s[|s| - 1] as int - 'A' as int + 1)
  }

  /** The letters of column `n`; the inverse of `ColumnNumber`. */
  function ColumnLetters(n: nat): (s: string)
    ensures AllUpper(s) && (n >= 1 <==> s != [])
  {
    if n == 0 then [] else ColumnLetters((n - 1) / 26) + [('A' as int + (n - 1) % 26) as char]
  }

  /**
   * What `_col_letter_to_index(letter)` returns: the column number of the
   * trimmed, upper-cased letters, or None (ValueError) when they are empty or
   * not all letters.
   */
  function LetterIndex(letter: string): (r: Option<nat>)
    ensures r.Some? <==> Trim(letter) != "" && AllLetters(Trim(letter))
    ensures r.Some? ==> r.value >= 1
  {
    var t := Upper(Trim(letter));
    UpperLetters(Trim(letter));
    if t != "" && AllUpper(t) then
      ColumnNumberPositive(t);
      Some(ColumnNumber(t))
    else None
  }

  /** Upper-casing turns exactly the letters into upper-case letters. */
  lemma UpperLetters(s: string)
    ensures AllUpper(Upper(s)) <==> AllLetters(s)
  {
    if !AllLetters(s) {
      var i :| 0 <= i < |s| && !IsLetter(s[i]);
      assert !IsUpperLetter(Upper(s)[i]);
    }
  }

  lemma {:induction false} ColumnNumberPositive(s: string)
    requires AllUpper(s) && s != []
    ensures ColumnNumber(s) >= 1
  {
    assert IsUpperLetter(s[|s| - 1]);
  }

  /** `ColumnLetters` writes the number back: ColumnNumber(ColumnLetters(n)) == n. */
  lemma {:induction false} NumberOfLetters(n: nat)
    ensures ColumnNumber(ColumnLetters(n)) == n
    decreases n
  {
    if n > 0 {
      var s := ColumnLetters(n);
      NumberOfLetters((n - 1) / 26);
      assert s[..|s| - 1] == ColumnLetters((n - 1) / 26);
    }
  }

  /** Every letter string is the spelling of its number: the numbering is a bijection. */
  lemma {:induction false} LettersOfNumber(s: string)
    requires AllUpper(s)
    ensures ColumnLetters(ColumnNumber(s)) == s
    decreases |s|
  {
    if s != [] {
      var p := s[..|s| - 1];
      var d := s[|s| - 1] as int - 'A' as int;
      assert IsUpperLetter(s[|s| - 1]) && 0 <= d < 26;
      var n := ColumnNumber(s);
      assert n == ColumnNumber(p) * 26 + d + 1;
      assert (n - 1) / 26 == ColumnNumber(p) && (n - 1) % 26 == d;
      LettersOfNumber(p);
      assert s == p + [s[|s| - 1]];
    }
  }

  /** The documented values: "A" is 1, "Z" is 26, "AA" is 27. */
  lemma ColumnExamples()
    ensures ColumnLetters(1) == "A" && ColumnLetters(26) == "Z" && ColumnLetters(27) == "AA"
    ensures ColumnNumber("A") == 1 && ColumnNumber("Z") == 26 && ColumnNumber("AA") == 27
  {
    assert ColumnLetters(0) == [];
    assert ColumnLetters(1) == "A";
    assert ColumnLetters(27) == ColumnLetters(1) + "A";
    NumberOfLetters(1);
    NumberOfLetters(26);
    NumberOfLetters(27);
  }

  /** Two strings that agree once upper-cased. */
  predicate SameIgnoringCase(s: string, t: string) {
    |s| == |t| && forall i :: 0 <= i < |s| ==> UpperChar(s[i]) == UpperChar(t[i])
  }

  /** The column number does not depend on letter case. */
  lemma LetterIndexIgnoresCase(s: string, t: string)
    requires SameIgnoringCase(s, t)
    ensures LetterIndex(s) == LetterIndex(t)
  {
    assert Upper(s) == Upper(t);
    TrimUpper(s);
    TrimUpper(t);
  }

  /** A lower-case spelling names the same column. */
  lemma LowerSameColumn(s: string)
    ensures LetterIndex(Lower(s)) == LetterIndex(s)
  {
    LowerEach(s);
    assert SameIgnoringCase(Lower(s), s);
    LetterIndexIgnoresCase(Lower(s), s);
  }

  /** The letters of column `n`, in either case and with surrounding white space, give back `n`. */
  lemma LetterIndexOfLetters(n: nat)
    requires n >= 1
    ensures LetterIndex(ColumnLetters(n)) == Some(n)
  {
    var s := ColumnLetters(n);
    assert IsUpperLetter(s[0]) && IsUpperLetter(s[|s| - 1]);
    TrimOfTrimmed(s);
    assert Upper(s) == s;
    NumberOfLetters(n);
  }

  /** `_col_letter_to_index(letter)`; None stands for the ValueError. */
  method ColLetterToIndex(letter: string) returns (r: Option<nat>)
    ensures r == LetterIndex(letter)
  {
    var t := Upper(Trim(letter));
    if t == "" || !AllUpper(t) {
      return None;
    }
    var n := 0;
    var i := 0;
    while i < |t|
      invariant 0 <= i <= |t|
      invariant n == ColumnNumber(t[..i])
    {
      assert t[..i + 1][..i] == t[..i];
      n := n * 26 + (t[i] as int - 'A' as int + 1);
      i := i + 1;
    }
    assert t[..|t|] == t;
    r := Some(n);
  }

  // ---------------------------------------------------------------------------
  // A1 ranges (`_parse_a1_range`)
  // ---------------------------------------------------------------------------

  /**
   * The character classes of the range patterns are disjoint, so a full match
   * is decided on maximal runs: letters, digits, and single other characters.
   */
  datatype Kind = LetterRun | DigitRun

  datatype Token = Run(kind: Kind, text: string) | Colon | Other(c: char)

  function KindOf(c: char): Option<Kind> {
    if IsLetter(c) then Some(LetterRun) else if IsDigit(c) then Some(DigitRun) else None
  }

  predicate OfKind(s: string, k: Kind) {
    s != [] && forall i :: 0 <= i < |s| ==> KindOf(s[i]) == Some(k)
  }

  /** The text a token stands for. */
  function TokenText(t: Token): string {
    match t
    case Run(_, s) => s
    case Colon => ":"
    case Other(c) => [c]
  }

  function Unlex(ts: seq<Token>): string {
    if ts == [] then [] else TokenText(ts[0]) + Unlex(ts[1..])
  }

  /** The maximal runs of `s`, left to right. */
  function Lex(s: string): (ts: seq<Token>)
    ensures (ts == []) == (s == [])
    ensures ts != [] && ts[0].Run? ==> KindOf(s[0]) == Some(ts[0].kind)
    decreases |s|
  {
    if s == [] then []
    else
      var rest := Lex(s[1..]);
      match KindOf(s[0])
      case Some(k) =>
        if rest != [] && rest[0].Run? && rest[0].kind == k then [Run(k, [s[0]] + rest[0].text)] + rest[1..]
        else [Run(k, [s[0]])] + rest
      case None => [if s[0] == ':' then Colon else Other(s[0])] + rest
  }

  /** Every run holds only characters of its kind. */
  predicate WellKinded(ts: seq<Token>) {
    forall i :: 0 <= i < |ts| && ts[i].Run? ==> OfKind(ts[i].text, ts[i].kind)
  }

  lemma {:induction false} LexKinds(s: string)
    ensures WellKinded(Lex(s))
    decreases |s|
  {
    if s != [] {
      LexKinds(s[1..]);
      var rest := Lex(s[1..]);
      var ts := Lex(s);
      if KindOf(s[0]).Some? && rest != [] && rest[0].Run? && rest[0].kind == KindOf(s[0]).value {
        var t := [s[0]] + rest[0].text;
        assert forall j :: 1 <= j < |t| ==> t[j] == rest[0].text[j - 1];
        assert OfKind(t, rest[0].kind);
        assert forall i :: 1 <= i < |ts| ==> ts[i] == rest[i];
      } else {
        assert forall i :: 1 <= i < |ts| ==> ts[i] == rest[i - 1];
      }
    }
  }

  /** The runs spell out the string: nothing is lost or reordered. */
  lemma {:induction false} LexUnlex(s: string)
    ensures Unlex(Lex(s)) == s
    decreases |s|
  {
    if s != [] {
      LexUnlex(s[1..]);
      var rest := Lex(s[1..]);
      if KindOf(s[0]).Some? && rest != [] && rest[0].Run? && rest[0].kind == KindOf(s[0]).value {
        assert Unlex(rest) == rest[0].text + Unlex(rest[1..]);
      }
    }
  }

  /** A maximal run at the front becomes one token. */
  lemma {:induction false} LexRun(k: Kind, a: string, b: string)
    requires OfKind(a, k) && (b == [] || KindOf(b[0]) != Some(k))
    ensures Lex(a + b) == [Run(k, a)] + Lex(b)
    decreases |a|
  {
    var s := a + b;
    assert s[0] == a[0] && KindOf(s[0]) == Some(k);
    assert s[1..] == a[1..] + b;
    if |a| > 1 {
      LexRun(k, a[1..], b);
      assert [a[0]] + a[1..] == a;
    } else {
      assert s[1..] == b;
      var rest := Lex(b);
      assert !(rest != [] && rest[0].Run? && rest[0].kind == k);
      assert [a[0]] == a;
    }
  }

  lemma LexColon(b: string)
    ensures Lex(":" + b) == [Colon] + Lex(b)
  {
    assert (":" + b)[1..] == b;
  }

  /** `(row_start, row_end, col_start, col_end)`, each None when the pattern does not give it. */
  datatype A1Range = A1Range(rowStart: Option<nat>, rowEnd: Option<nat>, colStart: Option<nat>, colEnd: Option<nat>)

  predicate IsLetters(t: Token) { t.Run? && t.kind == LetterRun }

  predicate IsNumber(t: Token) { t.Run? && t.kind == DigitRun }

  /** The column a letter run names. */
  function RunColumn(t: Token): nat
    requires IsLetters(t) && OfKind(t.text, LetterRun)
  {
    var s := t.text;
    assert AllLetters(s) by {
      assert forall i :: 0 <= i < |s| ==> KindOf(s[i]) == Some(LetterRun);
    }
    UpperLetters(s);
    ColumnNumber(Upper(s))
  }

  /** On a letter run `_col_letter_to_index` never fails, and gives the run's column. */
  lemma RunColumnIsIndex(t: Token)
    requires IsLetters(t) && OfKind(t.text, LetterRun)
    ensures LetterIndex(t.text) == Some(RunColumn(t))
  {
    var s := t.text;
    assert forall i :: 0 <= i < |s| ==> KindOf(s[i]) == Some(LetterRun);
    assert !IsSpace(s[0]) && !IsSpace(s[|s| - 1]);
    TrimOfTrimmed(s);
  }

  lemma RunColumnOfLetters(c: nat)
    requires c >= 1
    ensures OfKind(ColumnLetters(c), LetterRun) && RunColumn(Run(LetterRun, ColumnLetters(c))) == c
  {
    LettersLetters(c);
    var s := ColumnLetters(c);
    assert Upper(s) == s;
    NumberOfLetters(c);
  }

  lemma RunRowOfNumber(r: nat)
    ensures OfKind(NatToString(r), DigitRun) && RunRow(Run(DigitRun, NatToString(r))) == r
  {
    NumberDigits(r);
    DigitsValueOfNatToString(r);
  }

  /** The row a digit run names: `int(...)`. */
  function RunRow(t: Token): nat
    requires IsNumber(t) && OfKind(t.text, DigitRun)
  {
    assert AllDigits(t.text) by {
      assert forall i :: 0 <= i < |t.text| ==> KindOf(t.text[i]) == Some(DigitRun);
    }
    DigitsValue(t.text)
  }

  const NoRange := A1Range(None, None, None, None)

  /** The result for the runs of the range text with the spaces removed. */
  function RangeOfTokens(ts: seq<Token>): (r: A1Range)
    requires WellKinded(ts)
  {
    if |ts| == 5 && IsLetters(ts[0]) && IsNumber(ts[1]) && ts[2] == Colon && IsLetters(ts[3]) && IsNumber(ts[4]) then
      A1Range(Some(RunRow(ts[1])), Some(RunRow(ts[4])), Some(RunColumn(ts[0])), Some(RunColumn(ts[3])))
    else if |ts| == 3 && IsLetters(ts[0]) && ts[1] == Colon && IsLetters(ts[2]) then
      A1Range(None, None, Some(RunColumn(ts[0])), Some(RunColumn(ts[2])))
    else if |ts| == 3 && IsNumber(ts[0]) && ts[1] == Colon && IsNumber(ts[2]) then
      A1Range(Some(RunRow(ts[0])), Some(RunRow(ts[2])), None, None)
    else if |ts| == 2 && IsLetters(ts[0]) && IsNumber(ts[1]) then
      A1Range(Some(RunRow(ts[1])), Some(RunRow(ts[1])), Some(RunColumn(ts[0])), Some(RunColumn(ts[0])))
    else NoRange
  }

  /**
   * `_parse_a1_range(a1)`: rows come as a pair or not at all, columns too, and
   * every column given is at least 1.
   */
  function ParseA1(a1: string): (r: A1Range)
    ensures r.rowStart.Some? <==> r.rowEnd.Some?
    ensures r.colStart.Some? <==> r.colEnd.Some?
    ensures r.colStart.Some? ==> r.colStart.value >= 1 && r.colEnd.value >= 1
  {
    var ts := Lex(Replace(a1, " ", ""));
    LexKinds(Replace(a1, " ", ""));
    RangeOfTokens(ts)
  }

  /** A run holds no space. */
  lemma RunNoSpace(p: string, k: Kind)
    requires OfKind(p, k)
    ensures ' ' !in p
  {
    assert forall i :: 0 <= i < |p| ==> KindOf(p[i]).Some?;
  }

  /** Text with no space is read as it is. */
  lemma NoSpaces(s: string)
    requires ' ' !in s
    ensures Lex(Replace(s, " ", "")) == Lex(s)
  {
    ReplaceAbsent(s, " ", "");
  }

  lemma NumberDigits(n: nat)
    ensures OfKind(NatToString(n), DigitRun) && KindOf(NatToString(n)[0]) == Some(DigitRun)
  {
    var s := NatToString(n);
    assert forall i :: 0 <= i < |s| ==> IsDigit(s[i]);
  }

  lemma LettersLetters(c: nat)
    requires c >= 1
    ensures OfKind(ColumnLetters(c), LetterRun) && KindOf(ColumnLetters(c)[0]) == Some(LetterRun)
  {
    var s := ColumnLetters(c);
    assert forall i :: 0 <= i < |s| ==> IsUpperLetter(s[i]);
  }

  /** "A2:G20" style: a cell-to-cell range gives both rows and both columns. */
  lemma ParseCellRange(c1: nat, r1: nat, c2: nat, r2: nat)
    requires c1 >= 1 && c2 >= 1
    ensures ParseA1(ColumnLetters(c1) + NatToString(r1) + ":" + ColumnLetters(c2) + NatToString(r2)) ==
      A1Range(Some(r1), Some(r2), Some(c1), Some(c2))
  {
    RunColumnOfLetters(c1); RunColumnOfLetters(c2); RunRowOfNumber(r1); RunRowOfNumber(r2);
    CellRangeOfRuns(ColumnLetters(c1), NatToString(r1), ColumnLetters(c2), NatToString(r2));
  }

  /** The parse is decided by the runs of the text without spaces. */
  lemma ParseByTokens(a1: string, ts: seq<Token>)
    requires Lex(Replace(a1, " ", "")) == ts
    ensures WellKinded(ts) && ParseA1(a1) == RangeOfTokens(ts)
  {
    LexKinds(Replace(a1, " ", ""));
  }

  /** Letters, digits, a colon, letters and digits: a cell-to-cell range. */
  lemma CellRangeOfRuns(l1: string, d1: string, l2: string, d2: string)
    requires OfKind(l1, LetterRun) && OfKind(d1, DigitRun) && OfKind(l2, LetterRun) && OfKind(d2, DigitRun)
    ensures ParseA1(l1 + d1 + ":" + l2 + d2) ==
      A1Range(Some(RunRow(Run(DigitRun, d1))), Some(RunRow(Run(DigitRun, d2))),
              Some(RunColumn(Run(LetterRun, l1))), Some(RunColumn(Run(LetterRun, l2))))
  {
    var ts := [Run(LetterRun, l1), Run(DigitRun, d1), Colon, Run(LetterRun, l2), Run(DigitRun, d2)];
    LexCellRange(l1, d1, l2, d2);
    ParseByTokens(l1 + d1 + ":" + l2 + d2, ts);
    CellTokensRange(l1, d1, l2, d2);
  }

  lemma CellTokensRange(l1: string, d1: string, l2: string, d2: string)
    requires OfKind(l1, LetterRun) && OfKind(d1, DigitRun) && OfKind(l2, LetterRun) && OfKind(d2, DigitRun)
    ensures RangeOfTokens([Run(LetterRun, l1), Run(DigitRun, d1), Colon, Run(LetterRun, l2), Run(DigitRun, d2)]) ==
      A1Range(Some(RunRow(Run(DigitRun, d1))), Some(RunRow(Run(DigitRun, d2))),
              Some(RunColumn(Run(LetterRun, l1))), Some(RunColumn(Run(LetterRun, l2))))
  {
  }

  lemma LexCellRange(l1: string, d1: string, l2: string, d2: string)
    requires OfKind(l1, LetterRun) && OfKind(d1, DigitRun) && OfKind(l2, LetterRun) && OfKind(d2, DigitRun)
    ensures Lex(Replace(l1 + d1 + ":" + l2 + d2, " ", "")) ==
      [Run(LetterRun, l1), Run(DigitRun, d1), Colon, Run(LetterRun, l2), Run(DigitRun, d2)]
  {
    var t := d1 + (":" + (l2 + d2));
    CellRangeSpaceless(l1, d1, l2, d2);
    LexRowTail(d1, l2, d2);
    assert t[0] == d1[0];
    LexRun(LetterRun, l1, t);
    Listed5(Run(LetterRun, l1), Run(DigitRun, d1), Colon, Run(LetterRun, l2), Run(DigitRun, d2));
  }

  /** Removing spaces from a cell range built of runs changes nothing. */
  lemma CellRangeSpaceless(l1: string, d1: string, l2: string, d2: string)
    requires OfKind(l1, LetterRun) && OfKind(d1, DigitRun) && OfKind(l2, LetterRun) && OfKind(d2, DigitRun)
    ensures Lex(Replace(l1 + d1 + ":" + l2 + d2, " ", "")) == Lex(l1 + (d1 + (":" + (l2 + d2))))
  {
    var s := l1 + d1 + ":" + l2 + d2;
    assert s == l1 + (d1 + (":" + (l2 + d2)));
    RunNoSpace(l1, LetterRun); RunNoSpace(d1, DigitRun); RunNoSpace(l2, LetterRun); RunNoSpace(d2, DigitRun);
    assert ' ' !in s;
    NoSpaces(s);
  }

  /** The runs after the first letters of a cell-to-cell range. */
  lemma LexRowTail(d1: string, l2: string, d2: string)
    requires OfKind(d1, DigitRun) && OfKind(l2, LetterRun) && OfKind(d2, DigitRun)
    ensures Lex(d1 + (":" + (l2 + d2))) == [Run(DigitRun, d1)] + ([Colon] + [Run(LetterRun, l2), Run(DigitRun, d2)])
  {
    LexColonTail(l2, d2);
    LexRun(DigitRun, d1, ":" + (l2 + d2));
  }

  lemma LexColonTail(l2: string, d2: string)
    requires OfKind(l2, LetterRun) && OfKind(d2, DigitRun)
    ensures Lex(":" + (l2 + d2)) == [Colon] + [Run(LetterRun, l2), Run(DigitRun, d2)]
  {
    LexLast(DigitRun, d2);
    LexRun(LetterRun, l2, d2);
    LexColon(l2 + d2);
  }

  lemma Listed3(a: Token, b: Token, c: Token)
    ensures [a] + ([b] + [c]) == [a, b, c]
  {
  }

  lemma Listed5(a: Token, b: Token, c: Token, d: Token, e: Token)
    ensures [a] + ([b] + ([c] + [d, e])) == [a, b, c, d, e]
  {
  }

  /** "A:G" style: whole columns, no rows. */
  lemma ParseColumnRange(c1: nat, c2: nat)
    requires c1 >= 1 && c2 >= 1
    ensures ParseA1(ColumnLetters(c1) + ":" + ColumnLetters(c2)) == A1Range(None, None, Some(c1), Some(c2))
  {
    var l1, l2 := ColumnLetters(c1), ColumnLetters(c2);
    var ts := [Run(LetterRun, l1), Colon, Run(LetterRun, l2)];
    LexColumnRange(l1, l2, c1, c2);
    ParseByTokens(l1 + ":" + l2, ts);
    RunColumnOfLetters(c1); RunColumnOfLetters(c2);
    ColumnTokensRange(l1, l2);
  }

  lemma ColumnTokensRange(l1: string, l2: string)
    requires OfKind(l1, LetterRun) && OfKind(l2, LetterRun)
    ensures RangeOfTokens([Run(LetterRun, l1), Colon, Run(LetterRun, l2)]) ==
      A1Range(None, None, Some(RunColumn(Run(LetterRun, l1))), Some(RunColumn(Run(LetterRun, l2))))
  {
  }

  lemma LexColumnRange(l1: string, l2: string, c1: nat, c2: nat)
    requires c1 >= 1 && c2 >= 1 && l1 == ColumnLetters(c1) && l2 == ColumnLetters(c2)
    ensures Lex(Replace(l1 + ":" + l2, " ", "")) == [Run(LetterRun, l1), Colon, Run(LetterRun, l2)]
  {
    var t := ":" + l2;
    ColumnRangeSpaceless(l1, l2, c1, c2);
    LexLast(LetterRun, l2);
    LexColon(l2);
    assert t[0] == ':' && KindOf(':') == None;
    LexRun(LetterRun, l1, t);
    Listed3(Run(LetterRun, l1), Colon, Run(LetterRun, l2));
  }

  /** Removing spaces from a range of two column names changes nothing. */
  lemma ColumnRangeSpaceless(l1: string, l2: string, c1: nat, c2: nat)
    requires c1 >= 1 && c2 >= 1 && l1 == ColumnLetters(c1) && l2 == ColumnLetters(c2)
    ensures OfKind(l1, LetterRun) && OfKind(l2, LetterRun)
    ensures Lex(Replace(l1 + ":" + l2, " ", "")) == Lex(l1 + (":" + l2))
  {
    var s := l1 + ":" + l2;
    LettersLetters(c1); LettersLetters(c2);
    assert s == l1 + (":" + l2);
    NoSpaces(s);
  }

  /** "2:100" style: whole rows, no columns. */
  lemma ParseRowRange(r1: nat, r2: nat)
    ensures ParseA1(NatToString(r1) + ":" + NatToString(r2)) == A1Range(Some(r1), Some(r2), None, None)
  {
    var d1, d2 := NatToString(r1), NatToString(r2);
    var ts := [Run(DigitRun, d1), Colon, Run(DigitRun, d2)];
    LexRowRange(d1, d2, r1, r2);
    ParseByTokens(d1 + ":" + d2, ts);
    RunRowOfNumber(r1); RunRowOfNumber(r2);
    RowTokensRange(d1, d2);
  }

  lemma RowTokensRange(d1: string, d2: string)
    requires OfKind(d1, DigitRun) && OfKind(d2, DigitRun)
    ensures RangeOfTokens([Run(DigitRun, d1), Colon, Run(DigitRun, d2)]) ==
      A1Range(Some(RunRow(Run(DigitRun, d1))), Some(RunRow(Run(DigitRun, d2))), None, None)
  {
  }

  lemma LexRowRange(d1: string, d2: string, r1: nat, r2: nat)
    requires d1 == NatToString(r1) && d2 == NatToString(r2)
    ensures Lex(Replace(d1 + ":" + d2, " ", "")) == [Run(DigitRun, d1), Colon, Run(DigitRun, d2)]
  {
    var t := ":" + d2;
    RowRangeSpaceless(d1, d2, r1, r2);
    LexLast(DigitRun, d2);
    LexColon(d2);
    assert t[0] == ':' && KindOf(':') == None;
    LexRun(DigitRun, d1, t);
    Listed3(Run(DigitRun, d1), Colon, Run(DigitRun, d2));
  }

  /** Removing spaces from a range of two row numbers changes nothing. */
  lemma RowRangeSpaceless(d1: string, d2: string, r1: nat, r2: nat)
    requires d1 == NatToString(r1) && d2 == NatToString(r2)
    ensures OfKind(d1, DigitRun) && OfKind(d2, DigitRun)
    ensures Lex(Replace(d1 + ":" + d2, " ", "")) == Lex(d1 + (":" + d2))
  {
    var s := d1 + ":" + d2;
    NumberDigits(r1); NumberDigits(r2);
    assert s == d1 + (":" + d2);
    NoSpaces(s);
  }

  /** "A1" style: one cell is a range of one row and one column. */
  lemma ParseSingleCell(c: nat, r: nat)
    requires c >= 1
    ensures ParseA1(ColumnLetters(c) + NatToString(r)) == A1Range(Some(r), Some(r), Some(c), Some(c))
  {
    var l, d := ColumnLetters(c), NatToString(r);
    var ts := [Run(LetterRun, l), Run(DigitRun, d)];
    assert Lex(Replace(l + d, " ", "")) == ts by {
      LettersLetters(c); NumberDigits(r);
      NoSpaces(l + d);
      LexLast(DigitRun, d);
      LexRun(LetterRun, l, d);
    }
    ParseByTokens(l + d, ts);
    RunColumnOfLetters(c); RunRowOfNumber(r);
    SingleTokensRange(l, d);
  }

  lemma SingleTokensRange(l: string, d: string)
    requires OfKind(l, LetterRun) && OfKind(d, DigitRun)
    ensures RangeOfTokens([Run(LetterRun, l), Run(DigitRun, d)]) ==
      A1Range(Some(RunRow(Run(DigitRun, d))), Some(RunRow(Run(DigitRun, d))),
              Some(RunColumn(Run(LetterRun, l))), Some(RunColumn(Run(LetterRun, l))))
  {
  }

  /** A run that fills the string is one token. */
  lemma LexLast(k: Kind, a: string)
    requires OfKind(a, k)
    ensures Lex(a) == [Run(k, a)]
  {
    LexRun(k, a, []);
    assert a + [] == a;
  }

  /** A character that is no letter, digit or colon stays a token of its own. */
  lemma {:induction false} LexOther(s: string, i: int)
    requires 0 <= i < |s| && KindOf(s[i]).None? && s[i] != ':'
    ensures Other(s[i]) in Lex(s)
    decreases |s|
  {
    var rest := Lex(s[1..]);
    if i > 0 {
      assert s[1..][i - 1] == s[i];
      LexOther(s[1..], i - 1);
      var j :| 0 <= j < |rest| && rest[j] == Other(s[i]);
      if KindOf(s[0]).Some? {
        var k := KindOf(s[0]).value;
        if rest != [] && rest[0].Run? && rest[0].kind == k {
          assert Lex(s) == [Run(k, [s[0]] + rest[0].text)] + rest[1..];
          assert Lex(s)[j] == rest[j];
        } else {
          assert Lex(s) == [Run(k, [s[0]])] + rest;
          assert Lex(s)[j + 1] == rest[j];
        }
      } else {
        assert Lex(s) == [if s[0] == ':' then Colon else Other(s[0])] + rest;
        assert Lex(s)[j + 1] == rest[j];
      }
    }
  }

  /** Anything else in the text (a second colon aside) makes the range unrecognised: all None. */
  lemma UnrecognisedCharacter(a1: string, i: int)
    requires var t := Replace(a1, " ", ""); 0 <= i < |t| && !IsLetter(t[i]) && !IsDigit(t[i]) && t[i] != ':'
    ensures ParseA1(a1) == NoRange
  {
    var t := Replace(a1, " ", "");
    LexOther(t, i);
    var ts := Lex(t);
    ParseByTokens(a1, ts);
    var j :| 0 <= j < |ts| && ts[j] == Other(t[i]);
    OtherMatchesNothing(ts, j);
  }

  /** Every pattern is made of runs and colons only. */
  lemma OtherMatchesNothing(ts: seq<Token>, j: int)
    requires WellKinded(ts) && 0 <= j < |ts| && ts[j].Other?
    ensures RangeOfTokens(ts) == NoRange
  {
  }

  /** Spaces anywhere are dropped before matching. */
  lemma SpacesIgnored(a: string, b: string)
    ensures ParseA1(a + " " + b) == ParseA1(a + b)
  {
    ReplaceCharAppend(a, " " + b);
    ReplaceCharAppend(" ", b);
    ReplaceCharAppend(a, b);
    assert a + " " + b == a + (" " + b);
    assert Replace(" ", " ", "") == "";
    assert Replace(a + " " + b, " ", "") == Replace(a + b, " ", "");
  }

  /** Removing a one-character pattern works piece by piece. */
  lemma {:induction false} ReplaceCharAppend(s: string, t: string)
    ensures Replace(s + t, " ", "") == Replace(s, " ", "") + Replace(t, " ", "")
    decreases |s|
  {
    if s != [] {
      var u := s + t;
      assert u[1..] == s[1..] + t;
      assert u[..1] == s[..1];
      ReplaceCharAppend(s[1..], t);
    } else {
      assert s + t == t;
    }
  }

  // ---------------------------------------------------------------------------
  // Header slice, row width, output file
  // ---------------------------------------------------------------------------

  function Max(a: int, b: int): int { if a >= b then a else b }

  function Min(a: int, b: int): int { if a <= b then a else b }

  /**
   * `_slice_headers_for_range` on row 1 `headers`: nothing for an empty row,
   * the whole row without both bounds, else the headers of columns
   * `colStart` to `colEnd` that exist.
   */
  function SliceHeaders(headers: seq<string>, colStart: Option<int>, colEnd: Option<int>): (r: seq<string>)
    ensures headers == [] ==> r == []
    ensures colStart.None? || colEnd.None? ==> r == headers
    ensures colStart.Some? && colEnd.Some? ==>
      var lo := Max(0, colStart.value - 1);
      |r| == Max(0, Min(|headers|, Max(lo, colEnd.value)) - lo) &&
      forall k :: 0 <= k < |r| ==> r[k] == headers[lo + k]
  {
    if headers == [] then []
    else if colStart.None? || colEnd.None? then headers
    else
      var lo := Max(0, colStart.value - 1);
      var hi := Min(|headers|, Max(lo, colEnd.value));
      if lo >= hi then [] else headers[lo..hi]
  }

  /** A cell as `str(x) if x is not None else ""`. */
  function Shown(v: Option<string>): string {
    match v
    case Some(s) => s
    case None => ""
  }

  function ShowAll(row: seq<Option<string>>): (r: seq<string>)
    ensures |r| == |row| && forall i :: 0 <= i < |row| ==> r[i] == Shown(row[i])
  {
    if row == [] then [] else [Shown(row[0])] + ShowAll(row[1..])
  }

  /** `_normalize_row_len(row, size)`: exactly `size` cells, the row's own first, then "". */
  method NormalizeRowLen(row: seq<Option<string>>, size: nat) returns (r: seq<string>)
    ensures |r| == size
    ensures forall i :: 0 <= i < size ==> r[i] == if i < |row| then Shown(row[i]) else ""
  {
    r := ShowAll(row);
    if |r| < size {
      r := r + Blanks(size - |r|);
    } else if |r| > size {
      r := r[..size];
    }
  }

  /** A file path as its directory, stem and suffix. */
  datatype Path = Path(parent: string, stem: string, suffix: string)

  /** `parent / f"{stem}_{i}{suffix}"`. */
  function Numbered(p: Path, i: nat): Path {
    Path(p.parent, p.stem + "_" + NatToString(i), p.suffix)
  }

  lemma NumberedInjective(p: Path, i: nat, j: nat)
    requires Numbered(p, i) == Numbered(p, j)
    ensures i == j
  {
    var a := p.stem + "_";
    assert (a + NatToString(i))[|a|..] == NatToString(i);
    assert (a + NatToString(j))[|a|..] == NatToString(j);
    NatToStringInjective(i, j);
  }

  /** The first `n` numbered candidates are `n` different paths. */
  lemma {:induction false} NumberedCount(p: Path, n: nat)
    ensures |set j | 1 <= j <= n :: Numbered(p, j)| == n
  {
    if n > 0 {
      var below := set j | 1 <= j <= n - 1 :: Numbered(p, j);
      NumberedCount(p, n - 1);
      NumberedSplit(p, n);
      if Numbered(p, n) in below {
        var j :| 1 <= j <= n - 1 && Numbered(p, j) == Numbered(p, n);
        NumberedInjective(p, j, n);
      }
    }
  }

  lemma NumberedSplit(p: Path, n: nat)
    requires n > 0
    ensures (set j | 1 <= j <= n :: Numbered(p, j)) == (set j | 1 <= j <= n - 1 :: Numbered(p, j)) + {Numbered(p, n)}
  {
  }

  /** At most as many numbered candidates can exist as there are existing paths. */
  lemma TakenBound(p: Path, n: nat, existing: set<Path>)
    requires forall j :: 1 <= j <= n ==> Numbered(p, j) in existing
    ensures n <= |existing|
  {
    NumberedCount(p, n);
    var taken := set j | 1 <= j <= n :: Numbered(p, j);
    assert taken <= existing;
    SubsetCard(taken, existing);
  }

  lemma SubsetCard<T>(a: set<T>, b: set<T>)
    requires a <= b
    ensures |a| <= |b|
  {
    assert b == a + (b - a);
  }

  /**
   * `_unique_path(p)` against the finite set of paths that exist: `p` itself
   * when free, else the numbered candidate with the smallest free number.
   */
  method UniquePath(p: Path, existing: set<Path>) returns (q: Path)
    ensures q !in existing
    ensures p !in existing ==> q == p
    ensures p in existing ==>
      exists i :: i >= 1 && q == Numbered(p, i) && (forall j :: 1 <= j < i ==> Numbered(p, j) in existing)
  {
    if p !in existing {
      return p;
    }
    var i := 1;
    while true
      invariant i >= 1
      invariant forall j :: 1 <= j < i ==> Numbered(p, j) in existing
      decreases |existing| + 1 - i
    {
      var candidate := Numbered(p, i);
      if candidate !in existing {
        return candidate;
      }
      TakenBound(p, i, existing);
      i := i + 1;
    }
  }
}
