/**
 * The handful of Python string operations the core relies on: `strip`,
 * `lower`/`upper`, `split(",")`, `replace`, `find`, `in`, and decimal
 * formatting and parsing of non-negative integers. Whitespace and letter case
 * are ASCII only (see README, "Left out").
 */
module Text {

  import opened Wrappers

  /**
   * The characters Python's `str.strip()` removes that are ASCII: space, tab,
   * newline, vertical tab, form feed, carriage return (0x09 to 0x0D) and the
   * four separators 0x1C to 0x1F.
   */
  predicate IsSpace(c: char) {
    c == ' ' || '\t' <= c <= '\r' || '\U{001C}' <= c <= '\U{001F}'
  }

  predicate IsDigit(c: char) { '0' <= c <= '9' }

  predicate IsLetter(c: char) { 'a' <= c <= 'z' || 'A' <= c <= 'Z' }

  predicate IsBlank(s: string) { forall i :: 0 <= i < |s| ==> IsSpace(s[i]) }

  predicate AllDigits(s: string) { forall i :: 0 <= i < |s| ==> IsDigit(s[i]) }

  predicate AllLetters(s: string) { forall i :: 0 <= i < |s| ==> IsLetter(s[i]) }

  /** The first index at or after `i` that is not white space. */
  function SkipSpaces(s: string, i: nat): (r: nat)
    requires i <= |s|
    ensures i <= r <= |s|
    ensures r < |s| ==> !IsSpace(s[r])
    decreases |s| - i
  {
    if i < |s| && IsSpace(s[i]) then SkipSpaces(s, i + 1) else i
  }

  /** Everything skipped is white space. */
  lemma {:induction false} SkipSpacesBlank(s: string, i: nat)
    requires i <= |s|
    ensures forall j :: i <= j < SkipSpaces(s, i) ==> IsSpace(s[j])
    decreases |s| - i
  {
    if i < |s| && IsSpace(s[i]) {
      SkipSpacesBlank(s, i + 1);
    }
  }

  /** The end of `s[lo..j]` once trailing white space is dropped. */
  function DropSpaces(s: string, lo: nat, j: nat): (r: nat)
    requires lo <= j <= |s|
    ensures lo <= r <= j
    ensures r > lo ==> !IsSpace(s[r - 1])
  {
    if j > lo && IsSpace(s[j - 1]) then DropSpaces(s, lo, j - 1) else j
  }

  /** Everything dropped is white space. */
  lemma {:induction false} DropSpacesBlank(s: string, lo: nat, j: nat)
    requires lo <= j <= |s|
    ensures forall t :: DropSpaces(s, lo, j) <= t < j ==> IsSpace(s[t])
  {
    if j > lo && IsSpace(s[j - 1]) {
      DropSpacesBlank(s, lo, j - 1);
    }
  }

  /** Python's `s.strip()`. */
  function Trim(s: string): (r: string)
    ensures |r| <= |s|
    ensures r == [] || (!IsSpace(r[0]) && !IsSpace(r[|r| - 1]))
  {
    var lo := SkipSpaces(s, 0);
    s[lo..DropSpaces(s, lo, |s|)]
  }

  /** Trimming only removes characters. */
  lemma TrimChars(s: string)
    ensures forall c :: c in Trim(s) ==> c in s
  {
    var lo := SkipSpaces(s, 0);
    var hi := DropSpaces(s, lo, |s|);
    forall c | c in Trim(s) ensures c in s {
      var t :| 0 <= t < |Trim(s)| && Trim(s)[t] == c;
      assert s[lo + t] == c;
    }
  }

  /** The trim is empty exactly when the string is blank. */
  lemma TrimEmptyIff(s: string)
    ensures Trim(s) == [] <==> IsBlank(s)
  {
    var lo := SkipSpaces(s, 0);
    var hi := DropSpaces(s, lo, |s|);
    SkipSpacesBlank(s, 0);
    DropSpacesBlank(s, lo, |s|);
    if IsBlank(s) {
      assert lo == |s|;
    }
  }

  /** A string with no surrounding white space is its own trim. */
  lemma TrimOfTrimmed(s: string)
    requires s == [] || (!IsSpace(s[0]) && !IsSpace(s[|s| - 1]))
    ensures Trim(s) == s
  {
  }

  lemma TrimIdempotent(s: string)
    ensures Trim(Trim(s)) == Trim(s)
  {
    TrimOfTrimmed(Trim(s));
  }

  function LowerChar(c: char): char {
    if 'A' <= c <= 'Z' then (c as int + 32) as char else c
  }

  function UpperChar(c: char): char {
    if 'a' <= c <= 'z' then (c as int - 32) as char else c
  }

  /** Python's `s.lower()` on ASCII letters. */
  function Lower(s: string): (r: string)
    ensures |r| == |s|
  {
    if s == [] then [] else [LowerChar(s[0])] + Lower(s[1..])
  }

  /** Each character is lower-cased in place. */
  lemma {:induction false} LowerAt(s: string, i: int)
    requires 0 <= i < |s|
    ensures Lower(s)[i] == LowerChar(s[i])
  {
    if i > 0 {
      LowerAt(s[1..], i - 1);
    }
  }

  lemma LowerEach(s: string)
    ensures forall i :: 0 <= i < |s| ==> Lower(s)[i] == LowerChar(s[i])
  {
    forall i | 0 <= i < |s| ensures Lower(s)[i] == LowerChar(s[i]) {
      LowerAt(s, i);
    }
  }

  /** Python's `s.upper()` on ASCII letters. */
  function Upper(s: string): (r: string)
    ensures |r| == |s|
    ensures forall i :: 0 <= i < |s| ==> r[i] == UpperChar(s[i])
  {
    seq(|s|, i requires 0 <= i < |s| => UpperChar(s[i]))
  }

  lemma LowerIdempotent(s: string)
    ensures Lower(Lower(s)) == Lower(s)
  {
    LowerEach(s);
    LowerEach(Lower(s));
  }

  lemma LowerOfTrimmedIsTrimmed(s: string)
    ensures Trim(Lower(Trim(s))) == Lower(Trim(s))
  {
    var t := Trim(s);
    var l := Lower(t);
    if t != [] {
      LowerAt(t, 0);
      LowerAt(t, |t| - 1);
    }
    TrimOfTrimmed(l);
  }

  /** Upper-casing keeps white space where it is, so it commutes with `strip`. */
  lemma TrimUpper(s: string)
    ensures Trim(Upper(s)) == Upper(Trim(s))
  {
    var lo := SkipSpaces(s, 0);
    var hi := DropSpaces(s, lo, |s|);
    SkipSpacesUpper(s, 0);
    DropSpacesUpper(s, lo, |s|);
    assert Trim(Upper(s)) == Upper(s)[lo..hi];
    UpperSlice(s, lo, hi);
  }

  lemma UpperSlice(s: string, lo: nat, hi: nat)
    requires lo <= hi <= |s|
    ensures Upper(s)[lo..hi] == Upper(s[lo..hi])
  {
    var a := Upper(s)[lo..hi];
    var b := Upper(s[lo..hi]);
    forall i | 0 <= i < |a| ensures a[i] == b[i] {
      assert a[i] == UpperChar(s[lo + i]);
    }
  }

  lemma UpperCharSpace(c: char)
    ensures IsSpace(UpperChar(c)) <==> IsSpace(c)
  {
  }

  lemma {:induction false} SkipSpacesUpper(s: string, i: nat)
    requires i <= |s|
    ensures SkipSpaces(Upper(s), i) == SkipSpaces(s, i)
    decreases |s| - i
  {
    if i < |s| {
      assert Upper(s)[i] == UpperChar(s[i]);
      UpperCharSpace(s[i]);
      SkipSpacesUpper(s, i + 1);
    }
  }

  lemma {:induction false} DropSpacesUpper(s: string, lo: nat, j: nat)
    requires lo <= j <= |s|
    ensures DropSpaces(Upper(s), lo, j) == DropSpaces(s, lo, j)
  {
    if j > lo {
      assert Upper(s)[j - 1] == UpperChar(s[j - 1]);
      UpperCharSpace(s[j - 1]);
      DropSpacesUpper(s, lo, j - 1);
    }
  }

  /** `(field or "").strip().lower()`: the normal form of a column name. */
  function Norm(s: string): string { Lower(Trim(s)) }

  lemma NormIdempotent(s: string)
    ensures Norm(Norm(s)) == Norm(s)
  {
    LowerOfTrimmedIsTrimmed(s);
    LowerIdempotent(Trim(s));
  }

  /** A name with no white space and no upper-case letter is its own normal form. */
  lemma NormOfPlain(s: string)
    requires forall i :: 0 <= i < |s| ==> !IsSpace(s[i]) && !('A' <= s[i] <= 'Z')
    ensures Trim(s) == s && Lower(s) == s && Norm(s) == s
  {
    TrimOfTrimmed(s);
    LowerEach(s);
    assert Lower(s) == s;
  }

  /** Python's `s.find(c)`: the first index of `c`, or -1. */
  function Find(s: string, c: char): (i: int)
    ensures -1 <= i < |s|
    ensures i == -1 <==> c !in s
    ensures i >= 0 ==> s[i] == c && c !in s[..i]
  {
    if |s| == 0 then -1
    else if s[0] == c then 0
    else
      var j := Find(s[1..], c);
      assert s[1..] == s[1..];
      if j == -1 then -1
      else
        assert s[..j + 1] == [s[0]] + s[1..][..j];
        j + 1
  }

  /** Python's `s.split(sep)` for a one-character separator. */
  function Split(s: string, sep: char): (parts: seq<string>)
    ensures |parts| >= 1
    ensures forall p :: p in parts ==> sep !in p
    decreases |s|
  {
    if sep !in s then [s]
    else
      var i := Find(s, sep);
      [s[..i]] + Split(s[i + 1..], sep)
  }

  /** Python's `sep.join(parts)`. */
  function Join(parts: seq<string>, sep: char): string
    requires |parts| >= 1
  {
    if |parts| == 1 then parts[0] else parts[0] + [sep] + Join(parts[1..], sep)
  }

  lemma JoinCons(x: string, tail: seq<string>, sep: char)
    requires |tail| >= 1
    ensures Join([x] + tail, sep) == x + [sep] + Join(tail, sep)
  {
    assert ([x] + tail)[1..] == tail;
  }

  lemma {:induction false} JoinSplit(s: string, sep: char)
    ensures Join(Split(s, sep), sep) == s
    decreases |s|
  {
    if sep in s {
      var i := Find(s, sep);
      var head, rest := s[..i], s[i + 1..];
      SplitAtFirst(s, sep);
      JoinCons(head, Split(rest, sep), sep);
      JoinSplit(rest, sep);
      AroundIndex(s, i);
    }
  }

  /** Splitting a text holding the separator cuts off the part before its first occurrence. */
  lemma SplitAtFirst(s: string, sep: char)
    requires sep in s
    ensures Split(s, sep) == [s[..Find(s, sep)]] + Split(s[Find(s, sep) + 1..], sep)
  {
  }

  lemma AroundIndex<T>(s: seq<T>, i: int)
    requires 0 <= i < |s|
    ensures s == s[..i] + [s[i]] + s[i + 1..]
  {
  }

  lemma LastSplit<T>(s: seq<T>)
    requires s != []
    ensures s == s[..|s| - 1] + [s[|s| - 1]]
  {
  }

  lemma {:induction false} SplitJoin(parts: seq<string>, sep: char)
    requires |parts| >= 1
    requires forall p :: p in parts ==> sep !in p
    ensures Split(Join(parts, sep), sep) == parts
    decreases |parts|
  {
    if |parts| > 1 {
      var s := Join(parts, sep);
      var head, rest := parts[0], Join(parts[1..], sep);
      assert head in parts;
      assert s == head + [sep] + rest;
      FindAfter(head, rest, sep);
      SplitAtFirst(s, sep);
      assert s[..|head|] == head && s[|head| + 1..] == rest;
      SplitJoin(parts[1..], sep);
      assert [head] + parts[1..] == parts;
    }
  }

  /** The first separator of `head + [sep] + rest` is the one after `head`. */
  lemma FindAfter(head: string, rest: string, sep: char)
    requires sep !in head
    ensures sep in head + [sep] + rest && Find(head + [sep] + rest, sep) == |head|
  {
    var s := head + [sep] + rest;
    assert s[|head|] == sep;
    assert s[..|head|] == head;
    var i := Find(s, sep);
    assert forall j :: 0 <= j < |head| ==> s[j] == head[j];
  }

  /** `[e.strip() for e in parts if e.strip()]`. */
  function TrimmedNonBlank(parts: seq<string>): (r: seq<string>)
    ensures |r| <= |parts|
    ensures forall x :: x in r ==> x != "" && Trim(x) == x
  {
    if parts == [] then []
    else
      var rest := TrimmedNonBlank(parts[1..]);
      var t := Trim(parts[0]);
      TrimIdempotent(parts[0]);
      if t != "" then
        assert forall x :: x in [t] + rest ==> x == t || x in rest;
        [t] + rest
      else rest
  }

  /** A character absent from every piece is absent from every trimmed piece. */
  lemma {:induction false} TrimmedNonBlankAvoids(parts: seq<string>, c: char)
    requires forall p :: p in parts ==> c !in p
    ensures forall x :: x in TrimmedNonBlank(parts) ==> c !in x
  {
    if parts != [] {
      assert parts[0] in parts;
      assert forall p :: p in parts[1..] ==> p in parts;
      TrimmedNonBlankAvoids(parts[1..], c);
      TrimChars(parts[0]);
    }
  }

  /**
   * `[e.strip() for e in s.split(",") if e.strip()]`: the comma-separated
   * address lists of EMAIL_TO, cc, bcc and IMMUTABLE_COLS.
   */
  function CommaList(s: string): (r: seq<string>)
    ensures forall x :: x in r ==> x != "" && Trim(x) == x && ',' !in x
  {
    TrimmedNonBlankAvoids(Split(s, ','), ',');
    TrimmedNonBlank(Split(s, ','))
  }

  lemma {:induction false} TrimmedNonBlankOfTrimmed(items: seq<string>)
    requires forall x :: x in items ==> x != "" && Trim(x) == x
    ensures TrimmedNonBlank(items) == items
  {
    if items != [] {
      assert items[0] in items;
      assert forall x :: x in items[1..] ==> x in items;
      TrimmedNonBlankOfTrimmed(items[1..]);
    }
  }

  /** Joining non-blank, trimmed, comma-free addresses with "," and splitting again gives them back. */
  lemma CommaListJoin(items: seq<string>)
    requires |items| >= 1
    requires forall x :: x in items ==> x != "" && Trim(x) == x && ',' !in x
    ensures CommaList(Join(items, ',')) == items
  {
    SplitJoin(items, ',');
    TrimmedNonBlankOfTrimmed(items);
  }

  /** Python's `s.startswith(p)`. */
  predicate StartsWith(s: string, p: string) { |p| <= |s| && s[..|p|] == p }

  /** `q` occurs in `t` starting at index `i`. */
  predicate OccursAt(q: string, t: string, i: int) {
    0 <= i <= |t| - |q| && t[i..i + |q|] == q
  }

  /** Python's `q in t` for strings. */
  predicate IsSubstring(q: string, t: string)
    decreases |t|
  {
    StartsWith(t, q) || (|t| > 0 && IsSubstring(q, t[1..]))
  }

  lemma {:induction false} IsSubstringAt(q: string, t: string)
    ensures IsSubstring(q, t) <==> exists i :: OccursAt(q, t, i)
    decreases |t|
  {
    if StartsWith(t, q) {
      assert OccursAt(q, t, 0);
    } else if |t| > 0 {
      IsSubstringAt(q, t[1..]);
      if IsSubstring(q, t[1..]) {
        var i :| OccursAt(q, t[1..], i);
        assert t[i + 1..i + 1 + |q|] == t[1..][i..i + |q|];
        assert OccursAt(q, t, i + 1);
      }
      if exists i :: OccursAt(q, t, i) {
        var i :| OccursAt(q, t, i);
        assert i != 0;
        assert t[1..][i - 1..i - 1 + |q|] == t[i..i + |q|];
        assert OccursAt(q, t[1..], i - 1);
      }
    } else {
      assert forall i :: !OccursAt(q, t, i);
    }
  }

  /** Python's `s.replace(pat, rep)`: every non-overlapping match, left to right. */
  function Replace(s: string, pat: string, rep: string): string
    requires pat != []
    decreases |s|
  {
    if |s| < |pat| then s
    else if s[..|pat|] == pat then rep + Replace(s[|pat|..], pat, rep)
    else [s[0]] + Replace(s[1..], pat, rep)
  }

  /** A string without the first character of the pattern is left alone. */
  lemma {:induction false} ReplaceAbsent(s: string, pat: string, rep: string)
    requires pat != [] && pat[0] !in s
    ensures Replace(s, pat, rep) == s
    decreases |s|
  {
    if |s| >= |pat| {
      assert s[0] != pat[0];
      assert s[..|pat|] != pat;
      ReplaceAbsent(s[1..], pat, rep);
    }
  }

  /** A match preceded by text that cannot start one is replaced in place. */
  lemma {:induction false} ReplaceAfterPlain(a: string, pat: string, rep: string, b: string)
    requires pat != [] && pat[0] !in a
    ensures Replace(a + pat + b, pat, rep) == a + rep + Replace(b, pat, rep)
    decreases |a|
  {
    var s := a + pat + b;
    if a == [] {
      assert s == pat + b;
      assert s[..|pat|] == pat;
      assert s[|pat|..] == b;
    } else {
      assert s[0] == a[0];
      assert s[..|pat|][0] == s[0];
      assert s[..|pat|] != pat;
      var s1 := a[1..] + pat + b;
      assert s[1..] == s1;
      assert Replace(s, pat, rep) == [a[0]] + Replace(s1, pat, rep);
      ReplaceAfterPlain(a[1..], pat, rep, b);
      assert a == [a[0]] + a[1..];
    }
  }

  function DigitChar(d: nat): char
    requires d < 10
  {
    ('0' as int + d) as char
  }

  /** Python's `str(n)` for a non-negative integer. */
  function NatToString(n: nat): (s: string)
    ensures |s| >= 1 && AllDigits(s)
    decreases n
  {
    if n < 10 then [DigitChar(n)] else NatToString(n / 10) + [DigitChar(n % 10)]
  }

  /** Python's `int(s)` for a string of ASCII digits. */
  function DigitsValue(s: string): nat
    requires AllDigits(s)
  {
    if s == [] then 0 else DigitsValue(s[..|s| - 1]) * 10 + (s[|s| - 1] as int - '0' as int)
  }

  lemma {:induction false} DigitsValueOfNatToString(n: nat)
    ensures DigitsValue(NatToString(n)) == n
    decreases n
  {
    if n >= 10 {
      DigitsValueOfNatToString(n / 10);
      var s := NatToString(n);
      assert s[..|s| - 1] == NatToString(n / 10);
    }
  }

  lemma NatToStringInjective(m: nat, n: nat)
    requires NatToString(m) == NatToString(n)
    ensures m == n
  {
    DigitsValueOfNatToString(m);
    DigitsValueOfNatToString(n);
  }

  /**
   * Python's `int(s)` for a decimal integer: surrounding white space, an
   * optional sign and at least one ASCII digit; anything else raises
   * ValueError, here None.
   */
  function ParseInt(s: string): (r: Option<int>)
    ensures r.Some? ==> Trim(s) != ""
  {
    var t := Trim(s);
    if t == "" then None
    else if (t[0] == '-' || t[0] == '+') && |t| > 1 && AllDigits(t[1..]) then
      var v: int := DigitsValue(t[1..]);
      Some(if t[0] == '-' then -v else v)
    else if AllDigits(t) then Some(DigitsValue(t))
    else None
  }

  lemma ParseIntOfNatToString(n: nat)
    ensures ParseInt(NatToString(n)) == Some(n)
  {
    var s := NatToString(n);
    assert IsDigit(s[0]) && IsDigit(s[|s| - 1]);
    TrimOfTrimmed(s);
    DigitsValueOfNatToString(n);
  }
}
