/**
 * The phone search tool: records whose normalised phone equals, or contains,
 * the normalised query, found in sheet order up to a limit, with the sheet
 * row of each, and the rows read back afresh by number.
 */
module ReadRange {

  import opened Wrappers
  import opened Text
  import opened Sheet
  import opened Records
  import opened Env
  import opened LeadPipeline
  import opened ReadByWamid

  /**
   * `_normalize_digits(s)` is `re.sub(r"\D+", "", s or "")`, the same
   * expression as `_digits_only`: separators between digit groups vanish.
   */
  lemma NormalizeIgnoresSeparators(a: string, sep: string, b: string)
    requires forall i :: 0 <= i < |sep| ==> !IsDigit(sep[i])
    ensures DigitsOnly(Some(a + sep + b)) == Digits(a) + Digits(b)
  {
    DigitsAppend(a + sep, b);
    DigitsAppend(a, sep);
    NoDigits(sep);
    assert Digits(a + sep) == Digits(a);
  }

  lemma {:induction false} NoDigits(s: string)
    requires forall i :: 0 <= i < |s| ==> !IsDigit(s[i])
    ensures Digits(s) == ""
  {
    if s != [] {
      NoDigits(s[1..]);
    }
  }

  /** `item.get("telefone") or item.get("phone") or ""`. */
  function PhoneOf(item: Record): string {
    var t := OrEmpty(Get(item, "telefone"));
    if t != "" then t else OrEmpty(Get(item, "phone"))
  }

  /** The record's phone, digits only. */
  function Tel(item: Record): string {
    DigitsOnly(Some(PhoneOf(item)))
  }

  /** A record is a match when its phone has digits and equals (exact) or contains the query. */
  predicate Matches(item: Record, q: string, exact: bool) {
    Tel(item) != "" && (if exact then Tel(item) == q else IsSubstring(q, Tel(item)))
  }

  /** The per-record test of the loop, as a value. */
  function MatchTest(q: string, exact: bool): Record -> bool {
    item => Matches(item, q, exact)
  }

  /** What `test` says of each element, in order. */
  function Flags<T>(rows: seq<T>, test: T -> bool): (h: seq<bool>)
    ensures |h| == |rows|
  {
    if rows == [] then [] else [test(rows[0])] + Flags(rows[1..], test)
  }

  /** Flag `i` is the test of element `i`. */
  lemma {:induction false} FlagAt<T>(rows: seq<T>, test: T -> bool, i: int)
    requires 0 <= i < |rows|
    ensures Flags(rows, test)[i] == test(rows[i])
  {
    if i > 0 {
      FlagAt(rows[1..], test, i - 1);
    }
  }

  /** Which records match, in sheet order. */
  function Hits(rows: seq<Record>, q: string, exact: bool): seq<bool> {
    Flags(rows, MatchTest(q, exact))
  }

  /** Flag `i` says whether record `i` matches. */
  lemma HitAt(rows: seq<Record>, q: string, exact: bool, i: int)
    requires 0 <= i < |rows|
    ensures Hits(rows, q, exact)[i] <==> Matches(rows[i], q, exact)
  {
    FlagAt(rows, MatchTest(q, exact), i);
  }

  /** The sheet rows of the hits among the first `n` records; record `i` is sheet row `i + 2`. */
  function Listed(hits: seq<bool>, n: nat): seq<int>
    requires n <= |hits|
  {
    if n == 0 then [] else Listed(hits, n - 1) + (if hits[n - 1] then [n + 1] else [])
  }

  /** The sheet rows of all matching records. */
  function AllMatches(rows: seq<Record>, q: string, exact: bool): seq<int> {
    Listed(Hits(rows, q, exact), |rows|)
  }

  /** `max(1, limit)`. */
  function Cap(limit: int): int {
    if limit > 1 then limit else 1
  }

  /** The rows listed among the first `n` records start those listed among the first `m`. */
  lemma {:induction false} ListedPrefix(hits: seq<bool>, n: nat, m: nat)
    requires n <= m <= |hits|
    ensures |Listed(hits, n)| <= |Listed(hits, m)| && Listed(hits, m)[..|Listed(hits, n)|] == Listed(hits, n)
    decreases m
  {
    if n < m {
      ListedPrefix(hits, n, m - 1);
    }
  }

  /** A row number is listed exactly when its record is a hit. */
  lemma {:induction false} ListedIff(hits: seq<bool>, n: nat, r: int)
    requires n <= |hits|
    ensures r in Listed(hits, n) <==> 2 <= r <= n + 1 && hits[r - 2]
  {
    if n > 0 {
      ListedIff(hits, n - 1, r);
    }
  }

  /** One more record: its row is appended when it is a hit. */
  lemma ListedStep(hits: seq<bool>, i: nat)
    requires i < |hits|
    ensures Listed(hits, i + 1) == Listed(hits, i) + (if hits[i] then [i + 2] else [])
  {
  }

  /** Row numbers between 2 and `last`, in increasing order. */
  predicate RowsUpTo(m: seq<int>, last: int) {
    (forall k :: 0 <= k < |m| ==> 2 <= m[k] <= last) &&
    (forall k, l :: 0 <= k < l < |m| ==> m[k] < m[l])
  }

  /** Listed rows lie between 2 and `n + 1`, in increasing order. */
  lemma {:induction false} ListedBound(hits: seq<bool>, n: nat)
    requires n <= |hits|
    ensures RowsUpTo(Listed(hits, n), n + 1)
  {
    if n > 0 {
      ListedBound(hits, n - 1);
      var m0 := Listed(hits, n - 1);
      var m := Listed(hits, n);
      if hits[n - 1] {
        assert m == m0 + [n + 1];
        forall k, l | 0 <= k < l < |m|
          ensures m[k] < m[l]
        {
          assert m[k] == m0[k];
          if l < |m0| {
            assert m[l] == m0[l];
          }
        }
      } else {
        assert m == m0;
      }
    }
  }

  /** Row `r` is listed exactly when record `r - 2` matches. */
  lemma AllMatchesIff(rows: seq<Record>, q: string, exact: bool, r: int)
    ensures r in AllMatches(rows, q, exact) <==> 2 <= r <= |rows| + 1 && Matches(rows[r - 2], q, exact)
  {
    ListedIff(Hits(rows, q, exact), |rows|, r);
    if 2 <= r <= |rows| + 1 {
      HitAt(rows, q, exact, r - 2);
    }
  }

  /** All matches: increasing rows from 2 to `|rows| + 1`. */
  lemma AllMatchesBound(rows: seq<Record>, q: string, exact: bool)
    ensures RowsUpTo(AllMatches(rows, q, exact), |rows| + 1)
  {
    ListedBound(Hits(rows, q, exact), |rows|);
  }

  /** A partial search with an empty query lists every record whose phone has a digit. */
  lemma EmptyQueryMatchesAll(item: Record)
    ensures Matches(item, "", false) <==> Tel(item) != ""
  {
    assert StartsWith(Tel(item), "");
  }

  /** An exact match is also a partial match. */
  lemma ExactIsPartial(item: Record, q: string)
    requires Matches(item, q, true)
    ensures Matches(item, q, false)
  {
    assert Tel(item)[..|q|] == q;
  }

  /** `matches[k]` is the record of sheet row `rownums[k]`. */
  predicate Paired(rows: seq<Record>, matches: seq<Record>, rownums: seq<int>) {
    |matches| == |rownums| &&
    forall k :: 0 <= k < |rownums| ==> 2 <= rownums[k] <= |rows| + 1 && matches[k] == rows[rownums[k] - 2]
  }

  /**
   * The loop of `main` over any records and any test: element `i` is sheet
   * row `i + 2`; those passing the test are kept with their rows until `cap`
   * of them are kept.
   */
  method Collect<T>(rows: seq<T>, test: T -> bool, cap: nat)
    returns (matches: seq<T>, rownums: seq<int>)
    ensures var all := Listed(Flags(rows, test), |rows|);
      |rownums| == (if |all| < cap then |all| else cap) && rownums == all[..|rownums|]
    ensures |matches| == |rownums|
    ensures forall k :: 0 <= k < |matches| ==> 2 <= rownums[k] <= |rows| + 1 && matches[k] == rows[rownums[k] - 2]
  {
    matches, rownums := [], [];
    ghost var hits := Flags(rows, test);
    var i := 0;
    while i < |rows| && |matches| < cap
      invariant 0 <= i <= |rows|
      invariant rownums == Listed(hits, i)
      invariant |matches| == |rownums| <= cap
      invariant forall k :: 0 <= k < |matches| ==> 2 <= rownums[k] <= i + 1 && matches[k] == rows[rownums[k] - 2]
    {
      var ok := test(rows[i]);
      FlagAt(rows, test, i);
      ListedStep(hits, i);
      if ok {
        matches, rownums := matches + [rows[i]], rownums + [i + 2];
      }
      i := i + 1;
    }
    ListedExit(hits, i, cap, rownums);
  }

  /** Leaving the loop, at the end or at the cap, keeps the first `cap` listed rows. */
  lemma ListedExit(hits: seq<bool>, i: nat, cap: int, rownums: seq<int>)
    requires i <= |hits| && rownums == Listed(hits, i) && |rownums| <= cap
    requires i == |hits| || |rownums| == cap
    ensures var all := Listed(hits, |hits|);
      |rownums| == (if |all| < cap then |all| else cap) && rownums == all[..|rownums|]
  {
    ListedPrefix(hits, i, |hits|);
  }

  /**
   * The search of `main`: the query normalised, then the first `max(1, limit)`
   * matching records, in sheet order, with `rownums[k]` the sheet row of `matches[k]`.
   */
  method Search(rows: seq<Record>, phone: string, exact: bool, limit: int)
    returns (matches: seq<Record>, rownums: seq<int>)
    ensures var all := AllMatches(rows, DigitsOnly(Some(phone)), exact);
      |rownums| == (if |all| < Cap(limit) then |all| else Cap(limit)) && rownums == all[..|rownums|]
    ensures Paired(rows, matches, rownums)
  {
    var q := DigitsOnly(Some(phone));
    matches, rownums := Collect(rows, MatchTest(q, exact), Cap(limit));
  }

  /** The wamid of a match as the status update reads it: trimmed, "" when missing. */
  function WamidOf(item: Record): string {
    Trim(OrEmpty(Get(item, "wamid")))
  }

  /** The ids `--set-status-email` updates: each match's wamid, skipping blank ones, in order. */
  function StatusTargets(matches: seq<Record>): (ids: seq<string>)
    ensures |ids| <= |matches|
    ensures forall k :: 0 <= k < |ids| ==> ids[k] != "" && Trim(ids[k]) == ids[k]
  {
    if matches == [] then []
    else
      TrimIdempotent(OrEmpty(Get(matches[0], "wamid")));
      (if WamidOf(matches[0]) == "" then [] else [WamidOf(matches[0])]) + StatusTargets(matches[1..])
  }

  /** A match is skipped exactly when its wamid is blank. */
  lemma {:induction false} StatusTargetsIff(matches: seq<Record>, id: string)
    ensures id in StatusTargets(matches) <==> id != "" && exists k :: 0 <= k < |matches| && WamidOf(matches[k]) == id
  {
    if matches != [] {
      StatusTargetsIff(matches[1..], id);
      if id != "" && exists k :: 0 <= k < |matches| && WamidOf(matches[k]) == id {
        var k :| 0 <= k < |matches| && WamidOf(matches[k]) == id;
        if k > 0 {
          assert WamidOf(matches[1..][k - 1]) == id;
        }
      }
    }
  }

  /**
   * The rows of the matches read back by number after the status update: each
   * rebuilt from header row 1 and its own sheet row.
   */
  method RebuildRows(ws: Worksheet, rownums: seq<int>) returns (rebuilt: seq<Record>)
    ensures |rebuilt| == |rownums|
    ensures forall k :: 0 <= k < |rownums| ==>
      rebuilt[k] == RowDictOf(Row(ws.cells, 1), Row(ws.cells, rownums[k]))
  {
    rebuilt := [];
    var k := 0;
    while k < |rownums|
      invariant 0 <= k <= |rownums| && |rebuilt| == k
      invariant forall j :: 0 <= j < k ==> rebuilt[j] == RowDictOf(Row(ws.cells, 1), Row(ws.cells, rownums[j]))
    {
      var d := RowDict(ws, rownums[k]);
      rebuilt := rebuilt + [d];
      k := k + 1;
    }
  }
}
