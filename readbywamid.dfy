/**
 * The row lookup tool: a sheet row turned into a header-to-value dict, and
 * the exit codes of its command line for a blank id and for an id with no row.
 */
module ReadByWamid {

  import opened Wrappers
  import opened Text
  import opened Sheet
  import opened Records

  /** `values` padded with "" or truncated to `n` cells. */
  function Fit(values: seq<string>, n: nat): (r: seq<string>)
    ensures |r| == n
    ensures forall i :: 0 <= i < n ==> r[i] == CellOf(values, i + 1)
  {
    if |values| < n then values + Blanks(n - |values|) else values[..n]
  }

  /** `zip(headers, values)` with each header trimmed; as long as the shorter list. */
  function ZipTrimmed(headers: seq<string>, values: seq<string>): (ps: seq<(string, Option<string>)>)
    ensures |ps| == if |headers| < |values| then |headers| else |values|
    ensures forall i :: 0 <= i < |ps| ==> ps[i] == (Trim(headers[i]), Some(values[i]))
  {
    if headers == [] || values == [] then []
    else [(Trim(headers[0]), Some(values[0]))] + ZipTrimmed(headers[1..], values[1..])
  }

  /** The dict `_row_dict` builds from header row `headers` and row `values`. */
  function RowDictOf(headers: seq<string>, values: seq<string>): Record {
    FromPairs(ZipTrimmed(headers, Fit(values, |headers|)))
  }

  /** `_row_dict(ws, row_num)`: `values` is padded in place or cut, then zipped with the headers. */
  method RowDict(ws: Worksheet, rowNum: int) returns (d: Record)
    ensures d == RowDictOf(Row(ws.cells, 1), Row(ws.cells, rowNum))
  {
    var headers := ws.RowValues(1);
    var values := ws.RowValues(rowNum);
    if |values| < |headers| {
      values := values + Blanks(|headers| - |values|);
    } else if |values| > |headers| {
      values := values[..|headers|];
    }
    assert values == Fit(Row(ws.cells, rowNum), |headers|);
    d := FromPairs(ZipTrimmed(headers, values));
  }

  /** The keys are exactly the trimmed headers. */
  lemma RowDictKeys(headers: seq<string>, values: seq<string>, k: string)
    ensures Has(RowDictOf(headers, values), k) <==> exists i :: 0 <= i < |headers| && Trim(headers[i]) == k
  {
    var ps := ZipTrimmed(headers, Fit(values, |headers|));
    FromPairsGet(ps, k);
    if exists i :: 0 <= i < |headers| && Trim(headers[i]) == k {
      var i :| 0 <= i < |headers| && Trim(headers[i]) == k;
      var j := LastWithKey(ps, k, i);
    } else {
      LastPairNone(ps, k);
    }
  }

  /** Some pair at or after `i` is the last with key `k`. */
  lemma {:induction false} LastWithKey(ps: seq<(string, Option<string>)>, k: string, i: int) returns (j: int)
    requires 0 <= i < |ps| && ps[i].0 == k
    ensures i <= j < |ps| && ps[j].0 == k && LastPair(ps, k) == Some(ps[j].1)
    decreases |ps| - i
  {
    if forall m :: i < m < |ps| ==> ps[m].0 != k {
      j := i;
      LastPairAt(ps, k, i);
    } else {
      var m :| i < m < |ps| && ps[m].0 == k;
      j := LastWithKey(ps, k, m);
    }
  }

  /**
   * Header `i` holds cell `i + 1` of the row - "" where the row is short -
   * when no later header trims to the same name; a later duplicate wins.
   */
  lemma RowDictValue(headers: seq<string>, values: seq<string>, i: int)
    requires 0 <= i < |headers|
    requires forall j :: i < j < |headers| ==> Trim(headers[j]) != Trim(headers[i])
    ensures Get(RowDictOf(headers, values), Trim(headers[i])) == Some(CellOf(values, i + 1))
  {
    var ps := ZipTrimmed(headers, Fit(values, |headers|));
    FromPairsGet(ps, Trim(headers[i]));
    LastPairAt(ps, Trim(headers[i]), i);
  }

  /** Cells past the header row's length never reach the dict. */
  lemma ExtraCellsDropped(headers: seq<string>, values: seq<string>, extra: seq<string>)
    requires |values| >= |headers|
    ensures RowDictOf(headers, values + extra) == RowDictOf(headers, values)
  {
    assert Fit(values + extra, |headers|) == Fit(values, |headers|);
  }

  /** A missing row reads as all "". */
  lemma MissingRowIsBlank(headers: seq<string>, i: int)
    requires 0 <= i < |headers|
    requires forall j :: i < j < |headers| ==> Trim(headers[j]) != Trim(headers[i])
    ensures Get(RowDictOf(headers, []), Trim(headers[i])) == Some("")
  {
    RowDictValue(headers, [], i);
  }

  /** How `main` ends: an exit code, or the row found and its dict. */
  datatype Outcome = Exit(code: int) | Shown(row: int, data: Record)

  /**
   * `main --wamid ARG`. `ready` is false when anything the final `except
   * Exception` catches is raised: setting up the repository client or its
   * worksheet, `find_row_by_wamid` or `_row_dict` raising. `lookup` is the row
   * number the repository's
   * `find_row_by_wamid` answers (None or 0 when there is none); `cells` is
   * the sheet when the row is read back.
   */
  function MainSpec(arg: string, ready: bool, lookup: Option<int>, cells: Grid): Outcome {
    var wamid := Trim(arg);
    if wamid == "" then Exit(2)
    else if !ready then Exit(2)
    else if lookup.None? || lookup.value == 0 then Exit(1)
    else Shown(lookup.value, RowDictOf(Row(cells, 1), Row(cells, lookup.value)))
  }

  /**
   * A blank id exits with 2 before the store is touched; an id with no row
   * exits with 1; only a row number found is shown, with its own row's dict.
   */
  lemma MainExits(arg: string, ready: bool, lookup: Option<int>, cells: Grid)
    ensures IsBlank(arg) ==> MainSpec(arg, ready, lookup, cells) == Exit(2)
    ensures IsBlank(arg) ==> forall r, l, c :: MainSpec(arg, r, l, c) == MainSpec(arg, ready, lookup, cells)
    ensures !IsBlank(arg) && ready && (lookup.None? || lookup == Some(0)) ==> MainSpec(arg, ready, lookup, cells) == Exit(1)
    ensures MainSpec(arg, ready, lookup, cells).Shown? <==> !IsBlank(arg) && ready && lookup.Some? && lookup.value != 0
    ensures MainSpec(arg, ready, lookup, cells).Shown? ==>
      MainSpec(arg, ready, lookup, cells).row == lookup.value
  {
    TrimEmptyIff(arg);
  }
}
