/**
 * The older sheet helpers: the fixed seven-column header row, the check that
 * rewrites row 1 when it does not match it, and the id lookup in column G.
 */
module SheetsRepo {

  import opened Text
  import opened Sheet

  /** `HEADERS`, the column order of the legacy append. */
  const Headers: seq<string> := ["timestamp", "nome", "telefone", "mensagem", "origem", "status_email", "wamid"]

  /** Column G, where `find_wamid` looks for the id. */
  const WamidColumn: int := 7

  /** The id lookup scans the column the header row names "wamid". */
  lemma WamidColumnIsHeader()
    ensures |Headers| == 7 && 1 <= WamidColumn <= |Headers| && Headers[WamidColumn - 1] == "wamid"
    ensures forall i :: 0 <= i < |Headers| && i != WamidColumn - 1 ==> Headers[i] != "wamid"
  {
  }

  /** The header names have no surrounding white space. */
  lemma HeadersTrimmed(i: int)
    requires 0 <= i < |Headers|
    ensures Trim(Headers[i]) == Headers[i]
  {
    TrimOfTrimmed(Headers[i]);
  }

  /** `needs_update`, as the source writes it. */
  predicate NeedsUpdate(first: seq<string>) {
    |first| < |Headers| ||
    exists i :: 0 <= i < |Headers| && (i >= |first| || Norm(first[i]) != Lower(Headers[i]))
  }

  /** Row 1 carries the expected names, up to white space and case, in its first seven cells. */
  predicate HeaderMatches(first: seq<string>) {
    |first| >= |Headers| && forall i :: 0 <= i < |Headers| ==> Norm(first[i]) == Lower(Headers[i])
  }

  /** A rewrite is needed exactly when row 1 does not match. */
  lemma NeedsUpdateIff(first: seq<string>)
    ensures NeedsUpdate(first) <==> !HeaderMatches(first)
  {
  }

  /** Cells after the seventh never cause a rewrite. */
  lemma ExtraCellsIgnored(first: seq<string>, extra: seq<string>)
    requires HeaderMatches(first)
    ensures !NeedsUpdate(first + extra)
  {
    var r := first + extra;
    assert forall i :: 0 <= i < |first| ==> r[i] == first[i];
  }

  /** An unreadable row 1 counts as empty, and an empty row always needs the rewrite. */
  lemma EmptyNeedsUpdate()
    ensures NeedsUpdate([])
  {
  }

  /** Writing `HEADERS` into row 1 makes it match. */
  lemma RewriteMatches(cells: Grid)
    ensures HeaderMatches(Row(WriteFirstRow(cells, Headers), 1))
  {
    var first := Row(WriteFirstRow(cells, Headers), 1);
    assert first[..|Headers|] == Headers;
    forall i | 0 <= i < |Headers|
      ensures Norm(first[i]) == Lower(Headers[i])
    {
      assert first[i] == first[..|Headers|][i];
      HeadersTrimmed(i);
    }
  }

  /** The row 1 the check sees: the stored row, or empty when reading it fails. */
  function FirstRowSeen(cells: Grid, readFails: bool): seq<string> {
    if readFails then [] else Row(cells, 1)
  }

  /** The sheet after `_ensure_headers`. */
  function EnsureHeadersSpec(cells: Grid, readFails: bool): Grid {
    if NeedsUpdate(FirstRowSeen(cells, readFails)) then WriteFirstRow(cells, Headers) else cells
  }

  /**
   * Afterwards row 1 matches `HEADERS`; only row 1 is ever written, only its
   * first seven cells, and a matching row that was read is left alone.
   */
  lemma EnsureHeadersEffect(cells: Grid, readFails: bool)
    ensures var after := EnsureHeadersSpec(cells, readFails);
      HeaderMatches(Row(after, 1)) &&
      |after| == (if cells == [] then 1 else |cells|) &&
      (forall r :: 2 <= r <= |after| ==> Row(after, r) == Row(cells, r)) &&
      (forall c :: c > |Headers| ==> Cell(after, 1, c) == Cell(cells, 1, c)) &&
      (!readFails && HeaderMatches(Row(cells, 1)) ==> after == cells) &&
      (readFails ==> after == WriteFirstRow(cells, Headers))
  {
    var after := EnsureHeadersSpec(cells, readFails);
    RewriteMatches(cells);
    NeedsUpdateIff(FirstRowSeen(cells, readFails));
    if NeedsUpdate(FirstRowSeen(cells, readFails)) {
      forall r | 2 <= r <= |after|
        ensures Row(after, r) == Row(cells, r)
      {
        assert after[r - 1] == cells[r - 1];
      }
    }
  }

  /** `_ensure_headers(ws)`; `readFails` says whether `ws.row_values(1)` raises. */
  method EnsureHeaders(ws: Worksheet, readFails: bool)
    modifies ws
    ensures ws.cells == EnsureHeadersSpec(old(ws.cells), readFails)
  {
    var first: seq<string> := [];
    if !readFails {
      first := ws.RowValues(1);
    }
    if NeedsUpdate(first) {
      ws.UpdateFirstRow(Headers);
    }
  }

  /** The id is stored below the header row of column G, up to surrounding white space. */
  predicate WamidStored(cells: Grid, wamid: string) {
    wamid != "" && exists r :: 2 <= r <= |cells| && Trim(Cell(cells, r, WamidColumn)) == wamid
  }

  /**
   * `find_wamid(ws, wamid)`: false for an empty id, else true exactly when a
   * cell of column G other than the header holds the id once trimmed.
   */
  method FindWamid(ws: Worksheet, wamid: string) returns (found: bool)
    ensures found <==> WamidStored(ws.cells, wamid)
  {
    if wamid == "" {
      return false;
    }
    var col := ws.ColValues(WamidColumn);
    var i := 1;
    while i < |col|
      invariant 1 <= i && (|col| >= 1 ==> i <= |col|)
      invariant forall j :: 1 <= j < i && j < |col| ==> Trim(col[j]) != wamid
    {
      if Trim(col[i]) == wamid {
        ColumnAt(ws.cells, WamidColumn, i);
        assert Trim(Cell(ws.cells, i + 1, WamidColumn)) == wamid;
        return true;
      }
      i := i + 1;
    }
    ColumnEach(ws.cells, WamidColumn);
    assert forall r :: 2 <= r <= |ws.cells| ==> Trim(Cell(ws.cells, r, WamidColumn)) == Trim(col[r - 1]);
    found := false;
  }

  /** A header cell equal to the id is never reported: only rows 2 and below count. */
  lemma HeaderNotSearched(wamid: string, row: seq<string>)
    requires wamid != "" && Trim(CellOf(row, WamidColumn)) == wamid
    ensures !WamidStored([row], wamid)
  {
  }
}
