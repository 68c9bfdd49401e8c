/**
 * The keyed upsert of `sheets_write.py`: header handling, the lookup of a row
 * by its message id (WAMID), `append_by_header` and `upsert_by_wamid`.
 *
 * The worksheet is a `Sheet.Worksheet`; the configuration is an environment
 * map; the local clock reading `_now_local_str()` is the parameter `now`.
 */
module SheetsWrite {

  import opened Wrappers
  import opened Text
  import opened Env
  import opened Records
  import opened Sheet

  // ---------------------------------------------------------------------------
  // Column names (`_colnames`)
  // ---------------------------------------------------------------------------

  /** The configured column names, each trimmed and lower-cased. */
  datatype ColNames = ColNames(
    timestamp: string, name: string, phone: string, email: string, message: string,
    source: string, wamid: string, statusEmail: string, updatedAt: string)

  /** `_env(variable, default).lower()`. */
  function ColName(env: Environment, variable: string, default: string): string {
    Norm(Getenv(env, variable, default))
  }

  function Colnames(env: Environment): ColNames {
    ColNames(
      ColName(env, "COL_TIMESTAMP", "timestamp"),
      ColName(env, "COL_NAME", "name"),
      ColName(env, "COL_PHONE", "phone"),
      ColName(env, "COL_EMAIL", "email"),
      ColName(env, "COL_MESSAGE", "message"),
      ColName(env, "COL_SOURCE", "source"),
      ColName(env, "COL_WAMID", "wamid"),
      ColName(env, "COL_STATUS_EMAIL", "status_email"),
      ColName(env, "COL_UPDATED_AT", "updated_at"))
  }

  /** Every name is already trimmed and lower-cased. */
  predicate Normalized(c: ColNames) {
    Norm(c.timestamp) == c.timestamp && Norm(c.name) == c.name && Norm(c.phone) == c.phone &&
    Norm(c.email) == c.email && Norm(c.message) == c.message && Norm(c.source) == c.source &&
    Norm(c.wamid) == c.wamid && Norm(c.statusEmail) == c.statusEmail && Norm(c.updatedAt) == c.updatedAt
  }

  /** Every configured name is in normal form, so it can be compared with normalised headers. */
  lemma ColnamesNormalized(env: Environment)
    ensures Normalized(Colnames(env))
  {
    NormIdempotent(Getenv(env, "COL_TIMESTAMP", "timestamp"));
    NormIdempotent(Getenv(env, "COL_NAME", "name"));
    NormIdempotent(Getenv(env, "COL_PHONE", "phone"));
    NormIdempotent(Getenv(env, "COL_EMAIL", "email"));
    NormIdempotent(Getenv(env, "COL_MESSAGE", "message"));
    NormIdempotent(Getenv(env, "COL_SOURCE", "source"));
    NormIdempotent(Getenv(env, "COL_WAMID", "wamid"));
    NormIdempotent(Getenv(env, "COL_STATUS_EMAIL", "status_email"));
    NormIdempotent(Getenv(env, "COL_UPDATED_AT", "updated_at"));
  }

  /** An unset variable whose default is a plain lower-case name yields that name. */
  lemma ColNameDefault(env: Environment, variable: string, default: string)
    requires variable !in env
    requires forall i :: 0 <= i < |default| ==> 'a' <= default[i] <= 'z' || default[i] == '_'
    ensures ColName(env, variable, default) == default
  {
    NormOfPlain(default);
  }

  // ---------------------------------------------------------------------------
  // Header row (`_headers`, `_header_index_map`)
  // ---------------------------------------------------------------------------

  /**
   * The position `_header_index_map` assigns to the name `k` over the header
   * row `row` (`_headers` trims each cell): the last zero-based position whose
   * trimmed, lower-cased header is `k`, or -1. Empty headers are skipped, so
   * the empty name has no position.
   */
  function HeaderPos(row: seq<string>, k: string): int {
    HeaderPosUpTo(row, k, |row|)
  }

  /** The position after the loop has seen the first `n` headers. */
  function HeaderPosUpTo(row: seq<string>, k: string, n: nat): (p: int)
    requires n <= |row|
    ensures -1 <= p < n
    ensures p >= 0 ==> k != "" && Norm(row[p]) == k
  {
    if k == "" || n == 0 then -1
    else if Norm(row[n - 1]) == k then n - 1
    else HeaderPosUpTo(row, k, n - 1)
  }

  /** No header after the position found, among the first `n`, has the name `k`. */
  lemma {:induction false} HeaderPosLast(row: seq<string>, k: string, n: nat, j: int)
    requires n <= |row| && k != "" && HeaderPosUpTo(row, k, n) < j < n
    ensures Norm(row[j]) != k
  {
    if Norm(row[n - 1]) != k && j < n - 1 {
      HeaderPosLast(row, k, n - 1, j);
    }
  }

  /** `idx` is the dictionary `_header_index_map` builds from `row`. */
  ghost predicate IndexesHeaders(idx: map<string, nat>, row: seq<string>) {
    forall k :: (k in idx <==> HeaderPos(row, k) >= 0) && (k in idx ==> idx[k] == HeaderPos(row, k))
  }

  /** Every non-empty (trimmed) header has a position, and no two names share one. */
  lemma HeaderPosComplete(row: seq<string>, i: int, k: string, k': string)
    requires 0 <= i < |row| && Trim(row[i]) != ""
    requires HeaderPos(row, k) >= 0 && HeaderPos(row, k) == HeaderPos(row, k')
    ensures HeaderPos(row, Norm(row[i])) >= i
    ensures k == k'
  {
    var name := Norm(row[i]);
    assert |name| == |Trim(row[i])|;
    if HeaderPos(row, name) < i {
      HeaderPosLast(row, name, |row|, i);
    }
  }

  /** Zero-based position `j` is the position of some header name. */
  predicate IsHeaderPos(hr: seq<string>, j: int) {
    0 <= j < |hr| && HeaderPos(hr, Norm(hr[j])) == j
  }

  /** Two names never share a position. */
  lemma HeaderPosInjective(row: seq<string>, k: string, k': string)
    requires HeaderPos(row, k) >= 0 && k != k'
    ensures HeaderPos(row, k) != HeaderPos(row, k')
  {
  }

  /** A position that is no name's position is not the position of `k`. */
  lemma NotHeaderPos(row: seq<string>, j: int, k: string)
    requires j >= 0 && !IsHeaderPos(row, j)
    ensures HeaderPos(row, k) != j
  {
  }

  /** `_header_index_map(ws)`: the loop over `enumerate(_headers(ws))`. */
  method HeaderIndexMap(ws: Worksheet) returns (idx: map<string, nat>)
    ensures IndexesHeaders(idx, Row(ws.cells, 1))
  {
    var row := ws.RowValues(1);
    idx := map[];
    var i := 0;
    while i < |row|
      invariant 0 <= i <= |row|
      invariant forall k :: k in idx <==> HeaderPosUpTo(row, k, i) >= 0
      invariant forall k :: k in idx ==> idx[k] == HeaderPosUpTo(row, k, i)
    {
      IndexStep(idx, row, i);
      var h := Trim(row[i]);
      if h != "" {
        idx := idx[Lower(h) := i];
      }
      i := i + 1;
    }
  }

  /** One header more: a non-blank one takes its position, overriding an earlier equal name. */
  lemma IndexStep(idx: map<string, nat>, row: seq<string>, i: nat)
    requires i < |row|
    requires forall k :: k in idx <==> HeaderPosUpTo(row, k, i) >= 0
    requires forall k :: k in idx ==> idx[k] == HeaderPosUpTo(row, k, i)
    ensures var idx' := if Trim(row[i]) != "" then idx[Lower(Trim(row[i])) := i] else idx;
      (forall k :: k in idx' <==> HeaderPosUpTo(row, k, i + 1) >= 0) &&
      (forall k :: k in idx' ==> idx'[k] == HeaderPosUpTo(row, k, i + 1))
  {
    var name := Norm(row[i]);
    assert Trim(row[i]) == "" ==> name == "";
    assert name == "" ==> Trim(row[i]) == "";
    forall k
      ensures HeaderPosUpTo(row, k, i + 1) == if k != "" && k == name then i else HeaderPosUpTo(row, k, i)
    {
    }
  }

  // ---------------------------------------------------------------------------
  // Lookup by key (`_find_row_by_wamid`)
  // ---------------------------------------------------------------------------

  /** The fast path compares the cell itself, the fallback compares it trimmed. */
  predicate KeyMatch(cell: string, key: string, exact: bool) {
    if exact then cell == key else Trim(cell) == key
  }

  /** The first zero-based index at or after `from` whose entry matches. */
  function FirstMatch(col: seq<string>, key: string, exact: bool, from: nat): (r: Option<nat>)
    ensures r.Some? ==> from <= r.value < |col| && KeyMatch(col[r.value], key, exact)
    decreases |col| - from
  {
    if from >= |col| then None
    else if KeyMatch(col[from], key, exact) then Some(from)
    else FirstMatch(col, key, exact, from + 1)
  }

  /** No entry before the first match matches, and there is no match exactly when no entry matches. */
  lemma {:induction false} FirstMatchSpec(col: seq<string>, key: string, exact: bool, from: nat)
    ensures FirstMatch(col, key, exact, from).Some? ==>
      forall j :: from <= j < FirstMatch(col, key, exact, from).value ==> !KeyMatch(col[j], key, exact)
    ensures FirstMatch(col, key, exact, from).None? <==> forall j :: from <= j < |col| ==> !KeyMatch(col[j], key, exact)
    decreases |col| - from
  {
    if from < |col| && !KeyMatch(col[from], key, exact) {
      FirstMatchSpec(col, key, exact, from + 1);
    }
  }

  /** The 1-based number of the key column, when the header has it. */
  function KeyColumn(cells: Grid, keyCol: string): Option<nat> {
    var p := HeaderPos(Row(cells, 1), keyCol);
    if p >= 0 then Some(p + 1) else None
  }

  /**
   * The exact scan of the key column starting at zero-based row index
   * `fastFrom`, then the trimmed scan that skips the header; 1-based result.
   */
  function ScanColumn(col: seq<string>, key: string, fastFrom: nat): Option<nat> {
    match FirstMatch(col, key, true, fastFrom)
    case Some(i) => Some(i + 1)
    case None =>
      match FirstMatch(col, key, false, 1)
      case Some(i) => Some(i + 1)
      case None => None
  }

  /** The lookup with both scans starting below the header row. */
  function FindRow(cells: Grid, keyCol: string, key: string): (r: Option<nat>)
    ensures r.Some? ==> 2 <= r.value <= |cells|
  {
    var k := Trim(key);
    if k == "" then None
    else
      match KeyColumn(cells, keyCol)
      case None => None
      case Some(c) => ScanColumn(Column(cells, c), k, 1)
  }

  /** The lookup as `_find_row_by_wamid` writes it: `findall` also reports row 1. */
  function FindRowAsWritten(cells: Grid, keyCol: string, key: string): Option<nat> {
    var k := Trim(key);
    if k == "" then None
    else
      match KeyColumn(cells, keyCol)
      case None => None
      case Some(c) => ScanColumn(Column(cells, c), k, 0)
  }

  /** `_find_row_by_wamid(ws, key)` with the configured key column `keyCol`. */
  method FindRowByKey(ws: Worksheet, keyCol: string, key: string) returns (r: Option<nat>)
    ensures r == FindRow(ws.cells, keyCol, key)
  {
    var k := Trim(key);
    if k == "" {
      return None;
    }
    var c := KeyColumnOf(ws, keyCol);
    if c.None? {
      return None;
    }
    var col := ws.ColValues(c.value);
    r := ScanKeyColumn(col, k);
  }

  /** `idx_map[col_name] + 1` when the header has the column. */
  method KeyColumnOf(ws: Worksheet, keyCol: string) returns (c: Option<nat>)
    ensures c == KeyColumn(ws.cells, keyCol)
  {
    var idx := HeaderIndexMap(ws);
    if keyCol in idx {
      c := Some(idx[keyCol] + 1);
    } else {
      c := None;
    }
  }

  /** Both scans of the key column, in order; the result is a 1-based row number. */
  method ScanKeyColumn(col: seq<string>, k: string) returns (r: Option<nat>)
    ensures r == ScanColumn(col, k, 1)
  {
    var fast := ScanExact(col, k);
    if fast.Some? {
      return Some(fast.value + 1);
    }
    var slow := ScanTrimmed(col, k);
    if slow.Some? {
      return Some(slow.value + 1);
    }
    return None;
  }

  /** The fast path: the first data row whose key cell is exactly `k` (zero-based). */
  method ScanExact(col: seq<string>, k: string) returns (r: Option<nat>)
    ensures r == FirstMatch(col, k, true, 1)
  {
    var i := 1;
    while i < |col|
      invariant 1 <= i
      invariant FirstMatch(col, k, true, i) == FirstMatch(col, k, true, 1)
      decreases |col| - i
    {
      if col[i] == k {
        return Some(i);
      }
      i := i + 1;
    }
    return None;
  }

  /** The fallback: the first data row whose trimmed key cell is `k` (zero-based). */
  method ScanTrimmed(col: seq<string>, k: string) returns (r: Option<nat>)
    ensures r == FirstMatch(col, k, false, 1)
  {
    var i := 1;
    while i < |col|
      invariant 1 <= i
      invariant FirstMatch(col, k, false, i) == FirstMatch(col, k, false, 1)
      decreases |col| - i
    {
      if Trim(col[i]) == k {
        return Some(i);
      }
      i := i + 1;
    }
    return None;
  }

  /** A returned row lies below the header and its trimmed key cell is the trimmed key. */
  lemma FindRowSound(cells: Grid, keyCol: string, key: string)
    requires FindRow(cells, keyCol, key).Some?
    ensures KeyColumn(cells, keyCol).Some? && Trim(key) != ""
    ensures var r := FindRow(cells, keyCol, key).value;
      2 <= r <= |cells| && Trim(Cell(cells, r, KeyColumn(cells, keyCol).value)) == Trim(key)
  {
    var k := Trim(key);
    TrimIdempotent(key);
    var c := KeyColumn(cells, keyCol).value;
    var col := Column(cells, c);
    var e := FirstMatch(col, k, true, 1);
    if e.Some? {
      ColumnAt(cells, c, e.value);
      assert col[e.value] == k;
    } else {
      ColumnAt(cells, c, FirstMatch(col, k, false, 1).value);
    }
  }

  /** The lookup finds nothing exactly when the key is blank, the column is missing, or no data row holds the key. */
  lemma FindRowNoneIff(cells: Grid, keyCol: string, key: string)
    ensures FindRow(cells, keyCol, key).None? <==>
      Trim(key) == "" || KeyColumn(cells, keyCol).None? ||
      forall r :: 2 <= r <= |cells| ==> Trim(Cell(cells, r, KeyColumn(cells, keyCol).value)) != Trim(key)
  {
    var k := Trim(key);
    TrimIdempotent(key);
    if k != "" && KeyColumn(cells, keyCol).Some? {
      var c := KeyColumn(cells, keyCol).value;
      var col := Column(cells, c);
      if FindRow(cells, keyCol, key).None? {
        FirstMatchSpec(col, k, false, 1);
        forall r | 2 <= r <= |cells| ensures Trim(Cell(cells, r, c)) != k {
          ColumnAt(cells, c, r - 1);
          assert !KeyMatch(col[r - 1], k, false);
        }
      } else {
        FindRowSound(cells, keyCol, key);
      }
    }
  }

  /**
   * The result is the first data row holding the key exactly, or, when no data
   * row does, the first one holding it after trimming.
   */
  lemma FindRowFirst(cells: Grid, keyCol: string, key: string)
    requires FindRow(cells, keyCol, key).Some?
    ensures KeyColumn(cells, keyCol).Some?
    ensures var r := FindRow(cells, keyCol, key).value;
      var c := KeyColumn(cells, keyCol).value;
      var k := Trim(key);
      (Cell(cells, r, c) == k && forall q :: 2 <= q < r ==> Cell(cells, q, c) != k) ||
      ((forall q :: 2 <= q <= |cells| ==> Cell(cells, q, c) != k) &&
       forall q :: 2 <= q < r ==> Trim(Cell(cells, q, c)) != k)
  {
    var k := Trim(key);
    var c := KeyColumn(cells, keyCol).value;
    var col := Column(cells, c);
    assert FindRow(cells, keyCol, key) == ScanColumn(col, k, 1);
    if FirstMatch(col, k, true, 1).Some? {
      ExactScanFirst(cells, c, k);
    } else {
      TrimmedScanFirst(cells, c, k);
    }
  }

  /** An exact hit in column `c` holds `k`, and no data row above it does. */
  lemma ExactScanFirst(cells: Grid, c: int, k: string)
    requires FirstMatch(Column(cells, c), k, true, 1).Some?
    ensures var r := FirstMatch(Column(cells, c), k, true, 1).value + 1;
      Cell(cells, r, c) == k && forall q :: 2 <= q < r ==> Cell(cells, q, c) != k
  {
    var col := Column(cells, c);
    var r := FirstMatch(col, k, true, 1).value + 1;
    FirstMatchSpec(col, k, true, 1);
    ColumnAt(cells, c, r - 1);
    forall q | 2 <= q < r ensures Cell(cells, q, c) != k {
      ColumnAt(cells, c, q - 1);
      assert !KeyMatch(col[q - 1], k, true);
    }
  }

  /** With no exact hit, no data row holds `k` exactly, and a trimmed hit is the first. */
  lemma TrimmedScanFirst(cells: Grid, c: int, k: string)
    requires FirstMatch(Column(cells, c), k, true, 1).None?
    ensures forall q :: 2 <= q <= |cells| ==> Cell(cells, q, c) != k
    ensures FirstMatch(Column(cells, c), k, false, 1).Some? ==>
      forall q :: 2 <= q < FirstMatch(Column(cells, c), k, false, 1).value + 1 ==> Trim(Cell(cells, q, c)) != k
  {
    var col := Column(cells, c);
    FirstMatchSpec(col, k, true, 1);
    FirstMatchSpec(col, k, false, 1);
    forall q | 2 <= q <= |cells| ensures Cell(cells, q, c) != k {
      ColumnAt(cells, c, q - 1);
      assert !KeyMatch(col[q - 1], k, true);
    }
    if FirstMatch(col, k, false, 1).Some? {
      forall q | 2 <= q < FirstMatch(col, k, false, 1).value + 1 ensures Trim(Cell(cells, q, c)) != k {
        ColumnAt(cells, c, q - 1);
        assert !KeyMatch(col[q - 1], k, false);
      }
    }
  }

  /** Only row 1 and the key column matter: text in other columns (a message body) never matches. */
  lemma FindRowIgnoresOtherColumns(cells: Grid, other: Grid, keyCol: string, key: string)
    requires |cells| == |other| && Row(cells, 1) == Row(other, 1)
    requires KeyColumn(cells, keyCol).Some?
    requires forall r :: 1 <= r <= |cells| ==>
      Cell(cells, r, KeyColumn(cells, keyCol).value) == Cell(other, r, KeyColumn(cells, keyCol).value)
    ensures FindRow(cells, keyCol, key) == FindRow(other, keyCol, key)
  {
    var c := KeyColumn(cells, keyCol).value;
    assert KeyColumn(other, keyCol) == Some(c);
    forall i | 0 <= i < |cells| ensures Column(cells, c)[i] == Column(other, c)[i] {
      ColumnAt(cells, c, i);
      ColumnAt(other, c, i);
      assert Cell(cells, i + 1, c) == Cell(other, i + 1, c);
    }
    assert Column(cells, c) == Column(other, c);
  }

  /** When the header cell of the key column is not the key, the code as written agrees with the corrected lookup. */
  lemma FindRowAsWrittenAgrees(cells: Grid, keyCol: string, key: string)
    requires KeyColumn(cells, keyCol).Some? ==> Cell(cells, 1, KeyColumn(cells, keyCol).value) != Trim(key)
    ensures FindRowAsWritten(cells, keyCol, key) == FindRow(cells, keyCol, key)
  {
    var k := Trim(key);
    if k != "" && KeyColumn(cells, keyCol).Some? {
      var col := Column(cells, KeyColumn(cells, keyCol).value);
      if |col| > 0 {
        ColumnAt(cells, KeyColumn(cells, keyCol).value, 0);
        assert !KeyMatch(col[0], k, true);
      }
      if FirstMatch(col, k, true, 0).Some? {
        assert FirstMatch(col, k, true, 0) == FirstMatch(col, k, true, 1);
      }
    }
  }

  /** A sheet whose only row is the header "wamid": looking up the key "wamid" as written returns the header row. */
  lemma FindRowAsWrittenHitsHeader()
    ensures FindRowAsWritten([["wamid"]], "wamid", "wamid") == Some(1)
    ensures FindRow([["wamid"]], "wamid", "wamid") == None
  {
    NormOfPlain("wamid");
    var cells: Grid := [["wamid"]];
    assert HeaderPos(["wamid"], "wamid") == 0;
    assert KeyColumn(cells, "wamid") == Some(1);
    assert Column(cells, 1) == ["wamid"];
  }

  // ---------------------------------------------------------------------------
  // Building the inserted row
  // ---------------------------------------------------------------------------

  /** The value of the last field whose normalised name is `k`: later writes win. */
  function LastValueFor(rec: Record, k: string): Option<Option<string>> {
    if rec == [] then None
    else if Norm(rec[|rec| - 1].name) == k then Some(rec[|rec| - 1].value)
    else LastValueFor(rec[..|rec| - 1], k)
  }

  /** What the inserted row holds under the name `k`: the last such field's value, None as "". */
  function Placed(rec: Record, k: string): string {
    match LastValueFor(rec, k)
    case Some(v) => OrEmpty(v)
    case None => ""
  }

  /** `max(1, len(headers))`. */
  function Width(hr: seq<string>): nat {
    if |hr| == 0 then 1 else |hr|
  }

  /** The loop `row_values[idx_map[k]] = value` over `record.items()`. */
  function PlaceFields(row: seq<string>, rec: Record, hr: seq<string>): (r: seq<string>)
    requires |hr| <= |row|
    ensures |r| == |row|
  {
    if rec == [] then row
    else
      var prev := PlaceFields(row, rec[..|rec| - 1], hr);
      var f := rec[|rec| - 1];
      var p := HeaderPos(hr, Norm(f.name));
      if p >= 0 then prev[p := OrEmpty(f.value)] else prev
  }

  /** The header-aligned row the insert path appends. */
  function InsertRow(hr: seq<string>, rec: Record): (row: seq<string>)
    ensures |row| == Width(hr)
  {
    PlaceFields(Blanks(Width(hr)), rec, hr)
  }

  /** At the position of name `k` stands the last value written under `k`, or what was there. */
  lemma {:induction false} PlaceFieldsAt(row: seq<string>, rec: Record, hr: seq<string>, k: string)
    requires |hr| <= |row| && HeaderPos(hr, k) >= 0
    ensures PlaceFields(row, rec, hr)[HeaderPos(hr, k)] ==
      match LastValueFor(rec, k) case Some(v) => OrEmpty(v) case None => row[HeaderPos(hr, k)]
  {
    if rec != [] {
      var pre := rec[..|rec| - 1];
      PlaceFieldsAt(row, pre, hr, k);
    }
  }

  /** A position that belongs to no header name keeps its value. */
  lemma {:induction false} PlaceFieldsElsewhere(row: seq<string>, rec: Record, hr: seq<string>, j: int)
    requires |hr| <= |row| && 0 <= j < |row| && !IsHeaderPos(hr, j)
    ensures PlaceFields(row, rec, hr)[j] == row[j]
  {
    if rec != [] {
      var pre := rec[..|rec| - 1];
      PlaceFieldsElsewhere(row, pre, hr, j);
      var p := HeaderPos(hr, Norm(rec[|rec| - 1].name));
      if p >= 0 {
        assert IsHeaderPos(hr, p);
      }
    }
  }

  /**
   * The inserted row has width `max(1, len(headers))`; each name's position holds
   * the last value given under that name ("" when none, None as ""); every other
   * cell is "", so fields with no header are dropped.
   */
  lemma InsertRowLayout(hr: seq<string>, rec: Record)
    ensures |InsertRow(hr, rec)| == if |hr| == 0 then 1 else |hr|
    ensures forall k :: HeaderPos(hr, k) >= 0 ==> InsertRow(hr, rec)[HeaderPos(hr, k)] == Placed(rec, k)
    ensures forall j :: 0 <= j < |InsertRow(hr, rec)| && !IsHeaderPos(hr, j) ==> InsertRow(hr, rec)[j] == ""
  {
    var blank := Blanks(Width(hr));
    forall k | HeaderPos(hr, k) >= 0 ensures InsertRow(hr, rec)[HeaderPos(hr, k)] == Placed(rec, k) {
      PlaceFieldsAt(blank, rec, hr, k);
    }
    forall j | 0 <= j < |InsertRow(hr, rec)| && !IsHeaderPos(hr, j) ensures InsertRow(hr, rec)[j] == "" {
      PlaceFieldsElsewhere(blank, rec, hr, j);
    }
  }

  /** The part of `append_by_header` and the insert path that builds `row_values`. */
  method BuildRow(ws: Worksheet, record: Record) returns (values: seq<string>)
    ensures values == InsertRow(Row(ws.cells, 1), record)
  {
    var idx := HeaderIndexMap(ws);
    var hr := ws.RowValues(1);
    values := FillRow(hr, idx, record);
  }

  /** The loop over `record.items()` writing each mapped field at its header position. */
  method FillRow(hr: seq<string>, idx: map<string, nat>, record: Record) returns (values: seq<string>)
    requires IndexesHeaders(idx, hr)
    ensures values == InsertRow(hr, record)
  {
    values := Blanks(Width(hr));
    var i := 0;
    while i < |record|
      invariant 0 <= i <= |record|
      invariant values == PlaceFields(Blanks(Width(hr)), record[..i], hr)
    {
      var k := Norm(record[i].name);
      assert record[..i + 1][..i] == record[..i];
      if k in idx {
        values := values[idx[k] := OrEmpty(record[i].value)];
      }
      i := i + 1;
    }
    assert record[..|record|] == record;
  }

  // ---------------------------------------------------------------------------
  // The selective update
  // ---------------------------------------------------------------------------

  /** `IMMUTABLE_COLS`: its trimmed, lower-cased, non-empty comma pieces. */
  function Immutable(env: Environment): set<string> {
    set x | x in CommaList(EnvValue(env, "IMMUTABLE_COLS", "")) :: Lower(x)
  }

  /** The loop `ws.update(...)` over `record.items()`: mapped, mutable fields are written one cell at a time. */
  function UpdateRow(row: seq<string>, rec: Record, hr: seq<string>, imm: set<string>): (r: seq<string>)
    ensures |r| >= |row|
  {
    if rec == [] then row
    else WriteFieldCell(UpdateRow(row, rec[..|rec| - 1], hr, imm), rec[|rec| - 1], hr, imm)
  }

  /** One pass of that loop: the field's cell is written when its name is a header and not immutable. */
  function WriteFieldCell(row: seq<string>, f: Field, hr: seq<string>, imm: set<string>): (r: seq<string>)
    ensures |r| >= |row|
  {
    var k := Norm(f.name);
    var p := HeaderPos(hr, k);
    if p >= 0 && k !in imm then WriteCell(row, p + 1, OrEmpty(f.value)) else row
  }

  /**
   * The column of name `k` holds the last value the record gives under `k`;
   * it keeps its old value when `k` is immutable or the record has no such field.
   */
  lemma {:induction false} UpdateRowAt(row: seq<string>, rec: Record, hr: seq<string>, imm: set<string>, k: string)
    requires HeaderPos(hr, k) >= 0
    ensures CellOf(UpdateRow(row, rec, hr, imm), HeaderPos(hr, k) + 1) ==
      if k in imm then CellOf(row, HeaderPos(hr, k) + 1)
      else match LastValueFor(rec, k) case Some(v) => OrEmpty(v) case None => CellOf(row, HeaderPos(hr, k) + 1)
  {
    if rec != [] {
      var pre := rec[..|rec| - 1];
      var f := rec[|rec| - 1];
      var kf := Norm(f.name);
      var p := HeaderPos(hr, kf);
      var prev := UpdateRow(row, pre, hr, imm);
      UpdateRowAt(row, pre, hr, imm, k);
      if p >= 0 && kf !in imm {
        var q := HeaderPos(hr, k);
        if kf != k {
          HeaderPosInjective(hr, k, kf);
          WriteCellOther(prev, p + 1, OrEmpty(f.value), q + 1);
        }
      }
    }
  }

  /** A column that belongs to no header name is never written. */
  lemma {:induction false} UpdateRowElsewhere(row: seq<string>, rec: Record, hr: seq<string>, imm: set<string>, c: int)
    requires c >= 1 && !IsHeaderPos(hr, c - 1)
    ensures CellOf(UpdateRow(row, rec, hr, imm), c) == CellOf(row, c)
  {
    if rec != [] {
      var pre := rec[..|rec| - 1];
      var f := rec[|rec| - 1];
      var kf := Norm(f.name);
      var p := HeaderPos(hr, kf);
      UpdateRowElsewhere(row, pre, hr, imm, c);
      if p >= 0 && kf !in imm {
        NotHeaderPos(hr, c - 1, kf);
        WriteCellOther(UpdateRow(row, pre, hr, imm), p + 1, OrEmpty(f.value), c);
      }
    }
  }

  /** Step 1: with `preserve_timestamp`, a non-empty stored timestamp is put back into the record. */
  function PreserveStored(cells: Grid, r: int, ts: string, rec: Record, preserve: bool): Record {
    var tp := HeaderPos(Row(cells, 1), ts);
    if preserve && tp >= 0 && Cell(cells, r, tp + 1) != "" then Set(rec, ts, Some(Cell(cells, r, tp + 1))) else rec
  }

  /** Step 2: `updated_at` gets the clock reading when the column exists and the record lacks a non-blank value. */
  function FillUpdatedAt(hr: seq<string>, upd: string, rec: Record, now: string): Record {
    if HeaderPos(hr, upd) >= 0 && (!Has(rec, upd) || Trim(OrEmpty(Get(rec, upd))) == "") then Set(rec, upd, Some(now))
    else rec
  }

  /** The record as the update loop sees it (the caller's dict is changed too). */
  function MergeRecord(cells: Grid, r: int, cols: ColNames, rec: Record, preserve: bool, now: string): Record {
    FillUpdatedAt(Row(cells, 1), cols.updatedAt, PreserveStored(cells, r, cols.timestamp, rec, preserve), now)
  }

  // ---------------------------------------------------------------------------
  // upsert_by_wamid
  // ---------------------------------------------------------------------------

  datatype UpsertOutcome = UpsertOutcome(row: nat, created: bool)

  /** The `ValueError` raised for a record without a key. */
  datatype UpsertError = MissingKey

  /** What one upsert returns, the sheet afterwards, and the caller's record afterwards. */
  datatype UpsertStep = UpsertStep(result: Result<UpsertOutcome, UpsertError>, cells: Grid, record: Record)

  /** The literal field `wamid` when present, else the configured alias. */
  function KeyField(rec: Record, cols: ColNames): string {
    if Has(rec, "wamid") then "wamid" else cols.wamid
  }

  /** The trimmed key the upsert looks for. */
  function RecordKey(rec: Record, cols: ColNames): string {
    Trim(OrEmpty(Get(rec, KeyField(rec, cols))))
  }

  /** The row number an insert reports: the re-lookup result, else the number of rows. */
  function InsertedRowNumber(after: Grid, keyCol: string, key: string): nat {
    match FindRow(after, keyCol, key)
    case Some(r) => r
    case None => |after|
  }

  function InsertStep(cells: Grid, keyCol: string, key: string, rec: Record): UpsertStep {
    var after := cells + [InsertRow(Row(cells, 1), rec)];
    UpsertStep(Success(UpsertOutcome(InsertedRowNumber(after, keyCol, key), true)), after, rec)
  }

  function UpdateStep(cells: Grid, r: nat, cols: ColNames, imm: set<string>, rec: Record, preserve: bool, now: string): UpsertStep
    requires 1 <= r <= |cells|
  {
    var merged := MergeRecord(cells, r, cols, rec, preserve, now);
    var row := UpdateRow(cells[r - 1], merged, Row(cells, 1), imm);
    UpsertStep(Success(UpsertOutcome(r, false)), cells[r - 1 := row], merged)
  }

  /** The upsert for the column names `cols` and the immutable columns `imm`. */
  function UpsertWith(cells: Grid, cols: ColNames, imm: set<string>, rec: Record, preserve: bool, now: string): UpsertStep {
    var key := RecordKey(rec, cols);
    if key == "" then UpsertStep(Failure(MissingKey), cells, rec)
    else
      match FindRow(cells, cols.wamid, key)
      case None => InsertStep(cells, cols.wamid, key, rec)
      case Some(r) => UpdateStep(cells, r, cols, imm, rec, preserve, now)
  }

  /** `upsert_by_wamid(record, preserve_timestamp)` over the sheet `cells`, with the clock reading `now`. */
  function UpsertSpec(cells: Grid, env: Environment, rec: Record, preserve: bool, now: string): UpsertStep {
    UpsertWith(cells, Colnames(env), Immutable(env), rec, preserve, now)
  }

  /** `upsert_by_wamid`: returns the outcome and the caller's record as the call leaves it. */
  method Upsert(ws: Worksheet, env: Environment, record: Record, preserve: bool, now: string)
    returns (res: Result<UpsertOutcome, UpsertError>, recordAfter: Record)
    modifies ws
    ensures UpsertStep(res, ws.cells, recordAfter) == UpsertSpec(old(ws.cells), env, record, preserve, now)
  {
    var cols := Colnames(env);
    var imm := Immutable(env);
    res, recordAfter := UpsertCore(ws, cols, imm, record, preserve, now);
  }

  /** The body of `upsert_by_wamid` once the configuration is read. */
  method UpsertCore(ws: Worksheet, cols: ColNames, imm: set<string>, record: Record, preserve: bool, now: string)
    returns (res: Result<UpsertOutcome, UpsertError>, recordAfter: Record)
    modifies ws
    ensures UpsertStep(res, ws.cells, recordAfter) == UpsertWith(old(ws.cells), cols, imm, record, preserve, now)
  {
    var key := RecordKey(record, cols);
    if key == "" {
      return Failure(MissingKey), record;
    }
    var found := FindRowByKey(ws, cols.wamid, key);
    if found.None? {
      res := UpsertNew(ws, cols, imm, record, preserve, now);
      return res, record;
    }
    res, recordAfter := UpsertFound(ws, found.value, cols, imm, record, preserve, now);
  }

  /** The branch of `upsert` for a key not in the sheet: the record is appended. */
  method UpsertNew(ws: Worksheet, cols: ColNames, imm: set<string>, record: Record, preserve: bool, now: string)
    returns (res: Result<UpsertOutcome, UpsertError>)
    requires RecordKey(record, cols) != "" && FindRow(ws.cells, cols.wamid, RecordKey(record, cols)).None?
    modifies ws
    ensures UpsertStep(res, ws.cells, record) == UpsertWith(old(ws.cells), cols, imm, record, preserve, now)
  {
    ghost var g0 := ws.cells;
    var key := RecordKey(record, cols);
    assert UpsertWith(g0, cols, imm, record, preserve, now) == InsertStep(g0, cols.wamid, key, record);
    var row := InsertNew(ws, cols.wamid, key, record);
    res := Success(UpsertOutcome(row, true));
  }

  /** The branch of `upsert` for a key found at row `r`: that row is updated. */
  method UpsertFound(ws: Worksheet, r: nat, cols: ColNames, imm: set<string>, record: Record, preserve: bool, now: string)
    returns (res: Result<UpsertOutcome, UpsertError>, recordAfter: Record)
    requires RecordKey(record, cols) != "" && FindRow(ws.cells, cols.wamid, RecordKey(record, cols)) == Some(r)
    modifies ws
    ensures UpsertStep(res, ws.cells, recordAfter) == UpsertWith(old(ws.cells), cols, imm, record, preserve, now)
  {
    ghost var g0 := ws.cells;
    assert UpsertWith(g0, cols, imm, record, preserve, now) == UpdateStep(g0, r, cols, imm, record, preserve, now);
    recordAfter := UpdateExisting(ws, r, cols, imm, record, preserve, now);
    res := Success(UpsertOutcome(r, false));
  }

  /** The insert path: append the header-aligned row, then look the key up again. */
  method InsertNew(ws: Worksheet, keyCol: string, key: string, record: Record) returns (row: nat)
    modifies ws
    ensures ws.cells == old(ws.cells) + [InsertRow(Row(old(ws.cells), 1), record)]
    ensures row == InsertedRowNumber(ws.cells, keyCol, key)
  {
    var values := BuildRow(ws, record);
    ws.AppendRow(values);
    var found := FindRowByKey(ws, keyCol, key);
    if found.Some? {
      row := found.value;
    } else {
      row := ws.CountRows();
    }
  }

  /** The update path: steps 1 and 2 on the record, then step 3 on the sheet. */
  method UpdateExisting(ws: Worksheet, r: nat, cols: ColNames, imm: set<string>, record: Record, preserve: bool, now: string)
    returns (merged: Record)
    requires 2 <= r <= |ws.cells|
    modifies ws
    ensures merged == MergeRecord(old(ws.cells), r, cols, record, preserve, now)
    ensures ws.cells == old(ws.cells)[r - 1 := UpdateRow(old(ws.cells)[r - 1], merged, Row(old(ws.cells), 1), imm)]
  {
    var idx := HeaderIndexMap(ws);
    var hr := ws.RowValues(1);
    merged := PreserveTimestamp(ws, idx, r, cols.timestamp, record, preserve);
    if cols.updatedAt in idx && (!Has(merged, cols.updatedAt) || Trim(OrEmpty(Get(merged, cols.updatedAt))) == "") {
      merged := Set(merged, cols.updatedAt, Some(now));
    }
    WriteFields(ws, r, idx, hr, merged, imm);
  }

  /** Step 1 of the update path, reading the stored timestamp cell. */
  method PreserveTimestamp(ws: Worksheet, idx: map<string, nat>, r: int, ts: string, record: Record, preserve: bool)
    returns (rec: Record)
    requires IndexesHeaders(idx, Row(ws.cells, 1))
    ensures rec == PreserveStored(ws.cells, r, ts, record, preserve)
  {
    rec := record;
    if preserve && ts in idx {
      var current := ws.CellValue(r, idx[ts] + 1);
      if current != "" {
        rec := Set(rec, ts, Some(current));
      }
    }
  }

  /** Step 3: one `ws.update` per mapped field whose column is not immutable. */
  method WriteFields(ws: Worksheet, r: nat, idx: map<string, nat>, hr: seq<string>, rec: Record, imm: set<string>)
    requires 1 <= r <= |ws.cells| && IndexesHeaders(idx, hr)
    modifies ws
    ensures ws.cells == old(ws.cells)[r - 1 := UpdateRow(old(ws.cells)[r - 1], rec, hr, imm)]
  {
    var i := 0;
    ghost var g0 := ws.cells;
    assert g0[r - 1 := UpdateRow(g0[r - 1], rec[..0], hr, imm)] == g0;
    while i < |rec|
      invariant 0 <= i <= |rec|
      invariant ws.cells == g0[r - 1 := UpdateRow(g0[r - 1], rec[..i], hr, imm)]
    {
      ghost var prev := UpdateRow(g0[r - 1], rec[..i], hr, imm);
      WriteField(ws, r, idx, hr, rec[i], imm);
      UpdateRowStep(g0[r - 1], rec, i, hr, imm);
      UpdateTwice(g0, r - 1, prev, WriteFieldCell(prev, rec[i], hr, imm));
      i := i + 1;
    }
    assert rec[..|rec|] == rec;
  }

  /** One pass of the update loop: the field is written into row `r` and no other row changes. */
  method WriteField(ws: Worksheet, r: nat, idx: map<string, nat>, hr: seq<string>, f: Field, imm: set<string>)
    requires 1 <= r <= |ws.cells| && IndexesHeaders(idx, hr)
    modifies ws
    ensures ws.cells == old(ws.cells)[r - 1 := WriteFieldCell(old(ws.cells)[r - 1], f, hr, imm)]
  {
    var k := Norm(f.name);
    IndexAt(idx, hr, k);
    if k in idx && k !in imm {
      ws.UpdateCell(r, idx[k] + 1, OrEmpty(f.value));
    } else {
      assert ws.cells[r - 1 := ws.cells[r - 1]] == ws.cells;
    }
  }

  /** The dictionary's answer for one name `k`. */
  lemma IndexAt(idx: map<string, nat>, hr: seq<string>, k: string)
    requires IndexesHeaders(idx, hr)
    ensures (k in idx) == (HeaderPos(hr, k) >= 0)
    ensures k in idx ==> idx[k] == HeaderPos(hr, k)
  {
  }

  /** The loop's function over one field more. */
  lemma UpdateRowStep(row: seq<string>, rec: Record, i: nat, hr: seq<string>, imm: set<string>)
    requires i < |rec|
    ensures UpdateRow(row, rec[..i + 1], hr, imm) == WriteFieldCell(UpdateRow(row, rec[..i], hr, imm), rec[i], hr, imm)
  {
    assert rec[..i + 1][..i] == rec[..i];
  }

  /** Updating one place twice keeps the second value. */
  lemma UpdateTwice<T>(s: seq<T>, j: int, a: T, b: T)
    requires 0 <= j < |s|
    ensures s[j := a][j := b] == s[j := b]
  {
  }

  // ---------------------------------------------------------------------------
  // Properties of the upsert
  // ---------------------------------------------------------------------------

  /** Appending one entry to a column extends the first-match search by that entry alone. */
  lemma {:induction false} FirstMatchAppend(col: seq<string>, x: string, key: string, exact: bool, from: nat)
    requires from <= |col|
    ensures FirstMatch(col + [x], key, exact, from) ==
      if FirstMatch(col, key, exact, from).Some? then FirstMatch(col, key, exact, from)
      else if KeyMatch(x, key, exact) then Some(|col|) else None
    decreases |col| - from
  {
    if from < |col| {
      assert (col + [x])[from] == col[from];
      if !KeyMatch(col[from], key, exact) {
        FirstMatchAppend(col, x, key, exact, from + 1);
      }
    }
  }

  /** Both scans over a column extended by one entry `x`, when neither matched before. */
  lemma ScanAfterAppend(col: seq<string>, x: string, k: string)
    requires |col| >= 1 && ScanColumn(col, k, 1).None?
    ensures ScanColumn(col + [x], k, 1).None? || ScanColumn(col + [x], k, 1) == Some(|col| + 1)
    ensures Trim(x) == k ==> ScanColumn(col + [x], k, 1) == Some(|col| + 1)
  {
    FirstMatchAppend(col, x, k, true, 1);
    FirstMatchAppend(col, x, k, false, 1);
  }

  /**
   * When the key is in no data row, after one more row is appended the lookup
   * finds at most that row, and finds it when its key cell holds the key.
   */
  lemma FindAfterAppend(cells: Grid, keyCol: string, key: string, newRow: seq<string>)
    requires FindRow(cells, keyCol, key).None?
    ensures FindRow(cells + [newRow], keyCol, key).None? || FindRow(cells + [newRow], keyCol, key) == Some(|cells| + 1)
    ensures (|cells| >= 1 && Trim(key) != "" && KeyColumn(cells, keyCol).Some? &&
      Trim(CellOf(newRow, KeyColumn(cells, keyCol).value)) == Trim(key)) ==>
      FindRow(cells + [newRow], keyCol, key) == Some(|cells| + 1)
  {
    var k := Trim(key);
    if k != "" && cells != [] {
      KeyColumnAppend(cells, newRow, keyCol);
      if KeyColumn(cells, keyCol).Some? {
        var c := KeyColumn(cells, keyCol).value;
        ColumnAppend(cells, newRow, c);
        ScanAfterAppend(Column(cells, c), CellOf(newRow, c), k);
      }
    }
  }

  /** Appending a row below the header leaves the key column's number alone. */
  lemma KeyColumnAppend(cells: Grid, newRow: seq<string>, keyCol: string)
    requires |cells| >= 1
    ensures KeyColumn(cells + [newRow], keyCol) == KeyColumn(cells, keyCol)
  {
    assert Row(cells + [newRow], 1) == Row(cells, 1);
  }

  /** Appending a row extends each column by that row's cell. */
  lemma ColumnAppend(cells: Grid, newRow: seq<string>, c: int)
    ensures Column(cells + [newRow], c) == Column(cells, c) + [CellOf(newRow, c)]
  {
    assert (cells + [newRow])[..|cells|] == cells;
  }

  /** The first match is the index that matches with no match before it. */
  lemma FirstMatchIs(col: seq<string>, key: string, exact: bool, from: nat, i: nat)
    requires from <= i < |col| && KeyMatch(col[i], key, exact)
    requires forall j :: from <= j < i ==> !KeyMatch(col[j], key, exact)
    ensures FirstMatch(col, key, exact, from) == Some(i)
    decreases i - from
  {
    if from < i {
      FirstMatchIs(col, key, exact, from + 1, i);
    }
  }

  /** Writing the key, or the old value, into the found key cell keeps it the one found. */
  lemma ScanColumnWrite(col: seq<string>, k: string, i: nat, x: string)
    requires 1 <= i < |col| && ScanColumn(col, k, 1) == Some(i + 1)
    requires x == k || x == col[i]
    ensures ScanColumn(col[i := x], k, 1) == Some(i + 1)
  {
    var col' := col[i := x];
    if x == col[i] {
      assert col' == col;
    } else {
      assert FirstMatch(col, k, true, 1).None?;
      FirstMatchSpec(col, k, true, 1);
      FirstMatchIs(col', k, true, 1, i);
    }
  }

  /** Rewriting one row changes the column at that row only. */
  lemma ColumnAfterRowWrite(cells: Grid, r: nat, row: seq<string>, c: int)
    requires 1 <= r <= |cells|
    ensures Column(cells[r - 1 := row], c) == Column(cells, c)[r - 1 := CellOf(row, c)]
  {
    var after := cells[r - 1 := row];
    var col' := Column(cells, c)[r - 1 := CellOf(row, c)];
    forall q | 0 <= q < |after|
      ensures Column(after, c)[q] == col'[q]
    {
      ColumnAt(after, c, q);
      ColumnAt(cells, c, q);
      if q != r - 1 {
        assert after[q] == cells[q];
      }
    }
  }

  /** The lookup of a trimmed key is the scan of the key column. */
  lemma FindRowIsScan(cells: Grid, keyCol: string, key: string, c: nat)
    requires Trim(key) == key && key != "" && KeyColumn(cells, keyCol) == Some(c)
    ensures FindRow(cells, keyCol, key) == ScanColumn(Column(cells, c), key, 1)
  {
  }

  /** Rewriting the found row of a column scan keeps it the one found. */
  lemma ScanAfterRowWrite(cells: Grid, c: nat, key: string, r: nat, row: seq<string>)
    requires 2 <= r <= |cells| && ScanColumn(Column(cells, c), key, 1) == Some(r)
    requires CellOf(row, c) == key || CellOf(row, c) == Cell(cells, r, c)
    ensures ScanColumn(Column(cells[r - 1 := row], c), key, 1) == Some(r)
  {
    var col := Column(cells, c);
    ColumnAfterRowWrite(cells, r, row, c);
    ColumnAt(cells, c, r - 1);
    ScanColumnWrite(col, key, r - 1, CellOf(row, c));
  }

  /**
   * Rewriting the found row keeps it the one found, as long as its key cell
   * afterwards holds the key or what it held before.
   */
  lemma FindRowAfterRowWrite(cells: Grid, keyCol: string, key: string, r: nat, row: seq<string>, c: nat)
    requires Trim(key) == key && key != "" && KeyColumn(cells, keyCol) == Some(c)
    requires 2 <= r <= |cells| && ScanColumn(Column(cells, c), key, 1) == Some(r)
    requires CellOf(row, c) == key || CellOf(row, c) == Cell(cells, r, c)
    ensures FindRow(cells[r - 1 := row], keyCol, key) == Some(r)
  {
    var after := cells[r - 1 := row];
    KeyColumnAfterRowWrite(cells, r, row, keyCol);
    ScanAfterRowWrite(cells, c, key, r, row);
    FindRowIsScan(after, keyCol, key, c);
  }

  /** A key that is found was found by the scan of the header's key column. */
  lemma FoundByScan(cells: Grid, keyCol: string, key: string)
    requires Trim(key) == key && FindRow(cells, keyCol, key).Some?
    ensures key != "" && HeaderPos(Row(cells, 1), keyCol) >= 0
    ensures var c := HeaderPos(Row(cells, 1), keyCol) + 1;
      KeyColumn(cells, keyCol) == Some(c) && ScanColumn(Column(cells, c), key, 1) == FindRow(cells, keyCol, key)
  {
    var p := HeaderPos(Row(cells, 1), keyCol);
    assert key != "";
    assert KeyColumn(cells, keyCol).Some?;
    assert KeyColumn(cells, keyCol) == Some(p + 1);
    assert FindRow(cells, keyCol, key) == ScanColumn(Column(cells, p + 1), key, 1);
  }

  /** Rewriting a found row with the key, or with its old key cell, keeps it the row found. */
  lemma RowWriteKeepsFound(cells: Grid, keyCol: string, key: string, r: nat, row: seq<string>)
    requires Trim(key) == key && key != "" && FindRow(cells, keyCol, key) == Some(r)
    requires var c := HeaderPos(Row(cells, 1), keyCol) + 1; CellOf(row, c) == key || CellOf(row, c) == Cell(cells, r, c)
    ensures FindRow(cells[r - 1 := row], keyCol, key) == Some(r)
  {
    var c := HeaderPos(Row(cells, 1), keyCol) + 1;
    FoundByScan(cells, keyCol, key);
    assert FindRow(cells[r - 1 := row], keyCol, key) == Some(r) by {
      FindRowAfterRowWrite(cells, keyCol, key, r, row, c);
    }
  }

  /** Rewriting a data row leaves the header, hence every column number, alone. */
  lemma KeyColumnAfterRowWrite(cells: Grid, r: nat, row: seq<string>, keyCol: string)
    requires 2 <= r <= |cells|
    ensures KeyColumn(cells[r - 1 := row], keyCol) == KeyColumn(cells, keyCol)
  {
    assert Row(cells[r - 1 := row], 1) == Row(cells, 1);
  }

  /** A record without a non-blank key is refused, and neither the sheet nor the record changes. */
  lemma UpsertRequiresKey(cells: Grid, cols: ColNames, imm: set<string>, rec: Record, preserve: bool, now: string)
    ensures UpsertWith(cells, cols, imm, rec, preserve, now).result.Failure? <==> RecordKey(rec, cols) == ""
    ensures RecordKey(rec, cols) == "" ==> UpsertWith(cells, cols, imm, rec, preserve, now) == UpsertStep(Failure(MissingKey), cells, rec)
  {
  }

  /** A new key appends exactly the header-aligned row, reports that row and `created`, and leaves the record alone. */
  lemma UpsertInserts(cells: Grid, cols: ColNames, imm: set<string>, rec: Record, preserve: bool, now: string)
    requires RecordKey(rec, cols) != "" && FindRow(cells, cols.wamid, RecordKey(rec, cols)).None?
    ensures UpsertWith(cells, cols, imm, rec, preserve, now) ==
      UpsertStep(Success(UpsertOutcome(|cells| + 1, true)), cells + [InsertRow(Row(cells, 1), rec)], rec)
  {
    FindAfterAppend(cells, cols.wamid, RecordKey(rec, cols), InsertRow(Row(cells, 1), rec));
  }

  /**
   * What the update writes into column `c` (1-based): the last value the record
   * gives under that column's header name, when the column is a mapped,
   * mutable one and the record has such a field; None when the cell is left alone.
   */
  function WrittenValue(rec: Record, hr: seq<string>, imm: set<string>, c: int): Option<string> {
    if IsHeaderPos(hr, c - 1) && Norm(hr[c - 1]) !in imm then
      match LastValueFor(rec, Norm(hr[c - 1]))
      case Some(v) => Some(OrEmpty(v))
      case None => None
    else None
  }

  /** The update loop changes exactly the cells `WrittenValue` names. */
  lemma UpdateRowCells(row: seq<string>, rec: Record, hr: seq<string>, imm: set<string>, c: int)
    requires c >= 1
    ensures CellOf(UpdateRow(row, rec, hr, imm), c) ==
      match WrittenValue(rec, hr, imm, c) case Some(v) => v case None => CellOf(row, c)
  {
    if IsHeaderPos(hr, c - 1) {
      UpdateRowAt(row, rec, hr, imm, Norm(hr[c - 1]));
    } else {
      UpdateRowElsewhere(row, rec, hr, imm, c);
    }
  }

  /**
   * A known key updates its row in place: same row, `created` false, no row
   * added, every other row as it was, and in the row only the cells named by
   * `WrittenValue` of the merged record change.
   */
  lemma UpsertUpdates(cells: Grid, cols: ColNames, imm: set<string>, rec: Record, preserve: bool, now: string, r: nat)
    requires RecordKey(rec, cols) != "" && FindRow(cells, cols.wamid, RecordKey(rec, cols)) == Some(r)
    ensures var s := UpsertWith(cells, cols, imm, rec, preserve, now);
      s.result == Success(UpsertOutcome(r, false)) &&
      s.record == MergeRecord(cells, r, cols, rec, preserve, now) &&
      |s.cells| == |cells| &&
      (forall q :: 1 <= q <= |cells| && q != r ==> Row(s.cells, q) == Row(cells, q)) &&
      forall c :: c >= 1 ==>
        Cell(s.cells, r, c) == (match WrittenValue(s.record, Row(cells, 1), imm, c) case Some(v) => v case None => Cell(cells, r, c))
  {
    var merged := MergeRecord(cells, r, cols, rec, preserve, now);
    var s := UpsertWith(cells, cols, imm, rec, preserve, now);
    forall c | c >= 1
      ensures Cell(s.cells, r, c) == match WrittenValue(merged, Row(cells, 1), imm, c) case Some(v) => v case None => Cell(cells, r, c)
    {
      UpdateRowCells(cells[r - 1], merged, Row(cells, 1), imm, c);
    }
  }

  /** Every field name is in normal form and no two are equal, as in a record keyed by the configured column names. */
  predicate PlainNames(rec: Record) {
    DistinctKeys(rec) && forall i :: 0 <= i < |rec| ==> Norm(rec[i].name) == rec[i].name
  }

  /** For such a record, the last field under a normal name is the dict entry of that name. */
  lemma {:induction false} LastValueForPlain(rec: Record, k: string)
    requires PlainNames(rec) && Norm(k) == k
    ensures LastValueFor(rec, k) == if Has(rec, k) then Some(Get(rec, k)) else None
  {
    if rec != [] {
      var pre := rec[..|rec| - 1];
      var f := rec[|rec| - 1];
      PlainPrefix(rec);
      LastValueForPlain(pre, k);
      LastSplit(rec);
      IndexOfKeyAppend(pre, f, k);
      assert Norm(f.name) == f.name;
      if f.name == k {
        assert forall j :: 0 <= j < |pre| ==> pre[j].name != k by {
          assert forall j :: 0 <= j < |pre| ==> pre[j] == rec[j] && rec[j].name != rec[|rec| - 1].name;
        }
        assert IndexOfKey(pre, k) == -1;
      }
    }
  }

  /** Dropping the last field keeps the names plain. */
  lemma PlainPrefix(rec: Record)
    requires rec != [] && PlainNames(rec)
    ensures PlainNames(rec[..|rec| - 1])
  {
    var pre := rec[..|rec| - 1];
    assert forall j :: 0 <= j < |pre| ==> pre[j] == rec[j];
  }

  /** Assigning a normal name keeps the record plain. */
  lemma SetKeepsPlain(rec: Record, k: string, v: Option<string>)
    requires PlainNames(rec) && Norm(k) == k
    ensures PlainNames(Set(rec, k, v))
  {
    var i := IndexOfKey(rec, k);
    var r := Set(rec, k, v);
    SetKeepsDistinct(rec, k, v);
    if i >= 0 {
      assert r == rec[i := Field(k, v)];
    } else {
      assert r == rec + [Field(k, v)];
    }
    forall j | 0 <= j < |r| ensures Norm(r[j].name) == r[j].name {
      if j < |rec| && j != i {
        assert r[j] == rec[j];
      }
    }
  }

  /**
   * Steps 1 and 2 change only two entries of the record: the timestamp, put
   * back from the sheet when preserved and non-empty, and `updated_at`, set to
   * the clock reading when its column exists and the record has no non-blank value.
   */
  lemma MergeRecordFields(cells: Grid, r: int, cols: ColNames, rec: Record, preserve: bool, now: string)
    requires cols.timestamp != cols.updatedAt
    ensures var m := MergeRecord(cells, r, cols, rec, preserve, now);
      var tp := HeaderPos(Row(cells, 1), cols.timestamp);
      var stored := Cell(cells, r, tp + 1);
      (Get(m, cols.timestamp) == if preserve && tp >= 0 && stored != "" then Some(stored) else Get(rec, cols.timestamp)) &&
      (Get(m, cols.updatedAt) ==
        if HeaderPos(Row(cells, 1), cols.updatedAt) >= 0 &&
          (!Has(rec, cols.updatedAt) || Trim(OrEmpty(Get(rec, cols.updatedAt))) == "")
        then Some(now) else Get(rec, cols.updatedAt)) &&
      forall k :: k != cols.timestamp && k != cols.updatedAt ==> Has(m, k) == Has(rec, k) && Get(m, k) == Get(rec, k)
  {
  }

  /** A known key takes the update path. */
  lemma UpsertIsUpdate(cells: Grid, cols: ColNames, imm: set<string>, rec: Record, preserve: bool, now: string, r: nat)
    requires RecordKey(rec, cols) != "" && FindRow(cells, cols.wamid, RecordKey(rec, cols)) == Some(r)
    ensures 2 <= r <= |cells|
    ensures UpsertWith(cells, cols, imm, rec, preserve, now) == UpdateStep(cells, r, cols, imm, rec, preserve, now)
  {
  }

  /** The cell of name `k` after the update step: the merged record's last value under `k`, unless `k` is immutable. */
  lemma UpdateStepCell(cells: Grid, r: nat, cols: ColNames, imm: set<string>, rec: Record, preserve: bool, now: string, k: string)
    requires 1 <= r <= |cells| && HeaderPos(Row(cells, 1), k) >= 0
    ensures var c := HeaderPos(Row(cells, 1), k) + 1;
      Cell(UpdateStep(cells, r, cols, imm, rec, preserve, now).cells, r, c) ==
        if k in imm then Cell(cells, r, c)
        else match LastValueFor(MergeRecord(cells, r, cols, rec, preserve, now), k)
          case Some(v) => OrEmpty(v) case None => Cell(cells, r, c)
  {
    UpdateRowAt(cells[r - 1], MergeRecord(cells, r, cols, rec, preserve, now), Row(cells, 1), imm, k);
  }

  /** Steps 1 and 2 keep a plain record plain, so the update loop reads it as a dict. */
  lemma MergeKeepsPlain(cells: Grid, r: int, cols: ColNames, rec: Record, preserve: bool, now: string)
    requires Normalized(cols) && PlainNames(rec)
    ensures PlainNames(MergeRecord(cells, r, cols, rec, preserve, now))
  {
    var rec1 := PreserveStored(cells, r, cols.timestamp, rec, preserve);
    PreserveKeepsPlain(cells, r, cols.timestamp, rec, preserve);
    FillKeepsPlain(Row(cells, 1), cols.updatedAt, rec1, now);
  }

  lemma PreserveKeepsPlain(cells: Grid, r: int, ts: string, rec: Record, preserve: bool)
    requires Norm(ts) == ts && PlainNames(rec)
    ensures PlainNames(PreserveStored(cells, r, ts, rec, preserve))
  {
    var tp := HeaderPos(Row(cells, 1), ts);
    if preserve && tp >= 0 && Cell(cells, r, tp + 1) != "" {
      SetKeepsPlain(rec, ts, Some(Cell(cells, r, tp + 1)));
    }
  }

  lemma FillKeepsPlain(hr: seq<string>, upd: string, rec: Record, now: string)
    requires Norm(upd) == upd && PlainNames(rec)
    ensures PlainNames(FillUpdatedAt(hr, upd, rec, now))
  {
    if HeaderPos(hr, upd) >= 0 && (!Has(rec, upd) || Trim(OrEmpty(Get(rec, upd))) == "") {
      SetKeepsPlain(rec, upd, Some(now));
    }
  }

  /** The merged record's last timestamp field holds the stored, non-empty timestamp. */
  lemma MergedTimestamp(cells: Grid, r: int, cols: ColNames, rec: Record, now: string)
    requires Normalized(cols) && cols.timestamp != cols.updatedAt && PlainNames(rec)
    requires HeaderPos(Row(cells, 1), cols.timestamp) >= 0
    requires Cell(cells, r, HeaderPos(Row(cells, 1), cols.timestamp) + 1) != ""
    ensures LastValueFor(MergeRecord(cells, r, cols, rec, true, now), cols.timestamp) ==
      Some(Some(Cell(cells, r, HeaderPos(Row(cells, 1), cols.timestamp) + 1)))
  {
    var m := MergeRecord(cells, r, cols, rec, true, now);
    MergeKeepsPlain(cells, r, cols, rec, true, now);
    MergeRecordFields(cells, r, cols, rec, true, now);
    LastValueForPlain(m, cols.timestamp);
  }

  /** The `updated_at` value the update writes: the record's own when non-blank, else the clock reading. */
  function UpdatedAtValue(rec: Record, upd: string, now: string): string {
    if !Has(rec, upd) || Trim(OrEmpty(Get(rec, upd))) == "" then now else OrEmpty(Get(rec, upd))
  }

  /** The merged record's last `updated_at` field holds the clock reading or the record's non-blank value. */
  lemma MergedUpdatedAt(cells: Grid, r: int, cols: ColNames, rec: Record, preserve: bool, now: string)
    requires Normalized(cols) && cols.timestamp != cols.updatedAt && PlainNames(rec)
    requires HeaderPos(Row(cells, 1), cols.updatedAt) >= 0
    ensures LastValueFor(MergeRecord(cells, r, cols, rec, preserve, now), cols.updatedAt) ==
      Some(Some(UpdatedAtValue(rec, cols.updatedAt, now)))
  {
    var m := MergeRecord(cells, r, cols, rec, preserve, now);
    MergeKeepsPlain(cells, r, cols, rec, preserve, now);
    MergeRecordFields(cells, r, cols, rec, preserve, now);
    LastValueForPlain(m, cols.updatedAt);
  }

  /** The cell of name `k` after an update: the merged record's value under `k`, unless `k` is immutable. */
  lemma UpdateCellIs(cells: Grid, r: nat, cols: ColNames, imm: set<string>, rec: Record, preserve: bool, now: string,
                     k: string, v: string)
    requires 1 <= r <= |cells| && HeaderPos(Row(cells, 1), k) >= 0
    requires LastValueFor(MergeRecord(cells, r, cols, rec, preserve, now), k) == Some(Some(v))
    ensures var c := HeaderPos(Row(cells, 1), k) + 1;
      Cell(UpdateStep(cells, r, cols, imm, rec, preserve, now).cells, r, c) == if k in imm then Cell(cells, r, c) else v
  {
    UpdateStepCell(cells, r, cols, imm, rec, preserve, now, k);
  }

  /** On the update path, with `preserve_timestamp` and a non-empty stored timestamp, the timestamp cell keeps its value. */
  lemma UpdatePreservesTimestamp(cells: Grid, r: nat, cols: ColNames, imm: set<string>, rec: Record, now: string)
    requires 1 <= r <= |cells|
    requires Normalized(cols) && cols.timestamp != cols.updatedAt && PlainNames(rec)
    requires HeaderPos(Row(cells, 1), cols.timestamp) >= 0
    requires Cell(cells, r, HeaderPos(Row(cells, 1), cols.timestamp) + 1) != ""
    ensures var tc := HeaderPos(Row(cells, 1), cols.timestamp) + 1;
      Cell(UpdateStep(cells, r, cols, imm, rec, true, now).cells, r, tc) == Cell(cells, r, tc)
  {
    var tc := HeaderPos(Row(cells, 1), cols.timestamp) + 1;
    assert LastValueFor(MergeRecord(cells, r, cols, rec, true, now), cols.timestamp) == Some(Some(Cell(cells, r, tc))) by {
      MergedTimestamp(cells, r, cols, rec, now);
    }
    UpdateCellIs(cells, r, cols, imm, rec, true, now, cols.timestamp, Cell(cells, r, tc));
  }

  /**
   * On the update path `updated_at` is written as the clock reading when the
   * record has no non-blank value for it, and as the record's value otherwise.
   */
  lemma UpdateFillsUpdatedAt(cells: Grid, r: nat, cols: ColNames, imm: set<string>, rec: Record, preserve: bool, now: string)
    requires 1 <= r <= |cells|
    requires Normalized(cols) && cols.timestamp != cols.updatedAt && PlainNames(rec)
    requires HeaderPos(Row(cells, 1), cols.updatedAt) >= 0 && cols.updatedAt !in imm
    ensures var uc := HeaderPos(Row(cells, 1), cols.updatedAt) + 1;
      Cell(UpdateStep(cells, r, cols, imm, rec, preserve, now).cells, r, uc) == UpdatedAtValue(rec, cols.updatedAt, now)
  {
    assert LastValueFor(MergeRecord(cells, r, cols, rec, preserve, now), cols.updatedAt) ==
        Some(Some(UpdatedAtValue(rec, cols.updatedAt, now))) by {
      MergedUpdatedAt(cells, r, cols, rec, preserve, now);
    }
    UpdateCellIs(cells, r, cols, imm, rec, preserve, now, cols.updatedAt, UpdatedAtValue(rec, cols.updatedAt, now));
  }

  /** Any other plain field comes out of steps 1 and 2 as it went in. */
  lemma MergedOther(cells: Grid, r: int, cols: ColNames, rec: Record, preserve: bool, now: string, k: string)
    requires Normalized(cols) && cols.timestamp != cols.updatedAt && PlainNames(rec)
    requires Norm(k) == k && k != cols.timestamp && k != cols.updatedAt && Has(rec, k)
    ensures LastValueFor(MergeRecord(cells, r, cols, rec, preserve, now), k) == Some(Get(rec, k))
  {
    var m := MergeRecord(cells, r, cols, rec, preserve, now);
    MergeKeepsPlain(cells, r, cols, rec, preserve, now);
    MergeRecordFields(cells, r, cols, rec, preserve, now);
    LastValueForPlain(m, k);
  }

  /**
   * An update whose merged record carries the (trimmed) key under the key
   * column keeps the found row the one found: the key cell is rewritten with
   * the key, or left as it was.
   */
  lemma UpdateKeepsRowFound(cells: Grid, r: nat, cols: ColNames, imm: set<string>, rec: Record, preserve: bool, now: string, key: string)
    requires Trim(key) == key && key != "" && FindRow(cells, cols.wamid, key) == Some(r)
    requires LastValueFor(MergeRecord(cells, r, cols, rec, preserve, now), cols.wamid) == Some(Some(key))
    ensures FindRow(UpdateStep(cells, r, cols, imm, rec, preserve, now).cells, cols.wamid, key) == Some(r)
  {
    var row := UpdateStep(cells, r, cols, imm, rec, preserve, now).cells[r - 1];
    UpdatedKeyCell(cells, r, cols, imm, rec, preserve, now, key);
    RowWriteKeepsFound(cells, cols.wamid, key, r, row);
  }

  /** An update writes one row, and leaves the key cell holding the key or what it held. */
  lemma UpdatedKeyCell(cells: Grid, r: nat, cols: ColNames, imm: set<string>, rec: Record, preserve: bool, now: string, key: string)
    requires Trim(key) == key && FindRow(cells, cols.wamid, key) == Some(r)
    requires LastValueFor(MergeRecord(cells, r, cols, rec, preserve, now), cols.wamid) == Some(Some(key))
    ensures var after := UpdateStep(cells, r, cols, imm, rec, preserve, now).cells;
      var c := HeaderPos(Row(cells, 1), cols.wamid) + 1;
      after == cells[r - 1 := after[r - 1]] &&
      (CellOf(after[r - 1], c) == key || CellOf(after[r - 1], c) == Cell(cells, r, c))
  {
    var c := HeaderPos(Row(cells, 1), cols.wamid) + 1;
    var after := UpdateStep(cells, r, cols, imm, rec, preserve, now).cells;
    FoundByScan(cells, cols.wamid, key);
    assert 1 <= r <= |cells| && HeaderPos(Row(cells, 1), cols.wamid) >= 0;
    UpdateCellIs(cells, r, cols, imm, rec, preserve, now, cols.wamid, key);
    assert |after| == |cells|;
    assert Cell(after, r, c) == CellOf(after[r - 1], c);
  }

  /** The appended row holds, under each header name, the record's last value for it. */
  lemma InsertedCell(cells: Grid, rec: Record, k: string, v: string)
    requires |cells| >= 1 && HeaderPos(Row(cells, 1), k) >= 0 && LastValueFor(rec, k) == Some(Some(v))
    ensures Cell(cells + [InsertRow(Row(cells, 1), rec)], |cells| + 1, HeaderPos(Row(cells, 1), k) + 1) == v
  {
    var row := InsertRow(Row(cells, 1), rec);
    InsertRowLayout(Row(cells, 1), rec);
    assert Row(cells + [row], |cells| + 1) == row;
  }

  /** A new row whose key column holds the key is found again at its own row number. */
  lemma InsertThenFound(cells: Grid, cols: ColNames, rec: Record)
    requires RecordKey(rec, cols) != "" && FindRow(cells, cols.wamid, RecordKey(rec, cols)).None?
    requires |cells| >= 1 && KeyColumn(cells, cols.wamid).Some?
    requires Trim(Placed(rec, cols.wamid)) == RecordKey(rec, cols)
    ensures FindRow(cells + [InsertRow(Row(cells, 1), rec)], cols.wamid, RecordKey(rec, cols)) == Some(|cells| + 1)
  {
    var key := RecordKey(rec, cols);
    var row := InsertRow(Row(cells, 1), rec);
    InsertedKeyCell(cells, cols.wamid, rec);
    TrimIdempotent(OrEmpty(Get(rec, KeyField(rec, cols))));
    FindAfterAppend(cells, cols.wamid, key, row);
  }

  /** The inserted row's cell in the key column is what the record places under the key column's name. */
  lemma InsertedKeyCell(cells: Grid, keyCol: string, rec: Record)
    requires KeyColumn(cells, keyCol).Some?
    ensures CellOf(InsertRow(Row(cells, 1), rec), KeyColumn(cells, keyCol).value) == Placed(rec, keyCol)
  {
    var hr := Row(cells, 1);
    var p := HeaderPos(hr, keyCol);
    var blank := Blanks(Width(hr));
    var row := PlaceFields(blank, rec, hr);
    assert KeyColumn(cells, keyCol) == Some(p + 1);
    assert 0 <= p < |hr| <= |row|;
    PlaceFieldsAt(blank, rec, hr, keyCol);
    assert blank[p] == "";
    assert CellOf(row, p + 1) == row[p];
  }

  /** A known key reports its row, not created, and keeps the number of rows. */
  lemma UpsertFoundResult(cells: Grid, cols: ColNames, imm: set<string>, rec: Record, preserve: bool, now: string, r: nat)
    requires RecordKey(rec, cols) != "" && FindRow(cells, cols.wamid, RecordKey(rec, cols)) == Some(r)
    ensures var s := UpsertWith(cells, cols, imm, rec, preserve, now);
      s.result == Success(UpsertOutcome(r, false)) && |s.cells| == |cells|
  {
    UpsertIsUpdate(cells, cols, imm, rec, preserve, now, r);
  }

  // ---------------------------------------------------------------------------
  // append_by_header
  // ---------------------------------------------------------------------------

  /**
   * The row number `append_by_header` reports as written: the first row the
   * lookup as written finds for the record's key after the append, else the
   * number of rows. A key already in the sheet yields the older row instead of
   * the one created.
   */
  function AppendRowNumberAsWritten(cells: Grid, cols: ColNames, rec: Record): nat {
    var after := cells + [InsertRow(Row(cells, 1), rec)];
    var key := RecordKey(rec, cols);
    if key != "" && FindRowAsWritten(after, cols.wamid, key).Some? then FindRowAsWritten(after, cols.wamid, key).value else |after|
  }

  /** The header cell of the key column holds `key` itself. */
  predicate HeaderHoldsKey(cells: Grid, keyCol: string, key: string) {
    KeyColumn(cells, keyCol).Some? && Cell(cells, 1, KeyColumn(cells, keyCol).value) == key
  }

  /** `append_by_header`, reporting the created row, which is the last one. */
  method AppendByHeader(ws: Worksheet, record: Record) returns (row: nat)
    modifies ws
    ensures ws.cells == old(ws.cells) + [InsertRow(Row(old(ws.cells), 1), record)]
    ensures row == |ws.cells| && Row(ws.cells, row) == InsertRow(Row(old(ws.cells), 1), record)
  {
    var values := BuildRow(ws, record);
    ws.AppendRow(values);
    row := ws.CountRows();
  }

  /**
   * When the key is not yet in the sheet, the report as written is the created
   * row, unless the key column's header cell is the key itself: then the lookup
   * as written answers the header row 1.
   */
  lemma AppendAsWrittenAgrees(cells: Grid, cols: ColNames, rec: Record)
    requires FindRow(cells, cols.wamid, RecordKey(rec, cols)).None?
    ensures AppendRowNumberAsWritten(cells, cols, rec) ==
      if RecordKey(rec, cols) != "" && HeaderHoldsKey(cells, cols.wamid, RecordKey(rec, cols)) then 1 else |cells| + 1
  {
    var key := RecordKey(rec, cols);
    var newRow := InsertRow(Row(cells, 1), rec);
    var after := cells + [newRow];
    TrimIdempotent(OrEmpty(Get(rec, KeyField(rec, cols))));
    assert Trim(key) == key;
    if key != "" && HeaderHoldsKey(cells, cols.wamid, key) {
      HeaderHitAfterAppend(cells, cols.wamid, key, newRow);
    } else {
      if key != "" {
        if |cells| == 0 {
          assert Row(cells, 1) == [];
          EmptySheetRow(rec, cols.wamid);
        }
        NoHeaderHitAfterAppend(cells, cols.wamid, key, newRow);
        FindRowAsWrittenAgrees(after, cols.wamid, key);
      }
      FindAfterAppend(cells, cols.wamid, key, newRow);
    }
  }

  /** A header cell holding the key makes the lookup as written answer row 1, after an append too. */
  lemma HeaderHitAfterAppend(cells: Grid, keyCol: string, key: string, newRow: seq<string>)
    requires key != "" && Trim(key) == key && HeaderHoldsKey(cells, keyCol, key)
    ensures FindRowAsWritten(cells + [newRow], keyCol, key) == Some(1)
  {
    var c := KeyColumn(cells, keyCol).value;
    assert |cells| >= 1;
    KeyColumnAppend(cells, newRow, keyCol);
    var after := cells + [newRow];
    assert Row(after, 1) == Row(cells, 1);
    ColumnAt(after, c, 0);
    assert Column(after, c)[0] == key;
    assert FirstMatch(Column(after, c), key, true, 0) == Some(0);
  }

  /** A sheet without a header gets the row `[""]`, which names no column. */
  lemma EmptySheetRow(rec: Record, keyCol: string)
    ensures HeaderPos(InsertRow([], rec), keyCol) < 0
  {
    PlaceNoHeader(Blanks(1), rec);
    assert InsertRow([], rec) == [""];
    assert Norm("") == "";
  }

  /** With no header, placing fields writes nothing. */
  lemma {:induction false} PlaceNoHeader(row: seq<string>, rec: Record)
    ensures PlaceFields(row, rec, []) == row
  {
    if rec != [] {
      PlaceNoHeader(row, rec[..|rec| - 1]);
    }
  }

  /** Without a header hit before the append, there is none after it either. */
  lemma NoHeaderHitAfterAppend(cells: Grid, keyCol: string, key: string, newRow: seq<string>)
    requires key != "" && !HeaderHoldsKey(cells, keyCol, key)
    requires |cells| == 0 ==> HeaderPos(newRow, keyCol) < 0
    ensures KeyColumn(cells + [newRow], keyCol).Some? ==>
      Cell(cells + [newRow], 1, KeyColumn(cells + [newRow], keyCol).value) != key
  {
    if |cells| >= 1 {
      KeyColumnAppend(cells, newRow, keyCol);
      assert Row(cells + [newRow], 1) == Row(cells, 1);
    } else {
      assert Row(cells + [newRow], 1) == newRow;
    }
  }

  /** A sheet already holding key "m1" in row 2: appending another "m1" creates row 3 but reports row 2. */
  lemma AppendAsWrittenReportsOlderRow(cols: ColNames)
    requires cols.wamid == "wamid"
    ensures AppendRowNumberAsWritten([["wamid"], ["m1"]], cols, [Field("wamid", Some("m1"))]) == 2
    ensures |[["wamid"], ["m1"]] + [InsertRow(["wamid"], [Field("wamid", Some("m1"))])]| == 3
  {
    var rec := [Field("wamid", Some("m1"))];
    NormOfPlain("wamid");
    NormOfPlain("m1");
    assert HeaderPos(["wamid"], "wamid") == 0;
    assert InsertRow(["wamid"], rec) == ["m1"];
    assert RecordKey(rec, cols) == "m1";
    OlderRowFound();
    assert [["wamid"], ["m1"]] + [InsertRow(["wamid"], rec)] == [["wamid"], ["m1"], ["m1"]];
  }

  /** In a key column holding the same key twice, both lookups find the upper row. */
  lemma OlderRowFound()
    ensures FindRow([["wamid"], ["m1"], ["m1"]], "wamid", "m1") == Some(2)
    ensures FindRowAsWritten([["wamid"], ["m1"], ["m1"]], "wamid", "m1") == Some(2)
  {
    var after: Grid := [["wamid"], ["m1"], ["m1"]];
    NormOfPlain("wamid");
    NormOfPlain("m1");
    assert Row(after, 1) == ["wamid"];
    assert HeaderPos(["wamid"], "wamid") == 0;
    assert KeyColumn(after, "wamid") == Some(1);
    ColumnAt(after, 1, 1);
    assert Column(after, 1)[1] == "m1";
    assert KeyMatch(Column(after, 1)[1], "m1", true);
    assert FirstMatch(Column(after, 1), "m1", true, 1) == Some(1);
    ColumnAt(after, 1, 0);
    assert Column(after, 1)[0] == "wamid";
    assert FirstMatch(Column(after, 1), "m1", true, 0) == Some(1);
  }

}
