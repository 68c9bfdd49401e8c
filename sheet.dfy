/**
 * The spreadsheet tab as an in-memory grid. `cells[0]` is sheet row 1 (the
 * header row); rows and columns are numbered from 1 as in the store's API, and
 * a cell past the end of its row reads as "". The class offers the handful of
 * worksheet calls the core makes: `row_values`, `cell`, `col_values`,
 * `get_all_values`, `append_row` and single-cell or row-1 `update`.
 */
module Sheet {

  type Grid = seq<seq<string>>

  /** `ws.row_values(r)`: rows past the end read as empty. */
  function Row(cells: Grid, r: int): seq<string> {
    if 1 <= r <= |cells| then cells[r - 1] else []
  }

  /** The value at 1-based column `c` of a row. */
  function CellOf(row: seq<string>, c: int): string {
    if 1 <= c <= |row| then row[c - 1] else ""
  }

  /** `ws.cell(r, c).value`, with an empty cell read as "". */
  function Cell(cells: Grid, r: int, c: int): string {
    CellOf(Row(cells, r), c)
  }

  /** `ws.col_values(c)`: one entry per row. */
  function Column(cells: Grid, c: int): (col: seq<string>)
    ensures |col| == |cells|
  {
    if cells == [] then [] else Column(cells[..|cells| - 1], c) + [CellOf(cells[|cells| - 1], c)]
  }

  /** Entry `i` of a column is the cell of row `i + 1`. */
  lemma {:induction false} ColumnAt(cells: Grid, c: int, i: int)
    requires 0 <= i < |cells|
    ensures Column(cells, c)[i] == Cell(cells, i + 1, c)
  {
    if i < |cells| - 1 {
      ColumnAt(cells[..|cells| - 1], c, i);
    }
  }

  lemma ColumnEach(cells: Grid, c: int)
    ensures forall i :: 0 <= i < |cells| ==> Column(cells, c)[i] == Cell(cells, i + 1, c)
  {
    forall i | 0 <= i < |cells| ensures Column(cells, c)[i] == Cell(cells, i + 1, c) {
      ColumnAt(cells, c, i);
    }
  }

  /** `[""] * n`. */
  function Blanks(n: nat): (r: seq<string>)
    ensures |r| == n && forall i :: 0 <= i < n ==> r[i] == ""
  {
    if n == 0 then [] else Blanks(n - 1) + [""]
  }

  /** The row after one cell is written; a row shorter than the column is padded with "". */
  function WriteCell(row: seq<string>, c: int, v: string): (r: seq<string>)
    requires c >= 1
    ensures |r| == if c <= |row| then |row| else c
    ensures CellOf(r, c) == v
    ensures forall d :: d != c ==> CellOf(r, d) == CellOf(row, d)
  {
    if c <= |row| then row[c - 1 := v] else row + Blanks(c - 1 - |row|) + [v]
  }

  /** A write leaves every other column as it was. */
  lemma WriteCellOther(row: seq<string>, c: int, v: string, d: int)
    requires c >= 1 && d != c
    ensures CellOf(WriteCell(row, c, v), d) == CellOf(row, d)
  {
  }

  /** The grid after `vals` is written into the leading cells of row 1; row 1 is created if absent. */
  function WriteFirstRow(cells: Grid, vals: seq<string>): (r: Grid)
    ensures |r| == if cells == [] then 1 else |cells|
    ensures forall i :: 1 <= i < |r| ==> r[i] == cells[i]
    ensures |r[0]| >= |vals| && r[0][..|vals|] == vals
    ensures forall c :: c > |vals| ==> CellOf(r[0], c) == Cell(cells, 1, c)
  {
    var old0 := Row(cells, 1);
    var row := vals + (if |old0| > |vals| then old0[|vals|..] else []);
    if cells == [] then [row] else cells[0 := row]
  }

  class Worksheet {
    var cells: Grid

    constructor (initial: Grid)
      ensures cells == initial
    {
      cells := initial;
    }

    method RowValues(r: int) returns (vals: seq<string>)
      ensures vals == Row(cells, r)
    {
      vals := Row(cells, r);
    }

    method CellValue(r: int, c: int) returns (v: string)
      ensures v == Cell(cells, r, c)
    {
      v := Cell(cells, r, c);
    }

    method ColValues(c: int) returns (col: seq<string>)
      ensures col == Column(cells, c)
    {
      col := Column(cells, c);
    }

    /** `len(ws.get_all_values())`. */
    method CountRows() returns (n: nat)
      ensures n == |cells|
    {
      n := |cells|;
    }

    method AppendRow(vals: seq<string>)
      modifies this
      ensures cells == old(cells) + [vals]
    {
      cells := cells + [vals];
    }

    method UpdateCell(r: int, c: int, v: string)
      requires 1 <= r <= |cells| && c >= 1
      modifies this
      ensures cells == old(cells)[r - 1 := WriteCell(old(cells)[r - 1], c, v)]
    {
      cells := cells[r - 1 := WriteCell(cells[r - 1], c, v)];
    }

    method UpdateFirstRow(vals: seq<string>)
      modifies this
      ensures cells == WriteFirstRow(old(cells), vals)
    {
      cells := WriteFirstRow(cells, vals);
    }
  }
}
