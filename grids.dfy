/**
 * The spreadsheet behind the lead store, as the worksheet API presents it:
 * a grid of cells addressed by 1-based (row, column), row 1 holding the
 * header, and the API calls the core uses (`get_all_records`, `update_cell`,
 * `append_row`, `update` at A1, `find`) as functions on that grid.
 */
module Grids {
  import opened Wrappers
  import opened Seqs
  import opened Cells

  type Row = seq<Cell>

  /** Row r of the sheet is `g[r - 1]`; rows may be shorter than the header. */
  type Grid = seq<Row>

  /** An empty cell reads back as the empty string. */
  const Blank: Cell := Text("")

  /** Cell k (0-based) of a row, blank past its end. */
  function RowCell(row: Row, k: nat): Cell
  {
    if k < |row| then row[k] else Blank
  }

  /** The cell at 1-based (r, c); blank outside what has been written. */
  function CellAt(g: Grid, r: int, c: int): Cell
  {
    if 1 <= r <= |g| && 1 <= c then RowCell(g[r - 1], c - 1) else Blank
  }

  /** `update_cell(r, c, v)`: only cell (r, c) changes; the grid grows to reach it if needed. */
  function SetCell(g: Grid, r: nat, c: nat, v: Cell): (g': Grid)
    requires r >= 1 && c >= 1
    ensures |g'| == if r <= |g| then |g| else r
    ensures forall k :: 0 <= k < |g| && k != r - 1 ==> g'[k] == g[k]
    ensures forall r', c' :: CellAt(g', r', c') == if r' == r && c' == c then v else CellAt(g, r', c')
  {
    var padded := if r <= |g| then g else g + seq(r - |g|, _ => []);
    var row := padded[r - 1];
    var wide := if c <= |row| then row else row + seq(c - |row|, _ => Blank);
    var g' := padded[r - 1 := wide[c - 1 := v]];
    assert forall k :: 0 <= k < |wide| ==> RowCell(wide, k) == RowCell(row, k);
    g'
  }

  /** `append_row(values)`: one new row below the last one. */
  function AppendRow(g: Grid, values: Row): (g': Grid)
    ensures |g'| == |g| + 1 && g'[..|g|] == g && g'[|g|] == values
  {
    g + [values]
  }

  /** `update(block)`: writes `block` with its top-left corner at A1; cells outside it keep their values. */
  function Overlay(g: Grid, block: Grid): (g': Grid)
    ensures |g'| == if |block| <= |g| then |g| else |block|
    ensures forall r, c :: CellAt(g', r, c) ==
              if 1 <= r <= |block| && 1 <= c <= |block[r - 1]| then block[r - 1][c - 1] else CellAt(g, r, c)
  {
    var n := if |block| <= |g| then |g| else |block|;
    seq(n, i requires 0 <= i < n =>
      if i < |block| then
        block[i] + (if i < |g| && |block[i]| < |g[i]| then g[i][|block[i]|..] else [])
      else g[i])
  }

  // ---------------------------------------------------------------------------
  // get_all_records: the header row as keys, one record per later row
  // ---------------------------------------------------------------------------

  /** The text of each cell of a row. */
  function RowText(row: Row): (r: seq<string>)
    ensures |r| == |row| && forall k :: 0 <= k < |row| ==> r[k] == Str(row[k])
  {
    seq(|row|, k requires 0 <= k < |row| => Str(row[k]))
  }

  /** The record keys: the text of row 1. */
  function HeaderNames(g: Grid): seq<string>
  {
    if |g| == 0 then [] else RowText(g[0])
  }

  /** The records: every row after the header (an empty list when there is none). */
  function DataRows(g: Grid): (rows: seq<Row>)
    ensures |rows| == if |g| <= 1 then 0 else |g| - 1
    ensures forall j :: 0 <= j < |rows| ==> rows[j] == g[j + 1]
  {
    if |g| <= 1 then [] else g[1..]
  }

  /** `record.get(name)`: the cell under `name`, blank when the row is short; None when there is no such key. */
  function RecordGet(names: seq<string>, row: Row, name: string): (v: Option<Cell>)
    ensures v.None? <==> name !in names
    ensures name in names ==> v == Some(RowCell(row, IndexOf(names, name)))
  {
    if name in names then Some(RowCell(row, IndexOf(names, name))) else None
  }

  /** Python's `str()` of what `get` returned: None prints as "None". */
  function PyStr(v: Option<Cell>): string
  {
    match v
    case None => "None"
    case Some(c) => Str(c)
  }

  /** The 1-based position of data record j's cell under the key at header position k. */
  lemma DataCell(g: Grid, j: nat, k: nat)
    requires j < |DataRows(g)|
    ensures RowCell(DataRows(g)[j], k) == CellAt(g, j + 2, k + 1)
  {
  }

  // ---------------------------------------------------------------------------
  // find: the first cell, row by row, whose text equals the query
  // ---------------------------------------------------------------------------

  /** First 0-based column at or after `from` of a row whose text equals the query. */
  function FindInRow(row: Row, query: string, from: nat): (c: Option<nat>)
    ensures c.Some? ==> from <= c.value < |row| && Str(row[c.value]) == query
    ensures c.Some? ==> forall k :: from <= k < c.value ==> Str(row[k]) != query
    ensures c.None? ==> forall k :: from <= k < |row| ==> Str(row[k]) != query
    decreases |row| - from
  {
    if from >= |row| then None
    else if Str(row[from]) == query then Some(from)
    else FindInRow(row, query, from + 1)
  }

  /** First cell at or below 0-based row `from`, as 1-based (row, column). */
  function FindFrom(g: Grid, query: string, from: nat): (p: Option<(nat, nat)>)
    ensures p.Some? ==> from < p.value.0 <= |g| && 1 <= p.value.1 <= |g[p.value.0 - 1]|
    ensures p.Some? ==> Str(g[p.value.0 - 1][p.value.1 - 1]) == query
    ensures p.Some? ==> forall r, c :: from <= r < p.value.0 - 1 && 0 <= c < |g[r]| ==> Str(g[r][c]) != query
    ensures p.Some? ==> forall c :: 1 <= c < p.value.1 ==> Str(CellAt(g, p.value.0, c)) != query
    ensures p.None? ==> forall r, c :: from <= r < |g| && 0 <= c < |g[r]| ==> Str(g[r][c]) != query
    decreases |g| - from
  {
    if from >= |g| then None
    else match FindInRow(g[from], query, 0)
      case Some(c) => Some((from + 1, c + 1))
      case None => FindFrom(g, query, from + 1)
  }

  /** `sheet.find(query)`; None where the API finds nothing. */
  function Find(g: Grid, query: string): (p: Option<(nat, nat)>)
    ensures p.Some? ==> 1 <= p.value.0 <= |g| && 1 <= p.value.1 <= |g[p.value.0 - 1]|
    ensures p.Some? ==> Str(g[p.value.0 - 1][p.value.1 - 1]) == query
    ensures p.Some? ==> forall r, c :: 0 <= r < p.value.0 - 1 && 0 <= c < |g[r]| ==> Str(g[r][c]) != query
    ensures p.Some? ==> forall c :: 1 <= c < p.value.1 ==> Str(CellAt(g, p.value.0, c)) != query
    ensures p.None? ==> forall r, c :: 0 <= r < |g| && 0 <= c < |g[r]| ==> Str(g[r][c]) != query
  {
    FindFrom(g, query, 0)
  }

  /** A header cell is found before any other cell: `find` then gives its column. */
  lemma FindInHeader(g: Grid, query: string)
    requires query in HeaderNames(g)
    ensures Find(g, query) == Some((1, IndexOf(HeaderNames(g), query) + 1))
  {
    var names := HeaderNames(g);
    var row := g[0];
    var k := IndexOf(names, query);
    assert names == RowText(row);
    FirstInRow(row, query, k);
  }

  /** The first cell of a row whose text is the query is where FindInRow stops. */
  lemma FirstInRow(row: Row, query: string, k: nat)
    requires k < |RowText(row)| && RowText(row)[k] == query
    requires forall j :: 0 <= j < k ==> RowText(row)[j] != query
    ensures FindInRow(row, query, 0) == Some(k)
  {
    var c := FindInRow(row, query, 0);
    assert Str(row[k]) == query;
  }
}
