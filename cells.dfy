/**
 * Values held in a pandas DataFrame or read back from the spreadsheet, and
 * the DataFrame itself as an ordered list of column labels over rows of cells.
 */
module Cells {
  import opened Wrappers
  import opened Seqs
  import opened PyStrings

  /** One value: a missing value (pandas NaN or Python None), text, an integer or a boolean. */
  datatype Cell = Missing | Text(s: string) | Int(i: int) | Bool(b: bool)

  /** Python's `str(x)`. */
  function Str(c: Cell): string
  {
    match c
    case Missing => "nan"
    case Text(s) => s
    case Int(i) => IntToDecimal(i)
    case Bool(b) => if b then "True" else "False"
  }

  /** `present(x)` of scoring.py: not missing, and not blank once stripped. */
  predicate Present(c: Cell)
  {
    !c.Missing? && Strip(Str(c)) != ""
  }

  /** Only missing values and all-whitespace text are absent; numbers and booleans are always present. */
  lemma PresentIff(c: Cell)
    ensures Present(c) <==> match c
      case Missing => false
      case Text(s) => exists i :: 0 <= i < |s| && !IsSpace(s[i])
      case _ => true
  {
    match c
    case Int(i) => assert !IsSpace(Str(c)[0]);
    case Bool(b) => assert !IsSpace(Str(c)[0]);
    case _ =>
  }

  /** `"" if pd.isna(v) else v`, and `fillna("")` cell by cell. */
  function FillNa(c: Cell): (r: Cell)
    ensures !r.Missing?
    ensures c.Missing? ==> r == Text("")
    ensures !c.Missing? ==> r == c
  {
    if c.Missing? then Text("") else c
  }

  /** A DataFrame: column labels and rows of cells. */
  datatype Frame = Frame(columns: seq<string>, rows: seq<seq<Cell>>)

  /** Every row has one cell per column, as in any pandas DataFrame. */
  predicate Rectangular(f: Frame)
  {
    forall i :: 0 <= i < |f.rows| ==> |f.rows[i]| == |f.columns|
  }

  /** `row.get(name)`: the cell under the column `name`, or None (a missing value) when there is none. */
  function Get(columns: seq<string>, row: seq<Cell>, name: string): (c: Cell)
    ensures name !in columns ==> c == Missing
    ensures name in columns && |row| == |columns| ==> c == row[IndexOf(columns, name)]
  {
    if name in columns && IndexOf(columns, name) < |row| then row[IndexOf(columns, name)] else Missing
  }
}
