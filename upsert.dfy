/**
 * `upsert_leads` (sheets.py) as written. An empty store gets the header and
 * every row in one `update`. Otherwise the records are read once and
 * indexed by the key column; for each incoming row, an existing key has its
 * cells overwritten in place and an unseen key gets an appended row.
 *
 * The target column is the incoming column's position among the store's
 * non-key columns, plus one (the key column has left the frame's columns at
 * `set_index`), and the appended row lists the non-key columns only. Both
 * shift values one column to the left of where they belong whenever the key
 * is not the last column; UpsertRowFixed below is the evidently intended
 * behaviour.
 */
module Upserts {
  import opened Wrappers
  import opened Seqs
  import opened Cells
  import opened Grids

  /** What the loop reads from the store before it starts: the frame's non-key columns and its key index. */
  datatype Snapshot = Snapshot(nonKey: seq<string>, keys: seq<Cell>)

  /** `existing_df.set_index(lead_key)` over the records of `g`. */
  function TakeSnapshot(g: Grid, key: string): (s: Snapshot)
    requires key in HeaderNames(g)
    ensures s.nonKey == Without(HeaderNames(g), key)
    ensures |s.keys| == |DataRows(g)|
    ensures forall j :: 0 <= j < |s.keys| ==> s.keys[j] == RowCell(DataRows(g)[j], IndexOf(HeaderNames(g), key))
  {
    var names := HeaderNames(g);
    var rows := DataRows(g);
    Snapshot(Without(names, key), seq(|rows|, j requires 0 <= j < |rows| => RowCell(rows[j], IndexOf(names, key))))
  }

  /** `not existing`: the store has no records (it may still have a header). */
  predicate StoreEmpty(g: Grid)
  {
    |DataRows(g)| == 0
  }

  /**
   * What upsert_leads needs to run to the end: a rectangular frame, a header without
   * repeats (else reading the records raises) and, for a store with records, the key in
   * both headers (else `set_index` raises). The loop asks more only of an incoming
   * row whose key is stored: that key is stored once (else `get_loc` does not give one
   * position), and every incoming column is a stored non-key column (else `get_loc`
   * raises). A batch of new keys may carry columns the store lacks.
   */
  predicate UpsertReady(g: Grid, df: Frame, key: string)
  {
    && Rectangular(df)
    && Distinct(HeaderNames(g))
    && (!StoreEmpty(g) ==>
          && key in HeaderNames(g)
          && key in df.columns && AtMostOnce(df.columns, key)
          && var snap := TakeSnapshot(g, key);
             && (forall i :: 0 <= i < |df.rows| ==> AtMostOnce(snap.keys, df.rows[i][IndexOf(df.columns, key)]))
             && StoredRowsKnown(snap.keys, snap.nonKey, df, key))
  }

  /** The header row written to an empty store: `df.columns.tolist()`. */
  function HeaderRow(columns: seq<string>): (r: Row)
    ensures |r| == |columns| && forall k :: 0 <= k < |columns| ==> r[k] == Text(columns[k])
  {
    seq(|columns|, k requires 0 <= k < |columns| => Text(columns[k]))
  }

  /** `df.fillna("").values.tolist()` */
  function FilledRows(rows: seq<seq<Cell>>): (r: seq<Row>)
    ensures |r| == |rows|
    ensures forall i :: 0 <= i < |rows| ==> |r[i]| == |rows[i]| && forall k :: 0 <= k < |rows[i]| ==> r[i][k] == FillNa(rows[i][k])
  {
    seq(|rows|, i requires 0 <= i < |rows| => seq(|rows[i]|, k requires 0 <= k < |rows[i]| => FillNa(rows[i][k])))
  }

  /**
   * The writes below are parametrized by `targets`, the list of column names whose
   * positions give the sheet columns. upsert_leads passes the store's non-key columns
   * (`existing_df.columns` after `set_index`); the corrected variant passes the header.
   */

  /** Every incoming column other than the key is among the targets. */
  predicate ColumnsKnown(targets: seq<string>, columns: seq<string>, key: string)
  {
    forall c :: c in columns && c != key ==> c in targets
  }

  /** Every incoming row whose key is among `keys` has its non-key columns among the targets. */
  predicate StoredRowsKnown(keys: seq<Cell>, targets: seq<string>, df: Frame, key: string)
    requires Rectangular(df) && key in df.columns
  {
    forall i :: 0 <= i < |df.rows| && df.rows[i][IndexOf(df.columns, key)] in keys ==> ColumnsKnown(targets, df.columns, key)
  }

  /** A stored non-key column is a header column, so the corrected targets know what the as-written ones know. */
  lemma KnownInHeader(g: Grid, df: Frame, key: string)
    requires UpsertReady(g, df, key) && !StoreEmpty(g)
    ensures StoredRowsKnown(TakeSnapshot(g, key).keys, HeaderNames(g), df, key)
  {
    var snap := TakeSnapshot(g, key);
    forall i | 0 <= i < |df.rows| && df.rows[i][IndexOf(df.columns, key)] in snap.keys
      ensures ColumnsKnown(HeaderNames(g), df.columns, key)
    {
      assert ColumnsKnown(snap.nonKey, df.columns, key);
    }
  }

  /** `get_loc(col) + 1`: the sheet column incoming column `col` is written to. */
  function TargetColumn(targets: seq<string>, col: string): nat
    requires col in targets
  {
    IndexOf(targets, col) + 1
  }

  /** The `update_cell` writes for the first n incoming columns of `row` into sheet row r. */
  function WriteColumns(g: Grid, r: nat, targets: seq<string>, columns: seq<string>, key: string, row: seq<Cell>, n: nat): Grid
    requires r >= 1 && n <= |columns| && |row| == |columns| && ColumnsKnown(targets, columns, key)
  {
    if n == 0 then g
    else
      var g' := WriteColumns(g, r, targets, columns, key, row, n - 1);
      if columns[n - 1] == key then g'
      else SetCell(g', r, TargetColumn(targets, columns[n - 1]), FillNa(row[n - 1]))
  }

  /** `[row.get(col, "") for col in targets]`; as written, the targets do not include the key column. */
  function NewRow(targets: seq<string>, columns: seq<string>, row: seq<Cell>): Row
    requires |row| == |columns|
  {
    seq(|targets|, m requires 0 <= m < |targets| =>
      if targets[m] in columns then row[IndexOf(columns, targets[m])] else Text(""))
  }

  /** The work the loop does for one incoming row, given the stored keys and the target columns. */
  function UpsertRow(g: Grid, keys: seq<Cell>, targets: seq<string>, columns: seq<string>, key: string, row: seq<Cell>): Grid
    requires key in columns && |row| == |columns|
    requires row[IndexOf(columns, key)] in keys ==> ColumnsKnown(targets, columns, key)
  {
    var k := row[IndexOf(columns, key)];
    if k in keys then WriteColumns(g, IndexOf(keys, k) + 2, targets, columns, key, row, |columns|)
    else AppendRow(g, NewRow(targets, columns, row))
  }

  /** The loop after its first n iterations. */
  function UpsertRows(g: Grid, keys: seq<Cell>, targets: seq<string>, df: Frame, key: string, n: nat): Grid
    requires Rectangular(df) && key in df.columns && StoredRowsKnown(keys, targets, df, key) && n <= |df.rows|
  {
    if n == 0 then g else UpsertRow(UpsertRows(g, keys, targets, df, key, n - 1), keys, targets, df.columns, key, df.rows[n - 1])
  }

  /** `upsert_leads(sheet, df, key)` on grid `g`: the grid afterwards. */
  function Upsert(g: Grid, df: Frame, key: string): Grid
    requires UpsertReady(g, df, key)
  {
    if StoreEmpty(g) then Overlay(g, [HeaderRow(df.columns)] + FilledRows(df.rows))
    else
      var snap := TakeSnapshot(g, key);
      UpsertRows(g, snap.keys, snap.nonKey, df, key, |df.rows|)
  }

  // ---------------------------------------------------------------------------
  // Properties of upsert_leads as written
  // ---------------------------------------------------------------------------

  /** An empty store receives the header and then every row in order, missing values as "". */
  lemma UpsertIntoEmptyStore(g: Grid, df: Frame, key: string)
    requires StoreEmpty(g) && Rectangular(df) && Distinct(HeaderNames(g))
    ensures var g' := Upsert(g, df, key);
            && |g'| == |df.rows| + 1
            && DataRows(g') == FilledRows(df.rows)
            && (forall c :: 1 <= c <= |df.columns| ==> CellAt(g', 1, c) == Text(df.columns[c - 1]))
            && (forall c :: c > |df.columns| ==> CellAt(g', 1, c) == CellAt(g, 1, c))
            && (g == [] ==> g' == [HeaderRow(df.columns)] + FilledRows(df.rows))
  {
    var block := [HeaderRow(df.columns)] + FilledRows(df.rows);
    var g' := Overlay(g, block);
    assert UpsertReady(g, df, key);
    forall j | 0 <= j < |df.rows|
      ensures g'[j + 1] == FilledRows(df.rows)[j]
    {
      var want := FilledRows(df.rows)[j];
      assert |g'[j + 1]| == |want| by {
        assert block[j + 1] == want;
      }
      forall c | 0 <= c < |want| ensures g'[j + 1][c] == want[c] {
        assert CellAt(g', j + 2, c + 1) == want[c];
      }
    }
    assert DataRows(g') == FilledRows(df.rows);
    if g == [] {
      assert g'[0] == HeaderRow(df.columns);
    }
  }

  /** The n column writes touch sheet row r only; they add no row when r already exists. */
  lemma {:induction false} WriteColumnsRows(g: Grid, r: nat, targets: seq<string>, columns: seq<string>, key: string, row: seq<Cell>, n: nat)
    requires r >= 1 && n <= |columns| && |row| == |columns| && ColumnsKnown(targets, columns, key)
    ensures var g' := WriteColumns(g, r, targets, columns, key, row, n);
            && |g| <= |g'|
            && (r <= |g| ==> |g'| == |g|)
            && (forall k :: 0 <= k < |g| && k != r - 1 ==> g'[k] == g[k])
    decreases n
  {
    if n > 0 {
      WriteColumnsRows(g, r, targets, columns, key, row, n - 1);
    }
  }

  /** A column of row r that no incoming non-key column targets keeps its value. */
  lemma {:induction false} WriteColumnsUntargeted(g: Grid, r: nat, targets: seq<string>, columns: seq<string>, key: string, row: seq<Cell>, n: nat, c: int)
    requires r >= 1 && n <= |columns| && |row| == |columns| && ColumnsKnown(targets, columns, key)
    requires forall m :: 0 <= m < n && columns[m] != key ==> TargetColumn(targets, columns[m]) != c
    ensures CellAt(WriteColumns(g, r, targets, columns, key, row, n), r, c) == CellAt(g, r, c)
    decreases n
  {
    if n > 0 {
      WriteColumnsUntargeted(g, r, targets, columns, key, row, n - 1, c);
    }
  }

  /** With no repeated column names, each incoming non-key value lands in its target column of row r. */
  lemma {:induction false} WriteColumnsTargets(g: Grid, r: nat, targets: seq<string>, columns: seq<string>, key: string, row: seq<Cell>, n: nat, m: nat)
    requires r >= 1 && n <= |columns| && |row| == |columns| && ColumnsKnown(targets, columns, key)
    requires Distinct(columns) && Distinct(targets)
    requires m < n && columns[m] != key
    ensures CellAt(WriteColumns(g, r, targets, columns, key, row, n), r, TargetColumn(targets, columns[m])) == FillNa(row[m])
    decreases n
  {
    if m < n - 1 {
      WriteColumnsTargets(g, r, targets, columns, key, row, n - 1, m);
      assert columns[m] != columns[n - 1];
    }
  }

  /**
   * An incoming key already in the store: only sheet row `index + 2` changes, and in it
   * only the cells the incoming non-key columns are written to (the claim columns
   * included), each receiving its incoming value ("" for a missing one).
   */
  lemma UpsertExistingKey(g: Grid, keys: seq<Cell>, targets: seq<string>, columns: seq<string>, key: string, row: seq<Cell>)
    requires key in columns && |row| == |columns| && ColumnsKnown(targets, columns, key)
    requires row[IndexOf(columns, key)] in keys
    requires IndexOf(keys, row[IndexOf(columns, key)]) + 2 <= |g|
    ensures var r := IndexOf(keys, row[IndexOf(columns, key)]) + 2;
            var g' := UpsertRow(g, keys, targets, columns, key, row);
            && |g'| == |g|
            && (forall k :: 0 <= k < |g| && k != r - 1 ==> g'[k] == g[k])
            && (forall c :: (forall m :: 0 <= m < |columns| && columns[m] != key ==> TargetColumn(targets, columns[m]) != c) ==>
                  CellAt(g', r, c) == CellAt(g, r, c))
            && (forall m :: 0 <= m < |columns| && columns[m] != key && Distinct(columns) && Distinct(targets) ==>
                  CellAt(g', r, TargetColumn(targets, columns[m])) == FillNa(row[m]))
  {
    var r := IndexOf(keys, row[IndexOf(columns, key)]) + 2;
    WriteColumnsRows(g, r, targets, columns, key, row, |columns|);
    forall c | forall m :: 0 <= m < |columns| && columns[m] != key ==> TargetColumn(targets, columns[m]) != c
      ensures CellAt(UpsertRow(g, keys, targets, columns, key, row), r, c) == CellAt(g, r, c)
    {
      WriteColumnsUntargeted(g, r, targets, columns, key, row, |columns|, c);
    }
    forall m | 0 <= m < |columns| && columns[m] != key && Distinct(columns) && Distinct(targets)
      ensures CellAt(UpsertRow(g, keys, targets, columns, key, row), r, TargetColumn(targets, columns[m])) == FillNa(row[m])
    {
      WriteColumnsTargets(g, r, targets, columns, key, row, |columns|, m);
    }
  }

  /**
   * An unseen key: exactly one row is appended, holding the store's non-key columns in
   * order, each the incoming value under that name or "" when the frame lacks it;
   * the rows already there do not change.
   */
  lemma UpsertNewKey(g: Grid, keys: seq<Cell>, targets: seq<string>, columns: seq<string>, key: string, row: seq<Cell>)
    requires key in columns && |row| == |columns|
    requires row[IndexOf(columns, key)] !in keys
    ensures var g' := UpsertRow(g, keys, targets, columns, key, row);
            && |g'| == |g| + 1 && g'[..|g|] == g
            && |g'[|g|]| == |targets|
            && forall m :: 0 <= m < |targets| ==>
                 g'[|g|][m] == if targets[m] in columns then row[IndexOf(columns, targets[m])] else Text("")
  {
  }

  /** Number of the first n incoming rows whose key the store did not have. */
  function NewKeys(keys: seq<Cell>, df: Frame, key: string, n: nat): nat
    requires Rectangular(df) && key in df.columns && n <= |df.rows|
  {
    if n == 0 then 0
    else NewKeys(keys, df, key, n - 1) + (if df.rows[n - 1][IndexOf(df.columns, key)] in keys then 0 else 1)
  }

  /**
   * Over the first n incoming rows: one row is appended per row with an unseen key, and a
   * stored record whose key none of them carries keeps its row untouched.
   */
  lemma {:induction false} UpsertRowsFrame(g: Grid, keys: seq<Cell>, targets: seq<string>, df: Frame, key: string, n: nat)
    requires Rectangular(df) && key in df.columns && StoredRowsKnown(keys, targets, df, key) && n <= |df.rows|
    requires |keys| + 1 <= |g|
    ensures var g' := UpsertRows(g, keys, targets, df, key, n);
            && |g'| == |g| + NewKeys(keys, df, key, n)
            && (forall j :: (0 <= j < |keys| &&
                   forall i :: 0 <= i < n ==> df.rows[i][IndexOf(df.columns, key)] != keys[j]) ==>
                   g'[j + 1] == g[j + 1])
    decreases n
  {
    if n > 0 {
      UpsertRowsFrame(g, keys, targets, df, key, n - 1);
      var prev := UpsertRows(g, keys, targets, df, key, n - 1);
      var row := df.rows[n - 1];
      var k := row[IndexOf(df.columns, key)];
      if k in keys {
        var r := IndexOf(keys, k) + 2;
        WriteColumnsRows(prev, r, targets, df.columns, key, row, |df.columns|);
      } else {
        assert UpsertRows(g, keys, targets, df, key, n) == prev + [NewRow(targets, df.columns, row)];
      }
    }
  }

  /** Over the first n incoming rows, none with a stored key: one row is appended per incoming row, in order. */
  lemma {:induction false} UpsertRowsAllNew(g: Grid, keys: seq<Cell>, targets: seq<string>, df: Frame, key: string, n: nat)
    requires Rectangular(df) && key in df.columns && n <= |df.rows|
    requires forall i :: 0 <= i < |df.rows| ==> df.rows[i][IndexOf(df.columns, key)] !in keys
    ensures StoredRowsKnown(keys, targets, df, key)
    ensures var g' := UpsertRows(g, keys, targets, df, key, n);
            && |g'| == |g| + n && g'[..|g|] == g
            && forall i :: 0 <= i < n ==> g'[|g| + i] == NewRow(targets, df.columns, df.rows[i])
    decreases n
  {
    if n > 0 {
      UpsertRowsAllNew(g, keys, targets, df, key, n - 1);
      var prev := UpsertRows(g, keys, targets, df, key, n - 1);
      assert UpsertRows(g, keys, targets, df, key, n) == prev + [NewRow(targets, df.columns, df.rows[n - 1])];
    }
  }

  /**
   * A batch of unseen keys on a store with records: nothing raises whatever columns the
   * batch brings, since `get_loc` is reached only for stored keys, and each incoming row
   * is appended in order, laid out over the store's non-key columns.
   */
  lemma UpsertAllNewKeys(g: Grid, df: Frame, key: string)
    requires Rectangular(df) && !StoreEmpty(g) && key in HeaderNames(g) && Distinct(HeaderNames(g))
    requires key in df.columns && AtMostOnce(df.columns, key)
    requires forall i :: 0 <= i < |df.rows| ==> df.rows[i][IndexOf(df.columns, key)] !in TakeSnapshot(g, key).keys
    ensures UpsertReady(g, df, key)
    ensures var snap := TakeSnapshot(g, key);
            var g' := Upsert(g, df, key);
            && |g'| == |g| + |df.rows| && g'[..|g|] == g
            && forall i :: 0 <= i < |df.rows| ==> g'[|g| + i] == NewRow(snap.nonKey, df.columns, df.rows[i])
  {
    var snap := TakeSnapshot(g, key);
    UpsertRowsAllNew(g, snap.keys, snap.nonKey, df, key, |df.rows|);
  }

  /** The batch lemma for the whole of `upsert_leads` on a store with records. */
  lemma UpsertKeepsOtherLeads(g: Grid, df: Frame, key: string)
    requires UpsertReady(g, df, key) && !StoreEmpty(g)
    ensures var keys := TakeSnapshot(g, key).keys;
            var g' := Upsert(g, df, key);
            && |g'| == |g| + NewKeys(keys, df, key, |df.rows|)
            && (forall j :: (0 <= j < |keys| &&
                   forall i :: 0 <= i < |df.rows| ==> df.rows[i][IndexOf(df.columns, key)] != keys[j]) ==>
                   g'[j + 1] == g[j + 1])
  {
    var snap := TakeSnapshot(g, key);
    UpsertRowsFrame(g, snap.keys, snap.nonKey, df, key, |df.rows|);
  }

  // ---------------------------------------------------------------------------
  // Findings: the column shift, and the corrected upsert
  // ---------------------------------------------------------------------------

  /** A store holding one lead, keyed by phone, with the phone column first. */
  function OneLeadStore(): Grid
  {
    [[Text("phone"), Text("name")], [Text("98"), Text("A")]]
  }

  /** The snapshot upsert_leads takes of that store: `name` is its only non-key column. */
  lemma OneLeadSnapshot()
    ensures HeaderNames(OneLeadStore()) == ["phone", "name"]
    ensures TakeSnapshot(OneLeadStore(), "phone") == Snapshot(["name"], [Text("98")])
  {
    var g := OneLeadStore();
    assert HeaderNames(g) == ["phone", "name"];
    assert IndexOf(["phone", "name"], "phone") == 0;
    assert Without(["phone", "name"], "phone") == ["name"] by {
      assert Without(["name"], "phone") == ["name"];
    }
  }

  /** On a store with records, a batch of one row is one step of the loop. */
  lemma UpsertSingleRow(g: Grid, df: Frame, key: string)
    requires UpsertReady(g, df, key) && !StoreEmpty(g) && |df.rows| == 1
    ensures var snap := TakeSnapshot(g, key);
            Upsert(g, df, key) == UpsertRow(g, snap.keys, snap.nonKey, df.columns, key, df.rows[0])
  {
    var snap := TakeSnapshot(g, key);
    assert UpsertRows(g, snap.keys, snap.nonKey, df, key, 0) == g;
  }

  /** The one-lead store accepts a batch keyed by a single leading phone column whose rows for the stored phone carry only known columns. */
  lemma OneLeadReady(df: Frame)
    requires Rectangular(df) && |df.columns| >= 1 && df.columns[0] == "phone" && AtMostOnce(df.columns, "phone")
    requires forall i :: 0 <= i < |df.rows| && df.rows[i][0] == Text("98") ==> ColumnsKnown(["name"], df.columns, "phone")
    ensures UpsertReady(OneLeadStore(), df, "phone")
  {
    OneLeadSnapshot();
    assert IndexOf(df.columns, "phone") == 0;
  }

  /** Writing B at row 2, column 1 of the one-lead store replaces its phone. */
  lemma PhoneOverwritten()
    ensures SetCell(OneLeadStore(), 2, 1, Text("B")) == [[Text("phone"), Text("name")], [Text("B"), Text("A")]]
  {
    var g := OneLeadStore();
    var want := [[Text("phone"), Text("name")], [Text("B"), Text("A")]];
    var got := SetCell(g, 2, 1, Text("B"));
    assert |got[1]| == 2 by {
      assert |g[1]| == 2;
    }
    assert got[1][0] == CellAt(got, 2, 1) && got[1][1] == CellAt(got, 2, 2);
    assert got[0] == g[0];
    assert got[1] == want[1];
  }

  /** The same lead arrives again with a new name. */
  lemma ShiftedUpdate()
    ensures var df := Frame(["phone", "name"], [[Text("98"), Text("B")]]);
            && UpsertReady(OneLeadStore(), df, "phone")
            && Upsert(OneLeadStore(), df, "phone") == [[Text("phone"), Text("name")], [Text("B"), Text("A")]]
  {
    var g := OneLeadStore();
    var df := Frame(["phone", "name"], [[Text("98"), Text("B")]]);
    var row := df.rows[0];
    assert IndexOf(["phone", "name"], "name") == 1;
    OneLeadReady(df);
    OneLeadSnapshot();
    UpsertSingleRow(g, df, "phone");
    assert UpsertRow(g, [Text("98")], ["name"], df.columns, "phone", row)
        == WriteColumns(g, 2, ["name"], df.columns, "phone", row, 2) by {
      assert IndexOf(["phone", "name"], "phone") == 0;
      assert IndexOf([Text("98")], Text("98")) == 0;
    }
    assert WriteColumns(g, 2, ["name"], df.columns, "phone", row, 2) == SetCell(g, 2, 1, Text("B")) by {
      assert WriteColumns(g, 2, ["name"], df.columns, "phone", row, 1) == g;
      assert IndexOf(["name"], "name") == 0;
    }
    PhoneOverwritten();
  }

  /** A new lead arrives. */
  lemma KeylessAppend()
    ensures var df := Frame(["phone", "name"], [[Text("77"), Text("C")]]);
            && UpsertReady(OneLeadStore(), df, "phone")
            && Upsert(OneLeadStore(), df, "phone") == OneLeadStore() + [[Text("C")]]
  {
    var g := OneLeadStore();
    var df := Frame(["phone", "name"], [[Text("77"), Text("C")]]);
    OneLeadSnapshot();
    assert IndexOf(df.columns, "phone") == 0;
    assert Text("77") !in [Text("98")];
    UpsertAllNewKeys(g, df, "phone");
    var g' := Upsert(g, df, "phone");
    assert g'[|g|] == [Text("C")] by {
      assert IndexOf(df.columns, "name") == 1;
      assert NewRow(["name"], df.columns, df.rows[0]) == [Text("C")];
    }
    assert g' == g'[..|g|] + [g'[|g|]];
  }

  /**
   * A new lead that brings a column the store does not have: nothing raises, since
   * `get_loc` is reached only for stored keys, and the extra value is dropped.
   */
  lemma NewLeadExtraColumn()
    ensures var df := Frame(["phone", "name", "email"], [[Text("77"), Text("C"), Text("c@x")]]);
            && UpsertReady(OneLeadStore(), df, "phone")
            && Upsert(OneLeadStore(), df, "phone") == OneLeadStore() + [[Text("C")]]
  {
    var g := OneLeadStore();
    var df := Frame(["phone", "name", "email"], [[Text("77"), Text("C"), Text("c@x")]]);
    OneLeadSnapshot();
    assert IndexOf(df.columns, "phone") == 0;
    assert Text("77") !in [Text("98")];
    UpsertAllNewKeys(g, df, "phone");
    var g' := Upsert(g, df, "phone");
    assert g'[|g|] == [Text("C")] by {
      assert IndexOf(df.columns, "name") == 1;
      assert NewRow(["name"], df.columns, df.rows[0]) == [Text("C")];
    }
    assert g' == g'[..|g|] + [g'[|g|]];
  }

  /**
   * As written, an update of a lead's name overwrites its phone and an appended lead has
   * no phone: either way no record carries the lead's phone afterwards.
   */
  lemma AsWrittenLosesKeys()
    ensures var df := Frame(["phone", "name"], [[Text("98"), Text("B")]]);
            && UpsertReady(OneLeadStore(), df, "phone")
            && var g1 := Upsert(OneLeadStore(), df, "phone");
               && RecordGet(HeaderNames(g1), DataRows(g1)[0], "phone") == Some(Text("B"))
               && RecordGet(HeaderNames(g1), DataRows(g1)[0], "name") == Some(Text("A"))
    ensures var df := Frame(["phone", "name"], [[Text("77"), Text("C")]]);
            && UpsertReady(OneLeadStore(), df, "phone")
            && var g2 := Upsert(OneLeadStore(), df, "phone");
               && RecordGet(HeaderNames(g2), DataRows(g2)[1], "phone") == Some(Text("C"))
               && RecordGet(HeaderNames(g2), DataRows(g2)[1], "name") == Some(Blank)
  {
    ShiftedUpdate();
    KeylessAppend();
    assert IndexOf(["phone", "name"], "phone") == 0;
    assert IndexOf(["phone", "name"], "name") == 1;
    assert HeaderNames(OneLeadStore() + [[Text("C")]]) == ["phone", "name"];
    assert HeaderNames([[Text("phone"), Text("name")], [Text("B"), Text("A")]]) == ["phone", "name"];
  }

  /**
   * The evidently intended upsert: the same loop, with each value written at its own
   * column's position in the header, and new rows laid out over the whole header.
   */
  function UpsertFixed(g: Grid, df: Frame, key: string): Grid
    requires UpsertReady(g, df, key)
  {
    if StoreEmpty(g) then Overlay(g, [HeaderRow(df.columns)] + FilledRows(df.rows))
    else
      KnownInHeader(g, df, key);
      UpsertRows(g, TakeSnapshot(g, key).keys, HeaderNames(g), df, key, |df.rows|)
  }

  /**
   * Corrected, an incoming row for a stored key reads back from that key's record: every
   * incoming column holds the incoming value, and the key itself is unchanged.
   */
  lemma FixedUpdateReadsBack(g: Grid, keys: seq<Cell>, df: Frame, key: string, row: seq<Cell>)
    requires key in df.columns && |row| == |df.columns| && Distinct(df.columns)
    requires Distinct(HeaderNames(g)) && ColumnsKnown(HeaderNames(g), df.columns, key) && key in HeaderNames(g)
    requires row[IndexOf(df.columns, key)] in keys && IndexOf(keys, row[IndexOf(df.columns, key)]) + 2 <= |g|
    ensures var j := IndexOf(keys, row[IndexOf(df.columns, key)]);
            var g' := UpsertRow(g, keys, HeaderNames(g), df.columns, key, row);
            var names := HeaderNames(g');
            && |g'| == |g| && names == HeaderNames(g)
            && RecordGet(names, DataRows(g')[j], key) == RecordGet(names, DataRows(g)[j], key)
            && forall m :: 0 <= m < |df.columns| && df.columns[m] != key ==>
                 RecordGet(names, DataRows(g')[j], df.columns[m]) == Some(FillNa(row[m]))
  {
    var names := HeaderNames(g);
    var j := IndexOf(keys, row[IndexOf(df.columns, key)]);
    var g' := UpsertRow(g, keys, names, df.columns, key, row);
    UpsertExistingKey(g, keys, names, df.columns, key, row);
    assert g'[0] == g[0];
    assert HeaderNames(g') == names;
    DataCell(g', j, IndexOf(names, key));
    DataCell(g, j, IndexOf(names, key));
    forall m | 0 <= m < |df.columns| && df.columns[m] != key
      ensures TargetColumn(names, df.columns[m]) != IndexOf(names, key) + 1
    {
    }
    forall m | 0 <= m < |df.columns| && df.columns[m] != key
      ensures RecordGet(names, DataRows(g')[j], df.columns[m]) == Some(FillNa(row[m]))
    {
      DataCell(g', j, IndexOf(names, df.columns[m]));
    }
  }

  /**
   * Corrected, an incoming row for an unseen key becomes a record that reads back every
   * incoming value the header has a column for under its own name, the key included, and
   * "" under the other columns; an incoming column the header lacks is dropped.
   */
  lemma FixedAppendReadsBack(g: Grid, keys: seq<Cell>, df: Frame, key: string, row: seq<Cell>)
    requires key in df.columns && |row| == |df.columns| && |g| >= 1 && key in HeaderNames(g)
    requires row[IndexOf(df.columns, key)] !in keys
    ensures var g' := UpsertRow(g, keys, HeaderNames(g), df.columns, key, row);
            var names := HeaderNames(g');
            var record := DataRows(g')[|g| - 1];
            && names == HeaderNames(g)
            && RecordGet(names, record, key) == Some(row[IndexOf(df.columns, key)])
            && (forall m :: 0 <= m < |df.columns| && df.columns[m] in names ==> RecordGet(names, record, df.columns[m]) == Some(row[IndexOf(df.columns, df.columns[m])]))
            && (forall n :: n in names && n !in df.columns ==> RecordGet(names, record, n) == Some(Text("")))
  {
    var names := HeaderNames(g);
    UpsertNewKey(g, keys, names, df.columns, key, row);
    var g' := UpsertRow(g, keys, names, df.columns, key, row);
    assert g'[0] == g[0];
  }

  /** The corrected upsert appends one row per unseen key and leaves the rows of keys it does not carry alone. */
  lemma UpsertFixedKeepsOtherLeads(g: Grid, df: Frame, key: string)
    requires UpsertReady(g, df, key) && !StoreEmpty(g)
    ensures var keys := TakeSnapshot(g, key).keys;
            var g' := UpsertFixed(g, df, key);
            && |g'| == |g| + NewKeys(keys, df, key, |df.rows|)
            && (forall j :: (0 <= j < |keys| &&
                   forall i :: 0 <= i < |df.rows| ==> df.rows[i][IndexOf(df.columns, key)] != keys[j]) ==>
                   g'[j + 1] == g[j + 1])
  {
    KnownInHeader(g, df, key);
    UpsertRowsFrame(g, TakeSnapshot(g, key).keys, HeaderNames(g), df, key, |df.rows|);
  }
}
