/**
 * The worksheet as an object the core calls into, and the two routines of
 * sheets.py that drive it: `atomic_pick` and `upsert_leads`. Each API call
 * changes the sheet's grid as the function of the same name in Grids says;
 * each routine is proved to leave the grid its specification (Claim.Pick,
 * Upserts.Upsert) computes.
 */
module Sheets {
  import opened Wrappers
  import opened Seqs
  import opened Cells
  import opened Grids
  import opened Claim
  import opened Upserts

  class Sheet {
    /** Everything the worksheet holds. */
    var grid: Grid

    constructor (initial: Grid)
      ensures grid == initial
    {
      grid := initial;
    }

    /** `get_all_records()`: the header names and the rows below the header. */
    method GetAllRecords() returns (names: seq<string>, records: seq<Row>)
      ensures names == HeaderNames(grid) && records == DataRows(grid)
    {
      names := HeaderNames(grid);
      records := DataRows(grid);
    }

    /** `find(query)` */
    method FindCell(query: string) returns (p: Option<(nat, nat)>)
      ensures p == Find(grid, query)
    {
      p := Find(grid, query);
    }

    /** `update_cell(r, c, v)` */
    method UpdateCell(r: nat, c: nat, v: Cell)
      requires r >= 1 && c >= 1
      modifies this
      ensures grid == SetCell(old(grid), r, c, v)
    {
      grid := SetCell(grid, r, c, v);
    }

    /** `append_row(values)` */
    method AppendValues(values: Row)
      modifies this
      ensures grid == AppendRow(old(grid), values)
    {
      grid := AppendRow(grid, values);
    }

    /** `update(block)` at A1 */
    method Update(block: Grid)
      modifies this
      ensures grid == Overlay(old(grid), block)
    {
      grid := Overlay(grid, block);
    }

    /**
     * `atomic_pick(sheet, phone, rep, at)`: scan the records for the first whose phone
     * reads as `phone`; refuse when it is already picked, otherwise write the three claim
     * cells. A claim column missing from the sheet stops the claim where it stands.
     */
    method AtomicPick(phone: string, rep: string, at: string) returns (outcome: PickOutcome)
      modifies this
      ensures (outcome, grid) == Pick(old(grid), phone, rep, at)
    {
      var names, records := GetAllRecords();
      if !Distinct(names) {
        return HeaderNotUnique;
      }
      var i := 0;
      while i < |records|
        invariant 0 <= i <= |records|
        invariant grid == old(grid) && names == HeaderNames(grid) && records == DataRows(grid)
        invariant FirstWithPhone(names, records, phone, 0) == FirstWithPhone(names, records, phone, i)
      {
        var record := records[i];
        if PyStr(RecordGet(names, record, "phone")) == phone {
          assert FirstWithPhone(names, records, phone, 0) == Some(i);
          var rowIdx := i + 2;
          if RecordGet(names, record, "picked") == Some(Bool(true)) {
            return Returned(false, AlreadyPickedMessage(PyStr(RecordGet(names, record, "picked_by"))));
          }
          assert Pick(old(grid), phone, rep, at) == ClaimRow(old(grid), rowIdx, rep, at);
          var p := FindCell("picked");
          if p.None? {
            return Raised("picked");
          }
          UpdateCell(rowIdx, p.value.1, Bool(true));
          var q := FindCell("picked_by");
          if q.None? {
            return Raised("picked_by");
          }
          UpdateCell(rowIdx, q.value.1, Text(rep));
          var t := FindCell("picked_at");
          if t.None? {
            return Raised("picked_at");
          }
          UpdateCell(rowIdx, t.value.1, Text(at));
          return Returned(true, PickedMessage);
        }
        i := i + 1;
      }
      return Returned(false, NotFoundMessage);
    }

    /**
     * `upsert_leads(sheet, df, key)`: seed an empty store in one update, otherwise
     * overwrite the cells of stored keys and append rows for new ones, in frame order.
     */
    method UpsertLeads(df: Frame, key: string)
      requires UpsertReady(grid, df, key)
      modifies this
      ensures grid == Upsert(old(grid), df, key)
    {
      var names, records := GetAllRecords();
      if |records| == 0 {
        Update([HeaderRow(df.columns)] + FilledRows(df.rows));
        return;
      }
      var snap := TakeSnapshot(grid, key);
      UpsertLoop(df, key, snap.keys, snap.nonKey);
    }

    /** The same routine with each value written under its own column name (see Upserts.UpsertFixed). */
    method UpsertLeadsFixed(df: Frame, key: string)
      requires UpsertReady(grid, df, key)
      modifies this
      ensures grid == UpsertFixed(old(grid), df, key)
    {
      var names, records := GetAllRecords();
      if |records| == 0 {
        Update([HeaderRow(df.columns)] + FilledRows(df.rows));
        return;
      }
      var snap := TakeSnapshot(grid, key);
      KnownInHeader(grid, df, key);
      UpsertLoop(df, key, snap.keys, names);
    }

    /** The loop over the incoming rows, given the stored keys and the list whose positions name the columns. */
    method UpsertLoop(df: Frame, key: string, keys: seq<Cell>, targets: seq<string>)
      requires Rectangular(df) && key in df.columns && StoredRowsKnown(keys, targets, df, key)
      modifies this
      ensures grid == UpsertRows(old(grid), keys, targets, df, key, |df.rows|)
    {
      var keyAt := IndexOf(df.columns, key);
      var i := 0;
      while i < |df.rows|
        invariant 0 <= i <= |df.rows|
        invariant grid == UpsertRows(old(grid), keys, targets, df, key, i)
      {
        var row := df.rows[i];
        var k := row[keyAt];
        if k in keys {
          assert ColumnsKnown(targets, df.columns, key);
          var rowIdx := IndexOf(keys, k) + 2;
          var c := 0;
          while c < |df.columns|
            invariant 0 <= c <= |df.columns|
            invariant grid == WriteColumns(UpsertRows(old(grid), keys, targets, df, key, i), rowIdx, targets, df.columns, key, row, c)
          {
            if df.columns[c] != key {
              UpdateCell(rowIdx, TargetColumn(targets, df.columns[c]), FillNa(row[c]));
            }
            c := c + 1;
          }
          assert grid == UpsertRows(old(grid), keys, targets, df, key, i + 1);
        } else {
          AppendValues(NewRow(targets, df.columns, row));
          assert grid == UpsertRows(old(grid), keys, targets, df, key, i + 1);
        }
        i := i + 1;
      }
    }
  }
}
