/**
 * `atomic_pick` (sheets.py): a representative claims the lead with a given
 * phone number. The records are read once; the first record whose phone
 * prints as the argument is the lead; a lead already marked picked is
 * refused; otherwise three cells of its row are written.
 */
module Claim {
  import opened Wrappers
  import opened Seqs
  import opened Cells
  import opened Grids

  /**
   * What `atomic_pick` returns; or the column whose `find` came back empty (the call then
   * raises); or `get_all_records` refusing a header row that repeats a name (it raises).
   */
  datatype PickOutcome = Returned(ok: bool, message: string) | Raised(missing: string) | HeaderNotUnique

  const NotFoundMessage := "Lead not found"
  const PickedMessage := "Lead picked successfully"

  function AlreadyPickedMessage(owner: string): string
  {
    "Already picked by " + owner
  }

  /** `str(row.get("phone")) == str(phone)` */
  predicate PhoneMatches(names: seq<string>, row: Row, phone: string)
  {
    PyStr(RecordGet(names, row, "phone")) == phone
  }

  /** `row.get("picked") is True` */
  predicate IsPicked(names: seq<string>, row: Row)
  {
    RecordGet(names, row, "picked") == Some(Bool(true))
  }

  /** The scan: the first record at or after `from` whose phone matches. */
  function FirstWithPhone(names: seq<string>, rows: seq<Row>, phone: string, from: nat): (i: Option<nat>)
    ensures i.Some? ==> from <= i.value < |rows| && PhoneMatches(names, rows[i.value], phone)
    ensures i.Some? ==> forall j :: from <= j < i.value ==> !PhoneMatches(names, rows[j], phone)
    ensures i.None? ==> forall j :: from <= j < |rows| ==> !PhoneMatches(names, rows[j], phone)
    decreases |rows| - from
  {
    if from >= |rows| then None
    else if PhoneMatches(names, rows[from], phone) then Some(from)
    else FirstWithPhone(names, rows, phone, from + 1)
  }

  /** The three writes of a claim on sheet row `r`, each column located with `find` just before its write. */
  function ClaimRow(g: Grid, r: nat, rep: string, at: string): (PickOutcome, Grid)
    requires r >= 1
  {
    match Find(g, "picked")
    case None => (Raised("picked"), g)
    case Some(p) =>
      var g1 := SetCell(g, r, p.1, Bool(true));
      match Find(g1, "picked_by")
      case None => (Raised("picked_by"), g1)
      case Some(q) =>
        var g2 := SetCell(g1, r, q.1, Text(rep));
        match Find(g2, "picked_at")
        case None => (Raised("picked_at"), g2)
        case Some(t) => (Returned(true, PickedMessage), SetCell(g2, r, t.1, Text(at)))
  }

  /** `atomic_pick(sheet, phone, rep, at)` on grid `g`: its result and the grid afterwards. */
  function Pick(g: Grid, phone: string, rep: string, at: string): (PickOutcome, Grid)
  {
    var names := HeaderNames(g);
    var rows := DataRows(g);
    if !Distinct(names) then (HeaderNotUnique, g)
    else match FirstWithPhone(names, rows, phone, 0)
    case None => (Returned(false, NotFoundMessage), g)
    case Some(i) =>
      if IsPicked(names, rows[i]) then
        (Returned(false, AlreadyPickedMessage(PyStr(RecordGet(names, rows[i], "picked_by")))), g)
      else
        ClaimRow(g, i + 2, rep, at)
  }

  // ---------------------------------------------------------------------------
  // Properties
  // ---------------------------------------------------------------------------

  predicate HasClaimColumns(names: seq<string>)
  {
    "picked" in names && "picked_by" in names && "picked_at" in names
  }

  /** 1-based column of a header name. */
  function ColumnOf(names: seq<string>, name: string): nat
    requires name in names
  {
    IndexOf(names, name) + 1
  }

  /** A write below the header leaves the header where it was. */
  lemma SetCellKeepsHeader(g: Grid, r: nat, c: nat, v: Cell)
    requires 2 <= r <= |g| && c >= 1
    ensures |SetCell(g, r, c, v)| == |g| && SetCell(g, r, c, v)[0] == g[0]
    ensures HeaderNames(SetCell(g, r, c, v)) == HeaderNames(g)
  {
  }

  /** After a write below the header, `find` of a header name still gives its header column. */
  lemma FindAfterWrite(g: Grid, r: nat, c: nat, v: Cell, name: string)
    requires name in HeaderNames(g) && 2 <= r <= |g| && c >= 1
    ensures HeaderNames(SetCell(g, r, c, v)) == HeaderNames(g)
    ensures Find(SetCell(g, r, c, v), name) == Some((1, ColumnOf(HeaderNames(g), name)))
  {
    SetCellKeepsHeader(g, r, c, v);
    FindInHeader(SetCell(g, r, c, v), name);
  }

  /** With the three claim columns in the header, each `find` lands on the header and the claim is three writes. */
  lemma ClaimRowSteps(g: Grid, r: nat, rep: string, at: string)
    requires HasClaimColumns(HeaderNames(g)) && 2 <= r <= |g|
    ensures var names := HeaderNames(g);
            var g1 := SetCell(g, r, ColumnOf(names, "picked"), Bool(true));
            var g2 := SetCell(g1, r, ColumnOf(names, "picked_by"), Text(rep));
            ClaimRow(g, r, rep, at) == (Returned(true, PickedMessage), SetCell(g2, r, ColumnOf(names, "picked_at"), Text(at)))
  {
    var names := HeaderNames(g);
    var cp, cb, ca := ColumnOf(names, "picked"), ColumnOf(names, "picked_by"), ColumnOf(names, "picked_at");
    FindInHeader(g, "picked");
    assert Find(g, "picked") == Some((1, cp));
    var g1 := SetCell(g, r, cp, Bool(true));
    FindAfterWrite(g, r, cp, Bool(true), "picked_by");
    assert Find(g1, "picked_by") == Some((1, cb));
    var g2 := SetCell(g1, r, cb, Text(rep));
    FindAfterWrite(g1, r, cb, Text(rep), "picked_at");
    assert Find(g2, "picked_at") == Some((1, ca));
  }

  /**
   * No cell reads "picked_by": the claim writes the picked flag, then its `find` of
   * "picked_by" comes back empty and the call raises with that one write made.
   */
  lemma ClaimMissingPickedBy(g: Grid, r: nat, rep: string, at: string)
    requires "picked" in HeaderNames(g) && 2 <= r <= |g|
    requires Find(g, "picked_by") == None
    ensures ClaimRow(g, r, rep, at) == (Raised("picked_by"), SetCell(g, r, ColumnOf(HeaderNames(g), "picked"), Bool(true)))
  {
    var cp := ColumnOf(HeaderNames(g), "picked");
    FindInHeader(g, "picked");
    assert Find(g, "picked") == Some((1, cp));
    var g1 := SetCell(g, r, cp, Bool(true));
    forall r', c' | 0 <= r' < |g1| && 0 <= c' < |g1[r']| ensures Str(g1[r'][c']) != "picked_by" {
      assert g1[r'][c'] == CellAt(g1, r' + 1, c' + 1);
      assert Str(Bool(true)) != "picked_by";
      assert Str(Blank) != "picked_by";
    }
    assert Find(g1, "picked_by") == None;
  }

  /** Two different names of a header have different columns. */
  lemma ColumnsDistinct(names: seq<string>, a: string, b: string)
    requires a in names && b in names && a != b
    ensures ColumnOf(names, a) != ColumnOf(names, b)
  {
  }

  /** With the three claim columns in the header, a claim writes exactly their cells in row `r`. */
  lemma ClaimRowWrites(g: Grid, r: nat, rep: string, at: string)
    requires HasClaimColumns(HeaderNames(g)) && 2 <= r <= |g|
    ensures var names := HeaderNames(g);
            var (outcome, g') := ClaimRow(g, r, rep, at);
            && outcome == Returned(true, PickedMessage)
            && |g'| == |g| && g'[0] == g[0]
            && (forall k :: 0 <= k < |g| && k != r - 1 ==> g'[k] == g[k])
            && (forall r', c' :: CellAt(g', r', c') ==
                 if r' == r && c' == ColumnOf(names, "picked") then Bool(true)
                 else if r' == r && c' == ColumnOf(names, "picked_by") then Text(rep)
                 else if r' == r && c' == ColumnOf(names, "picked_at") then Text(at)
                 else CellAt(g, r', c'))
  {
    var names := HeaderNames(g);
    var cp, cb, ca := ColumnOf(names, "picked"), ColumnOf(names, "picked_by"), ColumnOf(names, "picked_at");
    ColumnsDistinct(names, "picked", "picked_by");
    ColumnsDistinct(names, "picked", "picked_at");
    ColumnsDistinct(names, "picked_by", "picked_at");
    ClaimRowSteps(g, r, rep, at);
    var g1 := SetCell(g, r, cp, Bool(true));
    var g2 := SetCell(g1, r, cb, Text(rep));
    var g3 := SetCell(g2, r, ca, Text(at));
    forall r', c' ensures CellAt(g3, r', c') ==
                 if r' == r && c' == cp then Bool(true)
                 else if r' == r && c' == cb then Text(rep)
                 else if r' == r && c' == ca then Text(at)
                 else CellAt(g, r', c')
    {
      assert CellAt(g3, r', c') == if r' == r && c' == ca then Text(at) else CellAt(g2, r', c');
      assert CellAt(g2, r', c') == if r' == r && c' == cb then Text(rep) else CellAt(g1, r', c');
    }
  }

  /** Reading the records raises exactly when the header repeats a name, and then nothing is written. */
  lemma PickHeaderNotUnique(g: Grid, phone: string, rep: string, at: string)
    ensures Pick(g, phone, rep, at).0 == HeaderNotUnique <==> !Distinct(HeaderNames(g))
    ensures !Distinct(HeaderNames(g)) ==> Pick(g, phone, rep, at).1 == g
  {
    var names := HeaderNames(g);
    if Distinct(names) {
      match FirstWithPhone(names, DataRows(g), phone, 0)
      case None =>
      case Some(i) =>
        if !IsPicked(names, DataRows(g)[i]) {
          assert Pick(g, phone, rep, at) == ClaimRow(g, i + 2, rep, at);
        }
    }
  }

  /** A header naming "phone" twice: the records are refused, even though the second phone would match. */
  lemma RepeatedPhoneHeader()
    ensures var g := [[Text("phone"), Text("phone")], [Text("1"), Text("2")]];
            Pick(g, "2", "r", "t") == (HeaderNotUnique, g)
  {
    var g := [[Text("phone"), Text("phone")], [Text("1"), Text("2")]];
    assert HeaderNames(g)[0] == HeaderNames(g)[1] == "phone";
  }

  /**
   * "Lead not found" is returned exactly when the records can be read and no record's
   * phone matches, and then nothing is written.
   */
  lemma PickNotFound(g: Grid, phone: string, rep: string, at: string)
    ensures var rows := DataRows(g);
            Pick(g, phone, rep, at).0 == Returned(false, NotFoundMessage) <==>
              Distinct(HeaderNames(g)) && forall j :: 0 <= j < |rows| ==> !PhoneMatches(HeaderNames(g), rows[j], phone)
    ensures Pick(g, phone, rep, at).0 == Returned(false, NotFoundMessage) ==> Pick(g, phone, rep, at).1 == g
  {
    var names := HeaderNames(g);
    var rows := DataRows(g);
    if Distinct(names) {
      match FirstWithPhone(names, rows, phone, 0)
      case None =>
      case Some(i) =>
        var owner := PyStr(RecordGet(names, rows[i], "picked_by"));
        assert AlreadyPickedMessage(owner)[0] != NotFoundMessage[0];
    }
  }

  /** The first matching record is the lead; if it is already picked, the owner is reported and nothing is written. */
  lemma PickAlreadyPicked(g: Grid, phone: string, rep: string, at: string, i: nat)
    requires Distinct(HeaderNames(g))
    requires i < |DataRows(g)| && PhoneMatches(HeaderNames(g), DataRows(g)[i], phone)
    requires forall j :: 0 <= j < i ==> !PhoneMatches(HeaderNames(g), DataRows(g)[j], phone)
    requires IsPicked(HeaderNames(g), DataRows(g)[i])
    ensures "picked_by" in HeaderNames(g) ==>
      var owner := Str(CellAt(g, i + 2, ColumnOf(HeaderNames(g), "picked_by")));
      Pick(g, phone, rep, at) == (Returned(false, AlreadyPickedMessage(owner)), g)
    ensures "picked_by" !in HeaderNames(g) ==>
      Pick(g, phone, rep, at) == (Returned(false, AlreadyPickedMessage("None")), g)
  {
    var names := HeaderNames(g);
    assert FirstWithPhone(names, DataRows(g), phone, 0) == Some(i);
    if "picked_by" in names {
      DataCell(g, i, IndexOf(names, "picked_by"));
    }
  }

  /**
   * A successful claim: the first matching record is unpicked and the header has the
   * three claim columns; exactly three cells of sheet row i + 2 are written.
   */
  lemma PickClaims(g: Grid, phone: string, rep: string, at: string, i: nat)
    requires HasClaimColumns(HeaderNames(g)) && Distinct(HeaderNames(g))
    requires i < |DataRows(g)| && PhoneMatches(HeaderNames(g), DataRows(g)[i], phone)
    requires forall j :: 0 <= j < i ==> !PhoneMatches(HeaderNames(g), DataRows(g)[j], phone)
    requires !IsPicked(HeaderNames(g), DataRows(g)[i])
    ensures var names := HeaderNames(g);
            var (outcome, g') := Pick(g, phone, rep, at);
            && outcome == Returned(true, PickedMessage)
            && |g'| == |g|
            && forall r, c :: CellAt(g', r, c) ==
                 if r == i + 2 && c == ColumnOf(names, "picked") then Bool(true)
                 else if r == i + 2 && c == ColumnOf(names, "picked_by") then Text(rep)
                 else if r == i + 2 && c == ColumnOf(names, "picked_at") then Text(at)
                 else CellAt(g, r, c)
  {
    assert FirstWithPhone(HeaderNames(g), DataRows(g), phone, 0) == Some(i);
    ClaimRowWrites(g, i + 2, rep, at);
  }

  /** The scan only looks at phones: two record lists that agree on them have the same first match. */
  lemma {:induction false} FirstWithPhoneByPhones(names: seq<string>, rows: seq<Row>, rows': seq<Row>, phone: string, from: nat)
    requires |rows| == |rows'|
    requires forall j :: 0 <= j < |rows| ==> (PhoneMatches(names, rows[j], phone) <==> PhoneMatches(names, rows'[j], phone))
    ensures FirstWithPhone(names, rows, phone, from) == FirstWithPhone(names, rows', phone, from)
    decreases |rows| - from
  {
    if from < |rows| && !PhoneMatches(names, rows[from], phone) {
      FirstWithPhoneByPhones(names, rows, rows', phone, from + 1);
    }
  }

  /** Cell k of record j after a claim on record i, in terms of the cells before it. */
  lemma ClaimedRecordCell(g: Grid, i: nat, rep: string, at: string, j: nat, k: nat)
    requires HasClaimColumns(HeaderNames(g)) && i < |DataRows(g)| && j < |DataRows(g)|
    ensures var names := HeaderNames(g);
            var g1 := ClaimRow(g, i + 2, rep, at).1;
            && j < |DataRows(g1)|
            && RowCell(DataRows(g1)[j], k) ==
                 if j == i && k == IndexOf(names, "picked") then Bool(true)
                 else if j == i && k == IndexOf(names, "picked_by") then Text(rep)
                 else if j == i && k == IndexOf(names, "picked_at") then Text(at)
                 else RowCell(DataRows(g)[j], k)
  {
    ClaimRowWrites(g, i + 2, rep, at);
    var g1 := ClaimRow(g, i + 2, rep, at).1;
    DataCell(g, j, k);
    DataCell(g1, j, k);
  }

  /** A claim on record i leaves the header and every phone as they were, and marks record i picked by `rep`. */
  lemma ClaimKeepsPhones(g: Grid, i: nat, phone: string, rep: string, at: string)
    requires HasClaimColumns(HeaderNames(g)) && i < |DataRows(g)|
    ensures var g1 := ClaimRow(g, i + 2, rep, at).1;
            var names := HeaderNames(g);
            && HeaderNames(g1) == names
            && |DataRows(g1)| == |DataRows(g)|
            && (forall j :: 0 <= j < |DataRows(g)| ==>
                  (PhoneMatches(names, DataRows(g)[j], phone) <==> PhoneMatches(names, DataRows(g1)[j], phone)))
            && IsPicked(names, DataRows(g1)[i])
            && PyStr(RecordGet(names, DataRows(g1)[i], "picked_by")) == rep
  {
    var names := HeaderNames(g);
    var rows := DataRows(g);
    ClaimRowWrites(g, i + 2, rep, at);
    var g1 := ClaimRow(g, i + 2, rep, at).1;
    var rows1 := DataRows(g1);
    assert HeaderNames(g1) == names;
    forall j | 0 <= j < |rows|
      ensures PhoneMatches(names, rows[j], phone) <==> PhoneMatches(names, rows1[j], phone)
    {
      if "phone" in names {
        var k := IndexOf(names, "phone");
        assert names[k] == "phone";
        ClaimedRecordCell(g, i, rep, at, j, k);
      }
    }
    ClaimedRecordCell(g, i, rep, at, i, IndexOf(names, "picked"));
    ClaimedRecordCell(g, i, rep, at, i, IndexOf(names, "picked_by"));
  }

  /**
   * At most one claim, for calls one after another: once rep `a` has picked the lead,
   * a pick of the same phone by anyone is refused naming `a`, and writes nothing.
   */
  lemma SecondPickRefused(g: Grid, phone: string, a: string, b: string, t1: string, t2: string)
    requires HasClaimColumns(HeaderNames(g))
    requires Pick(g, phone, a, t1).0 == Returned(true, PickedMessage)
    ensures var g1 := Pick(g, phone, a, t1).1;
            Pick(g1, phone, b, t2) == (Returned(false, AlreadyPickedMessage(a)), g1)
  {
    var names := HeaderNames(g);
    var rows := DataRows(g);
    PickNotFound(g, phone, a, t1);
    var i := FirstWithPhone(names, rows, phone, 0).value;
    assert !IsPicked(names, rows[i]);
    var g1 := ClaimRow(g, i + 2, a, t1).1;
    assert g1 == Pick(g, phone, a, t1).1;
    ClaimKeepsPhones(g, i, phone, a, t1);
    FirstWithPhoneByPhones(names, rows, DataRows(g1), phone, 0);
  }
}
