# lead-intelligence: lead scoring and the spreadsheet lead store

This project models the core of lead-intelligence, a tool for a sales team that
scores incoming leads and keeps them in a shared spreadsheet. The model covers two
parts.

- **Lead scoring** (`score_leads`). Every lead row gets an intent score from five
  sub-scores: medical reason, timeline, city, call outcome and consultation status.
  The score then gives a band (High, Medium or Low) and a lead state ("High Intent"
  or "Follow-up").
- **The lead store**. `upsert_leads` merges a batch of leads into the worksheet,
  keyed by phone. `atomic_pick` lets a representative claim a lead by writing the
  `picked`, `picked_by` and `picked_at` cells of its row.

## Layout

- `base.dfy`: `Option`, plus sequence helpers (`IndexOf`, `Distinct`, `Without`).
- `py_strings.dfy`: the Python string operations the core relies on.
  - `str.strip` uses the full `str.isspace` set.
  - `str.lower` is ASCII only.
  - `sub in s` holds when `sub` occurs at some index of `s`.
  - `str(int)` is decimal, and distinct integers print differently.
- `cells.dfy`: a cell is a missing value (NaN or None), text, an integer or a boolean.
  - `Str` models Python `str()`.
  - `Present` models `present()`.
  - `FillNa` models `fillna("")`.
  - A DataFrame is a list of column labels over rows of cells.
- `scoring.dfy`: the five sub-scores, exactly as written.
  - Four of the five sub-scores (medical reason, timeline, call outcome and
    consultation status) have a rule table as partner: an ordered list of
    (exact or substring match, weight) pairs, where the first rule that fires wins.
    One lemma per such sub-score proves it equals its table. The city sub-score
    has no table; its contract states each of its three values by an if-and-only-if.
  - Also here: the band and state, and `score_leads` as a method whose loop builds
    the three result columns.
- `grids.dfy`: the worksheet as a grid addressed by 1-based (row, column). The
  worksheet API calls are functions on that grid: `get_all_records`, `update_cell`,
  `append_row`, `update` at A1, and `find`, which scans row by row.
- `claim.dfy`: `Pick`, the specification of `atomic_pick`, with lemmas for each
  branch. Its main property is at most one claim per lead: once one representative
  has picked a lead, the next call for that phone, by anyone, is refused and names
  the first owner.
- `upsert.dfy`: `Upsert`, the specification of `upsert_leads` as written, plus a
  corrected variant `UpsertFixed`. Both are built from the same per-row step. The
  as-written version looks up sheet columns in the store's non-key columns; the
  corrected one looks them up in the full header.
- `sheets.dfy`: the class `Sheet`, whose field `grid` is the worksheet.
  - Its methods are the API calls.
  - `AtomicPick`, `UpsertLeads` and `UpsertLeadsFixed` are the routines of
    `sheets.py`, written with loops.
  - Each routine is proved to leave `grid` equal to its specification function.

## Behaviour of the code as written

- **Ownership:** a pick that is already owned is refused, but `upsert_leads`
  overwrites `picked`, `picked_by` and `picked_at` like any other column.
- **Normalization and gates:** there is no phone normalization. `atomic_pick`
  compares the printed phone of each record with the argument as text.
  `upsert_leads` compares key cells as values (the index lookup of pandas). There
  is no minimum-data gate, and there are no objection or CRM-aware lead states.
- **Timeline keywords:** the only keywords are "15", "30", "1-3", "1 to 3", "3-6"
  and "not decided".
- **Scoring matches:** call outcome matches positive, neutral and negative exactly.
  Consultation status matches scheduled, done and not offered exactly, but
  "declined" as a substring.

## Model

| member | source | states |
|---|---|---|
| Cells.PresentIff | scoring.py:8-9 | a value is present exactly when it is not missing and, for text, has a non-whitespace character; numbers and booleans are always present |
| PyStrings.Strip | scoring.py:9 | the stripped text is empty exactly when the input is all whitespace, and otherwise starts and ends with a non-whitespace character |
| PyStrings.StripIsSlice | scoring.py:9 | the stripped text is a slice of the input, and everything cut off before and after it is whitespace |
| PyStrings.DecimalRoundTrip | sheets.py:75 | reading back the decimal digits `str()` prints for a natural number gives that number |
| PyStrings.IntToDecimalInjective | sheets.py:75 | two integers whose `str()` agree are equal, so an integer phone cell matches only its own decimal text |
| PyStrings.ContainsTransitive | scoring.py:26 | if `mid in s` and `sub in mid`, then `sub in s` |
| Scoring.MedicalScore | scoring.py:22-36 | an absent reason scores 0; no reason scores more than 40 |
| Scoring.MedicalPointsByRules | scoring.py:26-36 | on any lower-cased reason text, the keyword tests give the weight of the first firing rule of the table power 40, medical 35, lifestyle 25, cosmetic 15, explor 5 (0 when none fires) |
| Scoring.PowerSubsumes | scoring.py:26 | "high eye power" or "power" occurs exactly when "power" occurs |
| Scoring.PowerBeforeMedical | scoring.py:26-29 | keyword precedence: "medical power" scores 40, not 35 |
| Scoring.TimelineScore | scoring.py:41-55 | an absent timeline scores 0; no timeline scores more than 20 |
| Scoring.TimelinePointsByRules | scoring.py:45-55 | on any lower-cased timeline text, the keyword tests give the weight of the first firing substring rule of 15→20, 30→16, 1-3→10, "1 to 3"→10, 3-6→5, "not decided"→2 |
| Scoring.LocationScore | scoring.py:60-63 | 10 exactly for a present city in Mumbai, Pune, Surat, Indore (raw text, no stripping or case folding), 6 exactly for another present city, 0 exactly when absent |
| Scoring.CallScore | scoring.py:68-78 | an absent outcome scores 0; no outcome scores more than 10 |
| Scoring.CallPointsByRules | scoring.py:71-78 | on any lower-cased outcome text, the tests give the weight of the exact-match table positive 10, neutral 6, negative 2 |
| Scoring.ConsultationScore | scoring.py:83-95 | an absent status scores 0; no status scores more than 15 |
| Scoring.ConsultationPointsByRules | scoring.py:86-95 | on any lower-cased status text, the tests give the weight of the table: exactly scheduled 12, exactly done 15, containing declined 6, exactly "not offered" 2 |
| Scoring.IntentScore | scoring.py:101-108 | the intent score of a row is at most 95 |
| Scoring.MaximumScoreReached | scoring.py:101-108 | the bound 95 is attained by power, 15, a core city, positive, done |
| Scoring.BandOf | scoring.py:112-117 | High exactly when the score is at least 70, Medium exactly for 40 to 69, Low exactly below 40 |
| Scoring.StateOf | scoring.py:121-124 | "High Intent" exactly for band High, "Follow-up" otherwise |
| Scoring.WorkedExample | scoring.py:101-124 | a lead with "high eye power", "within 15 days" and "Mumbai" scores 70, is High and is "High Intent" |
| Scoring.SetColumn | scoring.py:126-128 | assigning a column replaces it in place when the label exists and appends it otherwise; that column reads back the new values and every other cell is unchanged |
| Scoring.AssignedValues | scoring.py:126-128 | after the three assignments the labels are the old ones plus the three new ones, and each row reads back its score, band and state under intent_score, intent_band and lead_state |
| Scoring.AssignedKeeps | scoring.py:126-128 | the three assignments leave every cell under any other label where it was |
| Scoring.AssessRows | scoring.py:97-124 | one score, band and state per row, in row order, each those of that row |
| Scoring.ScoreLeads | scoring.py:15-130 | the result has the normalized labels plus the three result columns, as many rows as the input, and each row carries its own score, band and state and all of its other cells |
| Grids.SetCell | sheets.py:61 | `update_cell` changes only the addressed cell, growing the sheet to reach it |
| Grids.Overlay | sheets.py:47 | `update` writes the block from A1; cells outside the block keep their values |
| Grids.DataRows | sheets.py:44 | the records are the rows after the header, in order |
| Grids.RecordGet | sheets.py:75 | a record lookup is None exactly when the header lacks the name, and otherwise gives the record's cell under the first header column of that name |
| Grids.Find | sheets.py:81 | `find` gives the first cell in row-major order whose text equals the query (no match in an earlier row or earlier in its row), and gives nothing only when no cell matches |
| Grids.FindInHeader | sheets.py:81 | a header name is found in row 1 at its header column |
| Claim.FirstWithPhone | sheets.py:74-75 | the lead is the first record whose phone prints as the argument; none exactly when no record matches |
| Claim.PickHeaderNotUnique | sheets.py:72 | reading the records raises exactly when the header row repeats a name, and nothing is written |
| Claim.RepeatedPhoneHeader | sheets.py:72 | a header naming "phone" twice makes the pick raise, even when the second phone would match |
| Claim.PickNotFound | sheets.py:71-91 | "Lead not found" exactly when the records can be read and no record's phone matches, and then nothing is written |
| Claim.PickAlreadyPicked | sheets.py:74-79 | when the first matching record is already picked, the pick is refused with "Already picked by" its picked_by cell ("None" without that column), and nothing is written |
| Claim.ClaimRowSteps | sheets.py:81-87 | with the three claim columns in the header, each `find` lands on its header cell and the claim is three `update_cell` writes followed by the success message |
| Claim.ClaimMissingPickedBy | sheets.py:81-82 | with "picked" in the header and no cell reading "picked_by", the call raises at the second `find` after writing True into the picked cell, and no other cell changes |
| Claim.ClaimRowWrites | sheets.py:81-87 | with the three claim columns in the header, a claim writes True, the representative and the time into exactly those three cells of the row |
| Claim.PickClaims | sheets.py:74-89 | with a header that repeats no name and has the three claim columns, an unpicked first match is claimed: success message, and only its three claim cells change |
| Claim.FirstWithPhoneByPhones | sheets.py:74-75 | the scan depends only on which records match the phone |
| Claim.ClaimedRecordCell | sheets.py:81-87 | every record cell after a claim, in terms of the cells before it |
| Claim.ClaimKeepsPhones | sheets.py:81-87 | a claim keeps the header and every phone, and marks the record picked by the representative |
| Claim.SecondPickRefused | sheets.py:71-89 | after a successful pick by a, the next pick of the same phone, by anyone, returns "Already picked by a" and writes nothing |
| Sheets.Sheet.GetAllRecords | sheets.py:44 | returns the header names and the rows below the header |
| Sheets.Sheet.FindCell | sheets.py:81 | returns what `find` gives on the current sheet |
| Sheets.Sheet.UpdateCell | sheets.py:61 | the sheet becomes the old sheet with one cell set |
| Sheets.Sheet.AppendValues | sheets.py:63-65 | the sheet becomes the old sheet with one row appended |
| Sheets.Sheet.Update | sheets.py:47 | the sheet becomes the old sheet overlaid with the block |
| Sheets.Sheet.AtomicPick | sheets.py:71-91 | the result and the new sheet are those of `Pick` on the old sheet |
| Sheets.Sheet.UpsertLeads | sheets.py:43-65 | the new sheet is `Upsert` of the old sheet |
| Sheets.Sheet.UpsertLoop | sheets.py:56-65 | the loop leaves the sheet as the per-row step folded over all incoming rows |
| Upserts.TakeSnapshot | sheets.py:50-52 | the snapshot has the header without the key, and one key per record, read from the key column |
| Upserts.UpsertIntoEmptyStore | sheets.py:44-48 | a store without records, whose header (if any) repeats no name, gets the header and then every row, missing values as ""; the records read back are exactly those rows |
| Upserts.WriteColumnsRows | sheets.py:59-61 | the writes for one lead touch only its sheet row and add no row |
| Upserts.WriteColumnsUntargeted | sheets.py:59-61 | a column no incoming non-key column targets keeps its value |
| Upserts.WriteColumnsTargets | sheets.py:59-61 | each incoming non-key value lands in its target column ("" for a missing value) |
| Upserts.UpsertExistingKey | sheets.py:57-61 | an incoming row for a stored key changes only that key's row, and in it only the targeted cells, the claim columns included |
| Upserts.UpsertNewKey | sheets.py:62-65 | an incoming row for an unseen key appends exactly one row: each target column gets the incoming value or "" (incoming columns outside the targets are dropped) |
| Upserts.UpsertRowsFrame | sheets.py:56-65 | over a batch, one row is appended per incoming row whose key was not stored before the batch (the stored keys are read once, so a new key that occurs twice in the batch is appended twice), and the row of a stored key that no incoming row carries is unchanged |
| Upserts.UpsertKeepsOtherLeads | sheets.py:43-65 | the same for the whole of `upsert_leads` on a store with records |
| Upserts.OneLeadSnapshot | sheets.py:50-52 | the store phone, name with lead 98, A has the non-key columns [name] and the keys [98] |
| Upserts.ShiftedUpdate | sheets.py:60 | as written, re-sending lead 98 with name B writes B into the phone column |
| Upserts.KeylessAppend | sheets.py:63-65 | as written, a new lead 77, C is appended as the row [C] |
| Upserts.UpsertRowsAllNew | sheets.py:56-65 | over incoming rows none of whose keys is stored, the loop appends one row per incoming row, in order, and leaves the rows already there alone |
| Upserts.UpsertAllNewKeys | sheets.py:43-65 | on a store with records, a batch of unseen keys is accepted whatever columns it brings, and each of its rows is appended in order, laid out over the store's non-key columns |
| Upserts.NewLeadExtraColumn | sheets.py:56-65 | a batch of new keys may bring a column the store lacks: nothing raises, and the extra value is dropped from the appended row |
| Upserts.AsWrittenLosesKeys | sheets.py:56-65 | in both cases the record afterwards reads a phone that is not the lead's |
| Upserts.FixedUpdateReadsBack | sheets.py:57-61 | corrected: the stored key's record reads back every incoming value under its own name, and the key is unchanged |
| Upserts.FixedAppendReadsBack | sheets.py:62-65 | corrected: a new key's record reads back every incoming value the header has a column for, the key included, and "" under the other columns |
| Upserts.UpsertFixedKeepsOtherLeads | sheets.py:56-65 | corrected: one row appended per unseen key; rows of keys not in the batch are unchanged |
| Sheets.Sheet.UpsertLeadsFixed | sheets.py:43-65 | the new sheet is `UpsertFixed` of the old sheet |

## Left out

- PyStrings.Strip: its own contract states emptiness and the non-whitespace ends only. That the result is the input with its leading and trailing whitespace cut off is stated by the lemma PyStrings.StripIsSlice, because every scoring proof assumes Strip's contract and an existential there makes those proofs too costly for the verifier.
- Lower: `str.lower()` is modelled on ASCII letters only. Other characters are left unchanged.
- Cells: floats, dates and other pandas types are not modelled. Python's `True == 1` equality between key values and NaN's inequality with itself are not modelled: keys compare as cells.
- AtomicPick: the model assumes a boolean written to the sheet reads back as the boolean True. If the worksheet API returns the text "TRUE" instead, `is True` never holds and an existing pick is never refused. The API's value conversion is not part of this model.
- Grids.RecordGet: for a header that repeats a name it gives the first column of that name. That choice is never observed: `get_all_records` raises on such a header, which `Claim.Pick` models as the outcome `HeaderNotUnique` and `Upserts.UpsertReady` excludes. The library version is not pinned; an older one that builds each record with `dict(zip(header, row))`, where the last column of a repeated name wins, is not modelled.
- AtomicPick: the current time is a parameter (`at`). `datetime.utcnow().isoformat()` is not modelled.
- AtomicPick: calls are sequential. Two representatives racing between the read and the writes (the check is not atomic) are not modelled, because the model has no concurrency.
- Upserts.UpsertReady: the store's header row must not repeat a name, or reading the records raises, empty store included. A store with records must also have the key in both frames, or the source raises before its loop. An incoming row whose key is stored must find that key stored once and every incoming column among the store's non-key columns, or the source raises at `get_loc` during the loop. The model requires these instead of modelling the exception and the writes made before it. A batch whose keys are all new, or a store whose repeated keys no incoming row carries, needs neither.
- Upserts.NewRow: a missing incoming value in an appended row stays a missing cell. Its spreadsheet rendering is not modelled.
- Grids: the worksheet API's trimming of empty trailing rows and its value formatting are not modelled. A blank cell reads as "".
- Scoring.ScoreLeads: requires that the eight labels it reads or writes occur at most once after normalization. With a repeated label, pandas returns a column of values where the code expects one value.
- `_get_client`, `open_sheet` and `load_leads` (authorization and I/O), the Streamlit interface and the tests are not part of this model.

## Findings

| source | as written | input that shows it | evidently intended | confidence | as-written member | corrected member |
|---|---|---|---|---|---|---|
| sheets.py:60 | the column written is the incoming column's position among the store's non-key columns plus one, so every column after the key is written one column to the left | header phone, name with record 98, A; incoming phone 98, name B | B written under name; the record keeps phone 98 | high; not executed | Upserts.ShiftedUpdate | Upserts.FixedUpdateReadsBack |
| sheets.py:63-65 | the appended row lists only the non-key columns, so the key is lost and the values after it shift left | same store; incoming phone 77, name C | appended row 77, C | high; not executed | Upserts.KeylessAppend | Upserts.FixedAppendReadsBack |
