/**
 * Rule-based lead scoring (scoring.py): five keyword and lookup sub-scores
 * summed into an intent score, the score's band, and the lead state.
 */
module Scoring {
  import opened Wrappers
  import opened Seqs
  import opened PyStrings
  import opened Cells

  const CoreCities: seq<string> := ["Mumbai", "Pune", "Surat", "Indore"]

  // ---------------------------------------------------------------------------
  // A rule table: the reference the hand-written sub-scores are checked against
  // ---------------------------------------------------------------------------

  /** A scoring rule: an exact text or a keyword that must occur, and the points it gives. */
  datatype Rule = Exactly(text: string, weight: nat) | Substring(keyword: string, weight: nat)

  predicate Fires(rule: Rule, t: string)
  {
    match rule
    case Exactly(x, _) => t == x
    case Substring(k, _) => Contains(t, k)
  }

  /** Index of the first rule that fires on `t`, if any. */
  function FirstFiring(rules: seq<Rule>, t: string): (k: Option<nat>)
    ensures k.None? <==> forall j :: 0 <= j < |rules| ==> !Fires(rules[j], t)
    ensures k.Some? ==> k.value < |rules| && Fires(rules[k.value], t)
    ensures k.Some? ==> forall j :: 0 <= j < k.value ==> !Fires(rules[j], t)
  {
    if |rules| == 0 then None
    else if Fires(rules[0], t) then Some(0)
    else match FirstFiring(rules[1..], t)
      case None => None
      case Some(k) => Some(k + 1)
  }

  /** The weight of the first rule that fires, 0 when none does. */
  function Evaluate(rules: seq<Rule>, t: string): nat
  {
    match FirstFiring(rules, t)
    case None => 0
    case Some(k) => rules[k].weight
  }

  const MedicalRules: seq<Rule> := [
    Substring("power", 40), Substring("medical", 35), Substring("lifestyle", 25),
    Substring("cosmetic", 15), Substring("explor", 5)]

  const TimelineRules: seq<Rule> := [
    Substring("15", 20), Substring("30", 16), Substring("1-3", 10), Substring("1 to 3", 10),
    Substring("3-6", 5), Substring("not decided", 2)]

  const CallRules: seq<Rule> := [
    Exactly("positive", 10), Exactly("neutral", 6), Exactly("negative", 2)]

  const ConsultationRules: seq<Rule> := [
    Exactly("scheduled", 12), Exactly("done", 15), Substring("declined", 6), Exactly("not offered", 2)]

  /** The text the keyword rules look at: `str(x).lower()`. */
  function Folded(c: Cell): string
  {
    Lower(Str(c))
  }

  // ---------------------------------------------------------------------------
  // The five sub-scores, as written in scoring.py: each keyword test runs on the
  // lower-cased text of a present value, and an absent value scores 0
  // ---------------------------------------------------------------------------

  /** The keyword tests of `medical_score` on the lower-cased reason. */
  function MedicalPoints(t: string): (r: nat)
    ensures r <= 40
  {
    if Contains(t, "high eye power") || Contains(t, "power") then 40
    else if Contains(t, "medical") then 35
    else if Contains(t, "lifestyle") then 25
    else if Contains(t, "cosmetic") then 15
    else if Contains(t, "explor") then 5
    else 0
  }

  function MedicalScore(reason: Cell): (r: nat)
    ensures !Present(reason) ==> r == 0
    ensures r <= 40
  {
    if !Present(reason) then 0 else MedicalPoints(Folded(reason))
  }

  /** The keyword tests of `timeline_score` on the lower-cased timeline. */
  function TimelinePoints(t: string): (r: nat)
    ensures r <= 20
  {
    if Contains(t, "15") then 20
    else if Contains(t, "30") then 16
    else if Contains(t, "1-3") || Contains(t, "1 to 3") then 10
    else if Contains(t, "3-6") then 5
    else if Contains(t, "not decided") then 2
    else 0
  }

  function TimelineScore(timeline: Cell): (r: nat)
    ensures !Present(timeline) ==> r == 0
    ensures r <= 20
  {
    if !Present(timeline) then 0 else TimelinePoints(Folded(timeline))
  }

  /** `city in CORE_CITIES` compares the raw value, without stripping or lower-casing. */
  predicate IsCoreCity(city: Cell)
  {
    city.Text? && city.s in CoreCities
  }

  function LocationScore(city: Cell): (r: nat)
    ensures r == 10 <==> Present(city) && IsCoreCity(city)
    ensures r == 6 <==> Present(city) && !IsCoreCity(city)
    ensures r == 0 <==> !Present(city)
  {
    if !Present(city) then 0 else if IsCoreCity(city) then 10 else 6
  }

  /** The tests of `call_score` on the lower-cased outcome. */
  function CallPoints(o: string): (r: nat)
    ensures r <= 10
  {
    if o == "positive" then 10
    else if o == "neutral" then 6
    else if o == "negative" then 2
    else 0
  }

  function CallScore(outcome: Cell): (r: nat)
    ensures !Present(outcome) ==> r == 0
    ensures r <= 10
  {
    if !Present(outcome) then 0 else CallPoints(Folded(outcome))
  }

  /** The tests of `consultation_score` on the lower-cased status. */
  function ConsultationPoints(s: string): (r: nat)
    ensures r <= 15
  {
    if s == "scheduled" then 12
    else if s == "done" then 15
    else if Contains(s, "declined") then 6
    else if s == "not offered" then 2
    else 0
  }

  function ConsultationScore(status: Cell): (r: nat)
    ensures !Present(status) ==> r == 0
    ensures r <= 15
  {
    if !Present(status) then 0 else ConsultationPoints(Folded(status))
  }

  // ---------------------------------------------------------------------------
  // Each sub-score is its rule table applied to the lower-cased text
  // ---------------------------------------------------------------------------

  /** "high eye power" contains "power", so the first alternative of the medical test adds nothing. */
  lemma PowerSubsumes(t: string)
    ensures Contains(t, "high eye power") || Contains(t, "power") <==> Contains(t, "power")
  {
    if Contains(t, "high eye power") {
      assert "high eye power"[9..14] == "power";
      ContainsAt("high eye power", "power", 9);
      ContainsTransitive(t, "high eye power", "power");
    }
  }

  /** The rule at position i decides when it fires and none before it does. */
  lemma EvaluateAt(rules: seq<Rule>, t: string, i: nat)
    requires i < |rules| && Fires(rules[i], t)
    requires forall j :: 0 <= j < i ==> !Fires(rules[j], t)
    ensures Evaluate(rules, t) == rules[i].weight
  {
    assert FirstFiring(rules, t) == Some(i);
  }

  /** No rule fires: nothing is scored. */
  lemma EvaluateNone(rules: seq<Rule>, t: string)
    requires forall j :: 0 <= j < |rules| ==> !Fires(rules[j], t)
    ensures Evaluate(rules, t) == 0
  {
    assert FirstFiring(rules, t).None?;
  }

  lemma MedicalPointsByRules(t: string)
    ensures MedicalPoints(t) == Evaluate(MedicalRules, t)
  {
    PowerSubsumes(t);
    if Contains(t, "power") {
      EvaluateAt(MedicalRules, t, 0);
    } else if Contains(t, "medical") {
      EvaluateAt(MedicalRules, t, 1);
    } else if Contains(t, "lifestyle") {
      EvaluateAt(MedicalRules, t, 2);
    } else if Contains(t, "cosmetic") {
      EvaluateAt(MedicalRules, t, 3);
    } else if Contains(t, "explor") {
      EvaluateAt(MedicalRules, t, 4);
    } else {
      EvaluateNone(MedicalRules, t);
    }
  }

  lemma TimelinePointsByRules(t: string)
    ensures TimelinePoints(t) == Evaluate(TimelineRules, t)
  {
    if Contains(t, "15") {
      EvaluateAt(TimelineRules, t, 0);
    } else if Contains(t, "30") {
      EvaluateAt(TimelineRules, t, 1);
    } else if Contains(t, "1-3") {
      EvaluateAt(TimelineRules, t, 2);
    } else if Contains(t, "1 to 3") {
      EvaluateAt(TimelineRules, t, 3);
    } else if Contains(t, "3-6") {
      EvaluateAt(TimelineRules, t, 4);
    } else if Contains(t, "not decided") {
      EvaluateAt(TimelineRules, t, 5);
    } else {
      EvaluateNone(TimelineRules, t);
    }
  }

  lemma CallPointsByRules(o: string)
    ensures CallPoints(o) == Evaluate(CallRules, o)
  {
    if o == "positive" {
      EvaluateAt(CallRules, o, 0);
    } else if o == "neutral" {
      EvaluateAt(CallRules, o, 1);
    } else if o == "negative" {
      EvaluateAt(CallRules, o, 2);
    } else {
      EvaluateNone(CallRules, o);
    }
  }

  lemma ConsultationPointsByRules(s: string)
    ensures ConsultationPoints(s) == Evaluate(ConsultationRules, s)
  {
    if s == "scheduled" {
      EvaluateAt(ConsultationRules, s, 0);
    } else if s == "done" {
      EvaluateAt(ConsultationRules, s, 1);
    } else if Contains(s, "declined") {
      EvaluateAt(ConsultationRules, s, 2);
    } else if s == "not offered" {
      EvaluateAt(ConsultationRules, s, 3);
    } else {
      EvaluateNone(ConsultationRules, s);
    }
  }

  // ---------------------------------------------------------------------------
  // Score, band and lead state of one row
  // ---------------------------------------------------------------------------

  datatype Band = High | Medium | Low

  function BandName(b: Band): string
  {
    match b
    case High => "High"
    case Medium => "Medium"
    case Low => "Low"
  }

  datatype LeadState = HighIntent | FollowUp

  function LeadStateName(s: LeadState): string
  {
    match s
    case HighIntent => "High Intent"
    case FollowUp => "Follow-up"
  }

  /** The band thresholds 70 and 40. */
  function BandOf(score: int): (b: Band)
    ensures b == High <==> score >= 70
    ensures b == Medium <==> 40 <= score < 70
    ensures b == Low <==> score < 40
  {
    if score >= 70 then High else if score >= 40 then Medium else Low
  }

  function StateOf(b: Band): (s: LeadState)
    ensures s == HighIntent <==> b == High
    ensures s == FollowUp <==> b != High
  {
    if b == High then HighIntent else FollowUp
  }

  /** The intent score of one row, looked up by (normalised) column name. */
  function IntentScore(columns: seq<string>, row: seq<Cell>): (r: nat)
    ensures r <= 95
  {
    MedicalScore(Get(columns, row, "reason"))
    + TimelineScore(Get(columns, row, "timeline"))
    + LocationScore(Get(columns, row, "city"))
    + CallScore(Get(columns, row, "call_outcome"))
    + ConsultationScore(Get(columns, row, "consultation_status"))
  }

  /** Text with a visible first character is present. */
  lemma PresentText(s: string)
    requires |s| > 0 && !IsSpace(s[0])
    ensures Present(Text(s))
  {
    PresentIff(Text(s));
  }

  /** A present text without upper-case letters is its own folded form. */
  lemma FoldedText(s: string)
    requires |s| > 0 && !IsSpace(s[0]) && forall i :: 0 <= i < |s| ==> !('A' <= s[i] <= 'Z')
    ensures Present(Text(s)) && Folded(Text(s)) == s
  {
    PresentText(s);
    LowerOfLowercase(s);
  }

  // Sub-scores of the literal values used in the examples below, one fact per lemma
  // so that each proof stays small.

  lemma PowerScores40()
    ensures MedicalScore(Text("power")) == 40
  {
    assert MedicalPoints("power") == 40 by {
      ContainsAt("power", "power", 0);
    }
    FoldedText("power");
  }

  lemma FifteenScores20()
    ensures TimelineScore(Text("15")) == 20
  {
    assert TimelinePoints("15") == 20 by {
      ContainsAt("15", "15", 0);
    }
    FoldedText("15");
  }

  lemma PositiveScores10()
    ensures CallScore(Text("positive")) == 10
  {
    FoldedText("positive");
    assert CallPoints("positive") == 10;
  }

  lemma DoneScores15()
    ensures ConsultationScore(Text("done")) == 15
  {
    FoldedText("done");
    assert ConsultationPoints("done") == 15;
  }

  lemma HighEyePowerScores40()
    ensures MedicalScore(Text("high eye power")) == 40
  {
    assert MedicalPoints("high eye power") == 40 by {
      assert "high eye power"[9..14] == "power";
      ContainsAt("high eye power", "power", 9);
    }
    FoldedText("high eye power");
  }

  lemma Within15DaysScores20()
    ensures TimelineScore(Text("within 15 days")) == 20
  {
    assert TimelinePoints("within 15 days") == 20 by {
      assert "within 15 days"[7..9] == "15";
      ContainsAt("within 15 days", "15", 7);
    }
    FoldedText("within 15 days");
  }

  lemma CoreCityScores10(city: string)
    requires city in CoreCities
    ensures LocationScore(Text(city)) == 10
  {
    PresentText(city);
  }

  lemma MaximalCells(reason: Cell, timeline: Cell, city: Cell, outcome: Cell, status: Cell)
    requires reason == Text("power") && timeline == Text("15") && city == Text("Pune")
    requires outcome == Text("positive") && status == Text("done")
    ensures MedicalScore(reason) + TimelineScore(timeline) + LocationScore(city)
            + CallScore(outcome) + ConsultationScore(status) == 95
  {
    PowerScores40();
    FifteenScores20();
    CoreCityScores10("Pune");
    PositiveScores10();
    DoneScores15();
  }

  /** The bound 95 is reached: power, 15 days, a core city, positive call, consultation done. */
  lemma MaximumScoreReached()
    ensures IntentScore(["reason", "timeline", "city", "call_outcome", "consultation_status"],
                        [Text("power"), Text("15"), Text("Pune"), Text("positive"), Text("done")]) == 95
  {
    var cols := ["reason", "timeline", "city", "call_outcome", "consultation_status"];
    var row := [Text("power"), Text("15"), Text("Pune"), Text("positive"), Text("done")];
    assert IndexOf(cols, "timeline") == 1;
    assert IndexOf(cols, "city") == 2;
    assert IndexOf(cols, "call_outcome") == 3;
    assert IndexOf(cols, "consultation_status") == 4;
    MaximalCells(Get(cols, row, "reason"), Get(cols, row, "timeline"), Get(cols, row, "city"),
                 Get(cols, row, "call_outcome"), Get(cols, row, "consultation_status"));
  }

  lemma WorkedExampleCells(reason: Cell, timeline: Cell, city: Cell)
    requires reason == Text("high eye power") && timeline == Text("within 15 days") && city == Text("Mumbai")
    ensures MedicalScore(reason) + TimelineScore(timeline) + LocationScore(city) == 70
  {
    HighEyePowerScores40();
    Within15DaysScores20();
    CoreCityScores10("Mumbai");
  }

  /** The worked example: "high eye power", "within 15 days", "Mumbai" give 40 + 20 + 10 = 70, High, "High Intent". */
  lemma WorkedExample()
    ensures var cols := ["phone", "reason", "timeline", "city"];
            var row := [Text("9876543210"), Text("high eye power"), Text("within 15 days"), Text("Mumbai")];
            var score := IntentScore(cols, row);
            score == 70 && BandOf(score) == High && StateOf(BandOf(score)) == HighIntent
  {
    var cols := ["phone", "reason", "timeline", "city"];
    var row := [Text("9876543210"), Text("high eye power"), Text("within 15 days"), Text("Mumbai")];
    assert IndexOf(cols, "reason") == 1;
    assert Get(cols, row, "reason") == Text("high eye power");
    assert Get(cols, row, "timeline") == Text("within 15 days");
    assert Get(cols, row, "city") == Text("Mumbai");
    assert Get(cols, row, "call_outcome") == Missing;
    assert Get(cols, row, "consultation_status") == Missing;
    WorkedExampleCells(Get(cols, row, "reason"), Get(cols, row, "timeline"), Get(cols, row, "city"));
  }

  /** Keyword precedence: "medical power" scores 40 because "power" is tested before "medical". */
  lemma PowerBeforeMedical()
    ensures MedicalScore(Text("medical power")) == 40
  {
    assert MedicalPoints("medical power") == 40 by {
      assert "medical power"[8..13] == "power";
      ContainsAt("medical power", "power", 8);
    }
    FoldedText("medical power");
  }

  // ---------------------------------------------------------------------------
  // score_leads
  // ---------------------------------------------------------------------------

  const ScoreColumn := "intent_score"
  const BandColumn := "intent_band"
  const StateColumn := "lead_state"

  /** Column labels the scoring reads or writes; pandas refuses to use a duplicated one. */
  const ScoringColumns: seq<string> := [
    "reason", "timeline", "city", "call_outcome", "consultation_status",
    ScoreColumn, BandColumn, StateColumn]

  /** `[c.strip().lower() for c in df.columns]` */
  function NormalizeColumns(columns: seq<string>): (r: seq<string>)
    ensures |r| == |columns|
    ensures forall i :: 0 <= i < |r| ==> r[i] == Lower(Strip(columns[i]))
  {
    seq(|columns|, i requires 0 <= i < |columns| => Lower(Strip(columns[i])))
  }

  predicate Unambiguous(columns: seq<string>)
  {
    forall name :: name in ScoringColumns ==> AtMostOnce(columns, name)
  }

  /** The labels after `df[name] = ...`: unchanged when `name` exists, else `name` appended. */
  function WithColumn(columns: seq<string>, name: string): (r: seq<string>)
    ensures name in r
    ensures name in columns ==> r == columns
    ensures name !in columns ==> r == columns + [name]
  {
    if name in columns then columns else columns + [name]
  }

  /** `df[name] = values`: replaces the column `name` in place, or appends it at the right. */
  function SetColumn(f: Frame, name: string, values: seq<Cell>): (r: Frame)
    requires Rectangular(f) && |values| == |f.rows| && AtMostOnce(f.columns, name)
    ensures Rectangular(r) && |r.rows| == |f.rows|
    ensures r.columns == WithColumn(f.columns, name)
    ensures forall other :: other != name && AtMostOnce(f.columns, other) ==> AtMostOnce(r.columns, other)
    ensures forall i :: 0 <= i < |f.rows| ==> Get(r.columns, r.rows[i], name) == values[i]
    ensures forall i, other :: 0 <= i < |f.rows| && other != name ==>
              Get(r.columns, r.rows[i], other) == Get(f.columns, f.rows[i], other)
    ensures forall i, k :: 0 <= i < |f.rows| && 0 <= k < |f.columns| && f.columns[k] != name ==>
              r.rows[i][k] == f.rows[i][k]
  {
    if name in f.columns then
      var k := IndexOf(f.columns, name);
      var r := Frame(f.columns, seq(|f.rows|, i requires 0 <= i < |f.rows| => f.rows[i][k := values[i]]));
      assert forall other :: other != name && other in f.columns ==> IndexOf(f.columns, other) != k;
      r
    else
      var r := Frame(f.columns + [name], seq(|f.rows|, i requires 0 <= i < |f.rows| => f.rows[i] + [values[i]]));
      forall other | other in r.columns
        ensures IndexOf(r.columns, other) == if other in f.columns then IndexOf(f.columns, other) else |f.columns|
      {
        IndexOfAppend(f.columns, name, other);
      }
      r
  }

  /** `df["intent_score"] = ...; df["intent_band"] = ...; df["lead_state"] = ...` */
  function Assigned(f: Frame, scores: seq<Cell>, bands: seq<Cell>, states: seq<Cell>): Frame
    requires Rectangular(f) && Unambiguous(f.columns)
    requires |scores| == |f.rows| && |bands| == |f.rows| && |states| == |f.rows|
  {
    var f1 := SetColumn(f, ScoreColumn, scores);
    var f2 := SetColumn(f1, BandColumn, bands);
    SetColumn(f2, StateColumn, states)
  }

  /** The three assignments put each list in its column, under the labels they add. */
  lemma AssignedValues(f: Frame, scores: seq<Cell>, bands: seq<Cell>, states: seq<Cell>)
    requires Rectangular(f) && Unambiguous(f.columns)
    requires |scores| == |f.rows| && |bands| == |f.rows| && |states| == |f.rows|
    ensures var out := Assigned(f, scores, bands, states);
            && Rectangular(out) && |out.rows| == |f.rows|
            && out.columns == WithColumn(WithColumn(WithColumn(f.columns, ScoreColumn), BandColumn), StateColumn)
            && forall i :: 0 <= i < |f.rows| ==>
                 && Get(out.columns, out.rows[i], ScoreColumn) == scores[i]
                 && Get(out.columns, out.rows[i], BandColumn) == bands[i]
                 && Get(out.columns, out.rows[i], StateColumn) == states[i]
  {
    var f1 := SetColumn(f, ScoreColumn, scores);
    assert AtMostOnce(f1.columns, BandColumn) && AtMostOnce(f1.columns, StateColumn);
    var f2 := SetColumn(f1, BandColumn, bands);
    var out := SetColumn(f2, StateColumn, states);
    forall i | 0 <= i < |f.rows|
      ensures Get(out.columns, out.rows[i], ScoreColumn) == scores[i]
      ensures Get(out.columns, out.rows[i], BandColumn) == bands[i]
    {
      assert Get(f2.columns, f2.rows[i], ScoreColumn) == scores[i];
    }
  }

  /** The three assignments leave every other cell of every row where it was. */
  lemma AssignedKeeps(f: Frame, scores: seq<Cell>, bands: seq<Cell>, states: seq<Cell>)
    requires Rectangular(f) && Unambiguous(f.columns)
    requires |scores| == |f.rows| && |bands| == |f.rows| && |states| == |f.rows|
    ensures var out := Assigned(f, scores, bands, states);
            && |out.rows| == |f.rows|
            && forall i :: 0 <= i < |f.rows| ==>
                 && |f.columns| <= |out.rows[i]|
                 && forall k :: 0 <= k < |f.columns| && f.columns[k] !in [ScoreColumn, BandColumn, StateColumn] ==>
                      out.rows[i][k] == f.rows[i][k]
  {
    var f1 := SetColumn(f, ScoreColumn, scores);
    assert AtMostOnce(f1.columns, BandColumn) && AtMostOnce(f1.columns, StateColumn);
    var f2 := SetColumn(f1, BandColumn, bands);
    var out := SetColumn(f2, StateColumn, states);
    forall i, k | 0 <= i < |f.rows| && 0 <= k < |f.columns| && f.columns[k] !in [ScoreColumn, BandColumn, StateColumn]
      ensures out.rows[i][k] == f.rows[i][k]
    {
      assert f1.columns[k] == f.columns[k];
      assert f2.columns[k] == f.columns[k];
    }
  }

  /** Output row `out` carries the score, band and state of input row `row`, and every other cell of it. */
  predicate RowScored(columns: seq<string>, row: seq<Cell>, outColumns: seq<string>, out: seq<Cell>)
  {
    var score := IntentScore(columns, row);
    && Get(outColumns, out, ScoreColumn) == Int(score)
    && Get(outColumns, out, BandColumn) == Text(BandName(BandOf(score)))
    && Get(outColumns, out, StateColumn) == Text(LeadStateName(StateOf(BandOf(score))))
    && |columns| <= |out| && |columns| <= |row|
    && forall k :: 0 <= k < |columns| && columns[k] !in [ScoreColumn, BandColumn, StateColumn] ==> out[k] == row[k]
  }

  /**
   * The loop of `score_leads`: one score, band and state per row, in row order,
   * appended to three lists.
   */
  method AssessRows(columns: seq<string>, rows: seq<seq<Cell>>) returns (scores: seq<Cell>, bands: seq<Cell>, states: seq<Cell>)
    ensures |scores| == |rows| && |bands| == |rows| && |states| == |rows|
    ensures forall k :: 0 <= k < |rows| ==> scores[k] == Int(IntentScore(columns, rows[k]))
    ensures forall k :: 0 <= k < |rows| ==> bands[k] == Text(BandName(BandOf(IntentScore(columns, rows[k]))))
    ensures forall k :: 0 <= k < |rows| ==> states[k] == Text(LeadStateName(StateOf(BandOf(IntentScore(columns, rows[k])))))
  {
    ghost var wantScores := seq(|rows|, k requires 0 <= k < |rows| => Int(IntentScore(columns, rows[k])));
    ghost var wantBands := seq(|rows|, k requires 0 <= k < |rows| => Text(BandName(BandOf(IntentScore(columns, rows[k])))));
    ghost var wantStates := seq(|rows|, k requires 0 <= k < |rows| => Text(LeadStateName(StateOf(BandOf(IntentScore(columns, rows[k]))))));
    scores, bands, states := [], [], [];
    var i := 0;
    while i < |rows|
      invariant 0 <= i <= |rows|
      invariant scores == wantScores[..i] && bands == wantBands[..i] && states == wantStates[..i]
    {
      var score := IntentScore(columns, rows[i]);
      var band := BandOf(score);
      var state := StateOf(band);
      PrefixGrows(scores, wantScores, i);
      PrefixGrows(bands, wantBands, i);
      PrefixGrows(states, wantStates, i);
      scores := scores + [Int(score)];
      bands := bands + [Text(BandName(band))];
      states := states + [Text(LeadStateName(state))];
      i := i + 1;
    }
    assert wantScores[..i] == wantScores && wantBands[..i] == wantBands && wantStates[..i] == wantStates;
  }

  /**
   * `score_leads`: on a copy with stripped, lower-cased labels, one score, band and state
   * per row, in row order, written to the columns intent_score, intent_band and lead_state.
   * The caller's frame is a value and so is never changed.
   */
  method ScoreLeads(df: Frame) returns (out: Frame)
    requires Rectangular(df)
    requires Unambiguous(NormalizeColumns(df.columns))
    ensures Rectangular(out) && |out.rows| == |df.rows|
    ensures out.columns == WithColumn(WithColumn(WithColumn(NormalizeColumns(df.columns), ScoreColumn), BandColumn), StateColumn)
    ensures forall i :: 0 <= i < |df.rows| ==> RowScored(NormalizeColumns(df.columns), df.rows[i], out.columns, out.rows[i])
  {
    var columns := NormalizeColumns(df.columns);
    var scores, bands, states := AssessRows(columns, df.rows);
    var copy := Frame(columns, df.rows);
    AssignedValues(copy, scores, bands, states);
    AssignedKeeps(copy, scores, bands, states);
    out := Assigned(copy, scores, bands, states);
  }
}
