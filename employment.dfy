/** The cleaner of the 2020 nonprofit employment statistics table: NAICS codes
    checked, numbers cleaned, national, multi-state and metropolitan rows dropped,
    state codes spelled out, and the rows de-duplicated, filtered and cut.

    The table is given after its columns are selected and renamed; reading the file
    and choosing columns by position are not modelled, and a failure there is
    `NotLoaded`. `pd.to_numeric` is the parameter `toNumeric`. */
module Employment {
  import opened Text
  import opened Records
  import Rows
  import States

  // ---------------------------------------------------------------------------
  // State codes in geographic titles

  /** where the regex `,\s*([A-Z]{2})\s*$` matches: a comma at i, whitespace, the
      code at k, and only whitespace after it */
  predicate EndingAt(t: string, i: int, k: int) {
    && 0 <= i < k && k + 2 <= |t|
    && t[i] == ',' && AllSpace(t[i + 1..k])
    && IsUpperChar(t[k]) && IsUpperChar(t[k + 1]) && AllSpace(t[k + 2..])
  }

  /** the code the regex captures, found by stripping trailing whitespace */
  function StateCode(t: string): Option<string> {
    var s := RStrip(t);
    if |s| >= 2 && IsUpperChar(s[|s| - 2]) && IsUpperChar(s[|s| - 1]) then
      var u := RStrip(s[..|s| - 2]);
      if |u| >= 1 && u[|u| - 1] == ',' then Some(s[|s| - 2..]) else None
    else None
  }

  /** `convert_state(geo_title)`: when the title ends in a state code, every
      ", <code>" in it becomes ", <name>" */
  function ConvertState(t: string): string {
    match StateCode(t)
    case None => t
    case Some(code) => ReplaceAll(t, ", " + code, ", " + States.FullName(code))
  }

  lemma RStripExact(t: string, n: int)
    requires 0 < n <= |t| && !IsSpaceChar(t[n - 1]) && AllSpace(t[n..])
    ensures RStrip(t) == t[..n]
  {
    RStripOfSpaces(t[..n], t[n..]);
    assert t[..n] + t[n..] == t;
  }

  /** Where the regex matches, the code found is the one it captures. */
  lemma EndingDetermined(t: string, i: int, k: int)
    requires EndingAt(t, i, k)
    ensures StateCode(t) == Some(t[k..k + 2])
  {
    RStripExact(t, k + 2);
    var s := RStrip(t);
    assert s[..|s| - 2] == t[..k];
    assert t[..k][i + 1..] == t[i + 1..k];
    RStripExact(t[..k], i + 1);
  }

  /** A code found sits where the regex matches. */
  lemma EndingOfCode(t: string) returns (i: int, k: int)
    requires StateCode(t).Some?
    ensures EndingAt(t, i, k) && StateCode(t) == Some(t[k..k + 2])
  {
    var s := RStrip(t);
    var u := RStrip(s[..|s| - 2]);
    i, k := |u| - 1, |s| - 2;
    assert t[k..k + 2] == s[k..];
    assert forall j | i + 1 <= j < k :: t[j] == s[..|s| - 2][j];
    assert forall j | k + 2 <= j < |t| :: IsSpaceChar(t[j]);
  }

  /** The code is found exactly where the regex matches. */
  lemma StateCodeIff(t: string, code: string)
    ensures StateCode(t) == Some(code) <==> exists i, k :: EndingAt(t, i, k) && t[k..k + 2] == code
  {
    if StateCode(t) == Some(code) {
      var i, k := EndingOfCode(t);
    }
    if exists i, k :: EndingAt(t, i, k) && t[k..k + 2] == code {
      var i, k :| EndingAt(t, i, k) && t[k..k + 2] == code;
      EndingDetermined(t, i, k);
    }
  }

  /** Without the regex's match the title is unchanged; with it, every ", <code>"
      is rewritten, the code mapped to itself when it is not a state's. */
  lemma ConvertStateMeaning(t: string)
    ensures (forall i, k :: !EndingAt(t, i, k)) ==> ConvertState(t) == t
    ensures forall i, k | EndingAt(t, i, k) ::
      ConvertState(t) == ReplaceAll(t, ", " + t[k..k + 2], ", " + States.FullName(t[k..k + 2]))
    ensures forall i, k | EndingAt(t, i, k) && !States.IsStateCode(t[k..k + 2]) :: ConvertState(t) == t
  {
    if StateCode(t).Some? {
      var i, k := EndingOfCode(t);
    }
    forall i, k | EndingAt(t, i, k)
      ensures ConvertState(t) == ReplaceAll(t, ", " + t[k..k + 2], ", " + States.FullName(t[k..k + 2]))
    {
      EndingDetermined(t, i, k);
    }
    forall i, k | EndingAt(t, i, k) && !States.IsStateCode(t[k..k + 2]) ensures ConvertState(t) == t {
      EndingDetermined(t, i, k);
      ReplaceAllIdentity(t, ", " + t[k..k + 2]);
    }
  }

  lemma SimpleTitleCode(place: string, code: string)
    requires |code| == 2 && IsUpperChar(code[0]) && IsUpperChar(code[1])
    ensures StateCode(place + ", " + code) == Some(code)
  {
    var t := place + ", " + code;
    var n := |place|;
    assert t[n] == ',' && t[n + 1..n + 2] == " " && t[n + 2..n + 4] == code && t[n + 4..] == [];
    EndingDetermined(t, n, n + 2);
  }

  /** "<place>, <code>" with no earlier ", <code>" becomes "<place>, <name>". */
  lemma ConvertSimpleTitle(place: string, code: string)
    requires |code| == 2 && IsUpperChar(code[0]) && IsUpperChar(code[1])
    requires forall i | 0 <= i < |place| :: !OccursAt(place + ", " + code, ", " + code, i)
    ensures ConvertState(place + ", " + code) == place + ", " + States.FullName(code)
  {
    var pat, rep := ", " + code, ", " + States.FullName(code);
    var t := place + pat;
    assert t == place + ", " + code;
    SimpleTitleCode(place, code);
    assert ConvertState(t) == ReplaceAll(t, pat, rep);
    OnlyAtEnd(place, pat, rep);
    assert place + rep == place + ", " + States.FullName(code);
  }

  lemma OnlyAtEnd(place: string, pat: string, rep: string)
    requires |pat| > 0
    requires forall i | 0 <= i < |place| :: !OccursAt(place + pat, pat, i)
    ensures ReplaceAll(place + pat, pat, rep) == place + rep
  {
    var t := place + pat;
    assert t[|t| - |pat|..] == pat && t[..|t| - |pat|] == place;
    assert OccursAt(t, pat, |t| - |pat|);
    ReplaceAllOnlyAtEnd(t, pat, rep);
  }

  lemma BostonParts()
    ensures "Boston" + ", " + "MA" == "Boston, MA"
    ensures "Boston" + ", " + "Massachusetts" == "Boston, Massachusetts"
    ensures forall i | 0 <= i < |"Boston"| :: !OccursAt("Boston" + ", " + "MA", ", " + "MA", i)
  {
    forall i | 0 <= i < |"Boston"| ensures !OccursAt("Boston" + ", " + "MA", ", " + "MA", i) {
      assert ("Boston" + ", " + "MA")[i] != ',';
    }
  }

  lemma MassachusettsName()
    ensures States.FullName("MA") == "Massachusetts"
  {
  }

  lemma ConvertStateExample()
    ensures ConvertState("Boston, MA") == "Boston, Massachusetts"
  {
    BostonParts();
    MassachusettsName();
    ConvertSimpleTitle("Boston", "MA");
  }

  lemma NoSpaceCode()
    ensures StateCode("Foo,CA") == Some("CA")
  {
    var t := "Foo,CA";
    assert AllSpace(t[4..4]) && AllSpace(t[6..]);
    EndingDetermined(t, 3, 4);
  }

  lemma NoSpaceAbsent()
    ensures !Contains("Foo,CA", ", CA")
  {
    var t := "Foo,CA";
    var pat := ", CA";
    assert |t| == 6 && |pat| == 4 && pat[1] == ' ';
    assert t[1] != ' ' && t[2] != ' ' && t[3] != ' ';
    forall i | 0 <= i <= |t| ensures !OccursAt(t, pat, i) {
      if 0 <= i && i + 4 <= |t| {
        assert t[i..i + 4][1] == t[i + 1];
      }
    }
  }

  /** Without a space after the comma the regex matches but ", CA" does not occur,
      so nothing changes. */
  lemma ConvertStateNoSpace()
    ensures StateCode("Foo,CA") == Some("CA")
    ensures ConvertState("Foo,CA") == "Foo,CA"
  {
    NoSpaceCode();
    NoSpaceAbsent();
    var pat := ", " + "CA";
    assert pat == ", CA";
    ReplaceAllAbsent("Foo,CA", pat, ", " + States.FullName("CA"));
  }

  // ---------------------------------------------------------------------------
  // Title exclusions

  const TotalsPattern := "U.S. Totals"

  /** one character of a regex made of literals and '.', ignoring case */
  predicate PatternCharMatches(c: char, p: char) {
    if p == '.' then c != '\n' else LowerChar(c) == LowerChar(p)
  }

  predicate TotalsAt(s: string, i: int) {
    0 <= i && i + |TotalsPattern| <= |s| &&
    forall j | 0 <= j < |TotalsPattern| :: PatternCharMatches(s[i + j], TotalsPattern[j])
  }

  /** `str.contains('U.S. Totals', case=False)`: a regex, so each '.' is any character */
  predicate MentionsTotals(s: string) { exists i | 0 <= i <= |s| :: TotalsAt(s, i) }

  /** The phrase written out in any case is caught. */
  lemma TotalsInAnyCase(s: string, i: int)
    requires OccursAt(Lower(s), "u.s. totals", i)
    ensures TotalsAt(s, i)
  {
    forall j | 0 <= j < |TotalsPattern| ensures PatternCharMatches(s[i + j], TotalsPattern[j]) {
      assert Lower(s)[i + j] == "u.s. totals"[j];
    }
  }

  /** `,\s*[A-Z]{2}-[A-Z]{2}` with its comma at i and its first code at k */
  predicate TwoStatesAt(s: string, i: int, k: int) {
    && 0 <= i < k && k + 5 <= |s|
    && s[i] == ',' && AllSpace(s[i + 1..k])
    && IsUpperChar(s[k]) && IsUpperChar(s[k + 1]) && s[k + 2] == '-' && IsUpperChar(s[k + 3]) && IsUpperChar(s[k + 4])
  }

  predicate NamesTwoStates(s: string) { exists i, k | 0 <= i < k <= |s| :: TwoStatesAt(s, i, k) }

  lemma TwoStatesExample()
    ensures NamesTwoStates("Philadelphia, PA-NJ")
  {
    var s := "Philadelphia, PA-NJ";
    assert AllSpace(s[13..14]);
    assert TwoStatesAt(s, 12, 14);
  }

  // ---------------------------------------------------------------------------
  // Rows

  /** a cell of the table: text as read, a number once converted, or missing (NaN) */
  datatype Cell = Text(text: string) | Number(value: real) | Missing

  /** a row: geographic title, NAICS code, industry title, the six measures
      (establishments, employment, total wages, wages per employee, weekly wage,
      wage ratio) and the 501(c)(3) share of employment */
  datatype Row = Row(title: Option<string>, naics: Option<string>, industry: Option<string>,
                     measures: seq<Cell>, percent: Cell)

  const NumericColumns := 6
  const MaxRows := 3037

  datatype Outcome =
    | Cleaned(rows: seq<Row>)
    | NotLoaded       // `clean_file` returns None
    | TitleTypeError  // `convert_state` meets a missing title: the TypeError escapes

  function StripNaics(r: Row): Row {
    r.(naics := if r.naics.Some? then Some(Strip(r.naics.value)) else None)
  }

  /** `str.match(r'^\d+$', na=False)` */
  predicate HasNaicsCode(r: Row) {
    r.naics.Some? && r.naics.value != [] && AllDigits(r.naics.value)
  }

  /** `str.replace(drop, '').str.strip()` then `to_numeric(errors='coerce')`; the
      `str` methods give NaN on a cell that is not text */
  function ToNumber(c: Cell, drop: char, toNumeric: string -> Option<real>): Cell {
    match c
    case Text(s) => (match toNumeric(Strip(RemoveChar(s, drop))) case Some(x) => Number(x) case None => Missing)
    case _ => Missing
  }

  /** A cell converts to a number exactly when it is text that `toNumeric` parses
      after every `drop` character is removed and the ends are stripped; the text
      parsed then holds no `drop` character and neither starts nor ends with
      whitespace. */
  lemma CellConversion(c: Cell, drop: char, toNumeric: string -> Option<real>)
    ensures ToNumber(c, drop, toNumeric).Number? <==> c.Text? && toNumeric(Strip(RemoveChar(c.text, drop))).Some?
    ensures ToNumber(c, drop, toNumeric).Number? ==> ToNumber(c, drop, toNumeric).value == toNumeric(Strip(RemoveChar(c.text, drop))).value
    ensures c.Text? ==> var t := Strip(RemoveChar(c.text, drop));
      drop !in t && (|t| > 0 ==> !IsSpaceChar(t[0]) && !IsSpaceChar(t[|t| - 1]))
  {
    if c.Text? {
      StripAddsNothing(RemoveChar(c.text, drop), drop);
    }
  }

  /** the row with its first n measures converted */
  function MeasuresCleaned(r: Row, n: int, toNumeric: string -> Option<real>): Row {
    r.(measures := seq(|r.measures|, i requires 0 <= i < |r.measures| =>
                         if i < n then ToNumber(r.measures[i], ',', toNumeric) else r.measures[i]))
  }

  function MeasuresBy(n: int, toNumeric: string -> Option<real>): Row -> Row {
    (r: Row) => MeasuresCleaned(r, n, toNumeric)
  }

  /** measure column c converted */
  function CleanMeasure(r: Row, c: int, toNumeric: string -> Option<real>): Row {
    if 0 <= c < |r.measures| then r.(measures := r.measures[c := ToNumber(r.measures[c], ',', toNumeric)]) else r
  }

  function CleanMeasureBy(c: int, toNumeric: string -> Option<real>): Row -> Row {
    (r: Row) => CleanMeasure(r, c, toNumeric)
  }

  function PercentBy(toNumeric: string -> Option<real>): Row -> Row {
    (r: Row) => r.(percent := ToNumber(r.percent, '%', toNumeric))
  }

  /** what `dropna` keeps: every measure and the share are numbers */
  predicate Complete(r: Row) {
    (forall i | 0 <= i < |r.measures| :: r.measures[i].Number?) && r.percent.Number?
  }

  predicate NotTotals(r: Row) { r.title.None? || !MentionsTotals(r.title.value) }
  predicate NotTwoStates(r: Row) { r.title.None? || !NamesTwoStates(r.title.value) }
  predicate NotMsa(r: Row) { r.title.None? || !Contains(r.title.value, "MSA") }

  function ConvertRow(r: Row): Row {
    if r.title.Some? then r.(title := Some(ConvertState(r.title.value))) else r
  }

  function TitleAndNaics(r: Row): (Option<string>, Option<string>) { (r.title, r.naics) }

  predicate NotPuertoRico(r: Row) { r.title != Some("Puerto Rico") }
  predicate NotVirginIslands(r: Row) { r.title != Some("Virgin Islands") }

  // The stages of `clean_file`, each over the table the previous one leaves.

  function NaicsStage(rows: seq<Row>): seq<Row> {
    Rows.Filter(Rows.Map(rows, StripNaics), HasNaicsCode)
  }

  function NumericStage(rows: seq<Row>, toNumeric: string -> Option<real>): seq<Row> {
    Rows.Filter(Rows.Map(Rows.Map(rows, MeasuresBy(NumericColumns, toNumeric)), PercentBy(toNumeric)), Complete)
  }

  function TitleStage(rows: seq<Row>): seq<Row> {
    Rows.Filter(Rows.Filter(Rows.Filter(rows, NotTotals), NotTwoStates), NotMsa)
  }

  /** `apply(convert_state)`: None when a title is missing */
  function ConvertTitles(rows: seq<Row>): Option<seq<Row>> {
    if exists i | 0 <= i < |rows| :: rows[i].title.None? then None else Some(Rows.Map(rows, ConvertRow))
  }

  function FinalStage(rows: seq<Row>): seq<Row> {
    Rows.Take(Rows.Filter(Rows.Filter(Rows.DedupBy(rows, TitleAndNaics), NotPuertoRico), NotVirginIslands), MaxRows)
  }

  /** the table up to the conversion of titles */
  function Converted(rows: seq<Row>, toNumeric: string -> Option<real>): Option<seq<Row>> {
    ConvertTitles(TitleStage(NumericStage(NaicsStage(rows), toNumeric)))
  }

  function CleanedTable(rows: seq<Row>, toNumeric: string -> Option<real>): Option<seq<Row>> {
    match Converted(rows, toNumeric)
    case None => None
    case Some(t) => Some(FinalStage(t))
  }

  // ---------------------------------------------------------------------------
  // The imperative stages

  lemma MeasuresStep(rows: seq<Row>, c: int, toNumeric: string -> Option<real>)
    requires 0 <= c
    ensures Rows.Map(Rows.Map(rows, MeasuresBy(c, toNumeric)), CleanMeasureBy(c, toNumeric)) == Rows.Map(rows, MeasuresBy(c + 1, toNumeric))
  {
    forall i | 0 <= i < |rows|
      ensures CleanMeasure(MeasuresCleaned(rows[i], c, toNumeric), c, toNumeric) == MeasuresCleaned(rows[i], c + 1, toNumeric)
    {
      var r := rows[i];
      if c < |r.measures| {
        assert CleanMeasure(MeasuresCleaned(r, c, toNumeric), c, toNumeric).measures == MeasuresCleaned(r, c + 1, toNumeric).measures;
      } else {
        assert MeasuresCleaned(r, c, toNumeric).measures == MeasuresCleaned(r, c + 1, toNumeric).measures;
      }
    }
  }

  /** the loop over `numeric_columns`, each rewriting one column of every row */
  method CleanMeasures(rows: seq<Row>, toNumeric: string -> Option<real>) returns (out: seq<Row>)
    ensures out == Rows.Map(rows, MeasuresBy(NumericColumns, toNumeric))
  {
    out := rows;
    assert forall i | 0 <= i < |rows| :: MeasuresCleaned(rows[i], 0, toNumeric).measures == rows[i].measures;
    for c := 0 to NumericColumns
      invariant out == Rows.Map(rows, MeasuresBy(c, toNumeric))
    {
      MeasuresStep(rows, c, toNumeric);
      out := Rows.Map(out, CleanMeasureBy(c, toNumeric));
    }
  }

  /** `df['Geographic Title'].apply(convert_state)` */
  method ConvertTitleColumn(rows: seq<Row>) returns (result: Option<seq<Row>>)
    ensures result == ConvertTitles(rows)
  {
    var out := [];
    for i := 0 to |rows|
      invariant out == Rows.Map(rows[..i], ConvertRow)
      invariant forall j | 0 <= j < i :: rows[j].title.Some?
    {
      if rows[i].title.None? {
        return None;
      }
      Rows.MapAppend(rows[..i], [rows[i]], ConvertRow);
      assert rows[..i + 1] == rows[..i] + [rows[i]];
      out := out + [ConvertRow(rows[i])];
    }
    assert rows[..|rows|] == rows;
    return Some(out);
  }

  /** `clean_file`, stage by stage */
  method CleanFile(table: Option<seq<Row>>, toNumeric: string -> Option<real>) returns (outcome: Outcome)
    ensures table.None? ==> outcome == NotLoaded
    ensures table.Some? ==>
      (CleanedTable(table.value, toNumeric).None? <==> outcome == TitleTypeError) &&
      (CleanedTable(table.value, toNumeric).Some? ==> outcome == Cleaned(CleanedTable(table.value, toNumeric).value))
  {
    if table.None? {
      return NotLoaded;
    }
    var df := table.value;
    df := Rows.Map(df, StripNaics);
    df := Rows.Filter(df, HasNaicsCode);
    df := CleanMeasures(df, toNumeric);
    df := Rows.Map(df, PercentBy(toNumeric));
    df := Rows.Filter(df, Complete);
    df := Rows.Filter(df, NotTotals);
    df := Rows.Filter(df, NotTwoStates);
    df := Rows.Filter(df, NotMsa);
    var converted := ConvertTitleColumn(df);
    if converted.None? {
      return TitleTypeError;
    }
    df := converted.value;
    df := Rows.DedupBy(df, TitleAndNaics);
    df := Rows.Filter(df, NotPuertoRico);
    df := Rows.Filter(df, NotVirginIslands);
    df := Rows.Take(df, MaxRows);
    return Cleaned(df);
  }

  // ---------------------------------------------------------------------------
  // Properties of the cleaned table

  lemma MapMember<T, U>(s: seq<T>, f: T -> U, x: U) returns (i: int)
    requires x in Rows.Map(s, f)
    ensures 0 <= i < |s| && x == f(s[i])
  {
    var r := Rows.Map(s, f);
    i :| 0 <= i < |r| && r[i] == x;
  }

  /** A row survives the NAICS stage exactly when its stripped code is a non-empty
      string of digits. */
  lemma NaicsStageIff(rows: seq<Row>, i: int)
    requires 0 <= i < |rows|
    ensures StripNaics(rows[i]) in NaicsStage(rows) <==>
      rows[i].naics.Some? && Strip(rows[i].naics.value) != [] && AllDigits(Strip(rows[i].naics.value))
  {
    assert Rows.Map(rows, StripNaics)[i] == StripNaics(rows[i]);
  }

  lemma NaicsRowOrigin(rows: seq<Row>, x: Row) returns (i: int)
    requires x in NaicsStage(rows)
    ensures 0 <= i < |rows| && rows[i].naics.Some? && x == StripNaics(rows[i]) && HasNaicsCode(x)
  {
    i := MapMember(rows, StripNaics, x);
  }

  lemma PercentRowOrigin(rows: seq<Row>, toNumeric: string -> Option<real>, x: Row) returns (i: int)
    requires x in Rows.Map(rows, PercentBy(toNumeric))
    ensures 0 <= i < |rows| && x == rows[i].(percent := ToNumber(rows[i].percent, '%', toNumeric))
  {
    i := MapMember(rows, PercentBy(toNumeric), x);
  }

  lemma MeasuresRowOrigin(rows: seq<Row>, toNumeric: string -> Option<real>, x: Row) returns (i: int)
    requires x in Rows.Map(rows, MeasuresBy(NumericColumns, toNumeric))
    ensures 0 <= i < |rows| && x == MeasuresCleaned(rows[i], NumericColumns, toNumeric)
  {
    i := MapMember(rows, MeasuresBy(NumericColumns, toNumeric), x);
  }

  lemma NumericRowOrigin(rows: seq<Row>, toNumeric: string -> Option<real>, x: Row) returns (i: int)
    requires x in NumericStage(rows, toNumeric)
    ensures 0 <= i < |rows| && Complete(x)
    ensures x == rows[i].(measures := MeasuresCleaned(rows[i], NumericColumns, toNumeric).measures,
                          percent := ToNumber(rows[i].percent, '%', toNumeric))
  {
    var c := Rows.Map(rows, MeasuresBy(NumericColumns, toNumeric));
    var d := Rows.Map(c, PercentBy(toNumeric));
    assert x in d && Complete(x);
    var y := PercentRowOrigin(c, toNumeric, x);
    i := MeasuresRowOrigin(rows, toNumeric, c[y]);
  }

  /** A row of the titled table comes from an input row that passed every stage. */
  lemma TitledRowOrigin(rows: seq<Row>, toNumeric: string -> Option<real>, x: Row) returns (i: int)
    requires x in TitleStage(NumericStage(NaicsStage(rows), toNumeric))
    ensures 0 <= i < |rows| && rows[i].naics.Some? && x.naics == Some(Strip(rows[i].naics.value))
    ensures HasNaicsCode(x) && Complete(x) && NotTotals(x) && NotTwoStates(x) && NotMsa(x)
    ensures x.title == rows[i].title && x.industry == rows[i].industry
    ensures x.measures == MeasuresCleaned(rows[i], NumericColumns, toNumeric).measures
    ensures x.percent == ToNumber(rows[i].percent, '%', toNumeric)
  {
    var b := NaicsStage(rows);
    var y := NumericRowOrigin(b, toNumeric, x);
    assert b[y] in b;
    i := NaicsRowOrigin(rows, b[y]);
  }

  /** Every cleaned row comes from an input row whose stripped NAICS code is all
      digits, whose six measures and share are numbers, and whose title is present
      and names no U.S. total, no pair of states and no MSA; its title is that title
      with the state spelled out, and it is not Puerto Rico or the Virgin Islands. */
  lemma CleanedRowOrigin(rows: seq<Row>, toNumeric: string -> Option<real>, k: int) returns (i: int)
    requires CleanedTable(rows, toNumeric).Some? && 0 <= k < |CleanedTable(rows, toNumeric).value|
    ensures var r := CleanedTable(rows, toNumeric).value[k];
      && 0 <= i < |rows| && rows[i].naics.Some? && rows[i].title.Some?
      && r.naics == Some(Strip(rows[i].naics.value)) && HasNaicsCode(r)
      && !MentionsTotals(rows[i].title.value) && !NamesTwoStates(rows[i].title.value)
      && !Contains(rows[i].title.value, "MSA")
      && r.title == Some(ConvertState(rows[i].title.value))
      && r.title != Some("Puerto Rico") && r.title != Some("Virgin Islands")
      && r.industry == rows[i].industry && Complete(r)
      && r.measures == MeasuresCleaned(rows[i], NumericColumns, toNumeric).measures
      && r.percent == ToNumber(rows[i].percent, '%', toNumeric)
  {
    var titled := TitleStage(NumericStage(NaicsStage(rows), toNumeric));
    var t := Converted(rows, toNumeric).value;
    var out := FinalStage(t);
    var x := out[k];
    var e := Rows.Filter(Rows.Filter(Rows.DedupBy(t, TitleAndNaics), NotPuertoRico), NotVirginIslands);
    assert x == e[k];
    assert x in Rows.DedupBy(t, TitleAndNaics);
    Rows.DedupByIsSubsequence(t, TitleAndNaics);
    Rows.SubsequenceMembers(Rows.DedupBy(t, TitleAndNaics), t, x);
    var j := MapMember(titled, ConvertRow, x);
    i := TitledRowOrigin(rows, toNumeric, titled[j]);
  }

  /** The last stage leaves at most 3037 rows, no two with the same title and code,
      each the first of its title and code. */
  lemma FinalStageKeys(t: seq<Row>)
    ensures |FinalStage(t)| <= MaxRows
    ensures Rows.DistinctKeys(FinalStage(t), TitleAndNaics)
    ensures forall x | x in FinalStage(t) :: exists j | 0 <= j < |t| :: t[j] == x && Rows.IsFirstOfKey(t, TitleAndNaics, j)
  {
    var d := Rows.DedupBy(t, TitleAndNaics);
    var e1 := Rows.Filter(d, NotPuertoRico);
    var e := Rows.Filter(e1, NotVirginIslands);
    Rows.FilterIsSubsequence(d, NotPuertoRico);
    Rows.FilterIsSubsequence(e1, NotVirginIslands);
    Rows.SubsequenceTransitive(e, e1, d);
    Rows.SubsequenceDistinctKeys(e, d, TitleAndNaics);
    Rows.DedupByKeepsFirst(t, TitleAndNaics);
    forall x | x in FinalStage(t) ensures x in d {
      Rows.SubsequenceMembers(e, d, x);
    }
  }

  /** Cut short of 3037 rows, the last stage keeps the first row of every title and
      code whose title is neither excluded name. */
  lemma FinalStageComplete(t: seq<Row>, j: int)
    requires 0 <= j < |t| && Rows.IsFirstOfKey(t, TitleAndNaics, j)
    requires NotPuertoRico(t[j]) && NotVirginIslands(t[j])
    requires |Rows.Filter(Rows.Filter(Rows.DedupBy(t, TitleAndNaics), NotPuertoRico), NotVirginIslands)| < MaxRows
    ensures t[j] in FinalStage(t)
  {
    Rows.DedupByKeepsFirst(t, TitleAndNaics);
    var d := Rows.DedupBy(t, TitleAndNaics);
    var e1 := Rows.Filter(d, NotPuertoRico);
    assert t[j] in e1;
  }
}
