/** The cleaner of the 2020 charities table: the Form 990 fields kept and renamed,
    each filing given its state through a left merge with the EIN-to-state table,
    filings without a state dropped, state codes spelled out, one row per EIN kept,
    and Puerto Rico and the Virgin Islands dropped.

    Reading the two files and selecting their columns are not modelled: a table that
    cannot be read, or lacks a column, is given as None. */
module Charities {
  import opened Records
  import Rows
  import States

  /** the entry of `STATE_ABBREVIATIONS`: the fifty states, the District of
      Columbia and Puerto Rico */
  function Abbreviation(code: string): Option<string> {
    if code == "DC" then Some("District of Columbia")
    else if code == "PR" then Some("Puerto Rico")
    else States.Lookup(code)
  }

  /** `map(STATE_ABBREVIATIONS).fillna(df["State"])`: a known code becomes its name,
      any other value stays */
  function StateName(s: string): string {
    if Abbreviation(s).Some? then Abbreviation(s).value else s
  }

  /** one filing with the seven fields kept, under their new names: the EIN (as
      text), other employee benefits, other salaries and wages, total revenue, direct
      expenses, total contributions and number of employees */
  datatype Filing = Filing(ein: string, otherBenefits: Option<string>, salaries: Option<string>,
                           revenue: Option<string>, directExpenses: Option<string>,
                           contributions: Option<string>, employees: Option<string>)

  /** a row of the mapping table, as far as the merge reads it */
  datatype EinState = EinState(ein: string, state: Option<string>)

  /** a row of the merged table once its helper `Ein` column is dropped */
  datatype Merged = Merged(filing: Filing, state: Option<string>)

  /** a row of the cleaned table */
  datatype Charity = Charity(filing: Filing, state: string)

  function SameEin(ein: string): EinState -> bool { (e: EinState) => e.ein == ein }

  function WithFiling(f: Filing): EinState -> Merged { (e: EinState) => Merged(f, e.state) }

  /** the rows one filing gets from a left merge: one per matching mapping row, in
      order, or one without a state when nothing matches */
  function MergeOne(f: Filing, mapping: seq<EinState>): seq<Merged> {
    var matching := Rows.Filter(mapping, SameEin(f.ein));
    if matching == [] then [Merged(f, None)] else Rows.Map(matching, WithFiling(f))
  }

  /** `df.merge(df_ein[["Ein", "State"]], ..., how="left")` */
  function LeftMerge(filings: seq<Filing>, mapping: seq<EinState>): seq<Merged> {
    if filings == [] then []
    else LeftMerge(filings[..|filings| - 1], mapping) + MergeOne(filings[|filings| - 1], mapping)
  }

  predicate HasState(m: Merged) { m.state.Some? }

  function Located(m: Merged): Charity {
    Charity(m.filing, StateName(if m.state.Some? then m.state.value else ""))
  }

  function EinOf(c: Charity): string { c.filing.ein }

  predicate NotPuertoRico(c: Charity) { c.state != "Puerto Rico" }
  predicate NotVirginIslands(c: Charity) { c.state != "VI" }

  /** the table after the state names are filled in */
  function LocatedTable(filings: seq<Filing>, mapping: seq<EinState>): seq<Charity> {
    Rows.Map(Rows.Filter(LeftMerge(filings, mapping), HasState), Located)
  }

  function Cleaned(filings: seq<Filing>, mapping: seq<EinState>): seq<Charity> {
    Rows.Filter(Rows.Filter(Rows.DedupBy(LocatedTable(filings, mapping), EinOf), NotPuertoRico), NotVirginIslands)
  }

  /** `clean_file(filename, ein_mapping_file)`, stage by stage */
  method CleanFile(filings: Option<seq<Filing>>, mapping: Option<seq<EinState>>) returns (result: Option<seq<Charity>>)
    ensures result.None? <==> filings.None? || mapping.None?
    ensures result.Some? ==> result.value == Cleaned(filings.value, mapping.value)
    ensures result.Some? ==> Rows.DistinctKeys(result.value, EinOf)
    ensures result.Some? ==> forall c | c in result.value :: c.state != "Puerto Rico" && c.state != "VI"
  {
    if filings.None? || mapping.None? {
      return None;
    }
    var df := LeftMerge(filings.value, mapping.value);
    df := Rows.Filter(df, HasState);
    var located := Rows.Map(df, Located);
    var unique := Rows.DedupBy(located, EinOf);
    var kept := Rows.Filter(unique, NotPuertoRico);
    kept := Rows.Filter(kept, NotVirginIslands);
    CleanedDistinct(filings.value, mapping.value);
    return Some(kept);
  }

  // ---------------------------------------------------------------------------
  // Properties

  /** A merged row pairs a filing with the state of a mapping row with its EIN, or
      with no state when no mapping row has its EIN. */
  lemma {:induction false} LeftMergeIff(filings: seq<Filing>, mapping: seq<EinState>, m: Merged)
    ensures m in LeftMerge(filings, mapping) <==>
      m.filing in filings &&
      ((exists e | e in mapping :: e.ein == m.filing.ein && e.state == m.state) ||
       (m.state.None? && forall e | e in mapping :: e.ein != m.filing.ein))
    decreases |filings|
  {
    if filings != [] {
      var init, f := filings[..|filings| - 1], filings[|filings| - 1];
      assert filings == init + [f];
      LeftMergeIff(init, mapping, m);
      MergeOneIff(f, mapping, m);
    }
  }

  lemma MergeOneIff(f: Filing, mapping: seq<EinState>, m: Merged)
    ensures m in MergeOne(f, mapping) <==>
      m.filing == f &&
      ((exists e | e in mapping :: e.ein == f.ein && e.state == m.state) ||
       (m.state.None? && forall e | e in mapping :: e.ein != f.ein))
  {
    var matching := Rows.Filter(mapping, SameEin(f.ein));
    if exists e | e in mapping :: e.ein == f.ein && e.state == m.state {
      var e :| e in mapping && e.ein == f.ein && e.state == m.state;
      assert e in matching;
      if m.filing == f {
        var j :| 0 <= j < |matching| && matching[j] == e;
        assert Rows.Map(matching, WithFiling(f))[j] == m;
      }
    }
    if m in MergeOne(f, mapping) && matching != [] {
      var j :| 0 <= j < |matching| && Rows.Map(matching, WithFiling(f))[j] == m;
      assert matching[j] in mapping;
    }
    assert forall e | e in mapping && e.ein == f.ein :: e in matching;
    if matching != [] {
      assert matching[0] in mapping && matching[0].ein == f.ein;
    }
  }

  /** Every cleaned row is a filing read, with the state of a mapping row for its
      EIN spelled out, and is neither Puerto Rico nor the Virgin Islands: a filing
      whose EIN the mapping table lacks is dropped. */
  lemma CleanedSound(filings: seq<Filing>, mapping: seq<EinState>, c: Charity)
    requires c in Cleaned(filings, mapping)
    ensures c.filing in filings
    ensures exists e | e in mapping :: e.ein == c.filing.ein && e.state.Some? && c.state == StateName(e.state.value)
    ensures c.state != "Puerto Rico" && c.state != "VI"
  {
    var located := LocatedTable(filings, mapping);
    var unique := Rows.DedupBy(located, EinOf);
    assert c in unique;
    Rows.DedupByIsSubsequence(located, EinOf);
    Rows.SubsequenceMembers(unique, located, c);
    var merged := Rows.Filter(LeftMerge(filings, mapping), HasState);
    var i :| 0 <= i < |located| && located[i] == c;
    var m := merged[i];
    assert m in LeftMerge(filings, mapping) && m.state.Some?;
    LeftMergeIff(filings, mapping, m);
  }

  /** No two cleaned rows share an EIN. */
  lemma CleanedDistinct(filings: seq<Filing>, mapping: seq<EinState>)
    ensures Rows.DistinctKeys(Cleaned(filings, mapping), EinOf)
  {
    var unique := Rows.DedupBy(LocatedTable(filings, mapping), EinOf);
    var e1 := Rows.Filter(unique, NotPuertoRico);
    Rows.FilterIsSubsequence(unique, NotPuertoRico);
    Rows.FilterIsSubsequence(e1, NotVirginIslands);
    Rows.SubsequenceTransitive(Cleaned(filings, mapping), e1, unique);
    Rows.SubsequenceDistinctKeys(Cleaned(filings, mapping), unique, EinOf);
  }

  /** The first located row of each EIN is kept exactly when its state is neither
      excluded name, and no other row is kept. */
  lemma CleanedKeepsFirst(filings: seq<Filing>, mapping: seq<EinState>)
    ensures var located := LocatedTable(filings, mapping);
      forall j | 0 <= j < |located| && Rows.IsFirstOfKey(located, EinOf, j) ::
        located[j] in Cleaned(filings, mapping) <==> located[j].state != "Puerto Rico" && located[j].state != "VI"
    ensures var located := LocatedTable(filings, mapping);
      forall c | c in Cleaned(filings, mapping) ::
        exists j | 0 <= j < |located| :: located[j] == c && Rows.IsFirstOfKey(located, EinOf, j)
  {
    var located := LocatedTable(filings, mapping);
    Rows.DedupByKeepsFirst(located, EinOf);
    var unique := Rows.DedupBy(located, EinOf);
    forall j | 0 <= j < |located| && Rows.IsFirstOfKey(located, EinOf, j) &&
               located[j].state != "Puerto Rico" && located[j].state != "VI"
      ensures located[j] in Cleaned(filings, mapping)
    {
      assert located[j] in Rows.Filter(unique, NotPuertoRico);
    }
  }

  /** A row with state text s ends up as Puerto Rico or the Virgin Islands exactly
      when s is "PR", "Puerto Rico" or "VI"; "DC" becomes the District of Columbia
      and is kept. */
  lemma ExcludedStates(s: string)
    ensures StateName(s) == "Puerto Rico" || StateName(s) == "VI" <==> s == "PR" || s == "Puerto Rico" || s == "VI"
    ensures StateName("DC") == "District of Columbia"
  {
    if States.IsStateCode(s) && s != "DC" && s != "PR" {
      States.NamesAreLong(s);
    }
  }
}
