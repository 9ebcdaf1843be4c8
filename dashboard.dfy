/**
 * The dashboard script's computation from the loaded table to the tables it
 * draws (Dashboard/dashboard.py:8-112 without the widgets and charts): load
 * checks, cleaning, the two filters, the seasonal totals, the RFM table and
 * its three top-5 selections.
 */
module Dashboard {
  import opened Seqs
  import opened Records
  import opened Cleaning
  import opened Filters
  import opened Seasonal
  import opened Rfm
  import opened TopFive

  /**
   * The conditions on which the script stops before drawing any table: a
   * missing file or an empty table (lines 10-20, with an error message), and
   * a cleaned table none of whose rows has a date, whose minimum and maximum
   * at line 41 are then missing and cannot bound the slider at lines 42-47.
   */
  datatype LoadError = DataNotFound | EmptyDataset | NoDatedRecords

  datatype Result<T> = Ok(value: T) | Err(error: LoadError)

  /**
   * The tables the dashboard renders, with the year and season category
   * domains the seasonal group-by ranges over.
   */
  datatype View = View(
    years: seq<int>,
    seasons: seq<string>,
    filtered: seq<Row>,
    seasonal: seq<SeasonTotal>,
    rfm: seq<RfmRow>,
    byRecency: seq<RfmRow>,
    byFrequency: seq<RfmRow>,
    byMonetary: seq<RfmRow>)

  /** Lines 48-56: the date range first, then the season selection. */
  function Selected(rows: seq<Row>, lo: Day, hi: Day, season: string): seq<Row>
  {
    FilterSeason(FilterDates(rows, lo, hi), season)
  }

  /**
   * Every selected row is a row of the input, dated within the range, of
   * the selected season unless the wildcard is chosen, and the selection
   * keeps the input order.
   */
  lemma SelectedFacts(rows: seq<Row>, lo: Day, hi: Day, season: string)
    ensures forall r :: r in Selected(rows, lo, hi, season) ==>
              && r in rows
              && r.date.Some? && lo <= r.date.value <= hi
              && (season != ALL_SEASONS ==> r.season == Some(season))
    ensures IsSubsequence(Selected(rows, lo, hi, season), rows)
  {
    var dated := FilterDates(rows, lo, hi);
    FilterDatesExact(rows, lo, hi);
    FilterDatesKeepsOrder(rows, lo, hi);
    SubsequenceTrans(Selected(rows, lo, hi, season), dated, rows);
    forall r | r in Selected(rows, lo, hi, season)
      ensures r in dated && r in rows
    {
      if season != ALL_SEASONS {
        assert multiset(Selected(rows, lo, hi, season))[r] > 0;
      }
      assert multiset(dated)[r] > 0;
    }
  }

  /** After cleaning and filtering, every row's year and season lie in the category domains. */
  lemma SelectedInCategories(raw: seq<RawRow>, parse: string -> Option<Day>, frame: Frame,
                             lo: Day, hi: Day, season: string)
    requires frame.rows == Cleaned(raw, parse)
    requires Elems(frame.years) == YearCategories(CoerceAll(raw, parse))
    requires Elems(frame.seasons) == SeasonCategories(CoerceAll(raw, parse))
    ensures forall r :: r in Selected(frame.rows, lo, hi, season) ==>
              && r.year.Some? && r.year.value in Elems(frame.years)
              && (r.season.Some? ==> r.season.value in Elems(frame.seasons))
  {
    CleanedFacts(raw, parse);
    SelectedFacts(frame.rows, lo, hi, season);
  }

  /**
   * A record whose date text the parser rejects is never shown, whatever the
   * range and the season chosen: coercion makes its date missing, and the
   * date filter drops missing dates.
   */
  lemma UnparsedDateNeverSelected(raw: seq<RawRow>, parse: string -> Option<Day>, i: int,
                                  lo: Day, hi: Day, season: string)
    requires 0 <= i < |raw|
    ensures parse(raw[i].dateText).None? ==>
              Coerce(raw[i], parse) !in Selected(Cleaned(raw, parse), lo, hi, season)
  {
    SelectedFacts(Cleaned(raw, parse), lo, hi, season);
  }

  /**
   * End to end: when every selected row has a season, the seasonal totals
   * add up to the users of the selection; the RFM frequencies add up to the
   * number of selected rows and the monetary values to their users.
   */
  lemma PipelinePreservesTotals(raw: seq<RawRow>, parse: string -> Option<Day>, frame: Frame,
                                lo: Day, hi: Day, season: string, rfm: seq<RfmRow>)
    requires frame.rows == Cleaned(raw, parse)
    requires Distinct(frame.years) && Elems(frame.years) == YearCategories(CoerceAll(raw, parse))
    requires Distinct(frame.seasons) && Elems(frame.seasons) == SeasonCategories(CoerceAll(raw, parse))
    requires IsRfmOf(rfm, Selected(frame.rows, lo, hi, season))
    ensures (forall r :: r in Selected(frame.rows, lo, hi, season) ==> r.season.Some?) ==>
              SumTotals(SeasonalTotals(Selected(frame.rows, lo, hi, season), frame.years, frame.seasons))
              == TotalUsers(Selected(frame.rows, lo, hi, season))
    ensures SumFrequency(rfm) == |Selected(frame.rows, lo, hi, season)|
    ensures SumMonetary(rfm) == TotalUsers(Selected(frame.rows, lo, hi, season))
  {
    var rows := Selected(frame.rows, lo, hi, season);
    SelectedInCategories(raw, parse, frame, lo, hi, season);
    SelectedFacts(frame.rows, lo, hi, season);
    if forall r :: r in rows ==> r.season.Some? {
      SeasonalTotalsPreserveSum(rows, frame.years, frame.seasons);
    }
    RfmPreservesCounts(rfm, rows);
  }

  /**
   * The script from loading to the RFM selections. `fileExists` is the
   * outcome of the existence check and `raw` the table read from disk;
   * `lo`, `hi` and `season` are the widget values.
   */
  method RunDashboard(fileExists: bool, raw: seq<RawRow>, parse: string -> Option<Day>,
                      lo: Day, hi: Day, season: string) returns (out: Result<View>)
    ensures !fileExists <==> out == Err(DataNotFound)
    ensures fileExists && raw == [] <==> out == Err(EmptyDataset)
    ensures fileExists && raw != [] && Dates(Cleaned(raw, parse)) == {} <==> out == Err(NoDatedRecords)
    ensures out.Ok? ==>
              var v := out.value;
              && Distinct(v.years) && Elems(v.years) == YearCategories(CoerceAll(raw, parse))
              && Distinct(v.seasons) && Elems(v.seasons) == SeasonCategories(CoerceAll(raw, parse))
              && v.filtered == Selected(Cleaned(raw, parse), lo, hi, season)
              && (forall r :: r in v.filtered ==>
                    && r.year.Some?
                    && r.date.Some? && lo <= r.date.value <= hi
                    && (season != ALL_SEASONS ==> r.season == Some(season)))
              && v.seasonal == SeasonalTotals(v.filtered, v.years, v.seasons)
              && ((forall r :: r in v.filtered ==> r.season.Some?) ==>
                    SumTotals(v.seasonal) == TotalUsers(v.filtered))
              && IsRfmOf(v.rfm, v.filtered)
              && SumFrequency(v.rfm) == |v.filtered|
              && SumMonetary(v.rfm) == TotalUsers(v.filtered)
              && v.byRecency == TopRecency(v.rfm)
              && v.byFrequency == TopFrequency(v.rfm)
              && v.byMonetary == TopMonetary(v.rfm)
  {
    if !fileExists {
      return Err(DataNotFound);
    }
    if raw == [] {
      return Err(EmptyDataset);
    }
    var frame := Normalize(raw, parse);
    // line 41: the slider bounds are the earliest and latest dates
    if LatestDate(frame.rows).None? {
      return Err(NoDatedRecords);
    }
    var filtered := Selected(frame.rows, lo, hi, season);
    var seasonal := SeasonalTotals(filtered, frame.years, frame.seasons);
    var rfm := CalculateRfm(filtered);
    PipelinePreservesTotals(raw, parse, frame, lo, hi, season, rfm);
    SelectedFacts(frame.rows, lo, hi, season);
    CleanedFacts(raw, parse);
    out := Ok(View(frame.years, frame.seasons, filtered, seasonal, rfm, TopRecency(rfm), TopFrequency(rfm), TopMonetary(rfm)));
  }

  /** Day numbers of 2024-01-01, 2024-01-02 and 2024-01-03 counted from 1970-01-01. */
  const JAN_1_2024: Day := 19723

  function ExampleRows(): seq<Row>
  {
    [ Row(Some(JAN_1_2024), Some("Spring"), Some(2024), 10),
      Row(Some(JAN_1_2024 + 1), Some("Spring"), Some(2024), 20),
      Row(Some(JAN_1_2024 + 2), Some("Summer"), Some(2024), 5) ]
  }

  function ExampleRfm(): seq<RfmRow>
  {
    [ RfmRow(JAN_1_2024, 1, 10, 2), RfmRow(JAN_1_2024 + 1, 1, 20, 1), RfmRow(JAN_1_2024 + 2, 1, 5, 0) ]
  }

  /** Selecting spring over the whole range keeps the first two days, 30 users in all. */
  lemma ExampleSelection()
    ensures Selected(ExampleRows(), JAN_1_2024, JAN_1_2024 + 2, "Spring") == ExampleRows()[..2]
    ensures TotalUsers(ExampleRows()[..2]) == 30
  {
    var rows := ExampleRows();
    assert Init(rows) == rows[..2];
    assert Init(rows[..2]) == rows[..1];
    assert Init(rows[..1]) == [];
    assert FilterDates(rows[..1], JAN_1_2024, JAN_1_2024 + 2) == rows[..1];
    assert FilterDates(rows[..2], JAN_1_2024, JAN_1_2024 + 2) == rows[..2];
    assert FilterDates(rows, JAN_1_2024, JAN_1_2024 + 2) == rows;
    assert KeepSeason(rows[..1], "Spring") == rows[..1];
    assert KeepSeason(rows[..2], "Spring") == rows[..2];
  }

  lemma ExampleRfmIsTable()
    ensures IsRfmOf(ExampleRfm(), ExampleRows())
  {
    var rows := ExampleRows();
    var expected := ExampleRfm();
    assert Dates(rows) == {JAN_1_2024, JAN_1_2024 + 1, JAN_1_2024 + 2} by {
      assert rows[0] in rows && rows[1] in rows && rows[2] in rows;
    }
    assert RfmDates(expected) == [JAN_1_2024, JAN_1_2024 + 1, JAN_1_2024 + 2];
    assert Elems(RfmDates(expected)) == Dates(rows);
    assert OneRowPerDay(rows);
    DatedSingle(rows, 0, JAN_1_2024);
    DatedSingle(rows, 1, JAN_1_2024 + 1);
    DatedSingle(rows, 2, JAN_1_2024 + 2);
    assert Aggregates(expected, rows);
    assert IsLatest(rows, JAN_1_2024 + 2);
  }

  /**
   * For three days (two in spring), the RFM table is exactly recency 2, 1, 0,
   * frequency 1, 1, 1 and monetary 10, 20, 5.
   */
  lemma ExampleScenario(t: seq<RfmRow>)
    ensures IsRfmOf(t, ExampleRows()) <==> t == ExampleRfm()
  {
    ExampleRfmIsTable();
    if IsRfmOf(t, ExampleRows()) {
      RfmDeterministic(t, ExampleRfm(), ExampleRows());
    }
  }
}
