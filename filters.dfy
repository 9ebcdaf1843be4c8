/**
 * The filter layer (Dashboard/dashboard.py:48-56): an inclusive date range
 * followed by a season selection whose wildcard is "All Seasons".
 */
module Filters {
  import opened Seqs
  import opened Records

  const ALL_SEASONS: string := "All Seasons"

  /**
   * Lines 49-50: the date lies between the two bounds, inclusive. Both
   * comparisons are false for a missing date, so such a row is never in range.
   */
  predicate InDateRange(r: Row, lo: Day, hi: Day)
  {
    match r.date
    case None => false
    case Some(d) => lo <= d && d <= hi
  }

  function FilterDates(rows: seq<Row>, lo: Day, hi: Day): (kept: seq<Row>)
    ensures |kept| <= |rows|
    ensures forall r :: r in kept ==> r in rows && r.date.Some? && lo <= r.date.value <= hi
  {
    if rows == [] then []
    else
      assert rows == Init(rows) + [Last(rows)];
      FilterDates(Init(rows), lo, hi) + (if InDateRange(Last(rows), lo, hi) then [Last(rows)] else [])
  }

  /** Exactly the rows dated within `[lo, hi]` survive, each as often as it occurs. */
  lemma {:induction false} FilterDatesExact(rows: seq<Row>, lo: Day, hi: Day)
    ensures forall r :: multiset(FilterDates(rows, lo, hi))[r] ==
                        if InDateRange(r, lo, hi) then multiset(rows)[r] else 0
  {
    if rows != [] {
      FilterDatesExact(Init(rows), lo, hi);
      assert rows == Init(rows) + [Last(rows)];
    }
  }

  /** The survivors keep their original order. */
  lemma {:induction false} FilterDatesKeepsOrder(rows: seq<Row>, lo: Day, hi: Day)
    ensures IsSubsequence(FilterDates(rows, lo, hi), rows)
  {
    if rows == [] {
      SubsequenceOfEmpty(rows);
    } else {
      FilterDatesKeepsOrder(Init(rows), lo, hi);
      assert rows == Init(rows) + [Last(rows)];
      if InDateRange(Last(rows), lo, hi) {
        SubsequenceKeep(FilterDates(Init(rows), lo, hi), Init(rows), Last(rows));
      } else {
        assert FilterDates(rows, lo, hi) == FilterDates(Init(rows), lo, hi);
        SubsequenceSkip(FilterDates(Init(rows), lo, hi), Init(rows), Last(rows));
      }
    }
  }

  /** A row whose date was coerced to missing is never selected, whatever the range. */
  lemma MissingDateNeverSelected(rows: seq<Row>, lo: Day, hi: Day, r: Row)
    requires r.date.None?
    ensures r !in FilterDates(rows, lo, hi)
    ensures multiset(FilterDates(rows, lo, hi))[r] == 0
  {
    FilterDatesExact(rows, lo, hi);
  }

  /** Line 56: the rows whose season equals the selection. */
  function KeepSeason(rows: seq<Row>, season: string): (kept: seq<Row>)
    ensures |kept| <= |rows|
    ensures forall r :: r in kept ==> r in rows && r.season == Some(season)
  {
    if rows == [] then []
    else
      assert rows == Init(rows) + [Last(rows)];
      KeepSeason(Init(rows), season) + (if Last(rows).season == Some(season) then [Last(rows)] else [])
  }

  lemma {:induction false} KeepSeasonExact(rows: seq<Row>, season: string)
    ensures forall r :: multiset(KeepSeason(rows, season))[r] ==
                        if r.season == Some(season) then multiset(rows)[r] else 0
  {
    if rows != [] {
      KeepSeasonExact(Init(rows), season);
      assert rows == Init(rows) + [Last(rows)];
    }
  }

  lemma {:induction false} KeepSeasonKeepsOrder(rows: seq<Row>, season: string)
    ensures IsSubsequence(KeepSeason(rows, season), rows)
  {
    if rows == [] {
      SubsequenceOfEmpty(rows);
    } else {
      KeepSeasonKeepsOrder(Init(rows), season);
      assert rows == Init(rows) + [Last(rows)];
      if Last(rows).season == Some(season) {
        SubsequenceKeep(KeepSeason(Init(rows), season), Init(rows), Last(rows));
      } else {
        assert KeepSeason(rows, season) == KeepSeason(Init(rows), season);
        SubsequenceSkip(KeepSeason(Init(rows), season), Init(rows), Last(rows));
      }
    }
  }

  /**
   * Line 56: the wildcard leaves the rows untouched; any other selection
   * keeps exactly the rows of that season, in order.
   */
  function FilterSeason(rows: seq<Row>, selected: string): (kept: seq<Row>)
    ensures selected == ALL_SEASONS ==> kept == rows
    ensures selected != ALL_SEASONS ==>
              && (forall r :: r in kept ==> r.season == Some(selected))
              && (forall r :: multiset(kept)[r] == if r.season == Some(selected) then multiset(rows)[r] else 0)
    ensures IsSubsequence(kept, rows)
  {
    if selected == ALL_SEASONS then
      SubsequenceRefl(rows);
      rows
    else
      KeepSeasonExact(rows, selected);
      KeepSeasonKeepsOrder(rows, selected);
      KeepSeason(rows, selected)
  }
}
