/**
 * Type normalisation of the loaded table (Dashboard/dashboard.py:23-31):
 * the date column is coerced (an unparseable date becomes missing), the
 * categorical columns get their category domains, and rows whose `year` is
 * missing are dropped.
 */
module Cleaning {
  import opened Seqs
  import opened Records

  /**
   * The cleaned table together with the category domains of the two
   * columns the seasonal group-by uses. The domains are taken from the table
   * as it stands when the columns are made categorical, i.e. before the rows
   * with a missing year are dropped.
   */
  datatype Frame = Frame(rows: seq<Row>, years: seq<int>, seasons: seq<string>)

  /** Coercion of one record's date: `parse` stands for the date parser, `None` for "not a date". */
  function Coerce(r: RawRow, parse: string -> Option<Day>): Row
  {
    Row(parse(r.dateText), r.season, r.year, r.totalUser)
  }

  function CoerceAll(raw: seq<RawRow>, parse: string -> Option<Day>): seq<Row>
  {
    seq(|raw|, i requires 0 <= i < |raw| => Coerce(raw[i], parse))
  }

  /** Line 31: the rows whose year is missing are dropped; the others keep their order. */
  function DropMissingYear(rows: seq<Row>): (kept: seq<Row>)
    ensures |kept| <= |rows|
    ensures forall r :: r in kept ==> r in rows && r.year.Some?
  {
    if rows == [] then []
    else
      assert rows == Init(rows) + [Last(rows)];
      DropMissingYear(Init(rows)) + (if Last(rows).year.Some? then [Last(rows)] else [])
  }

  function Cleaned(raw: seq<RawRow>, parse: string -> Option<Day>): seq<Row>
  {
    DropMissingYear(CoerceAll(raw, parse))
  }

  function YearCategories(rows: seq<Row>): set<int>
  {
    set r | r in rows && r.year.Some? :: r.year.value
  }

  function SeasonCategories(rows: seq<Row>): set<string>
  {
    set r | r in rows && r.season.Some? :: r.season.value
  }

  lemma CategoriesSnoc(rows: seq<Row>, r: Row)
    ensures YearCategories(rows + [r]) == YearCategories(rows) + (if r.year.Some? then {r.year.value} else {})
    ensures SeasonCategories(rows + [r]) == SeasonCategories(rows) + (if r.season.Some? then {r.season.value} else {})
  {
  }

  /** Every row with a year survives, as often as it occurs; no other row does. */
  lemma {:induction false} DropMissingYearExact(rows: seq<Row>)
    ensures forall r :: multiset(DropMissingYear(rows))[r] == if r.year.Some? then multiset(rows)[r] else 0
  {
    if rows != [] {
      DropMissingYearExact(Init(rows));
      assert rows == Init(rows) + [Last(rows)];
    }
  }

  /** Dropping rows keeps the survivors in their original order. */
  lemma {:induction false} DropMissingYearKeepsOrder(rows: seq<Row>)
    ensures IsSubsequence(DropMissingYear(rows), rows)
  {
    if rows == [] {
      SubsequenceOfEmpty(rows);
    } else {
      DropMissingYearKeepsOrder(Init(rows));
      assert rows == Init(rows) + [Last(rows)];
      if Last(rows).year.Some? {
        SubsequenceKeep(DropMissingYear(Init(rows)), Init(rows), Last(rows));
      } else {
        assert DropMissingYear(rows) == DropMissingYear(Init(rows));
        SubsequenceSkip(DropMissingYear(Init(rows)), Init(rows), Last(rows));
      }
    }
  }

  /**
   * The cleaned rows: each has a year, and its year and (if present) its
   * season lie in the category domains; the result is the coerced table in
   * its original order with exactly the rows lacking a year removed.
   */
  lemma CleanedFacts(raw: seq<RawRow>, parse: string -> Option<Day>)
    ensures |Cleaned(raw, parse)| <= |raw|
    ensures IsSubsequence(Cleaned(raw, parse), CoerceAll(raw, parse))
    ensures forall r :: multiset(Cleaned(raw, parse))[r] ==
                        if r.year.Some? then multiset(CoerceAll(raw, parse))[r] else 0
    ensures forall r :: r in Cleaned(raw, parse) ==>
              && r.year.Some? && r.year.value in YearCategories(CoerceAll(raw, parse))
              && (r.season.Some? ==> r.season.value in SeasonCategories(CoerceAll(raw, parse)))
  {
    var rows := CoerceAll(raw, parse);
    DropMissingYearExact(rows);
    DropMissingYearKeepsOrder(rows);
    forall r | r in Cleaned(raw, parse)
      ensures r.year.Some? && r.year.value in YearCategories(rows)
      ensures r.season.Some? ==> r.season.value in SeasonCategories(rows)
    {
      assert multiset(Cleaned(raw, parse))[r] > 0;
      assert r in rows;
    }
  }

  /**
   * Lines 23-31 as the script runs them: coerce the date column, make the
   * season and year columns categorical (their domains are the distinct
   * values present), then drop the rows whose year is missing.
   */
  method Normalize(raw: seq<RawRow>, parse: string -> Option<Day>) returns (frame: Frame)
    ensures frame.rows == Cleaned(raw, parse)
    ensures Distinct(frame.years) && Elems(frame.years) == YearCategories(CoerceAll(raw, parse))
    ensures Distinct(frame.seasons) && Elems(frame.seasons) == SeasonCategories(CoerceAll(raw, parse))
  {
    // line 23: coerce every date, an unparseable one becoming missing
    var table: seq<Row> := [];
    var i := 0;
    while i < |raw|
      invariant 0 <= i <= |raw|
      invariant table == CoerceAll(raw[..i], parse)
    {
      assert CoerceAll(raw[..i + 1], parse) == CoerceAll(raw[..i], parse) + [Coerce(raw[i], parse)];
      table := table + [Coerce(raw[i], parse)];
      i := i + 1;
    }
    assert raw[..i] == raw;

    // lines 25-28: collect the category domains of the year and season columns
    var years: seq<int> := [];
    var seasons: seq<string> := [];
    i := 0;
    while i < |table|
      invariant 0 <= i <= |table|
      invariant Distinct(years) && Elems(years) == YearCategories(table[..i])
      invariant Distinct(seasons) && Elems(seasons) == SeasonCategories(table[..i])
    {
      var r := table[i];
      CategoriesSnoc(table[..i], r);
      assert table[..i + 1] == table[..i] + [r];
      if r.year.Some? && r.year.value !in years {
        ElemsSnoc(years, r.year.value);
        years := years + [r.year.value];
      }
      if r.season.Some? && r.season.value !in seasons {
        ElemsSnoc(seasons, r.season.value);
        seasons := seasons + [r.season.value];
      }
      i := i + 1;
    }
    assert table[..i] == table;

    // line 31: drop the rows whose year is missing
    var kept: seq<Row> := [];
    i := 0;
    while i < |table|
      invariant 0 <= i <= |table|
      invariant kept == DropMissingYear(table[..i])
    {
      assert Init(table[..i + 1]) == table[..i];
      if table[i].year.Some? {
        kept := kept + [table[i]];
      }
      i := i + 1;
    }
    assert table[..i] == table;
    frame := Frame(kept, years, seasons);
  }
}
