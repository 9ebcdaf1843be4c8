/**
 * Seasonal totals (Dashboard/dashboard.py:60): the sum of `total_user` per
 * (year, season) group. Since unobserved groups are kept, every (year, season) pair of the two category
 * domains is reported, also those no row falls into (sum 0). A row whose
 * season is missing belongs to no group.
 */
module Seasonal {
  import opened Seqs
  import opened Records

  datatype SeasonTotal = SeasonTotal(year: int, season: string, totalUser: nat)

  predicate InCell(r: Row, ys: set<int>, ss: set<string>)
  {
    r.year.Some? && r.year.value in ys && r.season.Some? && r.season.value in ss
  }

  /** Sum of `total_user` over the rows whose year is in `ys` and whose season is in `ss`. */
  function CellSum(rows: seq<Row>, ys: set<int>, ss: set<string>): nat
  {
    if rows == [] then 0
    else CellSum(Init(rows), ys, ss) + (if InCell(Last(rows), ys, ss) then Last(rows).totalUser else 0)
  }

  /** The groups of one year, one per season category. */
  function YearBlock(rows: seq<Row>, y: int, seasons: seq<string>): seq<SeasonTotal>
  {
    seq(|seasons|, j requires 0 <= j < |seasons| => SeasonTotal(y, seasons[j], CellSum(rows, {y}, {seasons[j]})))
  }

  function SeasonalTotals(rows: seq<Row>, years: seq<int>, seasons: seq<string>): (totals: seq<SeasonTotal>)
    ensures |totals| == |years| * |seasons|
    ensures forall k :: 0 <= k < |totals| ==>
              && totals[k].year in years && totals[k].season in seasons
              && totals[k].totalUser == CellSum(rows, {totals[k].year}, {totals[k].season})
  {
    if years == [] then []
    else
      var prev := SeasonalTotals(rows, Init(years), seasons);
      assert |prev| + |seasons| == |years| * |seasons| by {
        assert |years| * |seasons| == (|years| - 1) * |seasons| + |seasons|;
      }
      assert forall y :: y in Init(years) ==> y in years;
      prev + YearBlock(rows, Last(years), seasons)
  }

  function SumTotals(ts: seq<SeasonTotal>): nat
  {
    if ts == [] then 0 else SumTotals(Init(ts)) + Last(ts).totalUser
  }

  lemma {:induction false} SumTotalsAppend(a: seq<SeasonTotal>, b: seq<SeasonTotal>)
    ensures SumTotals(a + b) == SumTotals(a) + SumTotals(b)
    decreases |b|
  {
    if b == [] {
      assert a + b == a;
    } else {
      assert Init(a + b) == a + Init(b);
      SumTotalsAppend(a, Init(b));
    }
  }

  lemma {:induction false} CellSumSplitSeason(rows: seq<Row>, ys: set<int>, ss: set<string>, s: string)
    requires s !in ss
    ensures CellSum(rows, ys, ss + {s}) == CellSum(rows, ys, ss) + CellSum(rows, ys, {s})
  {
    if rows != [] {
      CellSumSplitSeason(Init(rows), ys, ss, s);
    }
  }

  lemma {:induction false} CellSumSplitYear(rows: seq<Row>, ys: set<int>, y: int, ss: set<string>)
    requires y !in ys
    ensures CellSum(rows, ys + {y}, ss) == CellSum(rows, ys, ss) + CellSum(rows, {y}, ss)
  {
    if rows != [] {
      CellSumSplitYear(Init(rows), ys, y, ss);
    }
  }

  /** The groups of one year add up to that year's rows with a listed season. */
  lemma {:induction false} YearBlockSum(rows: seq<Row>, y: int, seasons: seq<string>)
    requires Distinct(seasons)
    ensures SumTotals(YearBlock(rows, y, seasons)) == CellSum(rows, {y}, Elems(seasons))
  {
    if seasons == [] {
      assert Elems(seasons) == {};
      CellSumNone(rows, {y});
    } else {
      var s := Last(seasons);
      YearBlockSum(rows, y, Init(seasons));
      assert YearBlock(rows, y, seasons) == YearBlock(rows, y, Init(seasons)) + [SeasonTotal(y, s, CellSum(rows, {y}, {s}))];
      assert seasons == Init(seasons) + [s];
      ElemsSnoc(Init(seasons), s);
      assert s !in Elems(Init(seasons));
      CellSumSplitSeason(rows, {y}, Elems(Init(seasons)), s);
    }
  }

  lemma {:induction false} CellSumNone(rows: seq<Row>, ys: set<int>)
    ensures CellSum(rows, ys, {}) == 0
  {
    if rows != [] {
      CellSumNone(Init(rows), ys);
    }
  }

  lemma {:induction false} CellSumNoYear(rows: seq<Row>, ss: set<string>)
    ensures CellSum(rows, {}, ss) == 0
  {
    if rows != [] {
      CellSumNoYear(Init(rows), ss);
    }
  }

  /** The group sums add up to the total of the rows falling into some category pair. */
  lemma {:induction false} SeasonalTotalsSum(rows: seq<Row>, years: seq<int>, seasons: seq<string>)
    requires Distinct(years) && Distinct(seasons)
    ensures SumTotals(SeasonalTotals(rows, years, seasons)) == CellSum(rows, Elems(years), Elems(seasons))
  {
    if years == [] {
      assert Elems(years) == {};
      CellSumNoYear(rows, Elems(seasons));
    } else {
      var y := Last(years);
      SeasonalTotalsSum(rows, Init(years), seasons);
      SumTotalsAppend(SeasonalTotals(rows, Init(years), seasons), YearBlock(rows, y, seasons));
      YearBlockSum(rows, y, seasons);
      assert years == Init(years) + [y];
      ElemsSnoc(Init(years), y);
      assert y !in Elems(Init(years));
      CellSumSplitYear(rows, Elems(Init(years)), y, Elems(seasons));
    }
  }

  /** When every row falls into some category pair, its total is the whole total. */
  lemma {:induction false} CellSumCoversAll(rows: seq<Row>, ys: set<int>, ss: set<string>)
    requires forall r :: r in rows ==> InCell(r, ys, ss)
    ensures CellSum(rows, ys, ss) == TotalUsers(rows)
  {
    if rows != [] {
      assert Last(rows) in rows;
      assert forall r :: r in Init(rows) ==> r in rows;
      CellSumCoversAll(Init(rows), ys, ss);
    }
  }

  /**
   * Sum preservation: when every row's year and season are among the
   * category domains, the group sums add up to the total of all rows.
   */
  lemma SeasonalTotalsPreserveSum(rows: seq<Row>, years: seq<int>, seasons: seq<string>)
    requires Distinct(years) && Distinct(seasons)
    requires forall r :: r in rows ==> InCell(r, Elems(years), Elems(seasons))
    ensures SumTotals(SeasonalTotals(rows, years, seasons)) == TotalUsers(rows)
  {
    SeasonalTotalsSum(rows, years, seasons);
    CellSumCoversAll(rows, Elems(years), Elems(seasons));
  }

  /** Every category pair is reported, including pairs no row falls into. */
  lemma {:induction false} EveryPairReported(rows: seq<Row>, years: seq<int>, seasons: seq<string>, y: int, s: string)
    requires y in years && s in seasons
    ensures exists k :: 0 <= k < |SeasonalTotals(rows, years, seasons)| &&
              SeasonalTotals(rows, years, seasons)[k] == SeasonTotal(y, s, CellSum(rows, {y}, {s}))
  {
    var prev := SeasonalTotals(rows, Init(years), seasons);
    var block := YearBlock(rows, Last(years), seasons);
    assert SeasonalTotals(rows, years, seasons) == prev + block;
    if y == Last(years) {
      var j :| 0 <= j < |seasons| && seasons[j] == s;
      assert (prev + block)[|prev| + j] == block[j];
    } else {
      assert years == Init(years) + [Last(years)];
      assert y in Init(years);
      EveryPairReported(rows, Init(years), seasons, y, s);
      var k :| 0 <= k < |prev| && prev[k] == SeasonTotal(y, s, CellSum(rows, {y}, {s}));
      assert (prev + block)[k] == prev[k];
    }
  }

  /** With distinct category domains no pair is reported twice. */
  lemma {:induction false} NoPairTwice(rows: seq<Row>, years: seq<int>, seasons: seq<string>)
    requires Distinct(years) && Distinct(seasons)
    ensures forall k1, k2 :: 0 <= k1 < k2 < |SeasonalTotals(rows, years, seasons)| ==>
              (SeasonalTotals(rows, years, seasons)[k1].year, SeasonalTotals(rows, years, seasons)[k1].season)
              != (SeasonalTotals(rows, years, seasons)[k2].year, SeasonalTotals(rows, years, seasons)[k2].season)
  {
    if years != [] {
      var prev := SeasonalTotals(rows, Init(years), seasons);
      var block := YearBlock(rows, Last(years), seasons);
      var all := prev + block;
      assert SeasonalTotals(rows, years, seasons) == all;
      NoPairTwice(rows, Init(years), seasons);
      assert years == Init(years) + [Last(years)];
      assert Last(years) !in Init(years);
      forall k1, k2 | 0 <= k1 < k2 < |all|
        ensures (all[k1].year, all[k1].season) != (all[k2].year, all[k2].season)
      {
        if k2 < |prev| {
          assert all[k1] == prev[k1] && all[k2] == prev[k2];
        } else if k1 < |prev| {
          assert all[k1] == prev[k1] && all[k1].year in Init(years);
        } else {
          assert all[k1] == block[k1 - |prev|] && all[k2] == block[k2 - |prev|];
        }
      }
    }
  }
}
