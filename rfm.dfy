/**
 * `calculate_rfm` (Dashboard/dashboard.py:80-87): one row per distinct date,
 * in increasing date order (the group-by sorts its keys), with the number of
 * records of that date (frequency), the sum of their `total_user`
 * (monetary), and the days from that date to the latest date of the input
 * (recency). Rows without a date belong to no group and are skipped by the
 * maximum.
 */
module Rfm {
  import opened Seqs
  import opened Records

  /** A row of the table before the recency column is added. */
  datatype DateGroup = DateGroup(date: Day, frequency: nat, monetary: nat)

  datatype RfmRow = RfmRow(date: Day, frequency: nat, monetary: nat, recency: int)

  /** The distinct dates present in the rows. */
  function Dates(rows: seq<Row>): set<Day>
  {
    set r | r in rows && r.date.Some? :: r.date.value
  }

  predicate DatedIn(r: Row, ds: set<Day>)
  {
    r.date.Some? && r.date.value in ds
  }

  /** Number of rows whose date is in `ds`. */
  function DatedCount(rows: seq<Row>, ds: set<Day>): nat
  {
    if rows == [] then 0
    else DatedCount(Init(rows), ds) + (if DatedIn(Last(rows), ds) then 1 else 0)
  }

  /** Sum of `total_user` over the rows whose date is in `ds`. */
  function DatedSum(rows: seq<Row>, ds: set<Day>): nat
  {
    if rows == [] then 0
    else DatedSum(Init(rows), ds) + (if DatedIn(Last(rows), ds) then Last(rows).totalUser else 0)
  }

  /** `m` is the latest date of the rows. */
  predicate IsLatest(rows: seq<Row>, m: Day)
  {
    m in Dates(rows) && forall d :: d in Dates(rows) ==> d <= m
  }

  lemma DatesSnoc(rows: seq<Row>, r: Row)
    ensures Dates(rows + [r]) == Dates(rows) + (if r.date.Some? then {r.date.value} else {})
  {
  }

  /** Line 81: the latest present date; none when no row has a date. */
  function LatestDate(rows: seq<Row>): (latest: Option<Day>)
    ensures latest.None? <==> Dates(rows) == {}
    ensures latest.Some? ==> IsLatest(rows, latest.value)
  {
    if rows == [] then None
    else
      var prev := LatestDate(Init(rows));
      DatesSnoc(Init(rows), Last(rows));
      assert rows == Init(rows) + [Last(rows)];
      match Last(rows).date
      case None => prev
      case Some(d) => if prev.Some? && d <= prev.value then prev else Some(d)
  }

  function InsertSorted(s: seq<Day>, x: Day): (r: seq<Day>)
    requires StrictlyIncreasing(s)
    ensures StrictlyIncreasing(r)
    ensures Elems(r) == Elems(s) + {x}
  {
    if s == [] then [x]
    else
      ElemsCons(s[0], s[1..]);
      assert s == [s[0]] + s[1..];
      if x < s[0] then
        ConsIncreasing(x, s);
        ElemsCons(x, s);
        [x] + s
      else if x == s[0] then s
      else
        var rest := InsertSorted(s[1..], x);
        ConsIncreasing(s[0], rest);
        ElemsCons(s[0], rest);
        [s[0]] + rest
  }

  lemma ConsIncreasing(h: Day, s: seq<Day>)
    requires StrictlyIncreasing(s)
    requires forall y :: y in Elems(s) ==> h < y
    ensures StrictlyIncreasing([h] + s)
  {
    forall i, j | 0 <= i < j < |[h] + s|
      ensures ([h] + s)[i] < ([h] + s)[j]
    {
      assert ([h] + s)[j] == s[j - 1];
      assert s[j - 1] in Elems(s);
      if i > 0 {
        assert ([h] + s)[i] == s[i - 1];
      }
    }
  }

  /** The group keys: the distinct dates in increasing order. */
  function SortedDates(rows: seq<Row>): (ds: seq<Day>)
    ensures StrictlyIncreasing(ds)
    ensures Elems(ds) == Dates(rows)
  {
    if rows == [] then []
    else
      DatesSnoc(Init(rows), Last(rows));
      assert rows == Init(rows) + [Last(rows)];
      match Last(rows).date
      case None => SortedDates(Init(rows))
      case Some(d) => InsertSorted(SortedDates(Init(rows)), d)
  }

  /**
   * Lines 82-85: one group per date, holding the number of rows of that
   * date and the sum of their `total_user`.
   */
  function GroupByDate(rows: seq<Row>): (groups: seq<DateGroup>)
    ensures |groups| == |SortedDates(rows)|
    ensures forall i :: 0 <= i < |groups| ==> groups[i].date == SortedDates(rows)[i]
    ensures forall i, j :: 0 <= i < j < |groups| ==> groups[i].date < groups[j].date
    ensures forall i :: 0 <= i < |groups| ==> groups[i].date in Dates(rows)
    ensures forall i :: 0 <= i < |groups| ==>
              groups[i].frequency == DatedCount(rows, {groups[i].date}) &&
              groups[i].monetary == DatedSum(rows, {groups[i].date})
  {
    var ds := SortedDates(rows);
    assert forall i :: 0 <= i < |ds| ==> ds[i] in Elems(ds);
    seq(|ds|, i requires 0 <= i < |ds| => DateGroup(ds[i], DatedCount(rows, {ds[i]}), DatedSum(rows, {ds[i]})))
  }

  function RfmDates(t: seq<RfmRow>): seq<Day>
  {
    seq(|t|, i requires 0 <= i < |t| => t[i].date)
  }

  /** Each row's frequency and monetary value are the count and the user total of its date. */
  predicate Aggregates(t: seq<RfmRow>, rows: seq<Row>)
  {
    forall i :: 0 <= i < |t| ==>
      t[i].frequency == DatedCount(rows, {t[i].date}) && t[i].monetary == DatedSum(rows, {t[i].date})
  }

  /** `t` is the RFM table of `rows`. */
  predicate IsRfmOf(t: seq<RfmRow>, rows: seq<Row>)
  {
    && StrictlyIncreasing(RfmDates(t))
    && Elems(RfmDates(t)) == Dates(rows)
    && Aggregates(t, rows)
    && (forall i :: 0 <= i < |t| ==> IsLatest(rows, t[i].date + t[i].recency))
  }

  /**
   * Builds the grouped table and then adds the recency column, the number of
   * days from each date to the latest one.
   */
  method CalculateRfm(rows: seq<Row>) returns (rfm: seq<RfmRow>)
    ensures IsRfmOf(rfm, rows)
  {
    // line 81: the latest date
    var recent := LatestDate(rows);
    var groups := GroupByDate(rows);
    // with no dated row there is no group, and the latest date is never used
    var latest := if recent.Some? then recent.value else 0;
    // line 86: recency is the number of days from each date to the latest one
    rfm := [];
    var i := 0;
    while i < |groups|
      invariant 0 <= i <= |groups|
      invariant |rfm| == i
      invariant forall k :: 0 <= k < i ==>
                  rfm[k] == RfmRow(groups[k].date, groups[k].frequency, groups[k].monetary, latest - groups[k].date)
    {
      var g := groups[i];
      rfm := rfm + [RfmRow(g.date, g.frequency, g.monetary, latest - g.date)];
      i := i + 1;
    }
    assert RfmDates(rfm) == SortedDates(rows);
    if groups != [] {
      assert groups[0].date in Dates(rows);
      assert IsLatest(rows, latest);
    }
  }

  function SumFrequency(t: seq<RfmRow>): nat
  {
    if t == [] then 0 else SumFrequency(Init(t)) + Last(t).frequency
  }

  function SumMonetary(t: seq<RfmRow>): nat
  {
    if t == [] then 0 else SumMonetary(Init(t)) + Last(t).monetary
  }

  lemma {:induction false} DatedSplit(rows: seq<Row>, ds: set<Day>, d: Day)
    requires d !in ds
    ensures DatedCount(rows, ds + {d}) == DatedCount(rows, ds) + DatedCount(rows, {d})
    ensures DatedSum(rows, ds + {d}) == DatedSum(rows, ds) + DatedSum(rows, {d})
  {
    if rows != [] {
      DatedSplit(Init(rows), ds, d);
    }
  }

  lemma {:induction false} DatedNone(rows: seq<Row>)
    ensures DatedCount(rows, {}) == 0 && DatedSum(rows, {}) == 0
  {
    if rows != [] {
      DatedNone(Init(rows));
    }
  }

  /** Summing over a table whose dates are distinct sums over the rows of those dates. */
  lemma {:induction false} AggregateSums(t: seq<RfmRow>, rows: seq<Row>)
    requires StrictlyIncreasing(RfmDates(t)) && Aggregates(t, rows)
    ensures SumFrequency(t) == DatedCount(rows, Elems(RfmDates(t)))
    ensures SumMonetary(t) == DatedSum(rows, Elems(RfmDates(t)))
  {
    if t == [] {
      assert Elems(RfmDates(t)) == {};
      DatedNone(rows);
    } else {
      var d := Last(t).date;
      assert RfmDates(Init(t)) == Init(RfmDates(t));
      assert RfmDates(t) == RfmDates(Init(t)) + [d];
      assert Aggregates(Init(t), rows);
      assert Last(t) == t[|t| - 1];
      AggregateSums(Init(t), rows);
      IncreasingLast(RfmDates(t));
      ElemsSnoc(RfmDates(Init(t)), d);
      DatedSplit(rows, Elems(RfmDates(Init(t))), d);
    }
  }

  /** When every row carries a date in `ds`, counting and summing over `ds` covers them all. */
  lemma {:induction false} DatedCovers(rows: seq<Row>, ds: set<Day>)
    requires forall r :: r in rows ==> DatedIn(r, ds)
    ensures DatedCount(rows, ds) == |rows|
    ensures DatedSum(rows, ds) == TotalUsers(rows)
  {
    if rows != [] {
      assert Last(rows) in rows;
      assert forall r :: r in Init(rows) ==> r in rows;
      DatedCovers(Init(rows), ds);
    }
  }

  /**
   * Frequencies add up to the number of input rows and monetary values to
   * their total, when every input row has a date (as after the date filter).
   */
  lemma RfmPreservesCounts(t: seq<RfmRow>, rows: seq<Row>)
    requires IsRfmOf(t, rows)
    requires forall r :: r in rows ==> r.date.Some?
    ensures SumFrequency(t) == |rows|
    ensures SumMonetary(t) == TotalUsers(rows)
  {
    AggregateSums(t, rows);
    DatedCovers(rows, Dates(rows));
  }

  /**
   * Recency is never negative, and is zero exactly for the latest date,
   * which is the last row of the table.
   */
  lemma RfmRecency(t: seq<RfmRow>, rows: seq<Row>)
    requires IsRfmOf(t, rows)
    ensures forall i :: 0 <= i < |t| ==> t[i].recency >= 0
    ensures forall i :: 0 <= i < |t| ==> (t[i].recency == 0 <==> IsLatest(rows, t[i].date))
    ensures forall i :: 0 <= i < |t| ==> (t[i].recency == 0 <==> i == |t| - 1)
  {
    if t != [] {
      LastIsLatest(t, rows);
    }
    forall i | 0 <= i < |t|
      ensures t[i].recency >= 0
      ensures t[i].recency == 0 <==> IsLatest(rows, t[i].date)
      ensures t[i].recency == 0 <==> i == |t| - 1
    {
      RecencyAt(t, rows, i);
    }
  }

  /** One row of the table, given that the last row holds the latest date. */
  lemma RecencyAt(t: seq<RfmRow>, rows: seq<Row>, i: int)
    requires StrictlyIncreasing(RfmDates(t)) && 0 <= i < |t|
    requires IsLatest(rows, Last(t).date) && IsLatest(rows, t[i].date + t[i].recency)
    ensures t[i].recency >= 0
    ensures t[i].recency == 0 <==> IsLatest(rows, t[i].date)
    ensures t[i].recency == 0 <==> i == |t| - 1
  {
    var n := |t| - 1;
    assert Last(t) == t[n];
    LatestUnique(rows, t[i].date + t[i].recency, t[n].date);
    if i < n {
      assert RfmDates(t)[i] < RfmDates(t)[n];
    }
    if IsLatest(rows, t[i].date) {
      LatestUnique(rows, t[i].date, t[n].date);
    }
  }

  lemma LatestUnique(rows: seq<Row>, a: Day, b: Day)
    requires IsLatest(rows, a) && IsLatest(rows, b)
    ensures a == b
  {
  }

  /** The last row of an RFM table carries the latest date of the input. */
  lemma LastIsLatest(t: seq<RfmRow>, rows: seq<Row>)
    requires IsRfmOf(t, rows) && t != []
    ensures IsLatest(rows, Last(t).date)
  {
    var n := |t| - 1;
    var m := t[0].date + t[0].recency;
    assert IsLatest(rows, m);
    assert m in Elems(RfmDates(t));
    var j :| 0 <= j < |t| && RfmDates(t)[j] == m;
    assert RfmDates(t)[n] == t[n].date;
    assert t[n].date in Elems(RfmDates(t));
    assert j == n;
  }

  /** The table is determined by its input: the group-by is deterministic. */
  lemma RfmDeterministic(t1: seq<RfmRow>, t2: seq<RfmRow>, rows: seq<Row>)
    requires IsRfmOf(t1, rows) && IsRfmOf(t2, rows)
    ensures t1 == t2
  {
    IncreasingDeterminedByElems(RfmDates(t1), RfmDates(t2));
    assert |t1| == |RfmDates(t1)| == |RfmDates(t2)| == |t2|;
    forall i | 0 <= i < |t1|
      ensures t1[i] == t2[i]
    {
      assert t1[i].date == RfmDates(t1)[i] == RfmDates(t2)[i] == t2[i].date;
      assert IsLatest(rows, t1[i].date + t1[i].recency) && IsLatest(rows, t2[i].date + t2[i].recency);
    }
  }

  /** The source data holds one record per day: no two dated rows share a date. */
  predicate OneRowPerDay(rows: seq<Row>)
  {
    forall i, j :: 0 <= i < j < |rows| && rows[i].date.Some? ==> rows[i].date != rows[j].date
  }

  lemma {:induction false} DatedAbsent(rows: seq<Row>, d: Day)
    requires forall k :: 0 <= k < |rows| ==> rows[k].date != Some(d)
    ensures DatedCount(rows, {d}) == 0 && DatedSum(rows, {d}) == 0
  {
    if rows != [] {
      assert rows[|rows| - 1] == Last(rows);
      DatedAbsent(Init(rows), d);
    }
  }

  lemma {:induction false} DatedSingle(rows: seq<Row>, k: int, d: Day)
    requires OneRowPerDay(rows)
    requires 0 <= k < |rows| && rows[k].date == Some(d)
    ensures DatedCount(rows, {d}) == 1 && DatedSum(rows, {d}) == rows[k].totalUser
  {
    var n := |rows| - 1;
    assert Last(rows) == rows[n];
    if k == n {
      DatedAbsent(Init(rows), d);
    } else {
      assert rows[n].date != Some(d);
      assert OneRowPerDay(Init(rows));
      DatedSingle(Init(rows), k, d);
    }
  }

  /**
   * Under the one-record-per-day invariant of the data, every frequency is
   * 1 and every monetary value is that day's `total_user`.
   */
  lemma RfmOnePerDay(t: seq<RfmRow>, rows: seq<Row>)
    requires IsRfmOf(t, rows) && OneRowPerDay(rows)
    ensures forall i, k :: 0 <= i < |t| && 0 <= k < |rows| && rows[k].date == Some(t[i].date) ==>
              t[i].frequency == 1 && t[i].monetary == rows[k].totalUser
  {
    forall i, k | 0 <= i < |t| && 0 <= k < |rows| && rows[k].date == Some(t[i].date)
      ensures t[i].frequency == 1 && t[i].monetary == rows[k].totalUser
    {
      DatedSingle(rows, k, t[i].date);
    }
  }
}
