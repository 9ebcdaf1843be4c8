/**
 * The three top-5 selections of the RFM table (Dashboard/dashboard.py:98,
 * 105, 112): the table sorted by one column with `sort_values`, then its
 * first five rows taken with `head`.
 * The order among rows with equal keys is not specified.
 */
module TopFive {
  import opened Seqs
  import opened Rfm

  datatype Column = Recency | Frequency | Monetary

  function Key(r: RfmRow, c: Column): int
  {
    match c
    case Recency => r.recency
    case Frequency => r.frequency
    case Monetary => r.monetary
  }

  /** Position in the sort order: ascending by the key, or descending (ascending by its negation). */
  function Rank(r: RfmRow, c: Column, ascending: bool): int
  {
    if ascending then Key(r, c) else -Key(r, c)
  }

  predicate SortedBy(t: seq<RfmRow>, c: Column, ascending: bool)
  {
    forall i, j :: 0 <= i < j < |t| ==> Rank(t[i], c, ascending) <= Rank(t[j], c, ascending)
  }

  function InsertBy(x: RfmRow, t: seq<RfmRow>, c: Column, ascending: bool): (r: seq<RfmRow>)
    requires SortedBy(t, c, ascending)
    ensures SortedBy(r, c, ascending)
    ensures multiset(r) == multiset(t) + multiset{x}
  {
    if t == [] then [x]
    else
      assert t == [t[0]] + t[1..];
      if Rank(x, c, ascending) <= Rank(t[0], c, ascending) then
        [x] + t
      else
        var rest := InsertBy(x, t[1..], c, ascending);
        ConsSorted(t[0], rest, c, ascending);
        [t[0]] + rest
  }

  lemma ConsSorted(h: RfmRow, t: seq<RfmRow>, c: Column, ascending: bool)
    requires SortedBy(t, c, ascending)
    requires forall y :: y in multiset(t) ==> Rank(h, c, ascending) <= Rank(y, c, ascending)
    ensures SortedBy([h] + t, c, ascending)
  {
    forall i, j | 0 <= i < j < |[h] + t|
      ensures Rank(([h] + t)[i], c, ascending) <= Rank(([h] + t)[j], c, ascending)
    {
      assert ([h] + t)[j] == t[j - 1];
      assert t[j - 1] in multiset(t);
      if i > 0 {
        assert ([h] + t)[i] == t[i - 1];
      }
    }
  }

  /** `sort_values` on column `c`: a permutation of the table ordered by the key. */
  function SortValues(t: seq<RfmRow>, c: Column, ascending: bool): (r: seq<RfmRow>)
    ensures SortedBy(r, c, ascending)
    ensures multiset(r) == multiset(t)
  {
    if t == [] then []
    else
      assert t == [t[0]] + t[1..];
      InsertBy(t[0], SortValues(t[1..], c, ascending), c, ascending)
  }

  /** `head`: the first `n` rows, or all of them when there are fewer. */
  function Head(t: seq<RfmRow>, n: nat): seq<RfmRow>
  {
    t[..Min(n, |t|)]
  }

  /**
   * The first `n` rows in key order: `min(n, |t|)` rows of the table, in
   * key order, and no row left out ranks before a selected one.
   */
  function TopBy(t: seq<RfmRow>, c: Column, ascending: bool, n: nat): (top: seq<RfmRow>)
    ensures |top| == Min(n, |t|)
    ensures multiset(top) <= multiset(t)
    ensures SortedBy(top, c, ascending)
    ensures forall x, j :: multiset(top)[x] < multiset(t)[x] && 0 <= j < |top| ==>
              Rank(top[j], c, ascending) <= Rank(x, c, ascending)
  {
    HeadDominates(SortValues(t, c, ascending), t, c, ascending, n);
    Head(SortValues(t, c, ascending), n)
  }

  /** The head of a sorted permutation of `t` ranks no later than anything left behind. */
  lemma HeadDominates(sorted: seq<RfmRow>, t: seq<RfmRow>, c: Column, ascending: bool, n: nat)
    requires SortedBy(sorted, c, ascending) && multiset(sorted) == multiset(t)
    ensures multiset(Head(sorted, n)) <= multiset(t)
    ensures forall x, j :: multiset(Head(sorted, n))[x] < multiset(t)[x] && 0 <= j < |Head(sorted, n)| ==>
              Rank(Head(sorted, n)[j], c, ascending) <= Rank(x, c, ascending)
  {
    var top := Head(sorted, n);
    var rest := sorted[|top|..];
    assert sorted == top + rest;
    assert multiset(t) == multiset(top) + multiset(rest);
    forall x, j | multiset(top)[x] < multiset(t)[x] && 0 <= j < |top|
      ensures Rank(top[j], c, ascending) <= Rank(x, c, ascending)
    {
      assert x in multiset(rest);
      var p :| 0 <= p < |rest| && rest[p] == x;
      assert sorted[j] == top[j] && sorted[|top| + p] == rest[p];
    }
  }

  /** Line 98: the five most recent days, recency non-decreasing. */
  function TopRecency(t: seq<RfmRow>): (top: seq<RfmRow>)
    ensures |top| == Min(5, |t|)
    ensures multiset(top) <= multiset(t)
    ensures forall i, j :: 0 <= i < j < |top| ==> top[i].recency <= top[j].recency
    ensures forall x, j :: multiset(top)[x] < multiset(t)[x] && 0 <= j < |top| ==> top[j].recency <= x.recency
  {
    TopBy(t, Recency, true, 5)
  }

  /** Line 105: the five days with the most records, frequency non-increasing. */
  function TopFrequency(t: seq<RfmRow>): (top: seq<RfmRow>)
    ensures |top| == Min(5, |t|)
    ensures multiset(top) <= multiset(t)
    ensures forall i, j :: 0 <= i < j < |top| ==> top[i].frequency >= top[j].frequency
    ensures forall x, j :: multiset(top)[x] < multiset(t)[x] && 0 <= j < |top| ==> top[j].frequency >= x.frequency
  {
    TopBy(t, Frequency, false, 5)
  }

  /** Line 112: the five days with the most users, monetary non-increasing. */
  function TopMonetary(t: seq<RfmRow>): (top: seq<RfmRow>)
    ensures |top| == Min(5, |t|)
    ensures multiset(top) <= multiset(t)
    ensures forall i, j :: 0 <= i < j < |top| ==> top[i].monetary >= top[j].monetary
    ensures forall x, j :: multiset(top)[x] < multiset(t)[x] && 0 <= j < |top| ==> top[j].monetary >= x.monetary
  {
    TopBy(t, Monetary, false, 5)
  }
}
