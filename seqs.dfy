/** Small facts about sequences shared by the dashboard model. */
module Seqs {

  function Min(a: int, b: int): int
  {
    if a <= b then a else b
  }

  function Last<T>(s: seq<T>): T
    requires s != []
  {
    s[|s| - 1]
  }

  function Init<T>(s: seq<T>): seq<T>
    requires s != []
  {
    s[..|s| - 1]
  }

  function Elems<T>(s: seq<T>): set<T>
  {
    set x | x in s
  }

  predicate Distinct<T(==)>(s: seq<T>)
  {
    forall i, j :: 0 <= i < j < |s| ==> s[i] != s[j]
  }

  predicate StrictlyIncreasing(s: seq<int>)
  {
    forall i, j :: 0 <= i < j < |s| ==> s[i] < s[j]
  }

  /** `idx` lists, in increasing order, positions of `b` that spell out `a`. */
  ghost predicate SubsequenceVia<T>(a: seq<T>, b: seq<T>, idx: seq<nat>)
  {
    && |idx| == |a|
    && (forall j :: 0 <= j < |idx| ==> idx[j] < |b| && a[j] == b[idx[j]])
    && (forall j, k :: 0 <= j < k < |idx| ==> idx[j] < idx[k])
  }

  /** `a` is `b` with some elements removed and the rest in their original order. */
  ghost predicate IsSubsequence<T>(a: seq<T>, b: seq<T>)
  {
    exists idx :: SubsequenceVia(a, b, idx)
  }

  lemma SubsequenceOfEmpty<T>(b: seq<T>)
    ensures IsSubsequence([], b)
  {
    assert SubsequenceVia([], b, []);
  }

  lemma SubsequenceRefl<T>(b: seq<T>)
    ensures IsSubsequence(b, b)
  {
    var idx := seq(|b|, i requires 0 <= i < |b| => i as nat);
    assert SubsequenceVia(b, b, idx);
  }

  /** Appending an element to the longer sequence only. */
  lemma SubsequenceSkip<T>(a: seq<T>, b: seq<T>, x: T)
    requires IsSubsequence(a, b)
    ensures IsSubsequence(a, b + [x])
  {
    var idx: seq<nat> :| SubsequenceVia(a, b, idx);
    assert SubsequenceVia(a, b + [x], idx);
  }

  /** Appending the same element to both sequences. */
  lemma SubsequenceKeep<T>(a: seq<T>, b: seq<T>, x: T)
    requires IsSubsequence(a, b)
    ensures IsSubsequence(a + [x], b + [x])
  {
    var idx: seq<nat> :| SubsequenceVia(a, b, idx);
    var idx': seq<nat> := idx + [|b|];
    assert SubsequenceVia(a + [x], b + [x], idx');
  }

  lemma SubsequenceTrans<T>(a: seq<T>, b: seq<T>, c: seq<T>)
    requires IsSubsequence(a, b) && IsSubsequence(b, c)
    ensures IsSubsequence(a, c)
  {
    var ia: seq<nat> :| SubsequenceVia(a, b, ia);
    var ib: seq<nat> :| SubsequenceVia(b, c, ib);
    var ic := seq(|ia|, j requires 0 <= j < |ia| => ib[ia[j]]);
    assert SubsequenceVia(a, c, ic);
  }

  lemma ElemsEmpty<T>(s: seq<T>)
    ensures Elems(s) == {} <==> s == []
  {
    if s != [] {
      assert s[0] in Elems(s);
    }
  }

  lemma ElemsSnoc<T>(s: seq<T>, x: T)
    ensures Elems(s + [x]) == Elems(s) + {x}
  {
  }

  lemma ElemsCons<T>(h: T, s: seq<T>)
    ensures Elems([h] + s) == {h} + Elems(s)
  {
  }

  lemma IncreasingLast(s: seq<int>)
    requires s != [] && StrictlyIncreasing(s)
    ensures forall x :: x in s ==> x <= Last(s)
    ensures Elems(Init(s)) == Elems(s) - {Last(s)}
  {
    assert s == Init(s) + [Last(s)];
  }

  /** A strictly increasing sequence is determined by its elements. */
  lemma {:induction false} IncreasingDeterminedByElems(a: seq<int>, b: seq<int>)
    requires StrictlyIncreasing(a) && StrictlyIncreasing(b)
    requires Elems(a) == Elems(b)
    ensures a == b
    decreases |a|
  {
    ElemsEmpty(a);
    ElemsEmpty(b);
    if a != [] && b != [] {
      IncreasingLast(a);
      IncreasingLast(b);
      assert Last(a) in Elems(b) && Last(b) in Elems(a);
      IncreasingDeterminedByElems(Init(a), Init(b));
      assert a == Init(a) + [Last(a)];
      assert b == Init(b) + [Last(b)];
    }
  }
}
