/** Ordering of intervals by start time: the stable sort by ascending
    start used by the scheduler
    (src/reflow/globalSchedule.ts:63) and by the overlap check
    (src/reflow/validator.ts:54). */
module Intervals {
  import opened Types

  predicate SortedByStart(s: seq<Interval>) {
    forall i, j :: 0 <= i < j < |s| ==> s[i].start <= s[j].start
  }

  /** Inserts `x` after every element whose start is not later than its own,
      which keeps the insertion sort below stable. */
  function Insert(x: Interval, s: seq<Interval>): (r: seq<Interval>)
    ensures |r| == |s| + 1
    ensures multiset(r) == multiset(s) + multiset{x}
  {
    if |s| == 0 then [x]
    else if x.start < s[0].start then [x] + s
    else
      assert s == [s[0]] + s[1..];
      [s[0]] + Insert(x, s[1..])
  }

  /** A lower bound on the starts of `s` and of `x` bounds the insertion too. */
  lemma {:induction false} InsertLowerBound(x: Interval, s: seq<Interval>, lo: int)
    requires lo <= x.start
    requires forall k :: 0 <= k < |s| ==> lo <= s[k].start
    ensures forall k :: 0 <= k < |Insert(x, s)| ==> lo <= Insert(x, s)[k].start
  {
    if |s| > 0 && x.start >= s[0].start {
      InsertLowerBound(x, s[1..], lo);
    }
  }

  lemma {:induction false} InsertSorted(x: Interval, s: seq<Interval>)
    requires SortedByStart(s)
    ensures SortedByStart(Insert(x, s))
  {
    if |s| > 0 && x.start >= s[0].start {
      InsertSorted(x, s[1..]);
      InsertLowerBound(x, s[1..], s[0].start);
    }
  }

  /** Insertion sort by start time. */
  function SortByStart(s: seq<Interval>): (r: seq<Interval>)
    ensures |r| == |s|
    ensures multiset(r) == multiset(s)
    ensures SortedByStart(r)
  {
    if |s| == 0 then []
    else
      assert s == s[..|s| - 1] + [s[|s| - 1]];
      var sorted := SortByStart(s[..|s| - 1]);
      InsertSorted(s[|s| - 1], sorted);
      Insert(s[|s| - 1], sorted)
  }

  /** An element that starts no earlier than every other goes last. */
  lemma {:induction false} InsertAfterAll(x: Interval, s: seq<Interval>)
    requires forall k :: 0 <= k < |s| ==> s[k].start <= x.start
    ensures Insert(x, s) == s + [x]
  {
    if |s| > 0 {
      InsertAfterAll(x, s[1..]);
      assert s == [s[0]] + s[1..];
    }
  }

  /** Sorting a list that is already in start order leaves it as it is,
      so the sort never reorders elements it need not reorder. */
  lemma {:induction false} SortByStartOfSorted(s: seq<Interval>)
    requires SortedByStart(s)
    ensures SortByStart(s) == s
  {
    if |s| > 0 {
      var init := s[..|s| - 1];
      assert SortedByStart(init);
      SortByStartOfSorted(init);
      InsertAfterAll(s[|s| - 1], init);
      assert init + [s[|s| - 1]] == s;
    }
  }
}
