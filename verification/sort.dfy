/** Ordering of payment logs by their `updatedAt` timestamp. */
module FeeSort {
  import opened FeeStore

  predicate SortedByTime(s: seq<Log>) {
    forall i, j :: 0 <= i < j < |s| ==> s[i].updatedAt <= s[j].updatedAt
  }

  /** Places `x` before the first element that is not earlier than it. */
  function InsertByTime(x: Log, s: seq<Log>): (r: seq<Log>)
    requires SortedByTime(s)
    ensures SortedByTime(r)
    ensures multiset(r) == multiset(s) + multiset{x}
    decreases |s|
  {
    if s == [] then [x]
    else if x.updatedAt <= s[0].updatedAt then [x] + s
    else
      var rest := InsertByTime(x, s[1..]);
      assert s == [s[0]] + s[1..];
      LeastFirst(s[0], rest);
      [s[0]] + rest
  }

  /** Prepending an element no later than any element of a sorted sequence keeps it sorted. */
  lemma LeastFirst(y: Log, s: seq<Log>)
    requires SortedByTime(s)
    requires forall e :: e in multiset(s) ==> y.updatedAt <= e.updatedAt
    ensures SortedByTime([y] + s)
  {
  }

  /** A sorted permutation of `s`. Equal timestamps may come in any order, as with Go's
      unstable `sort.Slice`; this definition fixes one of the admissible orders. */
  function SortByTime(s: seq<Log>): (r: seq<Log>)
    ensures SortedByTime(r)
    ensures multiset(r) == multiset(s)
    decreases |s|
  {
    if s == [] then []
    else
      assert s == [s[0]] + s[1..];
      InsertByTime(s[0], SortByTime(s[1..]))
  }
}
