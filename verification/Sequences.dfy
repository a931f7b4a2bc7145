/**
 Facts about sequences that several parts of the project share.
 */
module Sequences {

  predicate Distinct<T(==)>(s: seq<T>)
  {
    forall i, j :: 0 <= i < j < |s| ==> s[i] != s[j]
  }

  lemma CountAppend<T>(s: seq<T>, t: seq<T>, x: T)
    ensures multiset(s + t)[x] == multiset(s)[x] + multiset(t)[x]
  {
  }

  /** The numbers below `n`. */
  function UpTo(n: nat): (s: set<nat>)
    ensures |s| == n && forall a: nat :: a in s <==> a < n
  {
    if n == 0 then {} else UpTo(n - 1) + {n - 1}
  }

  /** The numbers from `lo` to `hi`. */
  function Range(lo: int, hi: int): (s: seq<int>)
    decreases hi - lo + 1
  {
    if lo > hi then [] else [lo] + Range(lo + 1, hi)
  }

  lemma {:induction false} RangeElements(lo: int, hi: int)
    ensures |Range(lo, hi)| == if lo > hi then 0 else hi - lo + 1
    ensures forall k :: 0 <= k < |Range(lo, hi)| ==> Range(lo, hi)[k] == lo + k
    decreases hi - lo + 1
  {
    if lo <= hi {
      RangeElements(lo + 1, hi);
    }
  }

  lemma RangeSplit(lo: int, mid: int, hi: int)
    requires lo <= mid <= hi + 1
    ensures Range(lo, hi) == Range(lo, mid - 1) + Range(mid, hi)
  {
    hide Range;
    RangeElements(lo, hi);
    RangeElements(lo, mid - 1);
    RangeElements(mid, hi);
  }
}
