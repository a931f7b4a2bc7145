/**
 Index vectors of a multi-way join and the orders in which a join visits them.

 A vector assigns a row number to every table.  A table order reads a vector as a
 sequence of digits (`View`), and the join visits vectors in the lexicographic order of
 those digits, the first table of the order being the most significant one.
 */
module Vectors {
  import opened Sequences

  /** The first position where two sequences of the same length differ, or their length. */
  function FirstDiff(a: seq<int>, b: seq<int>): (d: nat)
    requires |a| == |b|
    ensures d <= |a|
    ensures forall j :: 0 <= j < d ==> a[j] == b[j]
    ensures d < |a| ==> a[d] != b[d]
  {
    if a == [] || a[0] != b[0] then 0 else 1 + FirstDiff(a[1..], b[1..])
  }

  predicate LexLt(a: seq<int>, b: seq<int>)
    requires |a| == |b|
  {
    var d := FirstDiff(a, b);
    d < |a| && a[d] < b[d]
  }

  predicate LexLe(a: seq<int>, b: seq<int>)
    requires |a| == |b|
  {
    !LexLt(b, a)
  }

  predicate InRange(card: seq<int>, v: seq<int>)
  {
    |v| == |card| && forall t :: 0 <= t < |card| ==> 0 <= v[t] < card[t]
  }

  predicate InBounds(path: seq<nat>, n: nat)
  {
    forall i :: 0 <= i < |path| ==> path[i] < n
  }

  /** A table order is a permutation of the tables 0..n-1. */
  predicate IsOrder(order: seq<nat>, n: nat)
  {
    |order| == n && InBounds(order, n) && Distinct(order) && forall t: nat :: t < n ==> t in order
  }

  /** The digits of `v` along `path`. */
  function View(path: seq<nat>, v: seq<int>): (w: seq<int>)
    requires InBounds(path, |v|)
  {
    seq(|path|, i requires 0 <= i < |path| => v[path[i]])
  }

  // ----- order facts -----

  lemma LexLtAt(a: seq<int>, b: seq<int>, d: nat)
    requires |a| == |b| && d < |a| && a[d] < b[d]
    requires forall j :: 0 <= j < d ==> a[j] == b[j]
    ensures FirstDiff(a, b) == d && LexLt(a, b) && !LexLt(b, a) && FirstDiff(b, a) == d
  {
    assert FirstDiff(a, b) == d;
    assert FirstDiff(b, a) == d;
  }

  lemma LexTotal(a: seq<int>, b: seq<int>)
    requires |a| == |b|
    ensures LexLt(a, b) || a == b || LexLt(b, a)
    ensures LexLt(a, b) ==> !LexLt(b, a)
    ensures !LexLt(a, a)
  {
    var d := FirstDiff(a, b);
    if d < |a| {
      if a[d] < b[d] {
        LexLtAt(a, b, d);
      } else {
        LexLtAt(b, a, d);
      }
    } else {
      assert a == b;
    }
    assert FirstDiff(a, a) == |a|;
  }

  lemma LexTrans(a: seq<int>, b: seq<int>, c: seq<int>)
    requires |a| == |b| == |c|
    requires LexLe(a, b) && LexLe(b, c)
    ensures LexLe(a, c)
    ensures LexLt(a, b) || LexLt(b, c) ==> LexLt(a, c)
  {
    LexTotal(a, b);
    LexTotal(b, c);
    if a != b && b != c {
      var d, e := FirstDiff(a, b), FirstDiff(b, c);
      LexLtAt(a, c, if d < e then d else e);
    }
  }

  lemma LexLeLt(a: seq<int>, b: seq<int>, c: seq<int>)
    requires |a| == |b| == |c| && LexLe(a, b) && LexLt(b, c)
    ensures LexLt(a, c)
  {
    LexTotal(b, c);
    LexTrans(a, b, c);
  }

  /** A strict comparison of prefixes decides the comparison of the whole. */
  lemma LexPrefix(a: seq<int>, b: seq<int>, k: nat)
    requires |a| == |b| && k <= |a|
    ensures LexLt(a[..k], b[..k]) ==> LexLt(a, b)
    ensures LexLt(a, b) ==> LexLt(a[..k], b[..k]) || a[..k] == b[..k]
  {
    var p, q := a[..k], b[..k];
    if LexLt(p, q) {
      var d := FirstDiff(p, q);
      forall j | 0 <= j < d ensures a[j] == b[j] { assert p[j] == q[j]; }
      LexLtAt(a, b, d);
    }
    if LexLt(a, b) {
      var d := FirstDiff(a, b);
      if d < k {
        LexLtAt(p, q, d);
      } else {
        assert p == q;
      }
    }
  }

  lemma ViewPrefix(path: seq<nat>, v: seq<int>, k: nat)
    requires InBounds(path, |v|) && k <= |path|
    ensures InBounds(path[..k], |v|)
    ensures View(path[..k], v) == View(path, v)[..k]
  {
  }

  /** Along a permutation, the digits determine the vector. */
  lemma ViewInjective(order: seq<nat>, u: seq<int>, v: seq<int>)
    requires IsOrder(order, |u|) && |u| == |v|
    requires View(order, u) == View(order, v)
    ensures u == v
  {
    forall t: nat | t < |u| ensures u[t] == v[t] {
      assert t in order;
      var i :| 0 <= i < |order| && order[i] == t;
      assert View(order, u)[i] == View(order, v)[i];
    }
  }

  // ----- predecessor -----

  predicate AllZero(w: seq<int>)
  {
    forall i :: 0 <= i < |w| ==> w[i] == 0
  }

  /** `p` is the mixed-radix predecessor of `w`, the borrow stopping at position `b`. */
  ghost predicate IsPredecessor(c: seq<int>, w: seq<int>, p: seq<int>, b: nat)
  {
    && |c| == |w| == |p| && b < |w|
    && (forall i :: 0 <= i < b ==> p[i] == w[i])
    && 0 < w[b] && p[b] == w[b] - 1
    && (forall i :: b < i < |w| ==> w[i] == 0 && p[i] == c[i] - 1)
  }

  /** Being at or before the predecessor is being strictly before the vector. */
  lemma PredecessorIsBefore(c: seq<int>, w: seq<int>, p: seq<int>, b: nat, u: seq<int>)
    requires IsPredecessor(c, w, p, b) && InRange(c, u)
    ensures LexLe(u, p) <==> LexLt(u, w)
  {
    if LexLt(u, w) {
      var d := FirstDiff(u, w);
      assert d <= b;
      LexTotal(u, p);
      if d < b {
        LexLtAt(u, p, d);
      } else if u[b] < p[b] {
        LexLtAt(u, p, b);
      }
    } else {
      LexTotal(u, w);
      LexLtAt(p, w, b);
      if u != w {
        LexTrans(p, w, u);
      }
    }
  }

  /** Nothing in range lies before the zero vector. */
  lemma NothingBeforeZero(w: seq<int>, c: seq<int>, u: seq<int>)
    requires AllZero(w) && InRange(c, u) && |w| == |c|
    ensures !LexLt(u, w)
  {
  }

  /** Every vector in range lies at or before the one with all digits maximal. */
  lemma MaximalIsLast(c: seq<int>, p: seq<int>, u: seq<int>)
    requires InRange(c, u) && |p| == |c|
    requires forall i :: 0 <= i < |c| ==> p[i] == c[i] - 1
    ensures LexLe(u, p)
  {
  }

  // ----- the finite universe of vectors -----

  function AllVectors(card: seq<int>): (s: set<seq<int>>)
  {
    if card == [] then {[]}
    else
      var rest := AllVectors(card[..|card| - 1]);
      set v, x | v in rest && 0 <= x < card[|card| - 1] :: v + [x]
  }

  lemma {:induction false} AllVectorsInRange(card: seq<int>, v: seq<int>)
    requires v in AllVectors(card)
    ensures InRange(card, v)
  {
    if card != [] {
      var c := card[..|card| - 1];
      var u, x :| u in AllVectors(c) && 0 <= x < card[|card| - 1] && v == u + [x];
      AllVectorsInRange(c, u);
      forall t | 0 <= t < |card| ensures 0 <= v[t] < card[t] {
        if t < |c| { assert v[t] == u[t] && card[t] == c[t]; }
      }
    }
  }

  lemma {:induction false} InRangeAllVectors(card: seq<int>, v: seq<int>)
    requires InRange(card, v)
    ensures v in AllVectors(card)
  {
    if card != [] {
      var c, u, x := card[..|card| - 1], v[..|v| - 1], v[|v| - 1];
      forall t | 0 <= t < |c| ensures 0 <= u[t] < c[t] {
        assert 0 <= v[t] < card[t];
      }
      InRangeAllVectors(c, u);
      assert v == u + [x];
    }
  }

  lemma AllVectorsComplete(card: seq<int>, v: seq<int>)
    ensures v in AllVectors(card) <==> InRange(card, v)
  {
    if v in AllVectors(card) { AllVectorsInRange(card, v); }
    if InRange(card, v) { InRangeAllVectors(card, v); }
  }
}
