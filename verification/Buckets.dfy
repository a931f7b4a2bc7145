/**
 Sorted buckets of row numbers and what a position in each of them leaves to be read.
 */
module Buckets {

  const Max32: int := 0x7fff_ffff

  predicate Strict(b: seq<int>)
  {
    forall i, j :: 0 <= i < j < |b| ==> b[i] < b[j]
  }

  predicate BucketsOk(bs: seq<seq<int>>)
  {
    forall i :: 0 <= i < |bs| ==> Strict(bs[i]) && |bs[i]| < Max32
  }

  /** `k` is the first position with a value of at least `t`, or the length. */
  predicate IsLower(b: seq<int>, t: int, k: int)
  {
    0 <= k <= |b| && (forall j :: 0 <= j < k ==> b[j] < t) && (forall j :: k <= j < |b| ==> t <= b[j])
  }

  /** What is left of a bucket from a position on; positions beyond the end leave nothing. */
  function Rest(b: seq<int>, s: int): (r: seq<int>)
    requires 0 <= s
  {
    if s < |b| then b[s..] else []
  }

  predicate Common(bs: seq<seq<int>>, v: int)
  {
    forall i :: 0 <= i < |bs| ==> v in bs[i]
  }

  predicate StateOk(bs: seq<seq<int>>, st: seq<int>)
  {
    |st| == |bs| && forall i :: 0 <= i < |st| ==> 0 <= st[i]
  }

  /** The value is still ahead of every position. */
  predicate Ahead(bs: seq<seq<int>>, st: seq<int>, v: int)
    requires StateOk(bs, st)
  {
    forall i :: 0 <= i < |bs| ==> v in Rest(bs[i], st[i])
  }

  /** Everything left is at least `t`. */
  predicate AtLeast(bs: seq<seq<int>>, st: seq<int>, t: int)
    requires StateOk(bs, st)
  {
    forall i :: 0 <= i < |bs| ==> LeftAtLeast(bs[i], st[i], t)
  }

  predicate LeftAtLeast(b: seq<int>, s: int, t: int)
  {
    0 <= s && (s < |b| ==> b[s] >= t)
  }

  // ----- positions -----

  lemma InRest(b: seq<int>, s: int, v: int)
    requires Strict(b) && 0 <= s
    ensures v in Rest(b, s) <==> v in b && s < |b| && v >= b[s]
  {
    if s < |b| {
      if v in b && v >= b[s] {
        var i :| 0 <= i < |b| && b[i] == v;
        assert i >= s;
        assert b[s..][i - s] == v;
      }
      if v in b[s..] {
        var i :| 0 <= i < |b[s..]| && b[s..][i] == v;
        assert b[s + i] == v;
      }
    }
  }

  lemma LowerRest(b: seq<int>, t: int, k: int, v: int)
    requires Strict(b) && IsLower(b, t, k)
    ensures v in Rest(b, k) <==> v in b && v >= t
  {
    InRest(b, k, v);
    if v in b && v >= t {
      var i :| 0 <= i < |b| && b[i] == v;
    }
  }

  lemma AheadIsCommon(bs: seq<seq<int>>, st: seq<int>, v: int)
    requires BucketsOk(bs) && StateOk(bs, st) && Ahead(bs, st, v)
    ensures Common(bs, v)
  {
    forall i | 0 <= i < |bs| ensures v in bs[i] {
      InRest(bs[i], st[i], v);
    }
  }

  // ----- two buckets -----

  /** The values of one list that are in the other. */
  function Meet(a: seq<int>, b: seq<int>): (r: seq<int>)
  {
    if a == [] then [] else (if a[0] in b then [a[0]] else []) + Meet(a[1..], b)
  }

  lemma {:induction false} MeetElements(a: seq<int>, b: seq<int>, v: int)
    ensures v in Meet(a, b) <==> v in a && v in b
  {
    if a != [] {
      MeetElements(a[1..], b, v);
      assert a == [a[0]] + a[1..];
    }
  }

  lemma {:induction false} MeetStrict(a: seq<int>, b: seq<int>)
    requires Strict(a)
    ensures Strict(Meet(a, b))
  {
    if a != [] {
      MeetStrict(a[1..], b);
      forall i | 0 <= i < |Meet(a[1..], b)| ensures a[0] < Meet(a[1..], b)[i] {
        MeetElements(a[1..], b, Meet(a[1..], b)[i]);
        var k :| 0 <= k < |a[1..]| && a[1..][k] == Meet(a[1..], b)[i];
        assert a[k + 1] > a[0];
      }
    }
  }

  /** Values of the first list that the second one lacks can be skipped. */
  lemma {:induction false} SkipFirst(a: seq<int>, b: seq<int>, k: nat)
    requires k <= |a| && forall i :: 0 <= i < k ==> a[i] !in b
    ensures Meet(a, b) == Meet(a[k..], b)
    decreases k
  {
    if k > 0 {
      SkipFirst(a[1..], b, k - 1);
      assert a[1..][k - 1..] == a[k..];
    } else {
      assert a[0..] == a;
    }
  }

  /** Values of the second list that the first one lacks can be skipped. */
  lemma {:induction false} SkipSecond(a: seq<int>, b: seq<int>, k: nat)
    requires k <= |b| && forall i, j :: 0 <= i < |a| && 0 <= j < k ==> a[i] != b[j]
    ensures Meet(a, b) == Meet(a, b[k..])
  {
    if a != [] {
      SkipSecond(a[1..], b, k);
      assert b == b[..k] + b[k..];
      assert a[0] !in b[..k];
    }
  }

  lemma MeetEmpty(a: seq<int>, b: seq<int>)
    requires a == [] || b == []
    ensures Meet(a, b) == []
  {
    if b == [] { NothingMet(a); }
  }

  lemma {:induction false} NothingMet(a: seq<int>)
    ensures Meet(a, []) == []
  {
    if a != [] { NothingMet(a[1..]); }
  }

  lemma RestAt(b: seq<int>, s: int)
    requires 0 <= s < |b| && Strict(b)
    ensures Rest(b, s) == [b[s]] + Rest(b, s + 1) && Strict(Rest(b, s))
    ensures forall i :: 0 <= i < |Rest(b, s)| ==> Rest(b, s)[i] == b[s + i] >= b[s]
  {
    var r := Rest(b, s);
    assert r[1..] == Rest(b, s + 1);
    forall i | 0 <= i < |r| ensures r[i] == b[s + i] >= b[s] {
    }
  }

  /** Both lists start with the same value. */
  lemma MeetSame(a: seq<int>, b: seq<int>)
    requires a != [] && b != [] && a[0] == b[0] && Strict(a) && Strict(b)
    ensures Meet(a, b) == [a[0]] + Meet(a[1..], b[1..])
  {
    assert b == [b[0]] + b[1..];
    SkipSecond(a[1..], b, 1);
  }

  /** Advancing the first position to the value at the second one. */
  lemma AdvanceFirst(b0: seq<int>, b1: seq<int>, s0: int, s1: int, k: int)
    requires Strict(b0) && Strict(b1) && 0 <= s0 < |b0| && 0 <= s1 < |b1| && b0[s0] < b1[s1] && IsLower(b0, b1[s1], k)
    ensures s0 < k && Meet(Rest(b0, s0), Rest(b1, s1)) == Meet(Rest(b0, k), Rest(b1, s1))
  {
    var a, b := Rest(b0, s0), Rest(b1, s1);
    RestAt(b0, s0);
    RestAt(b1, s1);
    assert b0[s0] < b1[s1] && s0 < k;
    forall i | 0 <= i < k - s0 ensures a[i] !in b {
      assert a[i] == b0[s0 + i] < b1[s1];
    }
    SkipFirst(a, b, k - s0);
    assert a[k - s0..] == Rest(b0, k);
  }

  lemma AdvanceSecond(b0: seq<int>, b1: seq<int>, s0: int, s1: int, k: int)
    requires Strict(b0) && Strict(b1) && 0 <= s0 < |b0| && 0 <= s1 < |b1| && b1[s1] < b0[s0] && IsLower(b1, b0[s0], k)
    ensures s1 < k && Meet(Rest(b0, s0), Rest(b1, s1)) == Meet(Rest(b0, s0), Rest(b1, k))
  {
    var a, b := Rest(b0, s0), Rest(b1, s1);
    RestAt(b0, s0);
    RestAt(b1, s1);
    assert b1[s1] < b0[s0] && s1 < k;
    forall i, j | 0 <= i < |a| && 0 <= j < k - s1 ensures a[i] != b[j] {
      assert b[j] == b1[s1 + j] < b0[s0] <= a[i];
    }
    SkipSecond(a, b, k - s1);
    assert b[k - s1..] == Rest(b1, k);
  }

  // ----- the list that is scanned -----

  /** The common values of one bucket's rest. */
  function CommonOf(bs: seq<seq<int>>, a: seq<int>): (r: seq<int>)
  {
    if a == [] then [] else (if Common(bs, a[0]) then [a[0]] else []) + CommonOf(bs, a[1..])
  }

  lemma {:induction false} CommonElements(bs: seq<seq<int>>, a: seq<int>, v: int)
    ensures v in CommonOf(bs, a) <==> v in a && Common(bs, v)
  {
    if a != [] {
      CommonElements(bs, a[1..], v);
      assert a == [a[0]] + a[1..];
    }
  }

  lemma {:induction false} CommonStrict(bs: seq<seq<int>>, a: seq<int>)
    requires Strict(a)
    ensures Strict(CommonOf(bs, a))
  {
    if a != [] {
      CommonStrict(bs, a[1..]);
      forall i | 0 <= i < |CommonOf(bs, a[1..])| ensures a[0] < CommonOf(bs, a[1..])[i] {
        CommonElements(bs, a[1..], CommonOf(bs, a[1..])[i]);
        var k :| 0 <= k < |a[1..]| && a[1..][k] == CommonOf(bs, a[1..])[i];
        assert a[k + 1] > a[0];
      }
    }
  }

  lemma {:induction false} SkipUncommon(bs: seq<seq<int>>, a: seq<int>, k: nat)
    requires k <= |a| && forall i :: 0 <= i < k ==> !Common(bs, a[i])
    ensures CommonOf(bs, a) == CommonOf(bs, a[k..])
    decreases k
  {
    if k > 0 {
      SkipUncommon(bs, a[1..], k - 1);
      assert a[1..][k - 1..] == a[k..];
    } else {
      assert a[0..] == a;
    }
  }

  lemma {:induction false} NoneCommon(bs: seq<seq<int>>, a: seq<int>)
    requires forall i :: 0 <= i < |a| ==> !Common(bs, a[i])
    ensures CommonOf(bs, a) == []
  {
    SkipUncommon(bs, a, |a|);
  }

  /** When bucket `i` has nothing from `c` up to `t`, neither has the intersection. */
  lemma GapIsUncommon(bs: seq<seq<int>>, i: nat, c: int, k: int, v: int)
    requires BucketsOk(bs) && i < |bs| && IsLower(bs[i], c, k) && c <= v && (k < |bs[i]| ==> v < bs[i][k])
    ensures !Common(bs, v)
  {
    assert v !in bs[i];
  }
}
