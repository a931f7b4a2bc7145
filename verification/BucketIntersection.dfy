/**
 Intersecting sorted index buckets, in batches that can be resumed.
 */
module BucketIntersection {
  import opened Buckets

  /** The position a search returns: the first value of at least `t`, or the largest number. */
  predicate Found(b: seq<int>, t: int, k: int)
  {
    if k == Max32 then IsLower(b, t, |b|) else k < |b| && IsLower(b, t, k)
  }

  method FastForwardBucket(b: seq<int>, t: int) returns (k: int)
    requires Strict(b) && |b| < Max32
    ensures Found(b, t, k) && 0 <= k
  {
    if |b| == 0 {
      return Max32;
    }
    var start, end := 0, |b| - 1;
    k := Max32;
    while start <= end
      invariant 0 <= start <= end + 1 <= |b| && k == (if end + 1 < |b| then end + 1 else Max32)
      invariant forall j :: 0 <= j < start ==> b[j] < t
      invariant forall j :: end < j < |b| ==> t <= b[j]
    {
      var mid := (start + end) / 2;
      if b[mid] < t {
        start := mid + 1;
      } else {
        k := mid;
        end := mid - 1;
      }
    }
  }

  /** Positions every bucket at its first value of at least `next`. */
  method Init(bs: seq<seq<int>>, state: array<int>, next: int)
    requires BucketsOk(bs) && state.Length == |bs|
    modifies state
    ensures StateOk(bs, state[..]) && AtLeast(bs, state[..], next)
    ensures forall i :: 0 <= i < |bs| ==> Found(bs[i], next, state[i])
    ensures forall v :: Ahead(bs, state[..], v) <==> Common(bs, v) && (|bs| > 0 ==> v >= next)
  {
    for i := 0 to |bs|
      invariant forall k :: 0 <= k < i ==> 0 <= state[k] && Found(bs[k], next, state[k])
    {
      var k := FastForwardBucket(bs[i], next);
      state[i] := k;
    }
    forall v ensures Ahead(bs, state[..], v) <==> Common(bs, v) && (|bs| > 0 ==> v >= next) {
      InitAhead(bs, state[..], next, v);
    }
  }

  lemma FoundRest(b: seq<int>, t: int, k: int, v: int)
    requires Strict(b) && |b| < Max32 && Found(b, t, k) && 0 <= k
    ensures v in Rest(b, k) <==> v in b && v >= t
  {
    LowerRest(b, t, if k == Max32 then |b| else k, v);
  }

  lemma InitAhead(bs: seq<seq<int>>, st: seq<int>, next: int, v: int)
    requires BucketsOk(bs) && StateOk(bs, st) && forall i :: 0 <= i < |bs| ==> Found(bs[i], next, st[i])
    ensures Ahead(bs, st, v) <==> Common(bs, v) && (|bs| > 0 ==> v >= next)
  {
    forall i | 0 <= i < |bs| ensures v in Rest(bs[i], st[i]) <==> v in bs[i] && v >= next {
      FoundRest(bs[i], next, st[i], v);
    }
    if |bs| > 0 && Ahead(bs, st, v) { assert v in Rest(bs[0], st[0]); }
  }

  // ----- one bucket and two buckets -----

  /** What one or two buckets have left, in order. */
  function Left(bs: seq<seq<int>>, st: seq<int>): (r: seq<int>)
    requires StateOk(bs, st) && 1 <= |bs| <= 2
  {
    if |bs| == 1 then Rest(bs[0], st[0]) else Meet(Rest(bs[0], st[0]), Rest(bs[1], st[1]))
  }

  lemma LeftIsAhead(bs: seq<seq<int>>, st: seq<int>, v: int)
    requires StateOk(bs, st) && 1 <= |bs| <= 2
    ensures v in Left(bs, st) <==> Ahead(bs, st, v)
  {
    hide Rest, Meet;
    if |bs| == 2 {
      MeetElements(Rest(bs[0], st[0]), Rest(bs[1], st[1]), v);
      assert Ahead(bs, st, v) ==> v in Rest(bs[0], st[0]) && v in Rest(bs[1], st[1]);
    } else {
      assert Ahead(bs, st, v) ==> v in Rest(bs[0], st[0]);
    }
  }

  lemma LeftStrict(bs: seq<seq<int>>, st: seq<int>)
    requires BucketsOk(bs) && StateOk(bs, st) && 1 <= |bs| <= 2
    ensures Strict(Left(bs, st))
  {
    if |bs| == 2 { MeetStrict(Rest(bs[0], st[0]), Rest(bs[1], st[1])); }
  }

  lemma Shift<T>(out: seq<T>, x: T, rest: seq<T>)
    ensures out + ([x] + rest) == (out + [x]) + rest
  {
  }

  method PopulateOne(bs: seq<seq<int>>, state: array<int>, result: array<int>, max: nat, ghost t: int) returns (n: nat)
    requires BucketsOk(bs) && |bs| == 1 && StateOk(bs, state[..]) && AtLeast(bs, state[..], t) &&
             max <= result.Length && state != result
    modifies state, result
    ensures n <= max && StateOk(bs, state[..]) && AtLeast(bs, state[..], t)
    ensures result[..n] + Left(bs, state[..]) == old(Left(bs, state[..]))
    ensures n < max ==> Left(bs, state[..]) == []
  {
    hide Rest, Strict, LeftAtLeast;
    var b := bs[0];
    ghost var all, out := Rest(b, state[0]), [];
    n := 0;
    while state[0] < |b| && n < max
      invariant n <= max && 0 <= state[0] && LeftAtLeast(b, state[0], t)
      invariant result[..n] == out && out + Rest(b, state[0]) == all
      decreases |b| - state[0]
    {
      RestAt(b, state[0]);
      NextAtLeast(b, state[0], t);
      Shift(out, b[state[0]], Rest(b, state[0] + 1));
      result[n] := b[state[0]];
      out := out + [result[n]];
      n := n + 1;
      state[0] := state[0] + 1;
    }
    if n < max { RestEnds(b, state[0]); }
  }

  lemma RestEnds(b: seq<int>, s: int)
    requires 0 <= s && |b| <= s
    ensures Rest(b, s) == []
  {
  }

  lemma FoundAtLeast(b: seq<int>, t: int, k: int, v: int)
    requires |b| < Max32 && 0 <= k && v >= t && Found(b, v, k)
    ensures LeftAtLeast(b, k, t)
  {
  }

  lemma SkipInFirst(b0: seq<int>, b1: seq<int>, s0: int, s1: int, k: int)
    requires Strict(b0) && Strict(b1) && 0 <= s0 < |b0| < Max32 && 0 <= s1 < |b1| && b0[s0] < b1[s1] && 0 <= k &&
             Found(b0, b1[s1], k)
    ensures Meet(Rest(b0, s0), Rest(b1, s1)) == Meet(Rest(b0, k), Rest(b1, s1)) && |Rest(b0, k)| < |Rest(b0, s0)|
  {
    AdvanceFirst(b0, b1, s0, s1, if k == Max32 then |b0| else k);
  }

  lemma SkipInSecond(b0: seq<int>, b1: seq<int>, s0: int, s1: int, k: int)
    requires Strict(b0) && Strict(b1) && 0 <= s0 < |b0| && 0 <= s1 < |b1| < Max32 && b1[s1] < b0[s0] && 0 <= k &&
             Found(b1, b0[s0], k)
    ensures Meet(Rest(b0, s0), Rest(b1, s1)) == Meet(Rest(b0, s0), Rest(b1, k)) && |Rest(b1, k)| < |Rest(b1, s1)|
  {
    AdvanceSecond(b0, b1, s0, s1, if k == Max32 then |b1| else k);
  }

  lemma TakeBoth(b0: seq<int>, b1: seq<int>, s0: int, s1: int)
    requires Strict(b0) && Strict(b1) && 0 <= s0 < |b0| && 0 <= s1 < |b1| && b0[s0] == b1[s1]
    ensures Meet(Rest(b0, s0), Rest(b1, s1)) == [b0[s0]] + Meet(Rest(b0, s0 + 1), Rest(b1, s1 + 1))
    ensures |Rest(b0, s0 + 1)| < |Rest(b0, s0)| && |Rest(b1, s1 + 1)| < |Rest(b1, s1)|
  {
    RestAt(b0, s0);
    RestAt(b1, s1);
    MeetSame(Rest(b0, s0), Rest(b1, s1));
  }

  method PopulateTwo(bs: seq<seq<int>>, state: array<int>, result: array<int>, max: nat, ghost t: int) returns (n: nat)
    requires BucketsOk(bs) && |bs| == 2 && StateOk(bs, state[..]) && AtLeast(bs, state[..], t) &&
             max <= result.Length && state != result
    modifies state, result
    ensures n <= max && StateOk(bs, state[..]) && AtLeast(bs, state[..], t)
    ensures result[..n] + Left(bs, state[..]) == old(Left(bs, state[..]))
    ensures n < max ==> Left(bs, state[..]) == []
  {
    hide Meet, Strict, Rest, LeftAtLeast, Found;
    var b0, b1 := bs[0], bs[1];
    ghost var all, out := Meet(Rest(b0, state[0]), Rest(b1, state[1])), [];
    n := 0;
    while state[0] < |b0| && state[1] < |b1| && n < max
      invariant n <= max && 0 <= state[0] && 0 <= state[1] && LeftAtLeast(b0, state[0], t) &&
                LeftAtLeast(b1, state[1], t)
      invariant result[..n] == out && out + Meet(Rest(b0, state[0]), Rest(b1, state[1])) == all
      decreases |Rest(b0, state[0])| + |Rest(b1, state[1])|
    {
      var left, right := b0[state[0]], b1[state[1]];
      ValueAtLeast(b0, state[0], t);
      ValueAtLeast(b1, state[1], t);
      if left < right {
        var k := FastForwardBucket(b0, right);
        SkipInFirst(b0, b1, state[0], state[1], k);
        FoundAtLeast(b0, t, k, right);
        state[0] := k;
      } else if right < left {
        var k := FastForwardBucket(b1, left);
        SkipInSecond(b0, b1, state[0], state[1], k);
        FoundAtLeast(b1, t, k, left);
        state[1] := k;
      } else {
        TakeBoth(b0, b1, state[0], state[1]);
        NextAtLeast(b0, state[0], t);
        NextAtLeast(b1, state[1], t);
        Shift(out, left, Meet(Rest(b0, state[0] + 1), Rest(b1, state[1] + 1)));
        result[n] := left;
        out := out + [left];
        n := n + 1;
        state[0] := state[0] + 1;
        state[1] := state[1] + 1;
      }
    }
    if n < max {
      if state[0] >= |b0| { RestEnds(b0, state[0]); } else { RestEnds(b1, state[1]); }
      MeetEmpty(Rest(b0, state[0]), Rest(b1, state[1]));
    }
  }

  lemma ValueAtLeast(b: seq<int>, s: int, t: int)
    requires 0 <= s < |b| && LeftAtLeast(b, s, t)
    ensures b[s] >= t
  {
  }

  lemma NextAtLeast(b: seq<int>, s: int, t: int)
    requires Strict(b) && 0 <= s < |b| && LeftAtLeast(b, s, t)
    ensures LeftAtLeast(b, s + 1, t)
  {
  }

  // ----- three and more buckets -----

  /** Whatever was ahead and has not been handed out is still ahead. */
  ghost predicate NoneLost(bs: seq<seq<int>>, st0: seq<int>, out: seq<int>, st: seq<int>)
    requires StateOk(bs, st0) && StateOk(bs, st)
  {
    forall v :: Ahead(bs, st0, v) && v !in out ==> Ahead(bs, st, v)
  }

  /** Moving bucket `i` to the value at which bucket `j` stands. */
  lemma MoveKeepsAhead(bs: seq<seq<int>>, st: seq<int>, i: nat, j: nat, k: int, v: int)
    requires BucketsOk(bs) && StateOk(bs, st) && i < |bs| && j < |bs| && st[j] < |bs[j]| && 0 <= k &&
             Found(bs[i], bs[j][st[j]], k)
    requires Ahead(bs, st, v)
    ensures Ahead(bs, st[i := k], v)
  {
    assert v in Rest(bs[j], st[j]) && v in Rest(bs[i], st[i]);
    InRest(bs[j], st[j], v);
    InRest(bs[i], st[i], v);
    FoundRest(bs[i], bs[j][st[j]], k, v);
  }

  lemma MoveLosesNone(bs: seq<seq<int>>, st0: seq<int>, out: seq<int>, st: seq<int>, i: nat, j: nat, k: int)
    requires BucketsOk(bs) && StateOk(bs, st0) && StateOk(bs, st) && NoneLost(bs, st0, out, st)
    requires i < |bs| && j < |bs| && st[j] < |bs[j]| && 0 <= k && Found(bs[i], bs[j][st[j]], k)
    ensures NoneLost(bs, st0, out, st[i := k])
  {
    hide Ahead;
    forall v | Ahead(bs, st0, v) && v !in out ensures Ahead(bs, st[i := k], v) {
      MoveKeepsAhead(bs, st, i, j, k, v);
    }
  }

  lemma MoveAtLeast(bs: seq<seq<int>>, st: seq<int>, t: int, i: nat, j: nat, k: int)
    requires BucketsOk(bs) && StateOk(bs, st) && AtLeast(bs, st, t)
    requires i < |bs| && j < |bs| && st[j] < |bs[j]| && 0 <= k && Found(bs[i], bs[j][st[j]], k)
    ensures AtLeast(bs, st[i := k], t)
  {
    assert LeftAtLeast(bs[j], st[j], t);
    FoundAtLeast(bs[i], t, k, bs[j][st[j]]);
  }

  lemma TakeLosesNone(bs: seq<seq<int>>, st0: seq<int>, out: seq<int>, st: seq<int>, m: nat)
    requires BucketsOk(bs) && StateOk(bs, st0) && StateOk(bs, st) && NoneLost(bs, st0, out, st) && m < |bs| &&
             st[m] < |bs[m]|
    ensures NoneLost(bs, st0, out + [bs[m][st[m]]], st[m := st[m] + 1])
  {
    hide Ahead;
    var c, st' := bs[m][st[m]], st[m := st[m] + 1];
    forall v | Ahead(bs, st0, v) && v !in out + [c] ensures Ahead(bs, st', v) {
      assert v !in out && v != c;
      TakeKeepsAhead(bs, st, m, v);
    }
  }

  lemma TakeKeepsAhead(bs: seq<seq<int>>, st: seq<int>, m: nat, v: int)
    requires BucketsOk(bs) && StateOk(bs, st) && m < |bs| && st[m] < |bs[m]| && Ahead(bs, st, v) && v != bs[m][st[m]]
    ensures Ahead(bs, st[m := st[m] + 1], v)
  {
    hide Common, Strict;
    assert v in Rest(bs[m], st[m]);
    RestAt(bs[m], st[m]);
    hide Rest;
  }

  lemma TakeAtLeast(bs: seq<seq<int>>, st: seq<int>, t: int, m: nat)
    requires BucketsOk(bs) && StateOk(bs, st) && AtLeast(bs, st, t) && m < |bs| && st[m] < |bs[m]|
    ensures AtLeast(bs, st[m := st[m] + 1], t) && bs[m][st[m]] >= t
  {
    assert LeftAtLeast(bs[m], st[m], t);
    NextAtLeast(bs[m], st[m], t);
  }

  /** Bucket `i` has nothing from the candidate on, so the intersection is exhausted. */
  lemma Exhausts(bs: seq<seq<int>>, m: nat, i: nat, s: int)
    requires BucketsOk(bs) && m < |bs| && i < |bs| && 0 <= s < |bs[m]| && Found(bs[i], bs[m][s], Max32)
    ensures CommonOf(bs, Rest(bs[m], s)) == []
  {
    hide Common;
    RestAt(bs[m], s);
    forall x | 0 <= x < |Rest(bs[m], s)| ensures !Common(bs, Rest(bs[m], s)[x]) {
      GapIsUncommon(bs, i, bs[m][s], |bs[i]|, Rest(bs[m], s)[x]);
    }
    NoneCommon(bs, Rest(bs[m], s));
  }

  /** Bucket `i` jumps over the candidate; the scanned bucket follows. */
  lemma SkipsGap(bs: seq<seq<int>>, m: nat, i: nat, s: int, k: int, s': int)
    requires BucketsOk(bs) && m < |bs| && i < |bs| && 0 <= s < |bs[m]| && 0 <= k < |bs[i]| &&
             IsLower(bs[i], bs[m][s], k)
    requires bs[i][k] > bs[m][s] && 0 <= s' && Found(bs[m], bs[i][k], s')
    ensures CommonOf(bs, Rest(bs[m], s)) == CommonOf(bs, Rest(bs[m], s')) && |Rest(bs[m], s')| < |Rest(bs[m], s)|
  {
    hide Common;
    var b, n := bs[m], if s' == Max32 then |bs[m]| - s else s' - s;
    RestAt(b, s);
    assert n > 0;
    forall x | 0 <= x < n ensures !Common(bs, Rest(b, s)[x]) {
      GapIsUncommon(bs, i, b[s], k, Rest(b, s)[x]);
    }
    SkipUncommon(bs, Rest(b, s), n);
    assert Rest(b, s)[n..] == Rest(b, s');
  }

  lemma TakesCommon(bs: seq<seq<int>>, m: nat, s: int)
    requires BucketsOk(bs) && m < |bs| && 0 <= s < |bs[m]| && Common(bs, bs[m][s])
    ensures CommonOf(bs, Rest(bs[m], s)) == [bs[m][s]] + CommonOf(bs, Rest(bs[m], s + 1)) &&
            |Rest(bs[m], s + 1)| < |Rest(bs[m], s)|
  {
    hide Common;
    RestAt(bs[m], s);
  }

  /** All buckets but `m` stand at the value `v`. */
  predicate OthersAt(bs: seq<seq<int>>, st: seq<int>, m: nat, v: int)
    requires |st| == |bs|
  {
    forall q :: 0 <= q < |bs| && q != m ==> Found(bs[q], v, st[q])
  }

  /** Some bucket has nothing left. */
  predicate Ended(bs: seq<seq<int>>, st: seq<int>)
    requires |st| == |bs|
  {
    exists i :: 0 <= i < |bs| && st[i] >= |bs[i]|
  }

  datatype Verdict = Exhausted | Gap | Match

  /** Looks for the candidate of bucket `m` in all other buckets. */
  method CheckCandidate(bs: seq<seq<int>>, state: array<int>, m: nat, ghost st0: seq<int>, ghost out: seq<int>,
                        ghost t: int)
    returns (r: Verdict)
    requires BucketsOk(bs) && m < |bs| && StateOk(bs, st0) && StateOk(bs, state[..]) && state[m] < |bs[m]|
    requires NoneLost(bs, st0, out, state[..]) && AtLeast(bs, state[..], t)
    modifies state
    ensures StateOk(bs, state[..]) && NoneLost(bs, st0, out, state[..]) && AtLeast(bs, state[..], t)
    ensures r.Exhausted? ==> CommonOf(bs, Rest(bs[m], old(state[m]))) == [] && Ended(bs, state[..])
    ensures r.Gap? ==>
            CommonOf(bs, Rest(bs[m], state[m])) == CommonOf(bs, Rest(bs[m], old(state[m]))) &&
            |Rest(bs[m], state[m])| < |Rest(bs[m], old(state[m]))|
    ensures r.Match? ==>
            state[m] == old(state[m]) && Common(bs, bs[m][state[m]]) && OthersAt(bs, state[..], m, bs[m][state[m]])
  {
    hide NoneLost, AtLeast, CommonOf, Rest, Found, Strict;
    var candidate := bs[m][state[m]];
    for i := 0 to |bs|
      invariant state[m] == old(state[m]) && StateOk(bs, state[..]) && NoneLost(bs, st0, out, state[..]) &&
                AtLeast(bs, state[..], t)
      invariant forall q :: 0 <= q < i ==> candidate in bs[q]
      invariant forall q :: 0 <= q < i && q != m ==> Found(bs[q], candidate, state[q])
    {
      if i == m {
        continue;
      }
      var k := FastForwardBucket(bs[i], candidate);
      MoveLosesNone(bs, st0, out, state[..], i, m, k);
      MoveAtLeast(bs, state[..], t, i, m, k);
      ghost var st := state[..];
      state[i] := k;
      assert state[..] == st[i := k];
      if k >= |bs[i]| {
        FoundIsMax(bs[i], candidate, k);
        Exhausts(bs, m, i, state[m]);
        return Exhausted;
      }
      FoundIsLower(bs[i], candidate, k);
      var current := bs[i][k];
      if current > candidate {
        var s := FastForwardBucket(bs[m], current);
        SkipsGap(bs, m, i, state[m], k, s);
        MoveLosesNone(bs, st0, out, state[..], m, i, s);
        MoveAtLeast(bs, state[..], t, m, i, s);
        st := state[..];
        state[m] := s;
        assert state[..] == st[m := s];
        return Gap;
      }
      assert bs[i][k] == candidate;
    }
    r := Match;
  }

  lemma FoundIsMax(b: seq<int>, t: int, k: int)
    requires Found(b, t, k) && k >= |b|
    ensures k == Max32
  {
  }

  lemma FoundIsLower(b: seq<int>, t: int, k: int)
    requires Found(b, t, k) && k < |b| < Max32
    ensures IsLower(b, t, k) && 0 <= k && b[k] >= t
  {
  }

  /** Bucket `m` is the first one with the fewest values left, the one that a call scans. */
  ghost predicate IsScanned(bs: seq<seq<int>>, st: seq<int>, m: nat)
    requires |st| == |bs| && m < |bs|
  {
    && (forall i :: 0 <= i < |bs| ==> |bs[m]| - st[m] <= |bs[i]| - st[i])
    && (forall i :: 0 <= i < m ==> |bs[m]| - st[m] < |bs[i]| - st[i])
  }

  /** The bucket with the fewest values left. */
  method SmallestRest(bs: seq<seq<int>>, state: array<int>) returns (m: nat)
    requires |bs| > 0 && state.Length == |bs|
    ensures m < |bs| && IsScanned(bs, state[..], m)
  {
    m := 0;
    for i := 1 to |bs|
      invariant m < i && forall q :: 0 <= q < i ==> |bs[m]| - state[m] <= |bs[q]| - state[q]
      invariant forall q :: 0 <= q < m ==> |bs[m]| - state[m] < |bs[q]| - state[q]
    {
      if |bs[i]| - state[i] < |bs[m]| - state[m] {
        m := i;
      }
    }
  }

  /** What a batch promises, whatever the number of buckets. */
  ghost predicate IsBatch(bs: seq<seq<int>>, st0: seq<int>, st: seq<int>, out: seq<int>, max: nat, t: int)
  {
    && StateOk(bs, st0) && StateOk(bs, st) && |out| <= max && Strict(out)
    && (forall v :: v in out ==> Common(bs, v) && v >= t)
    && NoneLost(bs, st0, out, st) && AtLeast(bs, st, t)
    && (|out| < max ==> forall v :: Ahead(bs, st0, v) ==> v in out)
  }

  lemma EmptyBatch(bs: seq<seq<int>>, st: seq<int>, i: nat, max: nat, t: int)
    requires BucketsOk(bs) && StateOk(bs, st) && i < |bs| && st[i] >= |bs[i]| && AtLeast(bs, st, t)
    ensures IsBatch(bs, st, st, [], max, t)
  {
    forall v ensures !Ahead(bs, st, v) {
      assert Rest(bs[i], st[i]) == [];
    }
  }

  /** A prefix of the common values of the scanned bucket is a batch. */
  lemma ScanIsBatch(bs: seq<seq<int>>, m: nat, st0: seq<int>, st: seq<int>, out: seq<int>, left: seq<int>, max: nat,
                    t: int)
    requires BucketsOk(bs) && m < |bs| && StateOk(bs, st0) && StateOk(bs, st) && NoneLost(bs, st0, out, st) &&
             AtLeast(bs, st0, t) && AtLeast(bs, st, t)
    requires out + left == CommonOf(bs, Rest(bs[m], st0[m])) && |out| <= max && (|out| < max ==> left == [])
    ensures IsBatch(bs, st0, st, out, max, t)
  {
    hide NoneLost, AtLeast, Common, Ahead;
    var all := CommonOf(bs, Rest(bs[m], st0[m]));
    RestStrict(bs[m], st0[m]);
    CommonStrict(bs, Rest(bs[m], st0[m]));
    assert forall i :: 0 <= i < |out| ==> out[i] == all[i];
    forall v | v in out ensures Common(bs, v) && v >= t {
      assert v in all;
      CommonElements(bs, Rest(bs[m], st0[m]), v);
      RestAtLeast(bs, st0, m, t, v);
    }
    if |out| < max {
      assert out == all;
      forall v | Ahead(bs, st0, v) ensures v in out {
        AheadIsCommon(bs, st0, v);
        AheadInRest(bs, st0, m, v);
        CommonElements(bs, Rest(bs[m], st0[m]), v);
      }
    }
  }

  lemma RestStrict(b: seq<int>, s: int)
    requires Strict(b) && 0 <= s
    ensures Strict(Rest(b, s))
  {
  }

  lemma RestAtLeast(bs: seq<seq<int>>, st: seq<int>, m: nat, t: int, v: int)
    requires BucketsOk(bs) && StateOk(bs, st) && AtLeast(bs, st, t) && m < |bs| && v in Rest(bs[m], st[m])
    ensures v >= t
  {
    InRest(bs[m], st[m], v);
    assert LeftAtLeast(bs[m], st[m], t);
  }

  lemma AheadInRest(bs: seq<seq<int>>, st: seq<int>, m: nat, v: int)
    requires StateOk(bs, st) && m < |bs| && Ahead(bs, st, v)
    ensures v in Rest(bs[m], st[m])
  {
  }

  lemma StartLosesNone(bs: seq<seq<int>>, st: seq<int>)
    requires StateOk(bs, st)
    ensures NoneLost(bs, st, [], st)
  {
  }

  /** The first `max` elements. */
  predicate IsPrefix(out: seq<int>, all: seq<int>, max: nat)
  {
    out <= all && |out| <= max && (|out| < max ==> out == all)
  }

  /** Scans the smallest list; when the batch is full, that list stands behind the last value
      and all others at it. */
  method PopulateMany(bs: seq<seq<int>>, state: array<int>, result: array<int>, max: nat, ghost t: int)
    returns (n: nat, ghost m: nat)
    requires BucketsOk(bs) && |bs| > 0 && StateOk(bs, state[..]) && AtLeast(bs, state[..], t) &&
             max <= result.Length && state != result
    modifies state, result
    ensures n <= max && IsBatch(bs, old(state[..]), state[..], result[..n], max, t)
    ensures m < |bs| && IsScanned(bs, old(state[..]), m)
    ensures n == max > 0 ==>
            OthersAt(bs, state[..], m, result[n - 1]) && 0 < state[m] <= |bs[m]| && bs[m][state[m] - 1] == result[n - 1]
    ensures !Ended(bs, old(state[..])) ==> IsPrefix(result[..n], CommonOf(bs, Rest(bs[m], old(state[m]))), max)
    ensures n < max ==> Ended(bs, state[..])
    ensures Ended(bs, old(state[..])) ==> n == 0
  {
    hide NoneLost, AtLeast, CommonOf, Rest, Found, Strict, IsBatch, Common, OthersAt, IsScanned;
    ghost var st0 := state[..];
    var k := SmallestRest(bs, state);
    m := k;
    for i := 0 to |bs|
      invariant state[..] == st0 && forall q :: 0 <= q < i ==> st0[q] < |bs[q]|
    {
      if state[i] >= |bs[i]| {
        EmptyBatch(bs, st0, i, max, t);
        assert result[..0] == [];
        n := 0;
        return;
      }
    }
    assert !Ended(bs, st0);
    ghost var all, out := CommonOf(bs, Rest(bs[m], st0[m])), [];
    StartLosesNone(bs, st0);
    n := 0;
    while state[k] < |bs[k]|
      invariant n <= max && StateOk(bs, state[..]) && NoneLost(bs, st0, out, state[..]) && AtLeast(bs, state[..], t)
      invariant result[..n] == out && out + CommonOf(bs, Rest(bs[k], state[k])) == all
      invariant n == max > 0 ==>
                OthersAt(bs, state[..], m, result[n - 1]) && 0 < state[m] <= |bs[m]| &&
                bs[m][state[m] - 1] == result[n - 1]
      decreases |Rest(bs[k], state[k])|
    {
      if n == max {
        break;
      }
      var s := state[k];
      var verdict := CheckCandidate(bs, state, k, st0, out, t);
      if verdict.Exhausted? {
        ScanIsBatch(bs, k, st0, state[..], out, [], max, t);
        return;
      }
      if verdict.Match? {
        TakesCommon(bs, k, s);
        TakeLosesNone(bs, st0, out, state[..], k);
        TakeAtLeast(bs, state[..], t, k);
        Shift(out, bs[k][s], CommonOf(bs, Rest(bs[k], s + 1)));
        OthersStay(bs, state[..], k, bs[k][s]);
        result[n] := bs[k][s];
        out := out + [bs[k][s]];
        n := n + 1;
        ghost var st := state[..];
        state[k] := state[k] + 1;
        assert state[..] == st[k := s + 1];
      }
    }
    if state[k] >= |bs[k]| { NothingLeft(bs, k, state[k]); }
    ScanIsBatch(bs, k, st0, state[..], out, CommonOf(bs, Rest(bs[k], state[k])), max, t);
  }

  lemma OthersStay(bs: seq<seq<int>>, st: seq<int>, m: nat, v: int)
    requires |st| == |bs| && m < |bs| && OthersAt(bs, st, m, v)
    ensures OthersAt(bs, st[m := st[m] + 1], m, v)
  {
  }

  lemma NothingLeft(bs: seq<seq<int>>, m: nat, s: int)
    requires m < |bs| && s >= |bs[m]|
    ensures CommonOf(bs, Rest(bs[m], s)) == []
  {
  }

  // ----- any number of buckets -----

  lemma LeftIsBatch(bs: seq<seq<int>>, st0: seq<int>, st: seq<int>, out: seq<int>, max: nat, t: int)
    requires BucketsOk(bs) && 1 <= |bs| <= 2 && StateOk(bs, st0) && StateOk(bs, st) && AtLeast(bs, st0, t) &&
             AtLeast(bs, st, t)
    requires out + Left(bs, st) == Left(bs, st0) && |out| <= max && (|out| < max ==> Left(bs, st) == [])
    ensures IsBatch(bs, st0, st, out, max, t)
  {
    hide Left, Ahead, AtLeast, Common;
    var all := Left(bs, st0);
    LeftStrict(bs, st0);
    assert forall i :: 0 <= i < |out| ==> out[i] == all[i];
    forall v ensures (v in all <==> Ahead(bs, st0, v)) && (v in Left(bs, st) <==> Ahead(bs, st, v)) {
      LeftIsAhead(bs, st0, v);
      LeftIsAhead(bs, st, v);
    }
    assert forall v :: v in all <==> v in out || v in Left(bs, st);
    forall v | v in out ensures Common(bs, v) && v >= t {
      AheadIsCommon(bs, st0, v);
      AheadInRest(bs, st0, 0, v);
      RestAtLeast(bs, st0, 0, t, v);
    }
  }

  /** The next batch of common values.  One and two buckets hand over exactly what is left. */
  method PopulateResult(bs: seq<seq<int>>, state: array<int>, result: array<int>, max: nat, ghost t: int)
    returns (n: nat)
    requires BucketsOk(bs) && StateOk(bs, state[..]) && AtLeast(bs, state[..], t) && max <= result.Length &&
             state != result
    modifies state, result
    ensures |bs| == 0 ==> n == 0
    ensures |bs| > 0 ==> n <= max && IsBatch(bs, old(state[..]), state[..], result[..n], max, t)
    ensures 1 <= |bs| <= 2 ==> StateOk(bs, state[..]) && result[..n] + Left(bs, state[..]) == old(Left(bs, state[..]))
  {
    hide IsBatch, Left, AtLeast, OthersAt;
    n := 0;
    if |bs| == 1 {
      n := PopulateOne(bs, state, result, max, t);
      LeftIsBatch(bs, old(state[..]), state[..], result[..n], max, t);
    } else if |bs| == 2 {
      n := PopulateTwo(bs, state, result, max, t);
      LeftIsBatch(bs, old(state[..]), state[..], result[..n], max, t);
    } else if |bs| > 2 {
      ghost var m;
      n, m := PopulateMany(bs, state, result, max, t);
    }
  }

  lemma BatchState(bs: seq<seq<int>>, st0: seq<int>, st: seq<int>, out: seq<int>, max: nat, t: int)
    requires IsBatch(bs, st0, st, out, max, t)
    ensures StateOk(bs, st0) && StateOk(bs, st) && AtLeast(bs, st, t) &&
            (|out| < max ==> forall v :: Ahead(bs, st0, v) ==> v in out)
    ensures (forall v :: v in out ==> Common(bs, v) && v >= t) && forall v :: Ahead(bs, st0, v) && v !in out ==>
            Ahead(bs, st, v)
  {
  }

  /** Reading one or two buckets batch by batch gives their intersection from `next` on, in
      order and once each. */
  method ReadAll(bs: seq<seq<int>>, next: int, max: nat) returns (all: seq<int>)
    requires BucketsOk(bs) && 1 <= |bs| <= 2 && max > 0
    ensures Strict(all) && forall v :: v in all <==> Common(bs, v) && v >= next
  {
    hide Left, AtLeast, Strict, Ahead, Common, IsBatch;
    var state, result := new int[|bs|], new int[max];
    Init(bs, state, next);
    ghost var whole := Left(bs, state[..]);
    LeftStrict(bs, state[..]);
    forall v ensures v in whole <==> Common(bs, v) && v >= next { LeftIsAhead(bs, state[..], v); }
    all := [];
    while true
      invariant StateOk(bs, state[..]) && AtLeast(bs, state[..], next) && all + Left(bs, state[..]) == whole
      decreases |Left(bs, state[..])|
    {
      ghost var st := state[..];
      var n := PopulateResult(bs, state, result, max, next);
      BatchState(bs, st, state[..], result[..n], max, next);
      JoinBatch(all, result[..n], Left(bs, state[..]));
      if n == 0 {
        NothingAhead(bs, st);
        assert all == whole;
        return;
      }
      all := all + result[..n];
    }
  }

  lemma JoinBatch(a: seq<int>, b: seq<int>, c: seq<int>)
    ensures a + (b + c) == (a + b) + c
  {
  }

  lemma NothingAhead(bs: seq<seq<int>>, st: seq<int>)
    requires StateOk(bs, st) && 1 <= |bs| <= 2 && forall v :: !Ahead(bs, st, v)
    ensures Left(bs, st) == []
  {
    if Left(bs, st) != [] {
      var v := Left(bs, st)[0];
      LeftIsAhead(bs, st, v);
    }
  }

  lemma FoundAt(b: seq<int>, t: int, k: int, e: int)
    requires |b| < Max32 && Found(b, t, k) && IsLower(b, t, e) && e < |b|
    ensures k == e
  {
    assert b[e] >= t;
    assert 0 <= k < |b| ==> b[k] >= t;
  }
}
