/**
 Which intersections of three and more buckets are read without repetitions, decided before the first call.
 */
module ReadOnce {
  import opened Buckets
  import opened BucketIntersection
  import opened RepeatedBatches

  /** Where the value stands in the bucket. */
  ghost function Place(b: seq<int>, v: int): (k: nat)
    requires v in b
    ensures k < |b| && b[k] == v
  {
    var k: nat :| k < |b| && b[k] == v;
    k
  }

  /** The positions after a full batch of bucket `m` that ends with the common value `v`. */
  ghost function ParkedAt(bs: seq<seq<int>>, m: nat, v: int): (st: seq<int>)
    requires Common(bs, v)
    ensures |st| == |bs|
  {
    seq(|bs|, i requires 0 <= i < |bs| => Place(bs[i], v) + if i == m then 1 else 0)
  }

  /** After a full batch of bucket `m` that ends with `v`, the bucket goes on, but another one has fewer values
      left, or as few and comes first. */
  ghost predicate OvertakenAt(bs: seq<seq<int>>, m: nat, v: int)
    requires m < |bs| && Common(bs, v)
  {
    ParkedAt(bs, m, v)[m] < |bs[m]| && SwitchDue(bs, ParkedAt(bs, m, v), m)
  }

  /** The values of `cs` that end a full batch do not see bucket `m` overtaken. */
  ghost predicate NeverOvertaken(bs: seq<seq<int>>, max: nat, m: nat, cs: seq<int>)
    requires m < |bs| && max > 0 && forall i :: 0 <= i < |cs| ==> Common(bs, cs[i])
  {
    forall k: nat, i: nat :: EndsBatch(max, k, i) && i < |cs| ==> !OvertakenAt(bs, m, cs[i])
  }

  /** The `k`-th full batch ends with the value at index `i`. */
  predicate EndsBatch(max: nat, k: nat, i: nat)
  {
    0 < k && i + 1 == k * max
  }

  lemma PlaceIs(b: seq<int>, v: int, k: int)
    requires Strict(b) && 0 <= k < |b| && b[k] == v
    ensures v in b && Place(b, v) == k
  {
    assert v in b;
    SameIndex(b, Place(b, v), k);
  }

  lemma SameIndex(b: seq<int>, i: int, j: int)
    requires Strict(b) && 0 <= i < |b| && 0 <= j < |b| && b[i] == b[j]
    ensures i == j
  {
    assert forall x, y :: 0 <= x < y < |b| ==> b[x] < b[y];
  }

  /** A full batch leaves the buckets at these positions. */
  lemma ParkedIs(bs: seq<seq<int>>, st: seq<int>, m: nat, v: int)
    requires BucketsOk(bs) && Parked(bs, st, m, v)
    ensures st == ParkedAt(bs, m, v)
    ensures Ended(bs, st) <==> st[m] >= |bs[m]|
  {
    hide Strict, Found;
    forall i | 0 <= i < |bs| ensures st[i] == ParkedAt(bs, m, v)[i] && (i != m ==> st[i] < |bs[i]|) {
      if i == m {
        PlaceIs(bs[i], v, st[i] - 1);
      } else {
        StandsAt(bs[i], v, st[i]);
        PlaceIs(bs[i], v, st[i]);
      }
    }
  }

  /** What follows a common value is what follows it among the common values. */
  lemma {:induction false} CommonAfter(bs: seq<seq<int>>, a: seq<int>, k: nat, p: nat)
    requires Strict(a) && k < |CommonOf(bs, a)| && p < |a| && a[p] == CommonOf(bs, a)[k]
    ensures CommonOf(bs, a[p + 1..]) == CommonOf(bs, a)[k + 1..]
    decreases p
  {
    hide Common;
    var cs, rest := CommonOf(bs, a), CommonOf(bs, a[1..]);
    CommonElements(bs, a, cs[k]);
    CommonStrict(bs, a);
    assert Strict(a[1..]);
    if p == 0 {
      SameIndex(cs, 0, k);
    } else if Common(bs, a[0]) {
      assert cs[0] == a[0] < a[p];
      assert cs[1..] == rest;
      CommonAfter(bs, a[1..], k - 1, p - 1);
      assert a[1..][p..] == a[p + 1..];
      assert cs[1..][k..] == cs[k + 1..];
    } else {
      assert cs == rest;
      CommonAfter(bs, a[1..], k, p - 1);
      assert a[1..][p..] == a[p + 1..];
    }
  }

  lemma CommonFrom(bs: seq<seq<int>>, b: seq<int>, s: int, k: nat, p: int)
    requires Strict(b) && 0 <= s && k < |CommonOf(bs, Rest(b, s))| && 0 <= p < |b|
    requires b[p] == CommonOf(bs, Rest(b, s))[k]
    ensures CommonOf(bs, Rest(b, p + 1)) == CommonOf(bs, Rest(b, s))[k + 1..]
  {
    hide Common;
    var a := Rest(b, s);
    CommonElements(bs, a, b[p]);
    var q :| 0 <= q < |a| && a[q] == b[p];
    assert a == b[s..] && b[s + q] == b[p];
    SameIndex(b, s + q, p);
    CommonAfter(bs, a, k, q);
    assert a[q + 1..] == b[p + 1..];
    assert Rest(b, p + 1) == b[p + 1..];
  }

  /** All calls before the `j`-th scanned bucket `m`. */
  ghost predicate Stays(r: Reading, m: nat, j: nat)
  {
    j <= |r.scanned| && forall i :: 0 <= i < j ==> r.scanned[i] == m
  }

  /** Where a reading is after `j` calls that scanned bucket `m`: `cs` are the common values that this bucket
      had at the start. */
  ghost predicate Along(bs: seq<seq<int>>, max: nat, r: Reading, m: nat, cs: seq<int>, j: nat)
    requires m < |bs| && j <= |r.batches| && j < |r.states|
  {
    var all, st := All(r.batches[..j]), r.states[j];
    && all <= cs && StateOk(bs, st)
    && (j == 0 || |r.batches[j - 1]| == max ==> |all| == j * max && CommonOf(bs, Rest(bs[m], st[m])) == cs[|all|..])
    && (j > 0 && |r.batches[j - 1]| == max ==> |all| > 0 && Parked(bs, st, m, cs[|all| - 1]))
    && (j > 0 && |r.batches[j - 1]| < max ==> all == cs && Ended(bs, st))
  }

  lemma AllNext(batches: seq<seq<int>>, j: nat)
    requires j < |batches|
    ensures All(batches[..j + 1]) == All(batches[..j]) + batches[j]
  {
    assert batches[..j + 1][..j] == batches[..j];
  }

  lemma StartState(bs: seq<seq<int>>, next: int, st: seq<int>)
    requires BucketsOk(bs) && StartsAt(bs, next, st)
    ensures StateOk(bs, st)
  {
    forall i | 0 <= i < |bs| ensures 0 <= st[i] {
      assert Found(bs[i], next, st[i]);
    }
  }

  lemma {:induction false} RunsAlong(bs: seq<seq<int>>, next: int, max: nat, r: Reading, m: nat, cs: seq<int>, j: nat)
    requires BucketsOk(bs) && max > 0 && Calls(bs, next, max, r) && j <= |r.batches| && m < |bs| && Stays(r, m, j)
    requires StateOk(bs, r.states[0]) && cs == CommonOf(bs, Rest(bs[m], r.states[0][m]))
    ensures Along(bs, max, r, m, cs, j)
  {
    if j == 0 {
      assert r.batches[..0] == [];
    } else {
      hide Along, BucketsOk;
      RunsAlong(bs, next, max, r, m, cs, j - 1);
      assert CallAt(bs, max, r, j - 1);
      if j > 1 { BatchFits(bs, next, max, r, j - 2); }
      hide Calls;
      AlongStep(bs, max, r, m, cs, j - 1);
    }
  }

  lemma AlongStep(bs: seq<seq<int>>, max: nat, r: Reading, m: nat, cs: seq<int>, j: nat)
    requires BucketsOk(bs) && max > 0 && m < |bs| && j < |r.batches| == |r.scanned| && j + 1 < |r.states|
    requires Along(bs, max, r, m, cs, j) && CallAt(bs, max, r, j) && r.scanned[j] == m
    requires j > 0 ==> |r.batches[j - 1]| <= max
    ensures Along(bs, max, r, m, cs, j + 1)
  {
    hide CommonOf, Rest, Parked, Ended, IsScanned, All, Strict, Common;
    var all, out, st, st' := All(r.batches[..j]), r.batches[j], r.states[j], r.states[j + 1];
    AllNext(r.batches, j);
    var left := cs[|all|..];
    PrefixGrows(cs, all, out);
    if |out| == max {
      FullBatch(bs, m, st, st', left, max);
      assert left[max..] == cs[|all| + max..];
      OneMore(j, max);
    }
  }

  lemma PrefixGrows(cs: seq<int>, all: seq<int>, out: seq<int>)
    requires all <= cs && out <= cs[|all|..]
    ensures all + out <= cs && (out == cs[|all|..] ==> all + out == cs)
    ensures out != [] ==> (all + out)[|all + out| - 1] == out[|out| - 1] == cs[|all| + |out| - 1]
  {
    assert cs == all + cs[|all|..];
  }

  lemma OneMore(j: nat, max: nat)
    ensures j * max + max == (j + 1) * max
  {
  }

  lemma FullBatch(bs: seq<seq<int>>, m: nat, st: seq<int>, st': seq<int>, left: seq<int>, max: nat)
    requires BucketsOk(bs) && m < |bs| && StateOk(bs, st) && left == CommonOf(bs, Rest(bs[m], st[m]))
    requires 0 < max <= |left|
    requires Parked(bs, st', m, left[max - 1])
    ensures StateOk(bs, st') && CommonOf(bs, Rest(bs[m], st'[m])) == left[max..]
  {
    hide CommonOf, Rest, Common, Strict, OthersAt;
    CommonFrom(bs, bs[m], st[m], max - 1, st'[m] - 1);
  }

  lemma CommonAll(bs: seq<seq<int>>, a: seq<int>)
    ensures forall i :: 0 <= i < |CommonOf(bs, a)| ==> Common(bs, CommonOf(bs, a)[i])
  {
    forall i | 0 <= i < |CommonOf(bs, a)| ensures Common(bs, CommonOf(bs, a)[i]) {
      CommonElements(bs, a, CommonOf(bs, a)[i]);
    }
  }

  /** After a full batch the scanned bucket changes exactly if it is overtaken. */
  lemma DueIsOvertaken(bs: seq<seq<int>>, st: seq<int>, m: nat, v: int)
    requires BucketsOk(bs) && Parked(bs, st, m, v)
    ensures OvertakenAt(bs, m, v) <==> !Ended(bs, st) && SwitchDue(bs, st, m)
  {
    hide Ended, SwitchDue;
    ParkedIs(bs, st, m, v);
  }

  /** A reading is not over while its bucket is overtaken: the last value comes again. */
  lemma NotOver(bs: seq<seq<int>>, st: seq<int>, m: nat, v: int)
    requires BucketsOk(bs) && Parked(bs, st, m, v) && !Ended(bs, st) && SwitchDue(bs, st, m)
    ensures !IsOver(bs, st)
  {
    hide Parked, Ended, SwitchDue, IsScanned, CommonOf, Rest;
    if IsOver(bs, st) {
      var m': nat :| m' < |bs| && IsScanned(bs, st, m') && CommonOf(bs, Rest(bs[m'], st[m'])) == [];
      RepeatsExactly(bs, st, m, v, m', [], 1);
    }
  }

  /** A call after a full batch of `m` found that batch's state, and the batch was full. */
  lemma CallAfter(bs: seq<seq<int>>, max: nat, r: Reading, m: nat, cs: seq<int>, j: nat)
    requires BucketsOk(bs) && max > 0 && m < |bs| && 0 < j < |r.batches| == |r.scanned| && j + 1 < |r.states|
    requires Along(bs, max, r, m, cs, j) && CallAt(bs, max, r, j) && |r.batches[j - 1]| <= max
    ensures |r.batches[j - 1]| == max && !Ended(bs, r.states[j])
  {
  }

  lemma BatchFits(bs: seq<seq<int>>, next: int, max: nat, r: Reading, j: nat)
    requires Calls(bs, next, max, r) && j < |r.batches|
    ensures 0 < |r.batches[j]| <= max
  {
    assert CallAt(bs, max, r, j);
  }

  /** The first change of the scanned bucket comes after a batch whose last value sees it overtaken. */
  lemma SwitchIsOvertaken(bs: seq<seq<int>>, next: int, max: nat, r: Reading, m: nat, cs: seq<int>, j: nat)
    requires BucketsOk(bs) && max > 0 && Calls(bs, next, max, r) && m < |bs| && 0 < j < |r.scanned|
    requires StateOk(bs, r.states[0]) && cs == CommonOf(bs, Rest(bs[m], r.states[0][m]))
    requires Stays(r, m, j) && r.scanned[j] != m
    ensures (forall i :: 0 <= i < |cs| ==> Common(bs, cs[i])) && !NeverOvertaken(bs, max, m, cs)
  {
    hide Parked, Ended, SwitchDue, CommonOf, Rest, Common, OvertakenAt, Calls, Along, All, BucketsOk, CallAt;
    CallsSizes(bs, next, max, r);
    RunsAlong(bs, next, max, r, m, cs, j);
    CommonAll(bs, Rest(bs[m], r.states[0][m]));
    BatchFits(bs, next, max, r, j - 1);
    CallOf(bs, next, max, r, j);
    CallAfter(bs, max, r, m, cs, j);
    NextIsScanned(bs, next, max, r, j);
    var i := FullAlong(bs, max, r, m, cs, j);
    DueIsOvertaken(bs, r.states[j], m, cs[i]);
  }

  /** After `j` full batches. */
  lemma FullAlong(bs: seq<seq<int>>, max: nat, r: Reading, m: nat, cs: seq<int>, j: nat) returns (i: nat)
    requires m < |bs| && max > 0 && 0 < j <= |r.batches| && j < |r.states|
    requires Along(bs, max, r, m, cs, j) && |r.batches[j - 1]| == max
    ensures EndsBatch(max, j, i) && i < |cs| && Parked(bs, r.states[j], m, cs[i]) && StateOk(bs, r.states[j])
    ensures i + 1 == |All(r.batches[..j])| && CommonOf(bs, Rest(bs[m], r.states[j][m])) == cs[i + 1..]
    ensures All(r.batches[..j]) == cs[..i + 1]
  {
    hide Parked, CommonOf, Rest, All;
    i := |All(r.batches[..j])| - 1;
  }

  lemma CallOf(bs: seq<seq<int>>, next: int, max: nat, r: Reading, j: nat)
    requires Calls(bs, next, max, r) && j < |r.batches|
    ensures j + 1 < |r.states| && |r.scanned| == |r.batches| && CallAt(bs, max, r, j)
  {
  }

  // ----- the whole reading -----

  lemma {:induction false} AllSize(batches: seq<seq<int>>, max: nat)
    requires forall j :: 0 <= j < |batches| ==> |batches[j]| <= max
    ensures |All(batches)| <= |batches| * max
    ensures batches != [] && |batches[|batches| - 1]| < max ==> |All(batches)| < |batches| * max
  {
    if batches != [] {
      AllSize(batches[..|batches| - 1], max);
      OneMore(|batches| - 1, max);
    }
  }

  /** Two buckets cannot both be the one to scan. */
  lemma ScannedOnce(bs: seq<seq<int>>, st: seq<int>, m: nat, m': nat)
    requires |st| == |bs| && m < |bs| && m' < |bs| && IsScanned(bs, st, m) && IsScanned(bs, st, m')
    ensures m == m'
  {
    assert |bs[m]| - st[m] <= |bs[m']| - st[m'] && |bs[m']| - st[m'] <= |bs[m]| - st[m];
  }

  lemma NothingLeft(bs: seq<seq<int>>, st: seq<int>, m: nat)
    requires StateOk(bs, st) && m < |bs| && st[m] >= |bs[m]|
    ensures CommonOf(bs, Rest(bs[m], st[m])) == []
  {
  }

  /** A reading that is over right away has nothing to read. */
  lemma OverAtStart(bs: seq<seq<int>>, st: seq<int>, m: nat)
    requires m < |bs| && IsOver(bs, st) && IsScanned(bs, st, m)
    ensures CommonOf(bs, Rest(bs[m], st[m])) == []
  {
    hide CommonOf, Rest;
    if Ended(bs, st) {
      var i :| 0 <= i < |bs| && st[i] >= |bs[i]|;
      assert |bs[m]| - st[m] <= |bs[i]| - st[i];
      NothingLeft(bs, st, m);
    } else {
      var m': nat :| m' < |bs| && IsScanned(bs, st, m') && CommonOf(bs, Rest(bs[m'], st[m'])) == [];
      ScannedOnce(bs, st, m, m');
    }
  }

  /** A reading that is over after a full batch has nothing left in the bucket it scanned. */
  lemma OverAfter(bs: seq<seq<int>>, st: seq<int>, m: nat, v: int)
    requires BucketsOk(bs) && Parked(bs, st, m, v) && IsOver(bs, st)
    ensures CommonOf(bs, Rest(bs[m], st[m])) == []
  {
    hide CommonOf, Rest, Parked, IsScanned, SwitchDue, Ended;
    ParkedIs(bs, st, m, v);
    ParkedState(bs, st, m, v);
    if Ended(bs, st) {
      NothingLeft(bs, st, m);
    } else {
      var m': nat :| m' < |bs| && IsScanned(bs, st, m') && CommonOf(bs, Rest(bs[m'], st[m'])) == [];
      RepeatsExactly(bs, st, m, v, m', [], 1);
    }
  }

  /** A reading that never changes its bucket hands out the common values of that bucket. */
  lemma AllRead(bs: seq<seq<int>>, next: int, max: nat, r: Reading, m: nat, cs: seq<int>)
    requires BucketsOk(bs) && max > 0 && IsReading(bs, next, max, r) && m < |bs| && Stays(r, m, |r.scanned|)
    requires StateOk(bs, r.states[0]) && cs == CommonOf(bs, Rest(bs[m], r.states[0][m]))
    requires IsScanned(bs, r.states[0], m)
    ensures All(r.batches) == cs
  {
    hide Parked, Ended, CommonOf, Rest, Calls, IsOver, IsScanned, Along, All, BucketsOk;
    CallsSizes(bs, next, max, r);
    var n := |r.batches|;
    assert r.batches[..n] == r.batches;
    RunsAlong(bs, next, max, r, m, cs, n);
    if n == 0 {
      OverAtStart(bs, r.states[0], m);
      NothingRead(r);
    } else {
      BatchFits(bs, next, max, r, n - 1);
      if |r.batches[n - 1]| == max {
        var i := FullAlong(bs, max, r, m, cs, n);
        OverAfter(bs, r.states[n], m, cs[i]);
        assert cs == cs[..i + 1] + cs[i + 1..];
      } else {
        PartAlong(bs, max, r, m, cs, n);
      }
    }
  }

  lemma NothingRead(r: Reading)
    requires r.batches == []
    ensures All(r.batches) == []
  {
  }

  lemma PartAlong(bs: seq<seq<int>>, max: nat, r: Reading, m: nat, cs: seq<int>, j: nat)
    requires m < |bs| && 0 < j <= |r.batches| && j < |r.states|
    requires Along(bs, max, r, m, cs, j) && |r.batches[j - 1]| < max
    ensures All(r.batches[..j]) == cs
  {
  }

  /** The `k`-th batch of a reading that hands out at least `k` full batches is full. */
  lemma FullAt(bs: seq<seq<int>>, next: int, max: nat, r: Reading, k: nat, i: nat)
    requires max > 0 && Calls(bs, next, max, r) && EndsBatch(max, k, i) && i < |All(r.batches)|
    ensures k <= |r.batches| && |r.batches[k - 1]| == max
  {
    hide All, Ended, IsCall, StartsAt;
    CallsSizes(bs, next, max, r);
    var n := |r.batches|;
    forall j: nat | j < n ensures 0 < |r.batches[j]| <= max { BatchFits(bs, next, max, r, j); }
    AllSize(r.batches, max);
    FewerBatches(k, n, max);
    if k < n {
      FullBefore(bs, max, r, k);
    }
  }

  lemma FewerBatches(k: nat, n: nat, max: nat)
    requires max > 0 && k * max <= n * max
    ensures k <= n
  {
    if k > n {
      AtLeastProduct(n + 1, k, max);
      OneMore(n, max);
    }
  }

  lemma AtLeastProduct(a: nat, b: nat, max: nat)
    requires a <= b
    ensures a * max <= b * max
  {
  }

  /** Only the last batch can be less than full. */
  lemma FullBefore(bs: seq<seq<int>>, max: nat, r: Reading, k: nat)
    requires 0 < k < |r.batches| == |r.scanned| && |r.states| == |r.batches| + 1
    requires forall j: nat :: j < |r.batches| ==> CallAt(bs, max, r, j)
    ensures |r.batches[k - 1]| == max
  {
    hide CommonOf, Rest, Parked, Ended, IsScanned;
    assert CallAt(bs, max, r, k) && CallAt(bs, max, r, k - 1);
  }

  /** If the scanned bucket never changes, no value that ends a full batch sees it overtaken. */
  lemma StaysNotOvertaken(bs: seq<seq<int>>, next: int, max: nat, r: Reading, m: nat, cs: seq<int>, k: nat, i: nat)
    requires BucketsOk(bs) && max > 0 && IsReading(bs, next, max, r) && m < |bs| && Stays(r, m, |r.scanned|)
    requires StateOk(bs, r.states[0]) && cs == CommonOf(bs, Rest(bs[m], r.states[0][m]))
    requires IsScanned(bs, r.states[0], m) && EndsBatch(max, k, i) && i < |cs| && Common(bs, cs[i])
    ensures !OvertakenAt(bs, m, cs[i])
  {
    hide Parked, Ended, SwitchDue, CommonOf, Rest, Common, OvertakenAt, Calls, IsOver, IsScanned, Along, All, BucketsOk;
    CallsSizes(bs, next, max, r);
    AllRead(bs, next, max, r, m, cs);
    FullAt(bs, next, max, r, k, i);
    RunsAlong(bs, next, max, r, m, cs, k);
    var i' := FullAlong(bs, max, r, m, cs, k);
    DueIsOvertaken(bs, r.states[k], m, cs[i]);
    if OvertakenAt(bs, m, cs[i]) {
      if k < |r.batches| {
        NextIsScanned(bs, next, max, r, k);
      } else {
        NotOver(bs, r.states[k], m, cs[i]);
      }
    }
  }

  /** The first call to scan another bucket. */
  lemma {:induction false} FirstSwitch(r: Reading, m: nat, n: nat) returns (j: nat)
    requires 0 < n <= |r.scanned| && r.scanned[0] == m && !Stays(r, m, n)
    ensures 0 < j < |r.scanned| && Stays(r, m, j) && r.scanned[j] != m
    decreases n
  {
    if Stays(r, m, n - 1) {
      j := n - 1;
    } else {
      j := FirstSwitch(r, m, n - 1);
    }
  }

  lemma {:induction false} SameThroughout(scanned: seq<nat>, j: nat)
    requires NoSwitch(scanned) && j < |scanned|
    ensures scanned[j] == scanned[0]
  {
    if j > 0 {
      SameThroughout(scanned, j - 1);
      assert scanned[j] == scanned[j - 1];
    }
  }

  lemma StaysIsNoSwitch(r: Reading, m: nat)
    requires r.scanned != [] ==> r.scanned[0] == m
    ensures Stays(r, m, |r.scanned|) <==> NoSwitch(r.scanned)
  {
    if NoSwitch(r.scanned) {
      forall j: nat | j < |r.scanned| ensures r.scanned[j] == m { SameThroughout(r.scanned, j); }
    }
  }

  /** Every reading from `next` hands out each value once exactly if, among the common values that the first
      of the buckets with the fewest values from `next` on has there, no value that ends a full batch sees
      that bucket overtaken. */
  lemma OnceExactly(bs: seq<seq<int>>, next: int, max: nat, r: Reading, m: nat)
    requires BucketsOk(bs) && max > 0 && IsReading(bs, next, max, r) && m < |bs|
    requires IsScanned(bs, r.states[0], m)
    ensures StateOk(bs, r.states[0])
    ensures var cs := CommonOf(bs, Rest(bs[m], r.states[0][m]));
            && (forall i :: 0 <= i < |cs| ==> Common(bs, cs[i]))
            && (NoSwitch(r.scanned) <==> NeverOvertaken(bs, max, m, cs))
  {
    hide CommonOf, Rest, Common, Calls, IsOver, IsScanned, All, BucketsOk, OvertakenAt, NoSwitch, EndsBatch;
    ReadingStarts(bs, next, max, r, m);
    var cs := CommonOf(bs, Rest(bs[m], r.states[0][m]));
    CommonAll(bs, Rest(bs[m], r.states[0][m]));
    StaysIsNoSwitch(r, m);
    if Stays(r, m, |r.scanned|) {
      forall k: nat, i: nat | EndsBatch(max, k, i) && i < |cs| ensures !OvertakenAt(bs, m, cs[i]) {
        StaysNotOvertaken(bs, next, max, r, m, cs, k, i);
      }
    } else {
      var j := FirstSwitch(r, m, |r.scanned|);
      SwitchIsOvertaken(bs, next, max, r, m, cs, j);
    }
  }

  lemma ReadingStarts(bs: seq<seq<int>>, next: int, max: nat, r: Reading, m: nat)
    requires BucketsOk(bs) && Calls(bs, next, max, r) && m < |bs| && IsScanned(bs, r.states[0], m)
    ensures StateOk(bs, r.states[0]) && |r.states| == |r.scanned| + 1 == |r.batches| + 1
    ensures r.scanned != [] ==> r.scanned[0] == m
  {
    StartState(bs, next, r.states[0]);
    if r.scanned != [] {
      assert CallAt(bs, max, r, 0);
      ScannedOnce(bs, r.states[0], m, r.scanned[0]);
    }
  }

  /** The reading of three and more buckets with the exact condition for reading each value once, decided
      from the buckets, the bound and the batch size. */
  method ReadIntersection(bs: seq<seq<int>>, next: int, max: nat)
    returns (all: seq<int>, ghost st: seq<int>, ghost m: nat)
    requires BucketsOk(bs) && |bs| > 2 && max > 0
    ensures Ordered(all) && forall v :: v in all <==> Common(bs, v) && v >= next
    ensures StartsAt(bs, next, st) && StateOk(bs, st) && m < |bs| && IsScanned(bs, st, m)
    ensures var cs := CommonOf(bs, Rest(bs[m], st[m]));
            && (forall i :: 0 <= i < |cs| ==> Common(bs, cs[i]))
            && (Strict(all) <==> NeverOvertaken(bs, max, m, cs))
  {
    hide CommonOf, Rest, Common, IsOver, All, BucketsOk, Ordered, NeverOvertaken, NoSwitch, NeverDue;
    ghost var r;
    all, r := ReadToEnd(bs, next, max);
    st := r.states[0];
    m := SomeScanned(bs, st, |bs|);
    OnceExactly(bs, next, max, r, m);
    SwitchesNever(bs, next, max, r);
  }

  lemma {:induction false} SomeScanned(bs: seq<seq<int>>, st: seq<int>, n: nat) returns (m: nat)
    requires |st| == |bs| && 0 < n <= |bs|
    ensures m < n && IsScanned(bs[..n], st[..n], m)
    ensures n == |bs| ==> IsScanned(bs, st, m)
  {
    if n == 1 {
      m := 0;
    } else {
      var k := SomeScanned(bs, st, n - 1);
      assert forall i :: 0 <= i < n - 1 ==> bs[..n - 1][i] == bs[..n][i] && st[..n - 1][i] == st[..n][i];
      m := if |bs[n - 1]| - st[n - 1] < |bs[k]| - st[k] then n - 1 else k;
      forall i | 0 <= i < n - 1
        ensures |bs[k]| - st[k] <= |bs[i]| - st[i] && (i < k ==> |bs[k]| - st[k] < |bs[i]| - st[i])
      {
        assert bs[..n - 1][i] == bs[i] && st[..n - 1][i] == st[i];
      }
    }
    assert bs[..|bs|] == bs && st[..|st|] == st;
  }
}
