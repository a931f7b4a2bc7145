/**
 Reading the intersection of any number of buckets call by call: which values are repeated, and
 why the calls come to an end.
 */
module RepeatedBatches {
  import opened Buckets
  import opened BucketIntersection

  /** After a full batch: bucket `m` stands behind the last value, all others at it. */
  ghost predicate Parked(bs: seq<seq<int>>, st: seq<int>, m: nat, v: int)
  {
    && StateOk(bs, st) && m < |bs| && Common(bs, v)
    && OthersAt(bs, st, m, v) && 0 < st[m] <= |bs[m]| && bs[m][st[m] - 1] == v
  }

  /** Bucket `m` has the fewest values left, and no other has as few. */
  ghost predicate Smallest(bs: seq<seq<int>>, st: seq<int>, m: nat)
    requires |st| == |bs| && m < |bs|
  {
    forall i :: 0 <= i < |bs| && i != m ==> |bs[m]| - st[m] < |bs[i]| - st[i]
  }

  lemma StandsAt(b: seq<int>, v: int, k: int)
    requires Strict(b) && |b| < Max32 && v in b && Found(b, v, k)
    ensures 0 <= k < |b| && b[k] == v
  {
    var e :| 0 <= e < |b| && b[e] == v;
    assert IsLower(b, v, e);
    FoundAt(b, v, k, e);
  }

  /** After a call that scanned bucket `m`, another bucket has fewer values left, or as few and
      comes first. */
  ghost predicate SwitchDue(bs: seq<seq<int>>, st: seq<int>, m: nat)
    requires |st| == |bs| && m < |bs|
  {
    exists i :: 0 <= i < |bs| && Overtakes(bs, st, m, i)
  }

  predicate Overtakes(bs: seq<seq<int>>, st: seq<int>, m: nat, i: int)
    requires |st| == |bs| && m < |bs| && 0 <= i < |bs|
  {
    if i < m then |bs[i]| - st[i] <= |bs[m]| - st[m] else |bs[i]| - st[i] < |bs[m]| - st[m]
  }

  /** The remaining lengths tell which bucket the next call scans. */
  lemma SwitchesExactly(bs: seq<seq<int>>, st: seq<int>, m: nat, m': nat)
    requires |st| == |bs| && m < |bs| && m' < |bs| && IsScanned(bs, st, m')
    ensures m' != m <==> SwitchDue(bs, st, m)
  {
    if m' != m { assert Overtakes(bs, st, m, m'); }
  }

  /** The next call hands out the last value again exactly if the remaining lengths make it scan
      another bucket; otherwise it only hands out larger values. */
  lemma RepeatsExactly(bs: seq<seq<int>>, st: seq<int>, m: nat, v: int, m': nat, out: seq<int>, max: nat)
    requires BucketsOk(bs) && Parked(bs, st, m, v) && !Ended(bs, st) && m' < |bs| && IsScanned(bs, st, m') && max > 0
    requires IsPrefix(out, CommonOf(bs, Rest(bs[m'], st[m'])), max)
    ensures (out != [] && out[0] == v) <==> SwitchDue(bs, st, m)
    ensures out != [] && !SwitchDue(bs, st, m) ==> out[0] > v
    ensures m' != m <==> SwitchDue(bs, st, m)
  {
    hide Common, Strict, IsLower, SwitchDue, IsScanned, Parked, Ended, CommonOf, Rest, IsPrefix;
    ParkedState(bs, st, m, v);
    SwitchesExactly(bs, st, m, m');
    if m' == m {
      if out != [] { SameBucketGoesOn(bs, st, m, v, out, max); }
    } else {
      OtherBucketRepeats(bs, st, m, v, m', out, max);
    }
  }

  lemma SameBucketGoesOn(bs: seq<seq<int>>, st: seq<int>, m: nat, v: int, out: seq<int>, max: nat)
    requires BucketsOk(bs) && Parked(bs, st, m, v) && !Ended(bs, st) && out != []
    requires IsPrefix(out, CommonOf(bs, Rest(bs[m], st[m])), max)
    ensures out[0] > v
  {
    hide Common, Strict, IsLower, CommonOf, Rest;
    var all, s := CommonOf(bs, Rest(bs[m], st[m])), st[m];
    assert out[0] == all[0];
    CommonElements(bs, Rest(bs[m], s), all[0]);
    InRest(bs[m], s, all[0]);
    StrictNext(bs[m], s);
  }

  lemma OtherBucketRepeats(bs: seq<seq<int>>, st: seq<int>, m: nat, v: int, m': nat, out: seq<int>, max: nat)
    requires BucketsOk(bs) && Parked(bs, st, m, v) && m' < |bs| && m' != m && max > 0
    requires IsPrefix(out, CommonOf(bs, Rest(bs[m'], st[m'])), max)
    ensures out != [] && out[0] == v
  {
    hide Common, Strict, IsLower, CommonOf, Rest;
    var all := CommonOf(bs, Rest(bs[m'], st[m']));
    CommonIn(bs, v, m');
    StandsAt(bs[m'], v, st[m']);
    TakesCommon(bs, m', st[m']);
    assert all[0] == v;
  }

  lemma PrefixStrict(bs: seq<seq<int>>, b: seq<int>, s: int, out: seq<int>, max: nat)
    requires Strict(b) && 0 <= s && IsPrefix(out, CommonOf(bs, Rest(b, s)), max)
    ensures Strict(out)
  {
    hide Common, Rest;
    RestStrict(b, s);
    CommonStrict(bs, Rest(b, s));
    var all := CommonOf(bs, Rest(b, s));
    assert forall i :: 0 <= i < |out| ==> out[i] == all[i];
  }

  /** The next full batch goes beyond the last value, or repeats it alone from another bucket. */
  lemma NextBatch(bs: seq<seq<int>>, st: seq<int>, m: nat, v: int, m': nat, out: seq<int>, max: nat)
    requires BucketsOk(bs) && Parked(bs, st, m, v) && !Ended(bs, st) && m' < |bs| && IsScanned(bs, st, m')
    requires IsPrefix(out, CommonOf(bs, Rest(bs[m'], st[m'])), max) && |out| == max > 0
    ensures out[max - 1] > v || (max == 1 && m' != m && out[0] == v)
  {
    hide Common, Strict, IsLower, SwitchDue, IsPrefix, CommonOf, Ended;
    RepeatsExactly(bs, st, m, v, m', out, max);
    PrefixStrict(bs, bs[m'], st[m'], out, max);
    if max > 1 { StrictPair(out, 0, max - 1); }
  }

  lemma CommonIn(bs: seq<seq<int>>, v: int, i: nat)
    requires Common(bs, v) && i < |bs|
    ensures v in bs[i]
  {
  }

  lemma StrictNext(b: seq<int>, s: int)
    requires Strict(b) && 0 < s < |b|
    ensures b[s - 1] < b[s]
  {
  }

  lemma StrictPair(b: seq<int>, i: nat, j: nat)
    requires Strict(b) && i < j < |b|
    ensures b[i] < b[j]
  {
  }

  /** When the last value is repeated from another bucket, that bucket is the smallest one by
      far, so the next batch goes beyond the value. */
  lemma NowSmallest(bs: seq<seq<int>>, st: seq<int>, m: nat, v: int, m': nat, st': seq<int>)
    requires BucketsOk(bs) && Parked(bs, st, m, v) && Parked(bs, st', m', v) && m' != m && IsScanned(bs, st, m')
    ensures Smallest(bs, st', m')
  {
    hide Common, Strict, IsLower;
    CommonIn(bs, v, m');
    StandsAt(bs[m'], v, st[m']);
    SameValue(bs[m'], st[m'], st'[m'] - 1);
    forall i | 0 <= i < |bs| && i != m' ensures |bs[m']| - st'[m'] < |bs[i]| - st'[i] {
      CommonIn(bs, v, i);
      StandsAt(bs[i], v, st'[i]);
      if i == m {
        SameValue(bs[i], st[i] - 1, st'[i]);
      } else {
        StandsAt(bs[i], v, st[i]);
        SameValue(bs[i], st[i], st'[i]);
      }
    }
  }

  lemma SameValue(b: seq<int>, i: int, j: int)
    requires Strict(b) && 0 <= i < |b| && 0 <= j < |b| && b[i] == b[j]
    ensures i == j
  {
  }

  /** The common values beyond `v`. */
  ghost function Later(bs: seq<seq<int>>, v: int): (s: set<int>)
    requires |bs| > 0
  {
    set x | x in bs[0] && Common(bs, x) && x > v
  }

  lemma LaterShrinks(bs: seq<seq<int>>, v: int, w: int)
    requires |bs| > 0 && Common(bs, w) && w > v
    ensures Later(bs, w) < Later(bs, v)
  {
    assert w in bs[0];
    assert w in Later(bs, v) && w !in Later(bs, w);
  }

  lemma BatchParks(bs: seq<seq<int>>, st0: seq<int>, st: seq<int>, out: seq<int>, max: nat, t: int, m: nat)
    requires IsBatch(bs, st0, st, out, max, t) && |out| == max > 0 && m < |bs|
    requires OthersAt(bs, st, m, out[max - 1]) && 0 < st[m] <= |bs[m]| && bs[m][st[m] - 1] == out[max - 1]
    ensures Parked(bs, st, m, out[max - 1])
  {
    assert out[max - 1] in out;
  }

  /** What has been read so far, and that the rest is still ahead. */
  ghost predicate ReadSoFar(bs: seq<seq<int>>, next: int, all: seq<int>, st: seq<int>)
  {
    && StateOk(bs, st) && AtLeast(bs, st, next)
    && (forall v :: v in all ==> Common(bs, v) && v >= next)
    && (forall v :: Common(bs, v) && v >= next && v !in all ==> Ahead(bs, st, v))
  }

  lemma ReadMore(bs: seq<seq<int>>, next: int, all: seq<int>, st0: seq<int>, st: seq<int>, out: seq<int>, max: nat)
    requires ReadSoFar(bs, next, all, st0) && IsBatch(bs, st0, st, out, max, next)
    ensures ReadSoFar(bs, next, all + out, st)
    ensures out == [] && max > 0 ==> forall v :: v in all <==> Common(bs, v) && v >= next
  {
    hide Ahead, Common, AtLeast;
    BatchState(bs, st0, st, out, max, next);
  }

  /** How the last call left the buckets. */
  ghost predicate Settled(bs: seq<seq<int>>, st: seq<int>, n: nat, max: nat, m: nat, v: int)
  {
    && n <= max && m < |bs| == |st|
    && (n < max ==> Ended(bs, st)) && (n == max ==> Parked(bs, st, m, v))
  }

  /** The measure of repeated calls: common values beyond the last one, then whether the
      scanned bucket is the smallest. */
  lemma CallDecreases(bs: seq<seq<int>>, st: seq<int>, m: nat, v: int, m': nat, st': seq<int>, out: seq<int>, max: nat)
    requires BucketsOk(bs) && |bs| > 0 && Parked(bs, st, m, v) && !Ended(bs, st) && m' < |bs| && IsScanned(bs, st, m')
    requires IsPrefix(out, CommonOf(bs, Rest(bs[m'], st[m'])), max) && |out| == max > 0 &&
             Parked(bs, st', m', out[max - 1])
    ensures Later(bs, out[max - 1]) < Later(bs, v)
         || (Later(bs, out[max - 1]) == Later(bs, v) && !Smallest(bs, st, m) && Smallest(bs, st', m'))
  {
    hide Parked, Ended, IsScanned, IsPrefix, CommonOf, Later, Smallest, Rest;
    ParkedState(bs, st, m, v);
    NextBatch(bs, st, m, v, m', out, max);
    if out[max - 1] > v {
      ParkedCommon(bs, st', m', out[max - 1]);
      LaterShrinks(bs, v, out[max - 1]);
    } else {
      NowSmallest(bs, st, m, v, m', st');
      NotSmallest(bs, st, m, m');
    }
  }

  lemma ParkedState(bs: seq<seq<int>>, st: seq<int>, m: nat, v: int)
    requires Parked(bs, st, m, v)
    ensures StateOk(bs, st) && m < |bs|
  {
  }

  // ----- order and multiplicity -----

  /** Non-decreasing, with no value more than twice. */
  ghost predicate Ordered(s: seq<int>)
  {
    && (forall i, j :: 0 <= i < j < |s| ==> s[i] <= s[j])
    && (forall i, j :: 0 <= i < j - 1 < |s| - 1 ==> s[i] < s[j])
  }

  /** The last value occurs once. */
  ghost predicate LastIsSingle(s: seq<int>)
  {
    |s| >= 2 ==> s[|s| - 2] < s[|s| - 1]
  }

  lemma AppendLater(s: seq<int>, out: seq<int>)
    requires Ordered(s) && Strict(out) && out != [] && (s != [] ==> s[|s| - 1] < out[0])
    ensures Ordered(s + out) && (Strict(s + out) <==> Strict(s)) && LastIsSingle(s + out)
  {
    var r := s + out;
    assert forall i :: 0 <= i < |s| ==> s[i] <= s[|s| - 1];
    assert forall i :: 0 <= i < |out| ==> out[0] <= out[i];
    assert forall i :: 0 <= i < |s| ==> r[i] == s[i];
    assert forall i :: |s| <= i < |r| ==> r[i] == out[i - |s|];
    if Strict(r) { assert forall i, j :: 0 <= i < j < |s| ==> r[i] < r[j]; }
  }

  lemma AppendRepeated(s: seq<int>, out: seq<int>)
    requires Ordered(s) && Strict(out) && out != [] && s != [] && s[|s| - 1] == out[0] && LastIsSingle(s)
    ensures Ordered(s + out) && !Strict(s + out) && (|out| > 1 ==> LastIsSingle(s + out))
  {
    var r, n := s + out, |s|;
    assert forall i :: 0 <= i < n ==> r[i] == s[i];
    assert forall i :: n <= i < |r| ==> r[i] == out[i - n];
    assert forall i :: 0 <= i < n ==> s[i] <= s[n - 1];
    assert forall i :: 0 <= i < n - 1 ==> s[i] < s[n - 1] by {
      forall i | 0 <= i < n - 1 ensures s[i] < s[n - 1] { if i < n - 2 { assert s[i] <= s[n - 2]; } }
    }
    assert forall i :: 0 < i < |out| ==> out[0] < out[i];
    assert r[n - 1] == r[n];
  }

  /** Every call that handed out values scanned the same bucket. */
  ghost predicate NoSwitch(scanned: seq<nat>)
  {
    forall j :: 0 < j < |scanned| ==> scanned[j] == scanned[j - 1]
  }

  lemma NoSwitchNext(scanned: seq<nat>, m: nat, m': nat)
    requires scanned != [] && scanned[|scanned| - 1] == m
    ensures NoSwitch(scanned + [m']) <==> NoSwitch(scanned) && m' == m
  {
    var r := scanned + [m'];
    if NoSwitch(r) {
      assert r[|scanned|] == r[|scanned| - 1];
      forall j | 0 < j < |scanned| ensures scanned[j] == scanned[j - 1] { assert r[j] == r[j - 1]; }
    }
  }

  /** What the values read so far look like, and how the last call left the buckets. */
  ghost predicate InOrder(bs: seq<seq<int>>, st: seq<int>, n: nat, max: nat, m: nat, v: int, all: seq<int>,
                          scanned: seq<nat>)
  {
    && Ordered(all) && (Strict(all) <==> NoSwitch(scanned)) && |st| == |bs| && m < |bs|
    && (n > 0 ==> scanned != [] && scanned[|scanned| - 1] == m)
    && (n == max ==> all != [] && all[|all| - 1] == v && (LastIsSingle(all) || Smallest(bs, st, m)))
  }

  lemma SmallestStays(bs: seq<seq<int>>, st: seq<int>, m: nat)
    requires |st| == |bs| && m < |bs| && Smallest(bs, st, m)
    ensures !SwitchDue(bs, st, m)
  {
  }

  /** One more call that hands out values keeps the order. */
  lemma StaysInOrder(bs: seq<seq<int>>, st: seq<int>, max: nat, m: nat, v: int, all: seq<int>, scanned: seq<nat>,
                     st': seq<int>, m': nat, out: seq<int>)
    requires BucketsOk(bs) && InOrder(bs, st, max, max, m, v, all, scanned) && max > 0
    requires Parked(bs, st, m, v) && !Ended(bs, st) && m' < |bs| && IsScanned(bs, st, m') && out != []
    requires IsPrefix(out, CommonOf(bs, Rest(bs[m'], st[m'])), max)
    requires |st'| == |bs| && (|out| == max ==> Parked(bs, st', m', out[max - 1]))
    ensures InOrder(bs, st', |out|, max, m', out[|out| - 1], all + out, scanned + [m'])
  {
    hide Parked, Ended, IsScanned, IsPrefix, CommonOf, Smallest, Rest, SwitchDue, Ordered, NoSwitch, LastIsSingle;
    hide Strict;
    RepeatsExactly(bs, st, m, v, m', out, max);
    ParkedState(bs, st, m, v);
    PrefixIsStrict(bs, st, m', out, max);
    NoSwitchNext(scanned, m, m');
    if SwitchDue(bs, st, m) {
      if Smallest(bs, st, m) { SmallestStays(bs, st, m); }
      AppendRepeated(all, out);
      if |out| == 1 && max == 1 {
        NowSmallest(bs, st, m, v, m', st');
      }
    } else {
      AppendLater(all, out);
    }
  }

  lemma PrefixIsStrict(bs: seq<seq<int>>, st: seq<int>, m: nat, out: seq<int>, max: nat)
    requires BucketsOk(bs) && StateOk(bs, st) && m < |bs| && IsPrefix(out, CommonOf(bs, Rest(bs[m], st[m])), max)
    ensures Strict(out)
  {
    PrefixStrict(bs, bs[m], st[m], out, max);
  }

  lemma FirstInOrder(bs: seq<seq<int>>, st0: seq<int>, st: seq<int>, max: nat, m: nat, out: seq<int>)
    requires BucketsOk(bs) && StateOk(bs, st0) && |st| == |bs| && m < |bs| && max > 0
    requires out != [] ==> IsPrefix(out, CommonOf(bs, Rest(bs[m], st0[m])), max)
    ensures InOrder(bs, st, |out|, max, m, if out == [] then 0 else out[|out| - 1], out, if out == [] then [] else [m])
  {
    hide IsPrefix, CommonOf, Rest;
    if out != [] {
      PrefixIsStrict(bs, st0, m, out, max);
    }
  }

  // ----- readings -----

  /** The calls of a reading that handed out values: the state before each of them and after the last one,
      the bucket each of them scanned, and what it handed out. */
  datatype Reading = Reading(states: seq<seq<int>>, scanned: seq<nat>, batches: seq<seq<int>>)

  /** One call: it scans the first of the buckets with the fewest values left. */
  ghost predicate IsCall(bs: seq<seq<int>>, max: nat, st: seq<int>, m: nat, out: seq<int>, st': seq<int>)
  {
    && StateOk(bs, st) && StateOk(bs, st') && m < |bs| && !Ended(bs, st) && IsScanned(bs, st, m)
    && out != [] && IsPrefix(out, CommonOf(bs, Rest(bs[m], st[m])), max)
    && if |out| == max then Parked(bs, st', m, out[max - 1]) else Ended(bs, st')
  }

  /** A call in this state hands out nothing. */
  ghost predicate IsOver(bs: seq<seq<int>>, st: seq<int>)
  {
    && StateOk(bs, st)
    && (Ended(bs, st) || exists m: nat :: m < |bs| && IsScanned(bs, st, m) && CommonOf(bs, Rest(bs[m], st[m])) == [])
  }

  ghost predicate StartsAt(bs: seq<seq<int>>, next: int, st: seq<int>)
  {
    |st| == |bs| && forall i :: 0 <= i < |bs| ==> Found(bs[i], next, st[i])
  }

  ghost predicate Calls(bs: seq<seq<int>>, next: int, max: nat, r: Reading)
  {
    && |r.states| == |r.scanned| + 1 == |r.batches| + 1 && StartsAt(bs, next, r.states[0])
    && forall j: nat :: j < |r.batches| ==> CallAt(bs, max, r, j)
  }

  ghost predicate CallAt(bs: seq<seq<int>>, max: nat, r: Reading, j: nat)
    requires j < |r.batches| == |r.scanned| && j + 1 < |r.states|
  {
    IsCall(bs, max, r.states[j], r.scanned[j], r.batches[j], r.states[j + 1])
  }

  /** A reading from `next` until a call hands out nothing. */
  ghost predicate IsReading(bs: seq<seq<int>>, next: int, max: nat, r: Reading)
  {
    Calls(bs, next, max, r) && IsOver(bs, r.states[|r.batches|])
  }

  /** What the batches hand out together. */
  ghost function All(batches: seq<seq<int>>): (all: seq<int>)
  {
    if batches == [] then [] else All(batches[..|batches| - 1]) + batches[|batches| - 1]
  }

  /** After no call does another bucket overtake the scanned one. */
  ghost predicate NeverDue(bs: seq<seq<int>>, r: Reading)
    requires |r.states| == |r.scanned| + 1
    requires forall j :: 0 <= j < |r.scanned| ==> r.scanned[j] < |bs| == |r.states[j]|
  {
    forall j: nat :: 0 < j < |r.scanned| ==> !SwitchDue(bs, r.states[j], r.scanned[j - 1])
  }

  lemma CallsInRange(bs: seq<seq<int>>, next: int, max: nat, r: Reading)
    requires Calls(bs, next, max, r)
    ensures forall j :: 0 <= j < |r.scanned| ==> r.scanned[j] < |bs| == |r.states[j]|
  {
    forall j: nat | j < |r.scanned| ensures r.scanned[j] < |bs| == |r.states[j]| { assert CallAt(bs, max, r, j); }
  }

  lemma NextIsScanned(bs: seq<seq<int>>, next: int, max: nat, r: Reading, j: nat)
    requires Calls(bs, next, max, r) && 0 < j < |r.scanned|
    ensures r.scanned[j] < |bs| == |r.states[j]| && r.scanned[j - 1] < |bs|
    ensures r.scanned[j] != r.scanned[j - 1] <==> SwitchDue(bs, r.states[j], r.scanned[j - 1])
  {
    hide IsPrefix, CommonOf, Rest, Ended, Parked, SwitchDue;
    assert CallAt(bs, max, r, j) && CallAt(bs, max, r, j - 1);
    SwitchesExactly(bs, r.states[j], r.scanned[j - 1], r.scanned[j]);
  }

  /** The remaining lengths tell whether the scanned bucket ever changes. */
  lemma SwitchesNever(bs: seq<seq<int>>, next: int, max: nat, r: Reading)
    requires Calls(bs, next, max, r)
    ensures forall j :: 0 <= j < |r.scanned| ==> r.scanned[j] < |bs| == |r.states[j]|
    ensures NoSwitch(r.scanned) <==> NeverDue(bs, r)
  {
    hide Calls, SwitchDue;
    CallsInRange(bs, next, max, r);
    CallsSizes(bs, next, max, r);
    forall j: nat | 0 < j < |r.scanned|
      ensures r.scanned[j] != r.scanned[j - 1] <==> SwitchDue(bs, r.states[j], r.scanned[j - 1])
    {
      NextIsScanned(bs, next, max, r, j);
    }
  }

  lemma CallsSizes(bs: seq<seq<int>>, next: int, max: nat, r: Reading)
    requires Calls(bs, next, max, r)
    ensures |r.states| == |r.scanned| + 1 == |r.batches| + 1
  {
  }

  function Longer(r: Reading, m: nat, out: seq<int>, st: seq<int>): (r': Reading)
  {
    Reading(r.states + [st], r.scanned + [m], r.batches + [out])
  }

  lemma OneMoreCall(bs: seq<seq<int>>, next: int, max: nat, r: Reading, m: nat, out: seq<int>, st: seq<int>)
    requires Calls(bs, next, max, r) && IsCall(bs, max, r.states[|r.batches|], m, out, st)
    ensures Calls(bs, next, max, Longer(r, m, out, st))
    ensures All(Longer(r, m, out, st).batches) == All(r.batches) + out
  {
    hide IsCall;
    var r' := Longer(r, m, out, st);
    forall j: nat | j < |r'.batches| ensures CallAt(bs, max, r', j) {
      if j < |r.batches| { assert CallAt(bs, max, r, j); }
    }
    assert r'.batches[..|r.batches|] == r.batches;
  }

  /** The reading so far, and how the last call ended. */
  ghost predicate InReading(bs: seq<seq<int>>, next: int, max: nat, r: Reading, n: nat, all: seq<int>, st: seq<int>)
  {
    && Calls(bs, next, max, r) && all == All(r.batches)
    && if n > 0 then r.states[|r.batches|] == st else IsOver(bs, r.states[|r.batches|])
  }

  ghost function Extended(r: Reading, n: nat, m: nat, out: seq<int>, st: seq<int>): (r': Reading)
  {
    if n == 0 then r else Longer(r, m, out, st)
  }

  lemma Recorded(bs: seq<seq<int>>, next: int, max: nat, r: Reading, st: seq<int>, m: nat, all: seq<int>, out: seq<int>,
                 st': seq<int>, v: int)
    requires Calls(bs, next, max, r) && all == All(r.batches) && r.states[|r.batches|] == st && StateOk(bs, st)
    requires m < |bs| && IsScanned(bs, st, m) && max > 0 && (Ended(bs, st) ==> out == [])
    requires !Ended(bs, st) ==> IsPrefix(out, CommonOf(bs, Rest(bs[m], st[m])), max)
    requires Settled(bs, st', |out|, max, m, v) && (|out| == max ==> v == out[max - 1]) && StateOk(bs, st')
    ensures InReading(bs, next, max, Extended(r, |out|, m, out, st'), |out|, all + out, st')
  {
    hide Calls, Ended, CommonOf, Rest, Parked, IsScanned, All;
    if out == [] {
      assert all + out == all;
    } else {
      OneMoreCall(bs, next, max, r, m, out, st');
      CallsSizes(bs, next, max, r);
    }
  }

  lemma FirstReading(bs: seq<seq<int>>, next: int, max: nat, st: seq<int>)
    requires StartsAt(bs, next, st)
    ensures Calls(bs, next, max, Reading([st], [], [])) && All([]) == []
  {
  }

  /** Reading three and more buckets until a call returns nothing comes to an end.  Exactly the
      common values from `next` on are handed out, in order and at most twice each, and each of
      them once exactly if no other bucket ever overtakes the scanned one between two calls. */
  method ReadToEnd(bs: seq<seq<int>>, next: int, max: nat) returns (all: seq<int>, ghost r: Reading)
    requires BucketsOk(bs) && |bs| > 2 && max > 0
    ensures forall v :: v in all <==> Common(bs, v) && v >= next
    ensures IsReading(bs, next, max, r) && all == All(r.batches) && Ordered(all)
    ensures forall j :: 0 <= j < |r.scanned| ==> r.scanned[j] < |bs| == |r.states[j]|
    ensures Strict(all) <==> NeverDue(bs, r)
  {
    hide AtLeast, Strict, Ahead, Common, IsBatch, OthersAt, Ended, IsPrefix, CommonOf, Parked, Smallest, Later;
    hide ReadSoFar, InReading, Calls, IsOver, NeverDue, All;
    hide IsScanned, Rest, BucketsOk, Ordered, NoSwitch, InOrder;
    var state, result := new int[|bs|], new int[max];
    Init(bs, state, next);
    all := [];
    StartReading(bs, next, state[..]);
    ghost var st := state[..];
    FirstReading(bs, next, max, st);
    var n, m := NextCall(bs, state, result, max, next, all);
    Recorded(bs, next, max, Reading([st], [], []), st, m, all, result[..n], state[..], result[max - 1]);
    assert all + result[..n] == result[..n];
    all := result[..n];
    r := Extended(Reading([st], [], []), n, m, all, state[..]);
    FirstInOrder(bs, st, state[..], max, m, all);
    assert r.scanned == if all == [] then [] else [m];
    ghost var last := if n == 0 then 0 else result[n - 1];
    while n > 0
      invariant ReadSoFar(bs, next, all, state[..]) && Settled(bs, state[..], n, max, m, result[max - 1])
      invariant n == 0 ==> forall v :: v in all <==> Common(bs, v) && v >= next
      invariant InOrder(bs, state[..], n, max, m, last, all, r.scanned) && (n == max ==> last == result[max - 1])
      invariant InReading(bs, next, max, r, n, all, state[..])
      decreases if n == max then 2 else if n > 0 then 1 else 0,
                if n == max then Later(bs, result[max - 1]) else {},
                if Smallest(bs, state[..], m) then 0 else 1
    {
      st := state[..];
      ghost var m0, v0, n0 := m, result[max - 1], n;
      StillReading(bs, next, max, r, n, all, st);
      n, m := NextCall(bs, state, result, max, next, all);
      Recorded(bs, next, max, r, st, m, all, result[..n], state[..], result[max - 1]);
      if n == max { CallDecreases(bs, st, m0, v0, m, state[..], result[..n], max); }
      if n > 0 {
        StaysInOrder(bs, st, max, m0, v0, all, r.scanned, state[..], m, result[..n]);
        last := result[n - 1];
      } else {
        assert all + result[..n] == all;
        StopInOrder(bs, st, n0, max, m0, v0, last, all, r.scanned, state[..], m);
      }
      r := Extended(r, n, m, result[..n], state[..]);
      all := all + result[..n];
    }
    EndInOrder(bs, state[..], max, m, last, all, r.scanned);
    ReadingEnds(bs, next, max, r, all, state[..]);
    SwitchesNever(bs, next, max, r);
  }

  lemma StillReading(bs: seq<seq<int>>, next: int, max: nat, r: Reading, n: nat, all: seq<int>, st: seq<int>)
    requires InReading(bs, next, max, r, n, all, st) && n > 0 && ReadSoFar(bs, next, all, st)
    ensures Calls(bs, next, max, r) && all == All(r.batches) && StateOk(bs, st)
    ensures |r.states| == |r.batches| + 1 && r.states[|r.batches|] == st
  {
  }

  lemma ReadingEnds(bs: seq<seq<int>>, next: int, max: nat, r: Reading, all: seq<int>, st: seq<int>)
    requires InReading(bs, next, max, r, 0, all, st)
    ensures IsReading(bs, next, max, r) && all == All(r.batches)
  {
  }

  lemma StopInOrder(bs: seq<seq<int>>, st: seq<int>, n: nat, max: nat, m: nat, v: int, last: int, all: seq<int>,
                    scanned: seq<nat>,
                    st': seq<int>, m': nat)
    requires InOrder(bs, st, n, max, m, last, all, scanned) && |st'| == |bs| && m' < |bs| && max > 0
    ensures InOrder(bs, st', 0, max, m', last, all, scanned)
  {
  }

  lemma EndInOrder(bs: seq<seq<int>>, st: seq<int>, max: nat, m: nat, last: int, all: seq<int>, scanned: seq<nat>)
    requires InOrder(bs, st, 0, max, m, last, all, scanned)
    ensures Ordered(all) && (Strict(all) <==> NoSwitch(scanned))
  {
  }

  /** One call, with what it means for the values read so far. */
  method NextCall(bs: seq<seq<int>>, state: array<int>, result: array<int>, max: nat, ghost next: int,
                  ghost all: seq<int>)
    returns (n: nat, ghost m: nat)
    requires BucketsOk(bs) && |bs| > 2 && state.Length == |bs| && max == result.Length && max > 0 && state != result
    requires ReadSoFar(bs, next, all, state[..])
    modifies state, result
    ensures n <= max && ReadSoFar(bs, next, all + result[..n], state[..]) &&
            Settled(bs, state[..], n, max, m, result[max - 1])
    ensures Ended(bs, old(state[..])) ==> n == 0
    ensures n == 0 ==> forall v :: v in all <==> Common(bs, v) && v >= next
    ensures IsScanned(bs, old(state[..]), m) && StateOk(bs, state[..])
    ensures !Ended(bs, old(state[..])) ==>
            0 <= old(state[m]) && IsPrefix(result[..n], CommonOf(bs, Rest(bs[m], old(state[m]))), max)
  {
    hide AtLeast, Strict, Ahead, Common, IsBatch, OthersAt, Ended, IsPrefix, CommonOf, Parked, IsScanned, Rest;
    hide BucketsOk;
    ghost var st := state[..];
    n, m := PopulateMany(bs, state, result, max, next);
    ReadMore(bs, next, all, st, state[..], result[..n], max);
    if n == max { BatchParks(bs, st, state[..], result[..n], max, next, m); }
  }

  lemma StartReading(bs: seq<seq<int>>, next: int, st: seq<int>)
    requires StateOk(bs, st) && AtLeast(bs, st, next) && |bs| > 0
    requires forall v :: Ahead(bs, st, v) <==> Common(bs, v) && (|bs| > 0 ==> v >= next)
    ensures ReadSoFar(bs, next, [], st)
  {
  }

  lemma ParkedCommon(bs: seq<seq<int>>, st: seq<int>, m: nat, v: int)
    requires Parked(bs, st, m, v)
    ensures Common(bs, v)
  {
  }

  lemma NotSmallest(bs: seq<seq<int>>, st: seq<int>, m: nat, m': nat)
    requires |st| == |bs| && m < |bs| && m' < |bs| && m' != m && IsScanned(bs, st, m')
    ensures !Smallest(bs, st, m)
  {
    assert |bs[m']| - st[m'] <= |bs[m]| - st[m];
  }

  // ----- a repetition for every batch size -----

  /** Values from `lo` up to `hi`. */
  ghost predicate Counts(s: seq<int>, lo: int, hi: int)
  {
    lo <= hi && |s| == hi - lo && forall i :: 0 <= i < |s| ==> s[i] == lo + i
  }

  /** A strictly increasing list of all values of a range counts through it. */
  lemma {:induction false} StrictCounts(s: seq<int>, lo: int, hi: int)
    requires Strict(s) && lo <= hi && forall v :: v in s <==> lo <= v < hi
    ensures Counts(s, lo, hi)
    decreases hi - lo
  {
    assert s != [] ==> s[0] in s;
    if lo < hi {
      assert lo in s;
      var i :| 0 <= i < |s| && s[i] == lo;
      assert s[0] in s;
      assert i == 0;
      var rest := s[1..];
      forall v ensures v in rest <==> lo + 1 <= v < hi {
        assert s == [lo] + rest;
        assert v in s <==> v == lo || v in rest;
        if v in rest {
          var k :| 0 <= k < |rest| && rest[k] == v;
          assert s[k + 1] == v && s[0] < s[k + 1];
        }
      }
      StrictCounts(rest, lo + 1, hi);
      assert forall k :: 0 < k < |s| ==> s[k] == rest[k - 1];
    }
  }

  /** Three buckets that share `max` values: the first one goes on behind them, the other two
      start with values of their own. */
  ghost predicate IsExample(bs: seq<seq<int>>, max: nat)
  {
    |bs| == 3 && Counts(bs[0], 3, max + 5) && Counts(bs[1], 0, max + 3) && Counts(bs[2], 0, max + 3)
  }

  lemma InCounts(s: seq<int>, lo: int, hi: int, v: int)
    requires Counts(s, lo, hi)
    ensures v in s <==> lo <= v < hi
  {
    if lo <= v < hi { assert s[v - lo] == v; }
  }

  lemma ExampleOk(bs: seq<seq<int>>, max: nat)
    requires IsExample(bs, max) && max + 3 < Max32
    ensures BucketsOk(bs) && forall v :: Common(bs, v) <==> 3 <= v < max + 3
  {
    forall v ensures Common(bs, v) <==> 3 <= v < max + 3 {
      InCounts(bs[0], 3, max + 5, v);
      InCounts(bs[1], 0, max + 3, v);
      InCounts(bs[2], 0, max + 3, v);
      if Common(bs, v) { assert v in bs[0] && v in bs[1]; }
    }
  }

  lemma CommonCounts(bs: seq<seq<int>>, max: nat, a: seq<int>, lo: int)
    requires IsExample(bs, max) && max + 3 < Max32 && Strict(a) && 3 <= lo <= max + 3
    requires forall v :: v in a && Common(bs, v) <==> lo <= v < max + 3
    ensures Counts(CommonOf(bs, a), lo, max + 3)
  {
    hide Common;
    CommonStrict(bs, a);
    forall v ensures v in CommonOf(bs, a) <==> lo <= v < max + 3 { CommonElements(bs, a, v); }
    StrictCounts(CommonOf(bs, a), lo, max + 3);
  }

  /** What both calls of the example scan. */
  lemma ExampleScans(bs: seq<seq<int>>, max: nat)
    requires IsExample(bs, max) && 0 < max && max + 3 < Max32
    ensures Counts(CommonOf(bs, Rest(bs[0], 0)), 3, max + 3)
    ensures CommonOf(bs, Rest(bs[1], max + 2)) == [max + 2]
  {
    ExampleOk(bs, max);
    hide Common;
    assert Rest(bs[0], 0) == bs[0];
    forall v ensures v in bs[0] && Common(bs, v) <==> 3 <= v < max + 3 { InCounts(bs[0], 3, max + 5, v); }
    CommonCounts(bs, max, bs[0], 3);
    var last := Rest(bs[1], max + 2);
    assert last == [max + 2];
    CommonCounts(bs, max, last, max + 2);
  }

  /** Batches of any size can repeat a value: the last value of a full batch comes again first
      in the next one. */
  method ValueCanRepeat(max: nat) returns (bs: seq<seq<int>>, first: seq<int>, second: seq<int>)
    requires 0 < max && max + 3 < Max32
    ensures BucketsOk(bs) && |bs| == 3
    ensures |first| == max && second != [] && second[0] == first[max - 1]
  {
    hide IsBatch, AtLeast, Found, Common, CommonOf, Rest, Ahead, BucketsOk, Strict;
    var long, short := seq(max + 2, i requires 0 <= i < max + 2 => i + 3),
        seq(max + 3, i requires 0 <= i < max + 3 => i);
    bs := [long, short, short];
    ExampleOk(bs, max);
    ExampleScans(bs, max);
    var state, result := new int[3], new int[max];
    Init(bs, state, 0);
    FoundAt(long, 0, state[0], 0);
    FoundAt(short, 0, state[1], 0);
    FoundAt(short, 0, state[2], 0);
    var n;
    ghost var m;
    n, m := PopulateMany(bs, state, result, max, 0);
    assert m == 0;
    ExampleFull(CommonOf(bs, Rest(bs[0], 0)), result[..n], max);
    first := result[..n];
    assert first[max - 1] == result[n - 1] == max + 2;
    OtherAt(bs, state[..], m, 1, max + 2);
    OtherAt(bs, state[..], m, 2, max + 2);
    FoundAt(short, max + 2, state[1], max + 2);
    FoundAt(short, max + 2, state[2], max + 2);
    assert state[0] == max;
    ExampleAfter(bs, max, state[..]);
    n, m := PopulateMany(bs, state, result, max, 0);
    assert m == 1;
    second := result[..n];
    ExampleSecond(CommonOf(bs, Rest(bs[1], max + 2)), second, max);
  }

  lemma ExampleFull(all: seq<int>, out: seq<int>, max: nat)
    requires Counts(all, 3, max + 3) && IsPrefix(out, all, max) && max > 0
    ensures |out| == max && out[max - 1] == max + 2
  {
    assert out[|out| - 1] == all[|out| - 1];
  }

  lemma ExampleSecond(all: seq<int>, out: seq<int>, max: nat)
    requires all == [max + 2] && IsPrefix(out, all, max) && max > 0
    ensures out != [] && out[0] == max + 2
  {
  }

  lemma ExampleAfter(bs: seq<seq<int>>, max: nat, st: seq<int>)
    requires IsExample(bs, max) && max > 0 && st == [max, max + 2, max + 2]
    ensures StateOk(bs, st) && AtLeast(bs, st, 0) && !Ended(bs, st)
  {
  }

  lemma OtherAt(bs: seq<seq<int>>, st: seq<int>, m: nat, q: nat, v: int)
    requires |st| == |bs| && OthersAt(bs, st, m, v) && q < |bs| && q != m
    ensures Found(bs[q], v, st[q])
  {
  }
}
