/**
 One episode of the adaptive join, from resume point to reward, and the whole join.
 */
module SkinnerJoin {
  import opened Wrappers
  import opened Sequences
  import opened Vectors
  import opened ProgressTrees
  import opened JoinStates
  import opened PredicateFlags
  import opened JoinCode
  import opened JoinScan
  import opened JoinEngine
  import opened Rewards

  /** The vectors that need no more work: those emitted and those that do not match. */
  ghost function Processed(q: Query, emitted: set<seq<int>>): (s: iset<seq<int>>)
  {
    iset v | InRange(q.card, v) && (Matches(q, v) ==> v in emitted)
  }

  /** The vector reported for an episode that ended with `status` at position `c` of the order: the
      last one below the rejected rows, or the one before the accepted rows.  Nothing lies before
      the very first vector, and the report wraps around to the last one. */
  ghost predicate IsLast(order: seq<nat>, card: seq<int>, status: int, c: nat, idx: seq<int>, last: seq<int>)
    requires IsOrder(order, |card|) && |idx| == |card| && c < |order|
  {
    && InRange(card, last)
    && if status != -2 then
         forall j :: 0 <= j < |order| ==> last[order[j]] == if j <= c then idx[order[j]] else card[order[j]] - 1
       else if forall j :: 0 <= j <= c ==> idx[order[j]] == 0 then IsMaximal(card, last)
       else IsBefore(order, card, c, idx, last)
  }

  /** `last` comes right before the first vector that starts with the rows of `idx` up to `c`. */
  ghost predicate IsBefore(order: seq<nat>, card: seq<int>, c: nat, idx: seq<int>, last: seq<int>)
    requires IsOrder(order, |card|) && |idx| == |card| == |last| && c < |order|
  {
    exists b: nat :: b <= c &&
        IsPredecessor(View(order, card), View(order, Padded(order, c, idx)), View(order, last), b)
  }

  /** The last vector an episode that ended with `status` at table `tableCtr` accounts for. */
  method ComputeLastCompletedTuple(order: seq<nat>, card: seq<int>, status: int, tableCtr: nat, idx: seq<int>,
                                   ghost c: nat) returns (last: seq<int>)
    requires IsOrder(order, |card|) && 0 < |card| && |idx| == |card| && c < |order| && order[c] == tableCtr
    requires forall t :: 0 <= t < |card| ==> 0 < card[t]
    requires forall j :: 0 <= j <= c ==> 0 <= idx[order[j]] < card[order[j]]
    ensures IsLast(order, card, status, c, idx, last)
  {
    last := seq(|order|, _ => 0);
    var position := -1;
    for i := 0 to |order|
      invariant |last| == |card|
      invariant forall j :: 0 <= j < i ==> last[order[j]] == idx[order[j]]
      invariant position == if c < i then c else -1
    {
      var table := order[i];
      last := last[table := idx[table]];
      if tableCtr == table {
        position := i;
      }
    }

    if status != -2 {
      for i := position + 1 to |order|
        invariant |last| == |card|
        invariant forall j :: 0 <= j < i ==> last[order[j]] == if j <= c then idx[order[j]] else card[order[j]] - 1
      {
        var table := order[i];
        last := last[table := card[table] - 1];
      }
      RangeByPosition(card, order, last);
      return;
    }

    for i := position + 1 to |order|
      invariant |last| == |card|
      invariant forall j :: 0 <= j < i ==> last[order[j]] == if j <= c then idx[order[j]] else 0
    {
      last := last[order[i] := 0];
    }
    RangeByPosition(card, order, last);
    PaddedView(order, c, idx, last);
    last := WrappingDecrement(card, order, last);
    PredecessorOfPadded(order, card, c, idx, last);
  }

  /** The rows of `idx` up to position `c` of the order, zero afterwards. */
  ghost function Padded(order: seq<nat>, c: nat, idx: seq<int>): (v: seq<int>)
    requires IsOrder(order, |idx|) && c < |order|
    ensures |v| == |idx|
    ensures forall j :: 0 <= j < |order| ==> v[order[j]] == if j <= c then idx[order[j]] else 0
  {
    var v := seq(|idx|, t requires 0 <= t < |idx| => if t in order[..c + 1] then idx[t] else 0);
    assert forall j :: 0 <= j < |order| ==> (order[j] in order[..c + 1] <==> j <= c) by {
      forall j | 0 <= j < |order| ensures order[j] in order[..c + 1] <==> j <= c {
        if j <= c { assert order[..c + 1][j] == order[j]; }
      }
    }
    v
  }

  lemma PaddedView(order: seq<nat>, c: nat, idx: seq<int>, v: seq<int>)
    requires IsOrder(order, |idx|) && c < |order| && |v| == |idx|
    requires forall j :: 0 <= j < |order| ==> v[order[j]] == if j <= c then idx[order[j]] else 0
    ensures View(order, v) == View(order, Padded(order, c, idx))
    ensures AllZero(View(order, v)) <==> forall j :: 0 <= j <= c ==> idx[order[j]] == 0
  {
    var w := View(order, v);
    assert forall j :: 0 <= j < |order| ==> w[j] == if j <= c then idx[order[j]] else 0;
  }

  /** The borrow stops at a nonzero digit, hence not in the padding. */
  lemma PredecessorOfPadded(order: seq<nat>, card: seq<int>, c: nat, idx: seq<int>, last: seq<int>)
    requires IsOrder(order, |card|) && c < |order| && |idx| == |card| == |last|
    ensures (exists b :: IsPredecessor(View(order, card), View(order, Padded(order, c, idx)), View(order, last), b)) ==>
              IsBefore(order, card, c, idx, last)
  {
    var w := View(order, Padded(order, c, idx));
    if b: nat :| IsPredecessor(View(order, card), w, View(order, last), b) {
      assert w[b] == if b <= c then idx[order[b]] else 0;
    }
  }

  lemma RangeByPosition(card: seq<int>, order: seq<nat>, v: seq<int>)
    requires IsOrder(order, |card|) && |v| == |card|
    requires forall j :: 0 <= j < |order| ==> 0 <= v[order[j]] < card[order[j]]
    ensures InRange(card, v)
  {
    forall t: nat | t < |card| ensures 0 <= v[t] < card[t] {
      assert t in order;
      var j :| 0 <= j < |order| && order[j] == t;
    }
  }

  /** Decrements along the order; the zero vector wraps around to the maximal one. */
  method WrappingDecrement(card: seq<int>, order: seq<nat>, v: seq<int>) returns (u: seq<int>)
    requires IsOrder(order, |card|) && InRange(card, v)
    ensures InRange(card, u)
    ensures AllZero(View(order, v)) ==> IsMaximal(card, u)
    ensures !AllZero(View(order, v)) ==> exists b :: IsPredecessor(View(order, card), View(order, v), View(order, u), b)
  {
    u := v;
    var i := |order| - 1;
    while i >= 0
      invariant -1 <= i < |order| && InRange(card, u)
      invariant forall j :: 0 <= j <= i ==> u[order[j]] == v[order[j]]
      invariant forall j :: i < j < |order| ==> v[order[j]] == 0 && u[order[j]] == card[order[j]] - 1
    {
      var table := order[i];
      if u[table] == 0 {
        u := u[table := card[table] - 1];
      } else {
        u := u[table := u[table] - 1];
        BorrowAt(card, order, v, u, i);
        return;
      }
      i := i - 1;
    }
    MaximalByPosition(card, order, u);
  }

  lemma BorrowAt(card: seq<int>, order: seq<nat>, v: seq<int>, u: seq<int>, i: nat)
    requires IsOrder(order, |card|) && |v| == |u| == |card| && i < |order|
    requires forall j :: 0 <= j < i ==> u[order[j]] == v[order[j]]
    requires 0 < v[order[i]] && u[order[i]] == v[order[i]] - 1
    requires forall j :: i < j < |order| ==> v[order[j]] == 0 && u[order[j]] == card[order[j]] - 1
    ensures IsPredecessor(View(order, card), View(order, v), View(order, u), i)
    ensures !AllZero(View(order, v))
  {
    assert View(order, v)[i] != 0;
  }

  lemma MaximalByPosition(card: seq<int>, order: seq<nat>, u: seq<int>)
    requires IsOrder(order, |card|) && |u| == |card|
    requires forall j :: 0 <= j < |order| ==> u[order[j]] == card[order[j]] - 1
    ensures IsMaximal(card, u)
  {
    forall t: nat | t < |card| ensures u[t] == card[t] - 1 {
      assert t in order;
      var j :| 0 <= j < |order| && order[j] == t;
    }
  }

  // ----- what an episode accounts for -----

  /** The final vector bounds exactly what an interrupted episode has reached. */
  lemma FinalOfRejected(e: Episode, c: nat, idx: seq<int>, last: seq<int>, v: seq<int>)
    requires EpisodeOk(e) && c < |e.order| && |idx| == |last| == |e.q.card| && InRange(e.q.card, v)
    requires forall j :: 0 <= j < |e.order| ==>
             last[e.order[j]] == if j <= c then idx[e.order[j]] else e.q.card[e.order[j]] - 1
    ensures LexLe(View(e.order, v), View(e.order, last)) <==> Reached(e, c, -1, idx, v)
  {
    var order := e.order;
    assert order[..|order|] == order;
    BeforeIsLex(order, |order|, last, v);
    if Before(order, c + 1, idx, v) {
      var j :| 0 <= j < c + 1 && idx[order[j]] < v[order[j]] && Same(order, j, idx, v);
      assert Same(order, j, last, v);
    }
    if Before(order, |order|, last, v) {
      var j :| 0 <= j < |order| && last[order[j]] < v[order[j]] && Same(order, j, last, v);
      assert j <= c;
      assert Same(order, j, idx, v);
    }
  }

  lemma FinalOfAccepted(e: Episode, c: nat, idx: seq<int>, last: seq<int>, b: nat, v: seq<int>)
    requires EpisodeOk(e) && c < |e.order| && |idx| == |last| == |e.q.card| && InRange(e.q.card, v)
    requires IsPredecessor(View(e.order, e.q.card), View(e.order, Padded(e.order, c, idx)), View(e.order, last), b)
    ensures LexLe(View(e.order, v), View(e.order, last)) <==> Reached(e, c, -2, idx, v)
  {
    hide WellFormed, IsPredecessor, LexLt;
    var order, w := e.order, Padded(e.order, c, idx);
    assert InRange(View(order, e.q.card), View(order, v));
    PredecessorIsBefore(View(order, e.q.card), View(order, w), View(order, last), b, View(order, v));
    BeforePadded(order, c, idx, v);
  }

  /** A non-negative vector lies before a zero-padded one exactly when its prefix does. */
  lemma BeforePadded(order: seq<nat>, c: nat, idx: seq<int>, v: seq<int>)
    requires IsOrder(order, |idx|) && c < |order| && |v| == |idx| && forall t :: 0 <= t < |v| ==> 0 <= v[t]
    ensures LexLt(View(order, v), View(order, Padded(order, c, idx))) <==> Before(order, c + 1, v, idx)
  {
    hide LexLt;
    var w := Padded(order, c, idx);
    assert order[..|order|] == order;
    BeforeIsLex(order, |order|, v, w);
    if Before(order, c + 1, v, idx) {
      var j :| 0 <= j < c + 1 && v[order[j]] < idx[order[j]] && Same(order, j, v, idx);
      assert Same(order, j, v, w);
    }
    if Before(order, |order|, v, w) {
      var j :| 0 <= j < |order| && v[order[j]] < w[order[j]] && Same(order, j, v, w);
      assert j <= c;
      assert Same(order, j, v, idx);
    }
  }

  /** What lies before the resume point has been processed. */
  lemma PassedIsProcessed(e: Episode, nodes: Tree, r: Option<seq<int>>, done: iset<seq<int>>, v: seq<int>)
    requires EpisodeOk(e) && IsTree(e.q.card, nodes) && InRange(e.q.card, v) && Covers(e.q.card, nodes, done)
    requires r.Some? && r.value == e.p && InRange(e.q.card, e.p) && ResumesAt(e.q.card, nodes, e.order, r)
    requires Before(e.order, |e.order|, v, e.p)
    ensures v in done
  {
    hide WellFormed, IsTree, Covers, Before, Behind, LexLt;
    assert e.order[..|e.order|] == e.order;
    BeforeIsLex(e.order, |e.order|, v, e.p);
    LexTotal(View(e.order, v), View(e.order, e.p));
    assert AtOrBefore(e.order, v, r);
    BehindIsProcessed(e.q.card, nodes, done, e.order, v);
  }

  /** Everything an episode skips or works off is processed afterwards. */
  lemma DoneIsProcessed(e: Episode, nodes: Tree, r: Option<seq<int>>, emitted0: set<seq<int>>, emitted: set<seq<int>>,
                        v: seq<int>)
    requires EpisodeOk(e) && IsTree(e.q.card, nodes) && emitted0 <= emitted && InRange(e.q.card, v)
    requires Covers(e.q.card, nodes, Processed(e.q, emitted0)) &&
             OffsetsCover(e.q.card, e.offset, Processed(e.q, emitted0))
    requires r.Some? ==> r.value == e.p && InRange(e.q.card, e.p)
    requires ResumesAt(e.q.card, nodes, e.order, r)
    requires Done(e, r.Some?, emitted, v)
    ensures v in Processed(e.q, emitted)
  {
    hide WellFormed, IsTree, Covers, Matches, ResumesAt, Before;
    if r.Some? && Before(e.order, |e.order|, v, e.p) {
      PassedIsProcessed(e, nodes, r, Processed(e.q, emitted0), v);
    }
  }

  /** The final vector lies ahead of the resume point. */
  lemma FinalIsAhead(e: Episode, nodes: Tree, r: Option<seq<int>>, last: seq<int>, v: seq<int>)
    requires EpisodeOk(e) && InRange(e.q.card, last) && InRange(e.q.card, v)
    requires r.Some? ==> r.value == e.p && InRange(e.q.card, e.p)
    requires ResumesAt(e.q.card, nodes, e.order, r)
    requires LexLe(View(e.order, v), View(e.order, last))
    requires r.Some? ==> Before(e.order, |e.order|, e.p, v)
    ensures !Behind(nodes, e.order, last)
    ensures r.Some? ==> LexLe(View(e.order, e.p), View(e.order, last))
  {
    if r.Some? {
      assert e.order[..|e.order|] == e.order;
      BeforeIsLex(e.order, |e.order|, e.p, v);
      LexTotal(View(e.order, e.p), View(e.order, v));
      LexTrans(View(e.order, e.p), View(e.order, v), View(e.order, last));
      LexTotal(View(e.order, e.p), View(e.order, last));
    }
    assert !AtOrBefore(e.order, last, r);
  }

  /** How a final vector relates to the outcome of the top table function. */
  ghost predicate IsFinal(e: Episode, status: int, c: nat, idx: seq<int>, last: seq<int>)
    requires EpisodeOk(e) && |idx| == |e.q.card|
  {
    && InRange(e.q.card, last)
    && if status == -2 then c < |e.order| && IsBefore(e.order, e.q.card, c, idx, last)
       else if status == -1 then
         c < |e.order| && forall j :: 0 <= j < |e.order| ==>
             last[e.order[j]] == if j <= c then idx[e.order[j]] else e.q.card[e.order[j]] - 1
       else IsMaximal(e.q.card, last)
  }

  lemma FinalAccountsFor(e: Episode, status: int, c: nat, idx: seq<int>, last: seq<int>, v: seq<int>)
    requires EpisodeOk(e) && |idx| == |e.q.card| && c < |e.order| && IsFinal(e, status, c, idx, last) &&
             InRange(e.q.card, v)
    requires status == -1 || status == -2
    ensures LexLe(View(e.order, v), View(e.order, last)) <==> Reached(e, c, status, idx, v)
  {
    if status == -1 {
      FinalOfRejected(e, c, idx, last, v);
    } else {
      var b: nat :| b <= c &&
          IsPredecessor(View(e.order, e.q.card), View(e.order, Padded(e.order, c, idx)), View(e.order, last), b);
      FinalOfAccepted(e, c, idx, last, b, v);
    }
  }

  /** After an episode everything up to its final vector is processed, and the final vector
      lies strictly ahead of the resume point. */
  lemma EpisodeAdvances(e: Episode, nodes: Tree, r: Option<seq<int>>, budget: int, status: int, c: nat,
                        base: seq<int>, idx: seq<int>, last: seq<int>, emitted0: set<seq<int>>, emitted: set<seq<int>>)
    requires EpisodeOk(e) && IsTree(e.q.card, nodes) && emitted0 <= emitted && |base| == |idx| == |e.q.card|
    requires Covers(e.q.card, nodes, Processed(e.q, emitted0)) &&
             OffsetsCover(e.q.card, e.offset, Processed(e.q, emitted0))
    requires r.Some? ==> r.value == e.p && InRange(e.q.card, e.p)
    requires ResumesAt(e.q.card, nodes, e.order, r)
    requires Outcome(e, 0, base, budget, r.Some?, status, c, idx, emitted) && budget > Slack(e, 0, r.Some?)
    requires IsFinal(e, status, c, idx, last)
    ensures DoneUpTo(e.q.card, e.order, last, Processed(e.q, emitted))
    ensures status < 0 ==> !Behind(nodes, e.order, last) && (r.Some? ==> LexLe(View(e.order, e.p), View(e.order, last)))
  {
    hide IsTree, Covers, OffsetsCover, ResumesAt, Behind, DoneUpTo, Processed, Reached, LexLe;
    EpisodeCovers(e, nodes, r, budget, status, c, base, idx, last, emitted0, emitted);
    if status < 0 {
      var v :| Extends(e, 0, base, v) && Reached(e, c, status, idx, v) &&
          (r.Some? ==> Before(e.order, |e.order|, e.p, v));
      FinalAccountsFor(e, status, c, idx, last, v);
      FinalIsAhead(e, nodes, r, last, v);
    }
  }

  lemma EpisodeCovers(e: Episode, nodes: Tree, r: Option<seq<int>>, budget: int, status: int, c: nat,
                      base: seq<int>, idx: seq<int>, last: seq<int>, emitted0: set<seq<int>>, emitted: set<seq<int>>)
    requires EpisodeOk(e) && IsTree(e.q.card, nodes) && emitted0 <= emitted && |base| == |idx| == |e.q.card|
    requires Covers(e.q.card, nodes, Processed(e.q, emitted0)) &&
             OffsetsCover(e.q.card, e.offset, Processed(e.q, emitted0))
    requires r.Some? ==> r.value == e.p && InRange(e.q.card, e.p)
    requires ResumesAt(e.q.card, nodes, e.order, r)
    requires Outcome(e, 0, base, budget, r.Some?, status, c, idx, emitted) && budget > Slack(e, 0, r.Some?)
    requires IsFinal(e, status, c, idx, last)
    ensures DoneUpTo(e.q.card, e.order, last, Processed(e.q, emitted))
  {
    forall v | InRange(e.q.card, v) && LexLe(View(e.order, v), View(e.order, last))
      ensures v in Processed(e.q, emitted)
    {
      hide IsTree, Covers, OffsetsCover, ResumesAt, Processed, IsFinal, EpisodeOk, Reached, LexLe;
      assert Extends(e, 0, base, v);
      if status < 0 {
        FinalAccountsFor(e, status, c, idx, last, v);
      }
      DoneIsProcessed(e, nodes, r, emitted0, emitted, v);
    }
  }

  /** Every final vector of an episode stays above the offsets until its digits are maximal. */
  lemma FinalAboveOffsets(e: Episode, status: int, c: nat, idx: seq<int>, last: seq<int>) returns (b: nat)
    requires EpisodeOk(e) && |idx| == |e.q.card| && c < |e.order| && IsLast(e.order, e.q.card, status, c, idx, last)
    requires forall j :: 0 <= j <= c ==> e.offset[e.order[j]] < idx[e.order[j]]
    ensures AboveOffsets(e.order, e.offset, e.q.card, last, b)
  {
    if status != -2 {
      b := c;
    } else if forall j :: 0 <= j <= c ==> idx[e.order[j]] == 0 {
      b := 0;
    } else {
      b :| b <= c && IsPredecessor(View(e.order, e.q.card), View(e.order, Padded(e.order, c, idx)),
          View(e.order, last), b);
      var w, f := View(e.order, Padded(e.order, c, idx)), View(e.order, last);
      forall j | 0 <= j < |e.order|
        ensures (j < b ==> e.offset[e.order[j]] < last[e.order[j]]) &&
                (b < j ==> last[e.order[j]] == e.q.card[e.order[j]] - 1)
      {
        assert f[j] == last[e.order[j]];
        assert j < b ==> f[j] == w[j] == idx[e.order[j]];
      }
    }
  }

  /** The reward of an episode that is not rejected is never negative, whatever its budget and even
      though it reads the offsets after they have been updated. */
  lemma EpisodeIsRewarded(e: Episode, nodes: Tree, r: Option<seq<int>>, status: int, c: nat, idx: seq<int>,
                          last: seq<int>, offset': seq<int>)
    requires EpisodeOk(e) && |idx| == |e.q.card| && c < |e.order| && IsLast(e.order, e.q.card, status, c, idx, last)
    requires forall j :: 0 <= j <= c ==> e.offset[e.order[j]] < idx[e.order[j]]
    requires Resumption(e, nodes, r) && (IsMaximal(e.q.card, last) || !Regresses(nodes, e.order, last))
    requires offset' == if IsMaximal(e.q.card, last) then e.offset else RaisedOffset(e.q.card, e.order, last, e.offset)
    ensures RewardInput(e.order, offset', e.p, last, e.q.card)
    ensures Progress(e.order, offset', e.p, last, e.q.card) >= 0.0
  {
    hide *;
    LastInRange(e, status, c, idx, last);
    OffsetsAfter(e, last, offset');
    InputOfReward(e, nodes, r, last, offset');
    var b := FinalAboveOffsets(e, status, c, idx, last);
    AcceptedIsAhead(e, nodes, r, last);
    ResumeIsBelow(e, nodes, r, last);
    ForwardIsRewarded(e.order, e.offset, offset', e.p, last, e.q.card, b);
  }

  /** The resume point of an episode; without one the progress starts below every row. */
  ghost predicate Resumption(e: Episode, nodes: Tree, r: Option<seq<int>>)
    requires EpisodeOk(e)
  {
    && (r.Some? ==> r.value == e.p && InRange(e.q.card, e.p))
    && (r.None? ==> forall t :: 0 <= t < |e.p| ==> e.p[t] == -1)
    && ResumesAt(e.q.card, nodes, e.order, r)
  }

  lemma LastInRange(e: Episode, status: int, c: nat, idx: seq<int>, last: seq<int>)
    requires EpisodeOk(e) && |idx| == |e.q.card| && c < |e.order| && IsLast(e.order, e.q.card, status, c, idx, last)
    ensures InRange(e.q.card, last) && IsOrder(e.order, |e.q.card|)
  {
  }

  /** A final vector that `Update` accepts is not behind the resume point. */
  lemma AcceptedIsAhead(e: Episode, nodes: Tree, r: Option<seq<int>>, last: seq<int>)
    requires EpisodeOk(e) && Resumption(e, nodes, r) && InRange(e.q.card, last)
    requires IsMaximal(e.q.card, last) || !Regresses(nodes, e.order, last)
    ensures r.Some? ==> LexLe(View(e.order, e.p), View(e.order, last))
  {
    if r.Some? {
      LexTotal(View(e.order, e.p), View(e.order, last));
      LexTotal(View(e.order, e.p), View(e.order, e.p));
      if IsMaximal(e.q.card, last) {
        MaximalIsLastInOrder(e.q.card, e.order, last);
      } else if AtOrBefore(e.order, last, r) {
        RegressesExactly(nodes, e.order, last);
        assert AtOrBefore(e.order, e.p, r);
        StoredIsShallow(nodes, e.order, |e.order|);
        assert e.order[..|e.order|] == e.order;
      }
    }
  }

  /** Only the first table's offset moves: to a row below the final one, or to the final one
      once its whole block is completed. */
  lemma OffsetsAfter(e: Episode, last: seq<int>, offset': seq<int>)
    requires EpisodeOk(e) && InRange(e.q.card, last)
    requires offset' == if IsMaximal(e.q.card, last) then e.offset else RaisedOffset(e.q.card, e.order, last, e.offset)
    ensures |e.offset| == |e.q.card| == |e.order| && 0 < |e.q.card| && |offset'| == |e.q.card| &&
            InBounds(e.order, |offset'|)
    ensures forall t :: 0 <= t < |e.q.card| ==> e.offset[t] < e.q.card[t] - 1
    ensures forall t :: 0 <= t < |e.q.card| ==> offset'[t] < e.q.card[t]
    ensures forall i :: 1 <= i < |e.order| ==> offset'[e.order[i]] == e.offset[e.order[i]]
    ensures offset'[e.order[0]] == e.offset[e.order[0]]
            || offset'[e.order[0]] < last[e.order[0]]
            || forall j :: 0 < j < |e.order| ==> last[e.order[j]] == e.q.card[e.order[j]] - 1
  {
    if !IsMaximal(e.q.card, last) {
      RaisedOffsetInRange(e.q.card, e.order, last, e.offset);
    }
  }

  lemma InputOfReward(e: Episode, nodes: Tree, r: Option<seq<int>>, last: seq<int>, offset': seq<int>)
    requires EpisodeOk(e) && Resumption(e, nodes, r) && InRange(e.q.card, last) && |offset'| == |e.q.card|
    requires forall t :: 0 <= t < |e.q.card| ==> offset'[t] < e.q.card[t]
    ensures RewardInput(e.order, offset', e.p, last, e.q.card)
  {
  }

  lemma ResumeIsBelow(e: Episode, nodes: Tree, r: Option<seq<int>>, last: seq<int>)
    requires EpisodeOk(e) && Resumption(e, nodes, r) && InRange(e.q.card, last)
    requires r.Some? ==> LexLe(View(e.order, e.p), View(e.order, last))
    ensures InBounds(e.order, |e.p|) && LexLe(View(e.order, e.p), View(e.order, last))
  {
    if r.None? {
      var p, f := View(e.order, e.p), View(e.order, last);
      assert p[0] == -1 && f[0] >= 0;
      LexLtAt(p, f, 0);
      LexTotal(p, f);
    }
  }

  /** How an episode went: the rows it found in the tuple index array, its resume point and progress
      vector, the code it ended with, the position of the table it gave up at, its final vector, the vectors
      it handed to the tuple handler, and the number of rows it looked at. */
  datatype Run = Run(base: seq<int>, resumeAt: Option<seq<int>>, initial: seq<int>, status: int, depth: nat,
                     last: seq<int>, visited: seq<seq<int>>, steps: nat)

  /** An episode visits matching vectors only, none that an offset excludes or that lies before the resume
      point, and of these all that it moved over. */
  ghost predicate VisitsMatches(e: Episode, run: Run, idx: seq<int>)
    requires EpisodeOk(e) && run.depth < |e.order| && |idx| == |e.q.card|
  {
    && (forall v :: v in run.visited ==> MayVisit(e, v))
    && forall v :: MayVisit(e, v) && (run.status >= 0 || Reached(e, run.depth, run.status, idx, v)) ==> v in run.visited
  }

  /** What every episode does, whatever its budget.  Looking at a row costs one unit, and an episode is
      interrupted when its budget is used up.  Unless an index has to intersect more than two buckets, the
      code behaves as `ScanTable`, and visits no vector twice. */
  ghost predicate IsRun(e: Episode, nodes: Tree, run: Run, budget: int, idx: seq<int>,
                        emitted0: set<seq<int>>, emitted: set<seq<int>>)
  {
    && EpisodeOk(e) && |run.base| == |idx| == |e.q.card| && run.initial == e.p && Resumption(e, nodes, run.resumeAt)
    && run.depth < |e.order| && IsLast(e.order, e.q.card, run.status, run.depth, idx, run.last)
    && (forall j :: 0 <= j <= run.depth ==> e.offset[e.order[j]] < idx[e.order[j]])
    && run.steps == (if run.status < 0 then budget else budget - run.status)
    && VisitsMatches(e, run, idx) && (forall v :: v in emitted <==> v in emitted0 || v in run.visited)
    && (NeverRepeats(e) ==>
          && Distinct(run.visited)
          && Follows(ScanTable(e, 0, run.base, budget, run.resumeAt.Some?, []), run.status, run.depth, idx,
                     run.visited))
  }

  /** What an episode reads and changes. */
  datatype Snapshot = Snapshot(finished: bool, nodes: Tree, offset: seq<int>, idx: seq<int>,
                               emitted: set<seq<int>>, output: seq<seq<int>>)

  /** An order has been executed: the episode ran as `run` says and handed on what it found, its final vector was
      recorded, and the reward is half the progress, under the offsets after the update, plus half the number of
      visits per unit of budget.  There is none if recording the final vector threw. */
  ghost predicate IsExecution(q: Query, budget: int, order: seq<nat>, before: Snapshot, after: Snapshot,
                              reward: Option<real>, run: Run, update: UpdateStatus)
  {
    && IsOrder(order, |q.card|) && 0 < |q.card| && InRange(q.card, run.last) && |before.offset| == |q.card|
    && IsRun(Episode(q, order, before.offset, run.initial), before.nodes, run, budget, after.idx,
             before.emitted, after.emitted)
    && after.output == before.output + New(before.output, run.visited)
    && IsUpdate(q.card, before.finished, before.nodes, before.offset, order, run.last, update,
                after.finished, after.nodes, after.offset)
    && (reward.None? <==> update.NegativeProgress?)
    && (reward.Some? ==>
          && budget > 0 && RewardInput(order, after.offset, run.initial, run.last, q.card)
          && reward.value == 0.5 * Progress(order, after.offset, run.initial, run.last, q.card) +
                             0.5 * |run.visited| as real / budget as real)
  }

  class JoinEnvironment {
    const q: Query
    const prefix: seq<nat>
    const budget: int
    const state: JoinState
    const engine: Engine

    ghost predicate Configured()
      reads this, state, engine
    {
      && state.card == q.card && engine.q == q
      && state.Valid() && engine.Valid()
      && FlagsFor(q, prefix)
      && 1 <= budget
    }

    ghost function Now(): (s: Snapshot)
      reads this, state, engine
    {
      Snapshot(state.finished, state.nodes, state.offset, engine.idx, engine.emitted, engine.output)
    }

    /** The state vouches for nothing that is unprocessed, and the budget lets an episode finish at
        least one vector beyond its resume point. */
    ghost predicate Valid()
      reads this, state, engine
    {
      && Configured()
      && budget >= 2 * |q.card|
      && state.Sound(Processed(q, engine.emitted))
    }

    constructor (query: Query, prefixOrder: seq<nat>, budgetPerEpisode: int)
      requires WellFormed(query) && FlagsFor(query, prefixOrder) && 1 <= budgetPerEpisode
      ensures Configured() && q == query && prefix == prefixOrder && budget == budgetPerEpisode
      ensures budget >= 2 * |q.card| ==> Valid()
      ensures !state.finished && state.nodes == map[] && state.offset == seq(|q.card|, _ => -1)
      ensures engine.emitted == {} && engine.output == []
      ensures fresh(state) && fresh(engine)
    {
      q := query;
      prefix := prefixOrder;
      budget := budgetPerEpisode;
      state := new JoinState(query.card);
      engine := new Engine(query);
    }

    /** Everything up to the compiled code: resume point, handlers, flags, progress. */
    method Prepare(order: seq<nat>) returns (r: Option<seq<int>>, initial: seq<int>)
      requires Configured() && IsOrder(order, |q.card|) && prefix <= order
      modifies engine`handlers, engine`flags, engine`progress, engine`offset, engine`tableCtr, engine`numResultTuples
      modifies engine`known, engine`visited, engine`seen, engine`steps
      ensures Configured()
      ensures engine.Ready(Episode(q, order, state.offset, initial))
      ensures Resumption(Episode(q, order, state.offset, initial), state.nodes, r)
      ensures engine.numResultTuples == 0 && engine.tableCtr == order[0]
      ensures engine.known == engine.output && engine.visited == [] && engine.seen == {} && engine.steps == 0
    {
      hide WellFormed, OutputOk, Covers, FlagsFor, IsTree, Suits, ResumesAt, FlagsMatch, OffsetsLead;
      r := state.GetLastCompletedTupleIdx(order);
      initial := if r.Some? then r.value else seq(|q.card|, _ => -1);
      FlagsSuit(q, prefix, order);
      engine.Configure(order, initial, state.offset);
    }

    /** Sets the episode up and runs the compiled code. */
    method RunCode(order: seq<nat>)
      returns (r: Option<seq<int>>, initial: seq<int>, status: int, ghost base: seq<int>, ghost c: nat)
      requires Configured() && IsOrder(order, |q.card|) && prefix <= order
      modifies engine
      ensures engine.Valid() && EpisodeOk(Episode(q, order, state.offset, initial)) && |base| == |q.card|
      ensures Resumption(Episode(q, order, state.offset, initial), state.nodes, r)
      ensures old(engine.emitted) <= engine.emitted && engine.known == old(engine.output)
      ensures MayVisitAll(Episode(q, order, state.offset, initial), engine.seen)
      ensures Outcome(Episode(q, order, state.offset, initial), 0, base, budget, r.Some?, status, c,
                      engine.idx, engine.seen)
      ensures c < |order| && engine.tableCtr == order[c] && (forall t :: 0 <= t < |q.card| ==> 0 < q.card[t])
      ensures forall j :: 0 <= j <= c ==> state.offset[order[j]] < engine.idx[order[j]] < q.card[order[j]]
      ensures status >= 0 ==> c == 0 && engine.idx[order[0]] == q.card[order[0]] - 1
      ensures engine.steps == if status < 0 then budget else budget - status
      ensures NeverRepeats(Episode(q, order, state.offset, initial)) ==>
                Follows(ScanTable(Episode(q, order, state.offset, initial), 0, base, budget, r.Some?, []), status, c,
                        engine.idx, engine.visited)
    {
      hide WellFormed, OutputOk, Covers, FlagsFor, IsTree, FlagsMatch, Resumption, Outcome, IsChain, Matches;
      hide OffsetsCover, OffsetsLead, ScanTable, Counted, MayVisitAll, Picked, Ahead, Suits, NeverRepeats;
      r, initial := Prepare(order);
      ghost var e := Episode(q, order, state.offset, initial);
      base := engine.idx;
      TopCall(e, state.nodes, r, base);
      ghost var depth: nat;
      status, depth := engine.TableFunction(order[0], budget, r.Some?, e, 0);
      c := if status < 0 then depth else 0;
      OutcomeRange(e, base, budget, r.Some?, status, depth, c, engine.idx, engine.seen);
    }

    /** Runs the compiled code and works out the final vector. */
    method RunEpisode(order: seq<nat>) returns (r: Option<seq<int>>, initial: seq<int>, last: seq<int>, ghost run: Run)
      requires Configured() && IsOrder(order, |q.card|) && prefix <= order
      modifies engine
      ensures engine.Valid() && engine.numResultTuples == |run.visited|
      ensures old(engine.emitted) <= engine.emitted
      ensures engine.output == old(engine.output) + New(old(engine.output), run.visited)
      ensures run.resumeAt == r && run.initial == initial && run.last == last
      ensures IsRun(Episode(q, order, state.offset, initial), state.nodes, run, budget, engine.idx,
                    old(engine.emitted), engine.emitted)
      ensures old(Valid()) ==> IsEpisode(Episode(q, order, state.offset, initial), state.nodes, last, engine.emitted)
    {
      hide WellFormed, OutputOk, Covers, FlagsFor, IsTree, FlagsMatch, Resumption, Outcome, IsChain, IsEpisode, Matches;
      hide OffsetsCover, OffsetsLead, IsLast, Slack, ScanTable, IsRun, Counted, MayVisitAll, New, Follows, EpisodeOk;
      hide NeverRepeats;
      ghost var emitted0 := engine.emitted;
      var status: int;
      ghost var base, c;
      r, initial, status, base, c := RunCode(order);
      ghost var e := Episode(q, order, state.offset, initial);
      last := ComputeLastCompletedTuple(order, q.card, status, engine.tableCtr, engine.idx, c);
      run := Run(base, r, initial, status, c, last, engine.visited, engine.steps);
      RunIsRun(e, state.nodes, run, budget, engine.idx, emitted0, engine.known, engine.seen,
          engine.numResultTuples, engine.emitted, engine.output);
      if old(Valid()) {
        BudgetSuffices(e, state.nodes, r, budget);
        OutcomeGrows(e, 0, base, budget, r.Some?, status, c, engine.idx, engine.seen, engine.emitted);
        EpisodeSummary(e, state.nodes, r, budget, status, c, base, engine.idx, last, emitted0, engine.emitted);
      }
    }

    /** One episode.  With enough budget it never throws, loses nothing and gets ahead; with any budget
        it is rewarded unless `Update` throws. */
    method Execute(order: seq<nat>) returns (reward: Option<real>, ghost run: Run, update: UpdateStatus)
      requires Configured() && !state.finished && IsOrder(order, |q.card|) && prefix <= order
      modifies state, engine
      ensures Configured() && IsExecution(q, budget, order, old(Now()), Now(), reward, run, update)
      ensures old(engine.emitted) <= engine.emitted && |engine.output| - |old(engine.output)| <= |run.visited|
      ensures reward.Some? ==> reward.value >= 0.0
      ensures old(Valid()) ==> Valid() && reward.Some?
      ensures old(Valid()) ==> state.finished || Remaining(q.card, state.nodes) < old(Remaining(q.card, state.nodes))
    {
      hide WellFormed, OutputOk, Covers, FlagsFor, IsTree, Fraction, Progress, Behind, DoneUpTo, OffsetsCover, AllDone;
      hide IsAdvance, Regresses, RewardInput, RaisedOffset, Remaining, OffsetsLead, Resumption, ScanTable, Follows;
      ghost var nodes, offset, emitted := state.nodes, state.offset, engine.emitted;
      var r, initial, last;
      r, initial, last, run := RunEpisode(order);
      ghost var e, done := Episode(q, order, offset, initial), Processed(q, engine.emitted);
      if old(Valid()) {
        SoundGrows(q.card, nodes, offset, q, emitted, engine.emitted);
      }
      update := state.Update(order, last, done);
      if old(Valid()) && !state.finished {
        AheadNeverRegresses(nodes, order, last);
        AdvanceShrinksRemaining(q.card, nodes, order, last, state.nodes);
      }
      if update == NegativeProgress {
        return None, run, update;
      }
      EpisodeIsRewarded(e, nodes, r, run.status, run.depth, engine.idx, last, state.offset);
      var x := Reward(order, state.offset, initial, last, q.card, engine.numResultTuples, budget);
      ShareIsNonNegative(engine.numResultTuples, budget);
      reward := Some(x);
    }
  }

  lemma AllVisited(e: Episode, budget: int, run: Run, idx: seq<int>, seen: set<seq<int>>)
    requires EpisodeOk(e) && |idx| == |run.base| == |e.q.card| && run.depth < |e.order|
    requires Outcome(e, 0, run.base, budget, run.resumeAt.Some?, run.status, run.depth, idx, seen)
    requires MayVisitAll(e, seen) && forall v :: v in seen <==> v in run.visited
    ensures VisitsMatches(e, run, idx)
  {
    forall v | MayVisit(e, v) && (run.status >= 0 || Reached(e, run.depth, run.status, idx, v))
      ensures v in run.visited
    {
      assert Extends(e, 0, run.base, v);
      assert Done(e, run.resumeAt.Some?, seen, v);
    }
  }

  lemma RunIsRun(e: Episode, nodes: Tree, run: Run, budget: int, idx: seq<int>, emitted0: set<seq<int>>,
                 known: seq<seq<int>>, seen: set<seq<int>>, count: int, emitted: set<seq<int>>, output: seq<seq<int>>)
    requires EpisodeOk(e) && |run.base| == |idx| == |e.q.card| && run.initial == e.p
    requires Resumption(e, nodes, run.resumeAt) && run.depth < |e.order|
    requires IsLast(e.order, e.q.card, run.status, run.depth, idx, run.last)
    requires forall j :: 0 <= j <= run.depth ==> e.offset[e.order[j]] < idx[e.order[j]]
    requires Outcome(e, 0, run.base, budget, run.resumeAt.Some?, run.status, run.depth, idx, seen)
    requires MayVisitAll(e, seen) && Counted(known, run.visited, seen, count, emitted, output)
    requires OutputOk(e.q, emitted0, known) && OutputOk(e.q, emitted, output)
    requires run.steps == if run.status < 0 then budget else budget - run.status
    requires NeverRepeats(e) ==>
             Follows(ScanTable(e, 0, run.base, budget, run.resumeAt.Some?, []), run.status, run.depth, idx, run.visited)
    ensures IsRun(e, nodes, run, budget, idx, emitted0, emitted)
    ensures count == |run.visited| && output == known + New(known, run.visited) && seen <= emitted
  {
    hide Outcome, OutputOk, VisitsMatches, ScanTable, Resumption, IsLast, MayVisitAll, New, NeverRepeats;
    AllVisited(e, budget, run, idx, seen);
    EmittedByVisits(e.q, emitted0, known, run.visited, emitted, output);
    if NeverRepeats(e) { ScanIsDistinct(e, run.base, budget, run.resumeAt.Some?); }
  }

  lemma EmittedByVisits(q: Query, emitted0: set<seq<int>>, known: seq<seq<int>>, visited: seq<seq<int>>,
                        emitted: set<seq<int>>, output: seq<seq<int>>)
    requires OutputOk(q, emitted0, known) && OutputOk(q, emitted, output) && output == known + New(known, visited)
    ensures forall v :: v in emitted <==> v in emitted0 || v in visited
  {
    forall v ensures v in emitted <==> v in emitted0 || v in visited { InNew(known, visited, v); }
  }

  lemma OutcomeGrows(e: Episode, k: nat, base: seq<int>, budget: int, resume: bool, ret: int, c: nat, idx: seq<int>,
                     seen: set<seq<int>>, emitted: set<seq<int>>)
    requires EpisodeOk(e) && k <= |e.order| && |idx| == |base| == |e.q.card| && seen <= emitted
    requires Outcome(e, k, base, budget, resume, ret, c, idx, seen)
    ensures Outcome(e, k, base, budget, resume, ret, c, idx, emitted)
  {
    forall v | Extends(e, k, base, v) && Done(e, resume, seen, v) ensures Done(e, resume, emitted, v) {
      DoneGrows(e, resume, resume, seen, emitted, v);
    }
  }

  lemma ShareIsNonNegative(n: int, budget: int)
    requires n >= 0 && budget > 0
    ensures 0.5 * n as real / budget as real >= 0.0
  {
    DivideSign(0.5 * n as real, budget as real);
  }

  lemma SoundGrows(card: seq<int>, nodes: Tree, offset: seq<int>, q: Query, emitted: set<seq<int>>,
                   emitted': set<seq<int>>)
    requires IsTree(card, nodes) && |offset| == |card| && emitted <= emitted'
    requires Covers(card, nodes, Processed(q, emitted)) && OffsetsCover(card, offset, Processed(q, emitted))
    ensures Covers(card, nodes, Processed(q, emitted')) && OffsetsCover(card, offset, Processed(q, emitted'))
  {
    var done, done' := Processed(q, emitted), Processed(q, emitted');
    assert done <= done';
    forall p, v | p in nodes && InRange(card, v) ensures NodeCovers(card, nodes, p, done', v) {
      assert NodeCovers(card, nodes, p, done, v);
    }
  }

  /** What an episode leaves behind: everything up to its final vector is processed, and the
      final vector is the last one of all or lies strictly ahead of the resume point. */
  ghost predicate IsEpisode(e: Episode, nodes: Tree, last: seq<int>, emitted: set<seq<int>>)
  {
    && EpisodeOk(e) && InRange(e.q.card, last)
    && DoneUpTo(e.q.card, e.order, last, Processed(e.q, emitted))
    && (IsMaximal(e.q.card, last) || !Behind(nodes, e.order, last))
  }

  /** Twice as much budget as there are tables exceeds what an episode can waste: when the resume point
      ends a block of the first table, the offset has already moved past it. */
  lemma BudgetSuffices(e: Episode, nodes: Tree, r: Option<seq<int>>, budget: int)
    requires EpisodeOk(e) && 0 < |e.order| && Resumption(e, nodes, r) && OffsetsLead(e.q.card, nodes, e.offset)
    requires budget >= 2 * |e.q.card|
    ensures budget > Slack(e, 0, r.Some?)
  {
    if r.Some? && LastOfPrefix(e, 1) {
      forall i | 1 <= i < |e.order| ensures e.p[e.order[i]] == e.q.card[e.order[i]] - 1 {
        assert e.p[e.order[i]] >= e.q.card[e.order[i]] - 1;
      }
      ResumeWithinOffset(e.q.card, nodes, e.offset, e.order, e.p);
    }
  }

  lemma FinalIs(e: Episode, base: seq<int>, budget: int, resume: bool, status: int, c: nat, idx: seq<int>,
                emitted: set<seq<int>>, last: seq<int>)
    requires EpisodeOk(e) && |idx| == |base| == |e.q.card| && c < |e.order| && budget > Slack(e, 0, resume)
    requires Outcome(e, 0, base, budget, resume, status, c, idx, emitted)
    requires status >= 0 ==> c == 0 && idx[e.order[0]] == e.q.card[e.order[0]] - 1
    requires IsLast(e.order, e.q.card, status, c, idx, last)
    ensures IsFinal(e, status, c, idx, last)
  {
    if status >= 0 {
      MaximalByPosition(e.q.card, e.order, last);
    }
    if status == -2 {
      var v :| Extends(e, 0, base, v) && Reached(e, c, status, idx, v);
      var j :| 0 <= j < c + 1 && v[e.order[j]] < idx[e.order[j]];
      assert 0 <= v[e.order[j]];
    }
  }

  lemma TopCall(e: Episode, nodes: Tree, r: Option<seq<int>>, idx: seq<int>)
    requires EpisodeOk(e) && |idx| == |e.q.card| && Resumption(e, nodes, r)
    ensures Picked(e, 0, idx) && Same(e.order, 0, idx, e.p)
    ensures if r.Some? then InRange(e.q.card, e.p) else Ahead(e, 0, idx)
  {
  }

  lemma OutcomeRange(e: Episode, base: seq<int>, budget: int, resume: bool, status: int, depth: nat, c: nat,
                     idx: seq<int>, emitted: set<seq<int>>)
    requires EpisodeOk(e) && |idx| == |base| == |e.q.card|
    requires Outcome(e, 0, base, budget, resume, status, depth, idx, emitted)
    requires c == if status < 0 then depth else 0
    requires status >= 0 ==> idx[e.order[0]] == e.q.card[e.order[0]] - 1
    ensures Outcome(e, 0, base, budget, resume, status, c, idx, emitted)
    ensures c < |e.order| && forall t :: 0 <= t < |e.q.card| ==> 0 < e.q.card[t]
    ensures forall j :: 0 <= j <= c ==> e.offset[e.order[j]] < idx[e.order[j]] < e.q.card[e.order[j]]
    ensures forall j :: 0 <= j <= c ==> 0 <= idx[e.order[j]]
  {
  }

  lemma EpisodeSummary(e: Episode, nodes: Tree, r: Option<seq<int>>, budget: int, status: int, c: nat,
                       base: seq<int>, idx: seq<int>, last: seq<int>, emitted0: set<seq<int>>, emitted: set<seq<int>>)
    requires EpisodeOk(e) && IsTree(e.q.card, nodes) && emitted0 <= emitted && |base| == |idx| == |e.q.card|
    requires Covers(e.q.card, nodes, Processed(e.q, emitted0)) &&
             OffsetsCover(e.q.card, e.offset, Processed(e.q, emitted0))
    requires Resumption(e, nodes, r)
    requires Outcome(e, 0, base, budget, r.Some?, status, c, idx, emitted) && budget > Slack(e, 0, r.Some?)
    requires status >= 0 ==> c == 0 && idx[e.order[0]] == e.q.card[e.order[0]] - 1
    requires c < |e.order| && IsLast(e.order, e.q.card, status, c, idx, last)
    ensures IsEpisode(e, nodes, last, emitted)
  {
    hide WellFormed, IsTree, Covers, ResumesAt, CompleteTo, Complete, Gained, Slack;
    FinalIs(e, base, budget, r.Some?, status, c, idx, emitted, last);
    EpisodeAdvances(e, nodes, r, budget, status, c, base, idx, last, emitted0, emitted);
  }
}
