/**
 The join code of one episode: one table function per table, each calling the handler of
 the next table of the order, the last one calling the valid-tuple handler.

 A table function walks the candidate rows of its table, spends one unit of budget per
 row, and gives up when the budget is exhausted.  It returns the remaining budget, or -1
 when it gave up after rejecting a row, or -2 when it gave up before descending into one.
 */
module JoinCode {
  import opened Vectors
  import opened PredicateFlags

  /** What is fixed during an episode: the order, the offsets and the resume vector `p`. */
  datatype Episode = Episode(q: Query, order: seq<nat>, offset: seq<int>, p: seq<int>)

  ghost predicate EpisodeOk(e: Episode)
  {
    && WellFormed(e.q) && Suits(e.q, e.order)
    && |e.offset| == |e.p| == |e.q.card|
    && (forall t :: 0 <= t < |e.q.card| ==> -1 <= e.offset[t] <= e.q.card[t] - 2)
  }

  /** An offset already vouches for the vector. */
  ghost predicate Excluded(offset: seq<int>, v: seq<int>)
    requires |offset| == |v|
  {
    exists t :: 0 <= t < |v| && v[t] <= offset[t]
  }

  /** The vectors agree on the first `k` tables of the order. */
  ghost predicate Same(order: seq<nat>, k: nat, u: seq<int>, v: seq<int>)
    requires k <= |order| && InBounds(order, |u|) && |v| == |u|
  {
    forall j :: 0 <= j < k ==> u[order[j]] == v[order[j]]
  }

  /** `u` lies strictly before `v` on the first `k` tables of the order. */
  ghost predicate Before(order: seq<nat>, k: nat, u: seq<int>, v: seq<int>)
    requires k <= |order| && InBounds(order, |u|) && |v| == |u|
  {
    exists j :: 0 <= j < k && u[order[j]] < v[order[j]] && Same(order, j, u, v)
  }

  lemma BeforeIsLex(order: seq<nat>, k: nat, u: seq<int>, v: seq<int>)
    requires k <= |order| && InBounds(order, |u|) && |v| == |u|
    ensures Before(order, k, u, v) <==> LexLt(View(order[..k], u), View(order[..k], v))
  {
    var a, b := View(order[..k], u), View(order[..k], v);
    if Before(order, k, u, v) {
      var j :| 0 <= j < k && u[order[j]] < v[order[j]] && Same(order, j, u, v);
      LexLtAt(a, b, j);
    }
    if LexLt(a, b) {
      var d := FirstDiff(a, b);
      forall j | 0 <= j < d ensures u[order[j]] == v[order[j]] { assert a[j] == b[j]; }
      assert a[d] == u[order[d]] && b[d] == v[order[d]];
      assert Same(order, d, u, v);
    }
  }

  /** The vector needs no further work in this episode. */
  ghost predicate Done(e: Episode, resume: bool, emitted: set<seq<int>>, v: seq<int>)
    requires EpisodeOk(e) && |v| == |e.q.card|
  {
    || (Matches(e.q, v) ==> v in emitted)
    || Excluded(e.offset, v)
    || (resume && Before(e.order, |e.order|, v, e.p))
  }

  /** Vectors extending the first `k` rows of `idx`. */
  ghost predicate Extends(e: Episode, k: nat, idx: seq<int>, v: seq<int>)
    requires EpisodeOk(e) && k <= |e.order| && |idx| == |e.q.card|
  {
    InRange(e.q.card, v) && Same(e.order, k, v, idx)
  }

  ghost predicate Complete(e: Episode, k: nat, idx: seq<int>, resume: bool, emitted: set<seq<int>>)
    requires EpisodeOk(e) && k <= |e.order| && |idx| == |e.q.card|
  {
    forall v :: Extends(e, k, idx, v) ==> Done(e, resume, emitted, v)
  }

  /** All extensions whose row of table `order[k]` is below `next` are done. */
  ghost predicate CompleteBelow(e: Episode, k: nat, idx: seq<int>, next: int, resume: bool, emitted: set<seq<int>>)
    requires EpisodeOk(e) && k < |e.order| && |idx| == |e.q.card|
  {
    forall v :: Extends(e, k, idx, v) && v[e.order[k]] < next ==> Done(e, resume, emitted, v)
  }

  /** The vectors an interrupted episode accounts for: up to the rejected row at depth `c`, or
      strictly before the accepted one. */
  ghost predicate Reached(e: Episode, c: nat, status: int, idx: seq<int>, v: seq<int>)
    requires EpisodeOk(e) && c < |e.order| && |idx| == |v| == |e.q.card|
  {
    if status == -1 then !Before(e.order, c + 1, idx, v) else Before(e.order, c + 1, v, idx)
  }

  ghost predicate CompleteTo(e: Episode, k: nat, base: seq<int>, c: nat, status: int, idx: seq<int>, resume: bool,
                             emitted: set<seq<int>>)
    requires EpisodeOk(e) && k <= |e.order| && c < |e.order| && |idx| == |base| == |e.q.card|
  {
    forall v :: Extends(e, k, base, v) && Reached(e, c, status, idx, v) ==> Done(e, resume, emitted, v)
  }

  /** Some extension is accounted for that lies beyond the resume vector. */
  ghost predicate Gained(e: Episode, k: nat, base: seq<int>, c: nat, status: int, idx: seq<int>, resume: bool)
    requires EpisodeOk(e) && k <= |e.order| && c < |e.order| && |idx| == |base| == |e.q.card|
  {
    exists v :: Extends(e, k, base, v) && Reached(e, c, status, idx, v) &&
        (resume ==> Before(e.order, |e.order|, e.p, v))
  }

  ghost predicate GainedBelow(e: Episode, k: nat, base: seq<int>, next: int, resume: bool)
    requires EpisodeOk(e) && k < |e.order| && |base| == |e.q.card|
  {
    exists v :: Extends(e, k, base, v) && v[e.order[k]] < next && (resume ==> Before(e.order, |e.order|, e.p, v))
  }

  /** No extension of the first `k` rows of the resume vector lies beyond it. */
  ghost predicate LastOfPrefix(e: Episode, k: nat)
    requires EpisodeOk(e) && k <= |e.order|
  {
    forall j :: k <= j < |e.order| ==> e.p[e.order[j]] >= e.q.card[e.order[j]] - 1
  }

  /** The most budget that a table function at depth `k` can use up without accounting for any
      vector beyond the resume vector: one unit per remaining table for the vector it starts
      with, and as much again if it first has to repeat the resume vector. */
  ghost function Slack(e: Episode, k: nat, resume: bool): (n: int)
    requires EpisodeOk(e) && k <= |e.order|
    ensures |e.order| - k <= n <= 2 * (|e.order| - k)
  {
    var m := |e.order| - k;
    if m == 0 || !resume || e.p[e.order[k]] <= e.offset[e.order[k]] then m
    else if LastOfPrefix(e, k + 1) then 2 * m else 2 * m - 1
  }

  /** The first `k` rows lie beyond the resume vector, unless there is none. */
  ghost predicate Ahead(e: Episode, k: nat, idx: seq<int>)
    requires EpisodeOk(e) && k <= |e.order| && |idx| == |e.q.card|
  {
    (forall t :: 0 <= t < |e.p| ==> e.p[t] < 0) || Before(e.order, k, e.p, idx)
  }

  /** What an episode may hand to the tuple handler: a vector that matches, is not excluded by an
      offset and does not lie before the resume vector. */
  ghost predicate MayVisit(e: Episode, v: seq<int>)
    requires EpisodeOk(e)
  {
    InRange(e.q.card, v) && Matches(e.q, v) && !Excluded(e.offset, v) && !Before(e.order, |e.order|, v, e.p)
  }

  ghost predicate MayVisitAll(e: Episode, vs: set<seq<int>>)
    requires EpisodeOk(e)
  {
    forall v :: v in vs ==> MayVisit(e, v)
  }

  /** Going on with a row beyond the resume vector's stays beyond it. */
  lemma StaysAhead(e: Episode, k: nat, base: seq<int>, idx: seq<int>, resume: bool)
    requires EpisodeOk(e) && k < |e.order| && |base| == |idx| == |e.q.card| && Same(e.order, k, idx, base)
    requires if resume then Same(e.order, k, base, e.p) && e.p[e.order[k]] < idx[e.order[k]] else Ahead(e, k, base)
    ensures Ahead(e, k + 1, idx)
  {
    if resume {
      assert Same(e.order, k, e.p, idx);
    } else if Before(e.order, k, e.p, base) {
      var j :| 0 <= j < k && e.p[e.order[j]] < base[e.order[j]] && Same(e.order, j, e.p, base);
      assert Same(e.order, j, e.p, idx);
    }
  }

  /** A vector whose rows have all been chosen may be visited. */
  lemma ChosenMayBeVisited(e: Episode, idx: seq<int>, resume: bool)
    requires EpisodeOk(e) && Picked(e, |e.order|, idx) && InRange(e.q.card, idx) && Matches(e.q, idx)
    requires if resume then Same(e.order, |e.order|, idx, e.p) else Ahead(e, |e.order|, idx)
    ensures MayVisit(e, idx)
  {
    forall t: nat | t < |idx| ensures e.offset[t] < idx[t] {
      assert t in e.order;
      var j :| 0 <= j < |e.order| && e.order[j] == t;
    }
  }

  lemma MayVisitOneMore(e: Episode, vs: set<seq<int>>, v: seq<int>)
    requires EpisodeOk(e) && MayVisitAll(e, vs) && MayVisit(e, v)
    ensures MayVisitAll(e, vs + {v})
  {
  }

  /** The rows chosen so far are candidates and passed their predicates. */
  ghost predicate Picked(e: Episode, k: nat, idx: seq<int>)
    requires EpisodeOk(e) && k <= |e.order|
  {
    && |idx| == |e.q.card|
    && (forall j :: 0 <= j < k ==> e.offset[e.order[j]] < idx[e.order[j]] < e.q.card[e.order[j]])
    && (forall j :: 0 <= j < k ==> PassesAt(e.q, e.order, j, idx))
  }

  /** The outcome of a table function at depth `k` called with `budget`. */
  ghost predicate Outcome(e: Episode, k: nat, base: seq<int>, budget: int, resume: bool, ret: int,
                          c: nat, idx: seq<int>, emitted: set<seq<int>>)
    requires EpisodeOk(e) && k <= |e.order| && |idx| == |base| == |e.q.card|
  {
    && Same(e.order, k, idx, base)
    && ret <= budget
    && (if ret < 0 then
          && (ret == -1 || ret == -2) && k <= c < |e.order|
          && (forall j :: 0 <= j <= c ==> e.offset[e.order[j]] < idx[e.order[j]] < e.q.card[e.order[j]])
          && CompleteTo(e, k, base, c, ret, idx, resume, emitted)
          && (Gained(e, k, base, c, ret, idx, resume) || budget <= Slack(e, k, resume))
        else
          && 1 <= ret
          && Complete(e, k, base, resume, emitted)
          && (resume && LastOfPrefix(e, k) ==> budget - ret <= |e.order| - k))
  }

  /** The check compiled into a table function: the predicates whose flag is set. */
  predicate PassesFlags(q: Query, flags: seq<int>, table: nat, v: seq<int>)
    requires WellFormed(q) && |flags| == q.numFlags
  {
    forall k :: k in q.flagOf && k.1 == table && flags[q.flagOf[k]] != 0 ==> q.preds[k.0].holds(v)
  }

  lemma PassesFlagsAtPosition(q: Query, order: seq<nat>, flags: seq<int>, i: nat, v: seq<int>)
    requires WellFormed(q) && IsOrder(order, |q.card|) && FlagsMatch(q, order, flags) && i < |order|
    ensures PassesFlags(q, flags, order[i], v) == PassesAt(q, order, i, v)
  {
    if PassesFlags(q, flags, order[i], v) {
      forall p | 0 <= p < |q.preds| && EvaluatedAt(q, order, i, p) ensures q.preds[p].holds(v) {
        var k: (nat, nat) := (p as nat, order[i]);
        assert k in q.flagOf && flags[q.flagOf[k]] != 0;
      }
    }
    if PassesAt(q, order, i, v) {
      forall k | k in q.flagOf && k.1 == order[i] && flags[q.flagOf[k]] != 0 ensures q.preds[k.0].holds(v) {
        assert Flagged(q, k.0, order[i]);
        assert EvaluatedAt(q, order, i, k.0);
      }
    }
  }

  // ----- rows found through an index -----

  /** An index answers the predicate at position `i`. */
  ghost predicate IndexedAt(q: Query, order: seq<nat>, i: nat, p: nat)
    requires i < |order|
  {
    p < |q.preds| && EvaluatedAt(q, order, i, p) && q.preds[p].equality
  }

  /** The row is in all index buckets for position `i`. */
  ghost predicate CandidateAt(q: Query, order: seq<nat>, i: nat, v: seq<int>)
    requires i < |order|
  {
    forall p: nat :: IndexedAt(q, order, i, p) ==> q.preds[p].holds(v)
  }

  /** The predicate holds for no row of the table. */
  predicate IsEmptyBucket(q: Query, p: nat, table: nat, idx: seq<int>)
    requires p < |q.preds| && table < |q.card| && table < |idx|
  {
    forall row :: 0 <= row < q.card[table] ==> !HoldsForRow(q, p, table, idx, row)
  }

  predicate HoldsForRow(q: Query, p: nat, table: nat, idx: seq<int>, row: int)
    requires p < |q.preds| && table < |idx|
  {
    q.preds[p].holds(idx[table := row])
  }

  /** Some bucket for position `i` does not exist. */
  ghost predicate NoBucketAt(q: Query, order: seq<nat>, i: nat, idx: seq<int>)
    requires i < |order| && order[i] < |q.card| == |idx|
  {
    exists p: nat :: IndexedAt(q, order, i, p) && IsEmptyBucket(q, p, order[i], idx)
  }

  /** More than two buckets are intersected at position `i`. */
  ghost predicate ManyBucketsAt(q: Query, order: seq<nat>, i: nat)
    requires i < |order|
  {
    exists a: nat, b: nat, c: nat :: a < b < c && IndexedAt(q, order, i, a) && IndexedAt(q, order, i, b) &&
                                     IndexedAt(q, order, i, c)
  }

  /** No position intersects more than two buckets, so that no row is handed out twice. */
  ghost predicate NeverRepeats(e: Episode)
  {
    forall i :: 0 <= i < |e.order| ==> !ManyBucketsAt(e.q, e.order, i)
  }

  lemma NoPredicatesNoBuckets(e: Episode)
    requires e.q.preds == []
    ensures NeverRepeats(e)
  {
  }

  // ----- steps of a table function -----

  /** The predicates evaluated at position `k` reject the row. */
  ghost predicate RowFails(e: Episode, k: nat, base: seq<int>, row: int)
    requires EpisodeOk(e) && k < |e.order| && |base| == |e.q.card|
  {
    !PassesAt(e.q, e.order, k, base[e.order[k] := row])
  }

  /** A row that fails its predicates settles all vectors through it. */
  lemma RejectedRow(e: Episode, k: nat, base: seq<int>, row: int, resume: bool, emitted: set<seq<int>>, v: seq<int>)
    requires EpisodeOk(e) && k < |e.order| && |base| == |e.q.card|
    requires Extends(e, k, base, v) && v[e.order[k]] == row
    requires RowFails(e, k, base, row)
    ensures Done(e, resume, emitted, v)
  {
    PassesAtIsLocal(e.q, e.order, k, v, base[e.order[k] := row]);
    MatchesByPosition(e.q, e.order, v);
  }

  lemma RejectedRows(e: Episode, k: nat, base: seq<int>, next: int, to: int, resume: bool, emitted: set<seq<int>>)
    requires EpisodeOk(e) && k < |e.order| && |base| == |e.q.card|
    requires CompleteBelow(e, k, base, next, resume, emitted)
    requires forall row :: next <= row < to ==> RowFails(e, k, base, row)
    ensures CompleteBelow(e, k, base, to, resume, emitted)
  {
    forall v | Extends(e, k, base, v) && v[e.order[k]] < to
      ensures Done(e, resume, emitted, v)
    {
      if next <= v[e.order[k]] {
        RejectedRow(e, k, base, v[e.order[k]], resume, emitted, v);
      }
    }
  }

  /** Rows skipped at the start are excluded by an offset or lie before the resume vector. */
  lemma SkippedRows(e: Episode, k: nat, base: seq<int>, start: int, resume: bool, emitted: set<seq<int>>)
    requires EpisodeOk(e) && k < |e.order| && |base| == |e.q.card|
    requires resume ==> Same(e.order, k, base, e.p)
    requires start <= e.offset[e.order[k]] + 1 || (resume && start <= e.p[e.order[k]])
    ensures CompleteBelow(e, k, base, start, resume, emitted)
  {
    forall v | Extends(e, k, base, v) && v[e.order[k]] < start
      ensures Done(e, resume, emitted, v)
    {
      var t := e.order[k];
      if v[t] <= e.offset[t] {
        assert Excluded(e.offset, v);
      } else {
        assert v[t] < e.p[t] && Same(e.order, k, v, e.p);
        assert Before(e.order, |e.order|, v, e.p);
      }
    }
  }

  lemma DoneGrows(e: Episode, resume: bool, resume': bool, emitted: set<seq<int>>, emitted': set<seq<int>>, v: seq<int>)
    requires EpisodeOk(e) && |v| == |e.q.card| && emitted <= emitted' && (resume ==> resume')
    requires Done(e, resume, emitted, v)
    ensures Done(e, resume', emitted', v)
  {
  }

  lemma CompleteBelowGrows(e: Episode, k: nat, base: seq<int>, next: int, resume: bool, emitted: set<seq<int>>,
                           emitted': set<seq<int>>)
    requires EpisodeOk(e) && k < |e.order| && |base| == |e.q.card|
    requires CompleteBelow(e, k, base, next, resume, emitted) && emitted <= emitted'
    ensures CompleteBelow(e, k, base, next, resume, emitted')
  {
    forall v | Extends(e, k, base, v) && v[e.order[k]] < next
      ensures Done(e, resume, emitted', v)
    {
      DoneGrows(e, resume, resume, emitted, emitted', v);
    }
  }

  /** A finished subtree completes its row. */
  lemma SubtreeDone(e: Episode, k: nat, base: seq<int>, idx: seq<int>, cont: bool, resume: bool, emitted: set<seq<int>>)
    requires EpisodeOk(e) && k < |e.order| && |base| == |idx| == |e.q.card| && (cont ==> resume)
    requires Same(e.order, k, idx, base)
    requires CompleteBelow(e, k, base, idx[e.order[k]], resume, emitted)
    requires Complete(e, k + 1, idx, cont, emitted)
    ensures CompleteBelow(e, k, base, idx[e.order[k]] + 1, resume, emitted)
  {
    forall v | Extends(e, k, base, v) && v[e.order[k]] < idx[e.order[k]] + 1
      ensures Done(e, resume, emitted, v)
    {
      if v[e.order[k]] == idx[e.order[k]] {
        assert Extends(e, k + 1, idx, v);
        DoneGrows(e, cont, resume, emitted, emitted, v);
      }
    }
  }

  /** Within the extensions of the first `k` rows, table `order[k]` decides first. */
  lemma ComparedAt(e: Episode, k: nat, base: seq<int>, idx: seq<int>, c: nat, v: seq<int>)
    requires EpisodeOk(e) && k <= c < |e.order| && |base| == |idx| == |e.q.card|
    requires Same(e.order, k, idx, base) && Extends(e, k, base, v)
    ensures v[e.order[k]] < idx[e.order[k]] ==> Before(e.order, c + 1, v, idx) && !Before(e.order, c + 1, idx, v)
    ensures v[e.order[k]] > idx[e.order[k]] ==> !Before(e.order, c + 1, v, idx) && Before(e.order, c + 1, idx, v)
    ensures v[e.order[k]] == idx[e.order[k]] ==> Extends(e, k + 1, idx, v)
    ensures k == c && v[e.order[k]] == idx[e.order[k]] ==>
            !Before(e.order, c + 1, v, idx) && !Before(e.order, c + 1, idx, v)
  {
    assert Same(e.order, k, v, idx) && Same(e.order, k, idx, v);
  }

  /** Giving up at this table. */
  lemma GiveUpHere(e: Episode, k: nat, base: seq<int>, idx: seq<int>, status: int, resume: bool, emitted: set<seq<int>>)
    requires EpisodeOk(e) && k < |e.order| && |base| == |idx| == |e.q.card| && (status == -1 || status == -2)
    requires Same(e.order, k, idx, base)
    requires CompleteBelow(e, k, base, idx[e.order[k]] + (if status == -1 then 1 else 0), resume, emitted)
    ensures CompleteTo(e, k, base, k, status, idx, resume, emitted)
    ensures GainedBelow(e, k, base, idx[e.order[k]] + (if status == -1 then 1 else 0), resume) ==>
              Gained(e, k, base, k, status, idx, resume)
  {
    forall v | Extends(e, k, base, v) ensures
      Reached(e, k, status, idx, v) <==> v[e.order[k]] < idx[e.order[k]] + (if status == -1 then 1 else 0)
    {
      ComparedAt(e, k, base, idx, k, v);
    }
  }

  /** Giving up because a deeper table did. */
  lemma GiveUpBelow(e: Episode, k: nat, base: seq<int>, called: seq<int>, idx: seq<int>, c: nat, status: int,
                    cont: bool, resume: bool, emitted: set<seq<int>>)
    requires EpisodeOk(e) && k < c < |e.order| && |base| == |called| == |idx| == |e.q.card| && (cont ==> resume)
    requires Same(e.order, k, called, base) && Same(e.order, k + 1, idx, called)
    requires CompleteBelow(e, k, base, idx[e.order[k]], resume, emitted)
    requires CompleteTo(e, k + 1, called, c, status, idx, cont, emitted)
    ensures CompleteTo(e, k, base, c, status, idx, resume, emitted)
  {
    forall v | Extends(e, k, base, v) && Reached(e, c, status, idx, v)
      ensures Done(e, resume, emitted, v)
    {
      ComparedAt(e, k, base, idx, c, v);
      if v[e.order[k]] == idx[e.order[k]] {
        assert Extends(e, k + 1, called, v);
        DoneGrows(e, cont, resume, emitted, emitted, v);
      }
    }
  }

  lemma GainBelow(e: Episode, k: nat, base: seq<int>, called: seq<int>, idx: seq<int>, c: nat, status: int,
                  cont: bool, resume: bool, next: int)
    requires EpisodeOk(e) && k < c < |e.order| && |base| == |called| == |idx| == |e.q.card|
    requires Same(e.order, k, called, base) && Same(e.order, k + 1, idx, called)
    requires next <= idx[e.order[k]]
    requires resume ==> Same(e.order, k, base, e.p)
    requires resume && !cont ==> e.p[e.order[k]] < idx[e.order[k]]
    requires Gained(e, k + 1, called, c, status, idx, cont) || GainedBelow(e, k, base, next, resume)
    ensures Gained(e, k, base, c, status, idx, resume)
  {
    if GainedBelow(e, k, base, next, resume) {
      var v :| Extends(e, k, base, v) && v[e.order[k]] < next && (resume ==> Before(e.order, |e.order|, e.p, v));
      ComparedAt(e, k, base, idx, c, v);
      assert Reached(e, c, status, idx, v);
    } else {
      var v :| Extends(e, k + 1, called, v) && Reached(e, c, status, idx, v) &&
          (cont ==> Before(e.order, |e.order|, e.p, v));
      assert Extends(e, k, base, v);
      if resume && !cont {
        assert Same(e.order, k, e.p, v) && e.p[e.order[k]] < v[e.order[k]];
        assert Before(e.order, |e.order|, e.p, v);
      }
    }
  }

  /** Passing a row beyond the resume vector's is a gain. */
  lemma GainByRow(e: Episode, k: nat, base: seq<int>, row: int, resume: bool)
    requires EpisodeOk(e) && k < |e.order| && |base| == |e.q.card|
    requires forall j :: 0 <= j < k ==> 0 <= base[e.order[j]] < e.q.card[e.order[j]]
    requires 0 <= row < e.q.card[e.order[k]]
    requires resume ==> Same(e.order, k, base, e.p) && e.p[e.order[k]] < row
    ensures GainedBelow(e, k, base, row + 1, resume)
  {
    var v := Completed(e, k, base, row, false);
    if resume {
      assert Same(e.order, k, e.p, v);
      assert Before(e.order, |e.order|, e.p, v);
    }
  }

  /** The first `k` rows of `base`, then `row`, then all rows zero or all rows maximal. */
  ghost function Completed(e: Episode, k: nat, base: seq<int>, row: int, maximal: bool): (v: seq<int>)
    requires EpisodeOk(e) && k < |e.order| && |base| == |e.q.card|
    requires forall j :: 0 <= j < k ==> 0 <= base[e.order[j]] < e.q.card[e.order[j]]
    requires 0 <= row < e.q.card[e.order[k]]
    ensures Extends(e, k, base, v) && v[e.order[k]] == row
    ensures maximal ==> forall j :: k < j < |e.order| ==> v[e.order[j]] == e.q.card[e.order[j]] - 1
  {
    var v := seq(|base|, t requires 0 <= t < |base| =>
                           if t == e.order[k] then row
                           else if t in e.order[..k] then base[t]
                           else if maximal then e.q.card[t] - 1 else 0);
    assert forall j :: 0 <= j < k ==> v[e.order[j]] == base[e.order[j]] by {
      forall j | 0 <= j < k ensures v[e.order[j]] == base[e.order[j]] { assert e.order[..k][j] == e.order[j]; }
    }
    assert forall t :: 0 <= t < |base| ==> 0 <= v[t] < e.q.card[t];
    v
  }

  /** Finishing the resume vector's own row is a gain unless it was the last of its prefix. */
  lemma GainByResumedRow(e: Episode, k: nat, base: seq<int>)
    requires EpisodeOk(e) && k < |e.order| && |base| == |e.q.card|
    requires InRange(e.q.card, e.p) && Same(e.order, k, base, e.p) && !LastOfPrefix(e, k + 1)
    ensures GainedBelow(e, k, base, e.p[e.order[k]] + 1, true)
  {
    assert forall j :: 0 <= j < k ==> base[e.order[j]] == e.p[e.order[j]];
    var v := Completed(e, k, base, e.p[e.order[k]], true);
    var j := FirstIncomplete(e, k + 1);
    assert Same(e.order, j, e.p, v);
    assert Before(e.order, |e.order|, e.p, v);
  }

  ghost function FirstIncomplete(e: Episode, k: nat): (j: nat)
    requires EpisodeOk(e) && k <= |e.order| && InRange(e.q.card, e.p) && !LastOfPrefix(e, k)
    ensures k <= j < |e.order| && e.p[e.order[j]] < e.q.card[e.order[j]] - 1
    ensures forall i :: k <= i < j ==> e.p[e.order[i]] == e.q.card[e.order[i]] - 1
    decreases |e.order| - k
  {
    if e.p[e.order[k]] < e.q.card[e.order[k]] - 1 then k else FirstIncomplete(e, k + 1)
  }

  /** Nothing lies beyond the last vector of a prefix. */
  lemma NoGainAtLast(e: Episode, k: nat, base: seq<int>, next: int)
    requires EpisodeOk(e) && k < |e.order| && |base| == |e.q.card|
    requires Same(e.order, k, base, e.p) && LastOfPrefix(e, k)
    ensures !GainedBelow(e, k, base, next, true)
  {
    forall v | Extends(e, k, base, v) ensures !Before(e.order, |e.order|, e.p, v) {
      forall j | 0 <= j < |e.order| ensures !(e.p[e.order[j]] < v[e.order[j]]) {
        assert j < k ==> v[e.order[j]] == base[e.order[j]];
      }
    }
  }

  lemma GainedBelowGrows(e: Episode, k: nat, base: seq<int>, next: int, to: int, resume: bool)
    requires EpisodeOk(e) && k < |e.order| && |base| == |e.q.card| && next <= to
    requires GainedBelow(e, k, base, next, resume)
    ensures GainedBelow(e, k, base, to, resume)
  {
  }
}
