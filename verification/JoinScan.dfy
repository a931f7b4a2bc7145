/**
 The join code as a function: what a table function returns, where it stops, and what it hands to
 the tuple handler.  Only an index over more than two buckets can deviate from it, by handing out a
 row twice.
 */
module JoinScan {
  import opened Sequences
  import opened PredicateFlags
  import opened JoinCode

  /** Remaining budget or code, the depth at which the code gave up, the rows it stopped at, and
      the vectors handed to the tuple handler so far. */
  datatype Scan = Scan(ret: int, depth: nat, idx: seq<int>, visited: seq<seq<int>>)

  ghost predicate ScanOk(e: Episode, k: nat, idx: seq<int>)
  {
    EpisodeOk(e) && k <= |e.order| && |idx| == |e.q.card|
  }

  /** A table function at depth `k`, or the valid-tuple handler after the last table.  An index bucket that does
      not exist rules out the whole table. */
  ghost function ScanTable(e: Episode, k: nat, idx: seq<int>, budget: int, resume: bool,
                           visited: seq<seq<int>>): (r: Scan)
    requires ScanOk(e, k, idx)
    ensures |r.idx| == |idx|
    decreases |e.order| - k, 2, 0
  {
    if k == |e.order| then Scan(budget, 0, idx, visited + [idx])
    else
      var t := e.order[k];
      if NoBucketAt(e.q, e.order, k, idx) then
        if budget - 1 == 0 then Scan(-1, k, idx[t := e.q.card[t] - 1], visited) else Scan(budget - 1, k, idx, visited)
      else
        var cont := resume && e.p[t] > e.offset[t];
        ScanRows(e, k, idx, if cont then e.p[t] else e.offset[t] + 1, budget, cont, visited)
  }

  /** The row of table `order[k]` is in all buckets. */
  ghost predicate IsCandidate(e: Episode, k: nat, idx: seq<int>, row: int)
    requires ScanOk(e, k, idx) && k < |e.order|
  {
    CandidateAt(e.q, e.order, k, idx[e.order[k] := row])
  }

  /** The rows of a table from `next` on; rows that are not in all buckets cost nothing. */
  ghost function ScanRows(e: Episode, k: nat, idx: seq<int>, next: int, left: int, cont: bool,
                          visited: seq<seq<int>>): (r: Scan)
    requires ScanOk(e, k, idx) && k < |e.order|
    ensures |r.idx| == |idx|
    decreases |e.order| - k, 1, e.q.card[e.order[k]] - next
  {
    if next >= e.q.card[e.order[k]] then Scan(left, k, idx, visited)
    else if !IsCandidate(e, k, idx, next) then
      ScanRows(e, k, idx, next + 1, left, false, visited)
    else
      var r := ScanRow(e, k, idx, next, left, cont, visited);
      if r.ret < 0 then r else ScanRows(e, k, r.idx, next + 1, r.ret, false, r.visited)
  }

  /** One row: it stops the code if it takes the last unit of budget. */
  ghost function ScanRow(e: Episode, k: nat, idx: seq<int>, row: int, left: int, cont: bool,
                         visited: seq<seq<int>>): (r: Scan)
    requires ScanOk(e, k, idx) && k < |e.order|
    ensures |r.idx| == |idx|
    decreases |e.order| - k, 0, 0
  {
    var idx' := idx[e.order[k] := row];
    if !PassesAt(e.q, e.order, k, idx') then Scan(if left - 1 == 0 then -1 else left - 1, k, idx', visited)
    else if left - 1 == 0 then Scan(-2, k, idx', visited)
    else ScanTable(e, k + 1, idx', left - 1, cont, visited)
  }

  /** The compiled code did what the function says. */
  ghost predicate Follows(r: Scan, ret: int, c: nat, idx: seq<int>, visited: seq<seq<int>>)
  {
    ret == r.ret && idx == r.idx && visited == r.visited && (ret < 0 ==> c == r.depth)
  }

  /** Without predicates every row is a candidate and passes. */
  lemma EveryRowPasses(q: Query, order: seq<nat>, k: nat, v: seq<int>)
    requires k < |order| && q.preds == []
    ensures PassesAt(q, order, k, v) && CandidateAt(q, order, k, v)
  {
  }

  /** A candidate row. */
  lemma ScanStep(e: Episode, k: nat, idx: seq<int>, next: int, left: int, cont: bool, visited: seq<seq<int>>)
    requires ScanOk(e, k, idx) && k < |e.order| && next < e.q.card[e.order[k]]
    requires IsCandidate(e, k, idx, next)
    ensures var r := ScanRow(e, k, idx, next, left, cont, visited);
            ScanRows(e, k, idx, next, left, cont, visited) == if r.ret < 0 then r
                else ScanRows(e, k, r.idx, next + 1, r.ret, false, r.visited)
  {
  }

  /** Rows that are no candidates are passed over. */
  lemma {:induction false} SkipRows(e: Episode, k: nat, idx: seq<int>, next: int, row: int, left: int, cont: bool,
                                    visited: seq<seq<int>>)
    requires ScanOk(e, k, idx) && k < |e.order| && next <= row <= e.q.card[e.order[k]]
    requires forall r :: next <= r < row ==> !IsCandidate(e, k, idx, r)
    ensures ScanRows(e, k, idx, next, left, cont, visited) ==
            ScanRows(e, k, idx, row, left, cont && row == next, visited)
    decreases row - next
  {
    hide ScanRow, ScanTable, IsCandidate;
    if next < row { SkipRows(e, k, idx, next + 1, row, left, false, visited); }
  }

  lemma ScanEnd(e: Episode, k: nat, idx: seq<int>, left: int, cont: bool, visited: seq<seq<int>>)
    requires ScanOk(e, k, idx) && k < |e.order|
    ensures ScanRows(e, k, idx, e.q.card[e.order[k]], left, cont, visited) == Scan(left, k, idx, visited)
  {
  }

  // ----- the order of the visits -----

  /** What was visited after `before`: vectors with the first `k` rows of `idx`, each beyond the
      one before it. */
  ghost predicate Ascends(e: Episode, k: nat, idx: seq<int>, before: seq<seq<int>>, after: seq<seq<int>>)
    requires ScanOk(e, k, idx)
  {
    && before <= after
    && (forall i :: |before| <= i < |after| ==> |after[i]| == |idx| && Same(e.order, k, after[i], idx))
    && forall i, j :: |before| <= i < j < |after| ==> Precedes(e, after[i], after[j])
  }

  ghost predicate Precedes(e: Episode, u: seq<int>, v: seq<int>)
    requires EpisodeOk(e)
  {
    |u| == |v| == |e.q.card| && Before(e.order, |e.order|, u, v)
  }

  /** The rows of table `order[k]` in what was visited. */
  ghost predicate RowsBetween(e: Episode, k: nat, lo: int, hi: int, before: seq<seq<int>>, after: seq<seq<int>>)
    requires EpisodeOk(e) && k < |e.order|
  {
    forall i :: |before| <= i < |after| ==> |after[i]| == |e.q.card| && lo <= after[i][e.order[k]] < hi
  }

  lemma OneRowAscends(e: Episode, k: nat, idx: seq<int>, row: int, before: seq<seq<int>>, after: seq<seq<int>>)
    requires ScanOk(e, k, idx) && k < |e.order| && Ascends(e, k + 1, idx[e.order[k] := row], before, after)
    ensures Ascends(e, k, idx, before, after) && RowsBetween(e, k, row, row + 1, before, after)
  {
  }

  lemma PrecedesByRow(e: Episode, k: nat, idx: seq<int>, u: seq<int>, v: seq<int>)
    requires ScanOk(e, k, idx) && k < |e.order| && |u| == |v| == |idx|
    requires Same(e.order, k, u, idx) && Same(e.order, k, v, idx) && u[e.order[k]] < v[e.order[k]]
    ensures Precedes(e, u, v)
  {
    assert Same(e.order, k, u, v);
  }

  lemma AscendsOn(e: Episode, k: nat, idx: seq<int>, idx': seq<int>, row: int, hi: int, a: seq<seq<int>>,
                  b: seq<seq<int>>, c: seq<seq<int>>)
    requires ScanOk(e, k, idx) && ScanOk(e, k, idx') && k < |e.order| && Same(e.order, k, idx', idx) && row < hi
    requires Ascends(e, k, idx, a, b) && RowsBetween(e, k, row, row + 1, a, b)
    requires Ascends(e, k, idx', b, c) && RowsBetween(e, k, row + 1, hi, b, c)
    ensures Ascends(e, k, idx, a, c) && RowsBetween(e, k, row, hi, a, c)
  {
    hide Precedes;
    forall i | |a| <= i < |c| ensures |c[i]| == |idx| && Same(e.order, k, c[i], idx) && row <= c[i][e.order[k]] < hi {
      if i < |b| { assert c[i] == b[i]; }
    }
    forall i, j | |a| <= i < j < |c| ensures Precedes(e, c[i], c[j]) {
      if j < |b| {
        assert c[i] == b[i] && c[j] == b[j];
      } else if i < |b| {
        assert c[i] == b[i];
        PrecedesByRow(e, k, idx, c[i], c[j]);
      }
    }
  }

  /** The code visits vectors in the order of the join, each once. */
  lemma {:induction false} ScanTableAscends(e: Episode, k: nat, idx: seq<int>, budget: int, resume: bool,
                                            visited: seq<seq<int>>)
    requires ScanOk(e, k, idx)
    ensures var r := ScanTable(e, k, idx, budget, resume, visited);
            Same(e.order, k, r.idx, idx) && Ascends(e, k, idx, visited, r.visited)
    decreases |e.order| - k, 2, 0
  {
    if k < |e.order| {
      var t := e.order[k];
      var cont := resume && e.p[t] > e.offset[t];
      ScanRowsAscend(e, k, idx, if cont then e.p[t] else e.offset[t] + 1, budget, cont, visited);
      SameBefore(e, k, idx, e.q.card[t] - 1);
      NothingVisited(e, k, idx, 0, 0, visited);
    }
  }

  lemma {:induction false} ScanRowsAscend(e: Episode, k: nat, idx: seq<int>, next: int, left: int, cont: bool,
                                          visited: seq<seq<int>>)
    requires ScanOk(e, k, idx) && k < |e.order|
    ensures var r := ScanRows(e, k, idx, next, left, cont, visited);
            && Same(e.order, k, r.idx, idx) && Ascends(e, k, idx, visited, r.visited)
            && RowsBetween(e, k, next, e.q.card[e.order[k]], visited, r.visited)
    decreases |e.order| - k, 1, e.q.card[e.order[k]] - next
  {
    hide ScanTable, ScanRows, Ascends, RowsBetween;
    var card := e.q.card[e.order[k]];
    if next >= card {
      NoMoreRows(e, k, idx, next, left, cont, visited);
      NothingVisited(e, k, idx, next, card, visited);
    } else if !IsCandidate(e, k, idx, next) {
      SkipRows(e, k, idx, next, next + 1, left, cont, visited);
      ScanRowsAscend(e, k, idx, next + 1, left, false, visited);
      FewerRowsBetween(e, k, next, card, visited, ScanRows(e, k, idx, next + 1, left, false, visited).visited);
    } else {
      ScanStep(e, k, idx, next, left, cont, visited);
      var r := ScanRow(e, k, idx, next, left, cont, visited);
      RowAscends(e, k, idx, next, left, cont, visited);
      if r.ret < 0 {
        NothingVisited(e, k, r.idx, next + 1, card, r.visited);
        AscendsOn(e, k, idx, r.idx, next, card, visited, r.visited, r.visited);
      } else {
        ScanRowsAscend(e, k, r.idx, next + 1, r.ret, false, r.visited);
        var r' := ScanRows(e, k, r.idx, next + 1, r.ret, false, r.visited);
        AscendsOn(e, k, idx, r.idx, next, card, visited, r.visited, r'.visited);
      }
    }
  }

  lemma RowAscends(e: Episode, k: nat, idx: seq<int>, row: int, left: int, cont: bool, visited: seq<seq<int>>)
    requires ScanOk(e, k, idx) && k < |e.order|
    ensures var r := ScanRow(e, k, idx, row, left, cont, visited);
            && Same(e.order, k, r.idx, idx) && Ascends(e, k, idx, visited, r.visited)
            && RowsBetween(e, k, row, row + 1, visited, r.visited)
    decreases |e.order| - k, 0, 0
  {
    hide ScanTable, Ascends, RowsBetween, PassesAt;
    SameBefore(e, k, idx, row);
    if left - 1 == 0 || !PassesAt(e.q, e.order, k, idx[e.order[k] := row]) {
      NothingVisited(e, k, idx, row, row + 1, visited);
    } else {
      var r := ScanRow(e, k, idx, row, left, cont, visited);
      ScanTableAscends(e, k + 1, idx[e.order[k] := row], left - 1, cont, visited);
      OneRowAscends(e, k, idx, row, visited, r.visited);
    }
  }

  lemma SameBefore(e: Episode, k: nat, idx: seq<int>, row: int)
    requires ScanOk(e, k, idx) && k < |e.order|
    ensures Same(e.order, k, idx[e.order[k] := row], idx)
  {
  }

  lemma FewerRowsBetween(e: Episode, k: nat, next: int, hi: int, before: seq<seq<int>>, after: seq<seq<int>>)
    requires EpisodeOk(e) && k < |e.order| && RowsBetween(e, k, next + 1, hi, before, after)
    ensures RowsBetween(e, k, next, hi, before, after)
  {
  }

  lemma NothingVisited(e: Episode, k: nat, idx: seq<int>, lo: int, hi: int, visited: seq<seq<int>>)
    requires ScanOk(e, k, idx) && k < |e.order|
    ensures Ascends(e, k, idx, visited, visited) && RowsBetween(e, k, lo, hi, visited, visited)
  {
  }

  lemma NoMoreRows(e: Episode, k: nat, idx: seq<int>, next: int, left: int, cont: bool, visited: seq<seq<int>>)
    requires ScanOk(e, k, idx) && k < |e.order| && next >= e.q.card[e.order[k]]
    ensures ScanRows(e, k, idx, next, left, cont, visited) == Scan(left, k, idx, visited)
  {
  }

  /** Hence an episode visits no vector twice. */
  lemma ScanIsDistinct(e: Episode, idx: seq<int>, budget: int, resume: bool)
    requires ScanOk(e, 0, idx)
    ensures Distinct(ScanTable(e, 0, idx, budget, resume, []).visited)
  {
    hide ScanTable;
    ScanTableAscends(e, 0, idx, budget, resume, []);
    var visited := ScanTable(e, 0, idx, budget, resume, []).visited;
    forall i, j | 0 <= i < j < |visited| ensures visited[i] != visited[j] {
      assert Precedes(e, visited[i], visited[j]);
    }
  }
}
