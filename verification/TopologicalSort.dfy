/**
 The order in which pipelines run: reversed depth-first finishing order.
 */
module TopologicalSort {
  import opened Sequences
  import opened Pipelines

  /** Successors come before the pipelines that lead to them. */
  ghost predicate Closed(g: Graph, order: seq<nat>)
  {
    && Distinct(order)
    && (forall i :: 0 <= i < |order| ==> order[i] < |g|)
    && (forall i, b: nat :: 0 <= i < |order| && Edge(g, order[i], b) ==> b in order[..i])
  }

  /** Started but not finished. */
  predicate Open(visited: seq<bool>, order: seq<nat>, x: nat)
  {
    x < |visited| && visited[x] && x !in order
  }

  ghost predicate FinishedVisited(visited: seq<bool>, order: seq<nat>)
  {
    forall x :: x in order ==> x < |visited| && visited[x]
  }

  ghost function Unvisited(visited: seq<bool>): (s: set<nat>)
  {
    set x: nat | x < |visited| && !visited[x]
  }

  /** All open pipelines rank below `r`. */
  ghost predicate OpenBelow(visited: seq<bool>, order: seq<nat>, rank: seq<nat>, r: nat)
    requires |rank| == |visited|
  {
    forall x: nat :: Open(visited, order, x) ==> rank[x] < r
  }

  ghost predicate SameOpen(visited: seq<bool>, order: seq<nat>, visited': seq<bool>, order': seq<nat>)
  {
    forall x: nat :: Open(visited', order', x) <==> Open(visited, order, x)
  }

  ghost predicate Grows(visited: seq<bool>, visited': seq<bool>)
  {
    |visited'| == |visited| && forall x :: 0 <= x < |visited| && visited[x] ==> visited'[x]
  }

  lemma CloseLast(g: Graph, order: seq<nat>, x: nat)
    requires Closed(g, order) && x < |g| && x !in order && forall b: nat :: Edge(g, x, b) ==> b in order
    ensures Closed(g, order + [x])
  {
    var o := order + [x];
    forall i, b: nat | 0 <= i < |o| && Edge(g, o[i], b) ensures b in o[..i] {
      if i < |order| {
        assert o[..i] == order[..i];
      } else {
        assert o[..i] == order;
      }
    }
  }

  /** Marks and finishes everything reachable from `curr` that is new. */
  method TopSortVisit(g: Graph, curr: nat, visited0: seq<bool>, order0: seq<nat>, ghost rank: seq<nat>)
    returns (visited: seq<bool>, order: seq<nat>)
    requires Mirrored(g) && Ranks(g, rank) && |visited0| == |g| && curr < |g| && !visited0[curr]
    requires Closed(g, order0) && FinishedVisited(visited0, order0) && OpenBelow(visited0, order0, rank, rank[curr])
    ensures Closed(g, order) && FinishedVisited(visited, order) && SameOpen(visited0, order0, visited, order)
    ensures Grows(visited0, visited) && visited[curr] && curr in order
    ensures order0 <= order
    decreases Unvisited(visited0)
  {
    visited, order := visited0[curr := true], order0;
    assert curr in Unvisited(visited0);
    for k := 0 to |g[curr].succ|
      invariant Closed(g, order) && FinishedVisited(visited, order) && Grows(visited0[curr := true], visited) &&
                order0 <= order
      invariant SameOpen(visited0[curr := true], order0, visited, order)
      invariant forall q :: 0 <= q < k ==> g[curr].succ[q] in order
    {
      var next := g[curr].succ[k];
      assert next in g[curr].succ;
      assert Edge(g, curr, next);
      if !visited[next] {
        StillBelow(visited0, order0, visited, order, rank, curr, next);
        FewerUnvisited(visited0, visited, curr);
        visited, order := TopSortVisit(g, next, visited, order, rank);
      } else {
        NotOpen(visited0, order0, visited, order, rank, curr, next);
      }
    }
    assert Open(visited0[curr := true], order0, curr);
    CloseLast(g, order, curr);
    Finish(visited0, order0, visited, order, curr);
    order := order + [curr];
  }

  lemma StillBelow(visited0: seq<bool>, order0: seq<nat>, visited: seq<bool>, order: seq<nat>, rank: seq<nat>,
                   curr: nat, next: nat)
    requires |visited0| == |visited| == |rank| && curr < |rank| && next < |rank| && rank[curr] < rank[next]
    requires OpenBelow(visited0, order0, rank, rank[curr]) && SameOpen(visited0[curr := true], order0, visited, order)
    ensures OpenBelow(visited, order, rank, rank[next])
  {
    forall x: nat | Open(visited, order, x) ensures rank[x] < rank[next] {
      assert Open(visited0[curr := true], order0, x);
      if x != curr { assert Open(visited0, order0, x); }
    }
  }

  lemma NotOpen(visited0: seq<bool>, order0: seq<nat>, visited: seq<bool>, order: seq<nat>, rank: seq<nat>, curr: nat,
                next: nat)
    requires |visited0| == |visited| == |rank| && curr < |rank| && next < |rank| && rank[curr] < rank[next] &&
             visited[next]
    requires OpenBelow(visited0, order0, rank, rank[curr]) && SameOpen(visited0[curr := true], order0, visited, order)
    ensures next in order
  {
    StillBelow(visited0, order0, visited, order, rank, curr, next);
    assert !Open(visited, order, next);
  }

  lemma FewerUnvisited(visited0: seq<bool>, visited: seq<bool>, curr: nat)
    requires curr < |visited0| && !visited0[curr] && Grows(visited0[curr := true], visited)
    ensures Unvisited(visited) < Unvisited(visited0)
  {
    assert curr in Unvisited(visited0) && curr !in Unvisited(visited);
    forall x | x in Unvisited(visited) ensures x in Unvisited(visited0) {
      assert x < |visited0| && !visited0[curr := true][x];
    }
  }

  lemma Finish(visited0: seq<bool>, order0: seq<nat>, visited: seq<bool>, order: seq<nat>, curr: nat)
    requires curr < |visited0| && !visited0[curr] && FinishedVisited(visited0, order0) &&
             FinishedVisited(visited, order)
    requires SameOpen(visited0[curr := true], order0, visited, order) && |visited| == |visited0|
    ensures SameOpen(visited0, order0, visited, order + [curr]) && FinishedVisited(visited, order + [curr])
  {
    forall x: nat ensures Open(visited, order + [curr], x) <==> Open(visited0, order0, x) {
      assert Open(visited, order, x) <==> Open(visited0[curr := true], order0, x);
    }
    assert Open(visited, order, curr);
  }

  // ----- the whole order -----

  /** A permutation of the pipelines. */
  ghost predicate IsPermutation(order: seq<nat>, n: nat)
  {
    |order| == n && Distinct(order) && (forall i :: 0 <= i < |order| ==> order[i] < n) && forall x: nat :: x < n ==>
        x in order
  }

  /** Predecessors run first. */
  ghost predicate Topological(g: Graph, order: seq<nat>)
  {
    IsPermutation(order, |g|) && forall i, j ::
        0 <= i < |order| && 0 <= j < |order| && Edge(g, order[i], order[j]) ==> i < j
  }

  function Reversed(s: seq<nat>): (r: seq<nat>)
    ensures |r| == |s| && forall i :: 0 <= i < |s| ==> r[i] == s[|s| - 1 - i]
  {
    seq(|s|, i requires 0 <= i < |s| => s[|s| - 1 - i])
  }

  lemma ReversedIsTopological(g: Graph, order: seq<nat>)
    requires Closed(g, order) && IsPermutation(order, |g|)
    ensures Topological(g, Reversed(order))
  {
    var r, n := Reversed(order), |order|;
    forall x: nat | x < |g| ensures x in r {
      assert x in order;
      var i :| 0 <= i < n && order[i] == x;
      assert r[n - 1 - i] == x;
    }
    forall i, j | 0 <= i < n && 0 <= j < n && Edge(g, r[i], r[j]) ensures i < j {
      var p := n - 1 - i;
      assert order[p] == r[i] && r[j] in order[..p];
      var q :| 0 <= q < p && order[q] == r[j];
      assert order[n - 1 - j] == order[q];
    }
  }

  lemma {:induction false} DistinctSize(order: seq<nat>, n: nat)
    requires Distinct(order) && (forall i :: 0 <= i < |order| ==> order[i] < n) && forall x: nat :: x < n ==> x in order
    ensures |order| == n
    decreases n
  {
    if n > 0 {
      var last: nat := n - 1;
      assert last in order;
      var i :| 0 <= i < |order| && order[i] == last;
      var rest := order[..i] + order[i + 1..];
      forall x: nat | x < n - 1 ensures x in rest {
        assert x in order;
        var k :| 0 <= k < |order| && order[k] == x;
        assert if k < i then rest[k] == x else rest[k - 1] == x;
      }
      DistinctSize(rest, n - 1);
    }
  }

  /** The order in which the pipelines run. */
  method ExecutionOrder(g: Graph) returns (order: seq<nat>)
    requires Mirrored(g) && Acyclic(g)
    ensures Topological(g, order)
  {
    ghost var rank: seq<nat> :| Ranks(g, rank);
    var visited := seq(|g|, i => false);
    order := [];
    for i := 0 to |g|
      invariant |visited| == |g| && Closed(g, order) && FinishedVisited(visited, order)
      invariant forall x: nat :: !Open(visited, order, x)
      invariant forall x: nat :: x < i ==> visited[x]
    {
      if !visited[i] {
        ghost var v, o := visited, order;
        visited, order := TopSortVisit(g, i, visited, order, rank);
        forall x: nat ensures !Open(visited, order, x) {
          assert !Open(v, o, x);
        }
      }
    }
    forall x: nat | x < |g| ensures x in order {
      assert !Open(visited, order, x);
    }
    DistinctSize(order, |g|);
    ReversedIsTopological(g, order);
    order := Reversed(order);
  }

  lemma NoEdgeFromLast(g: Graph, order: seq<nat>, b: nat)
    requires Topological(g, order) && 0 < |g|
    ensures !Edge(g, order[|order| - 1], b)
  {
    var n := |order| - 1;
    if b < |g| {
      assert b in order;
      var j :| 0 <= j < |order| && order[j] == b;
      assert Edge(g, order[n], order[j]) ==> n < j;
    }
  }

  /** The last pipeline has no successors, so nothing reads the output pipeline. */
  lemma LastHasNoSuccessors(g: Graph, order: seq<nat>)
    requires Mirrored(g) && Topological(g, order) && 0 < |g|
    ensures g[order[|order| - 1]].succ == []
  {
    var last := order[|order| - 1];
    if g[last].succ != [] {
      var b := g[last].succ[0];
      assert b in g[last].succ;
      NoEdgeFromLast(g, order, b);
    }
  }
}
