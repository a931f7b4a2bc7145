/**
 Pipelines of a query and the graph of their dependencies.
 */
module Pipelines {
  import opened Wrappers
  import opened Sequences

  /** Neighbours by number; a pipeline is split if its input is handed over in chunks. */
  datatype Pipeline = Pipeline(succ: seq<nat>, pred: seq<nat>, driver: Option<nat>, split: bool)

  type Graph = seq<Pipeline>

  /** Every dependency is recorded on both sides, as often. */
  ghost predicate Mirrored(g: Graph)
  {
    && (forall a, b :: 0 <= a < |g| && b in g[a].succ ==> b < |g|)
    && (forall a, b :: 0 <= a < |g| && b in g[a].pred ==> b < |g|)
    && (forall a: nat, b: nat :: a < |g| && b < |g| ==> multiset(g[a].succ)[b] == multiset(g[b].pred)[a])
  }

  predicate Edge(g: Graph, a: nat, b: nat)
  {
    a < |g| && b < |g| && b in g[a].succ
  }

  /** Ranks grow along dependencies, so there are no cycles. */
  ghost predicate Ranks(g: Graph, rank: seq<nat>)
  {
    |rank| == |g| && forall a: nat, b: nat :: Edge(g, a, b) ==> rank[a] < rank[b]
  }

  ghost predicate Acyclic(g: Graph)
  {
    exists rank: seq<nat> :: Ranks(g, rank)
  }

  lemma AppendMirrored(g: Graph, p: Pipeline)
    requires Mirrored(g) && p.succ == [] && p.pred == []
    ensures Mirrored(g + [p])
  {
    var g' := g + [p];
    forall a: nat, b: nat | a < |g'| && b < |g'| ensures multiset(g'[a].succ)[b] == multiset(g'[b].pred)[a] {
      assert a < |g| ==> (b in g[a].succ <==> b in multiset(g[a].succ));
      assert b < |g| ==> (a in g[b].pred <==> a in multiset(g[b].pred));
    }
  }

  lemma SameNeighbours(g: Graph, g': Graph)
    requires Mirrored(g) && |g'| == |g| && forall a :: 0 <= a < |g| ==>
             g'[a].succ == g[a].succ && g'[a].pred == g[a].pred
    ensures Mirrored(g')
  {
  }

  /** `id` now depends on `pred`. */
  function Connected(g: Graph, id: nat, pred: nat): (r: Graph)
    requires id < |g| && pred < |g|
    ensures |r| == |g|
    ensures forall a :: 0 <= a < |g| ==> r[a].succ == g[a].succ + (if a == pred then [id] else [])
    ensures forall a :: 0 <= a < |g| ==> r[a].pred == g[a].pred + (if a == id then [pred] else [])
    ensures forall a :: 0 <= a < |g| ==> r[a].driver == g[a].driver && r[a].split == g[a].split
  {
    var h := g[id := g[id].(pred := g[id].pred + [pred])];
    h[pred := h[pred].(succ := h[pred].succ + [id])]
  }

  lemma ConnectCounts(g: Graph, id: nat, pred: nat, a: nat, b: nat)
    requires id < |g| && pred < |g| && a < |g| && b < |g| && multiset(g[a].succ)[b] == multiset(g[b].pred)[a]
    ensures var r := Connected(g, id, pred); multiset(r[a].succ)[b] == multiset(r[b].pred)[a]
  {
    hide Connected;
    var s, t: seq<nat> := if a == pred then [id] else [], if b == id then [pred] else [];
    CountAppend(g[a].succ, s, b);
    CountAppend(g[b].pred, t, a);
    assert multiset(s)[b] == multiset(t)[a];
  }

  lemma ConnectMirrored(g: Graph, id: nat, pred: nat)
    requires Mirrored(g) && id < |g| && pred < |g|
    ensures Mirrored(Connected(g, id, pred))
  {
    var r := Connected(g, id, pred);
    forall a, b | 0 <= a < |r| && b in r[a].succ ensures b < |r| {
      assert b in g[a].succ || b == id;
    }
    forall a, b | 0 <= a < |r| && b in r[a].pred ensures b < |r| {
      assert b in g[a].pred || b == pred;
    }
    forall a: nat, b: nat | a < |r| && b < |r| ensures multiset(r[a].succ)[b] == multiset(r[b].pred)[a] {
      ConnectCounts(g, id, pred, a, b);
    }
  }

  /** Builds the graph; pipelines are numbered in the order of their creation. */
  class PipelineBuilder {
    var pipelines: Graph

    ghost predicate Valid()
      reads this
    {
      Mirrored(pipelines)
    }

    constructor ()
      ensures Valid() && pipelines == []
    {
      pipelines := [];
    }

    method CreatePipeline() returns (id: nat)
      requires Valid()
      modifies this
      ensures Valid() && id == |old(pipelines)| && pipelines == old(pipelines) + [Pipeline([], [], None, false)]
    {
      id := |pipelines|;
      AppendMirrored(pipelines, Pipeline([], [], None, false));
      pipelines := pipelines + [Pipeline([], [], None, false)];
    }

    method AddPredecessor(id: nat, pred: nat)
      requires Valid() && id < |pipelines| && pred < |pipelines|
      modifies this
      ensures Valid() && |pipelines| == |old(pipelines)|
      ensures pipelines == Connected(old(pipelines), id, pred)
    {
      ConnectMirrored(pipelines, id, pred);
      pipelines := pipelines[id := pipelines[id].(pred := pipelines[id].pred + [pred])];
      pipelines := pipelines[pred := pipelines[pred].(succ := pipelines[pred].succ + [id])];
    }

    method SetDriver(id: nat, pred: nat)
      requires Valid() && id < |pipelines| && pred < |pipelines|
      modifies this
      ensures Valid() && |pipelines| == |old(pipelines)| && pipelines[id].driver == Some(pred)
      ensures pred in pipelines[id].pred && id in pipelines[pred].succ
      ensures pipelines == Connected(old(pipelines)[id := old(pipelines)[id].(driver := Some(pred))], id, pred)
    {
      ghost var g := pipelines;
      pipelines := pipelines[id := pipelines[id].(driver := Some(pred))];
      assert Mirrored(pipelines) by { SameNeighbours(g, pipelines); }
      AddPredecessor(id, pred);
    }
  }
}
