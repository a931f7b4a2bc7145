/**
 Disjoint sets with path compression.
 */
module UnionFind {

  /** Ranks fall along parent links, so every element has a root. */
  ghost predicate Forest(parent: seq<int>, rank: seq<nat>)
  {
    && |rank| == |parent|
    && (forall i :: 0 <= i < |parent| ==> 0 <= parent[i] < |parent|)
    && (forall i :: 0 <= i < |parent| && parent[i] != i ==> rank[parent[i]] < rank[i])
  }

  /** The representative of an element's set. */
  ghost function Root(parent: seq<int>, rank: seq<nat>, i: int): (r: int)
    requires Forest(parent, rank) && 0 <= i < |parent|
    ensures 0 <= r < |parent| && parent[r] == r && (r != i ==> rank[r] < rank[i])
    decreases rank[i]
  {
    if parent[i] == i then i else Root(parent, rank, parent[i])
  }

  ghost predicate SameSet(parent: seq<int>, rank: seq<nat>, i: int, j: int)
    requires Forest(parent, rank) && 0 <= i < |parent| && 0 <= j < |parent|
  {
    Root(parent, rank, i) == Root(parent, rank, j)
  }

  ghost predicate SameRoots(p: seq<int>, p': seq<int>, rank: seq<nat>)
    requires Forest(p, rank) && Forest(p', rank) && |p| == |p'|
  {
    forall k :: 0 <= k < |p| ==> Root(p', rank, k) == Root(p, rank, k)
  }

  /** Pointing an element at its root changes no root. */
  lemma CompressForest(p: seq<int>, rank: seq<nat>, i: int)
    requires Forest(p, rank) && 0 <= i < |p|
    ensures Forest(p[i := Root(p, rank, i)], rank)
  {
  }

  lemma {:induction false} CompressRoot(p: seq<int>, rank: seq<nat>, i: int, k: int)
    requires Forest(p, rank) && 0 <= i < |p| && 0 <= k < |p|
    ensures Forest(p[i := Root(p, rank, i)], rank) && Root(p[i := Root(p, rank, i)], rank, k) == Root(p, rank, k)
    decreases rank[k]
  {
    CompressForest(p, rank, i);
    var p' := p[i := Root(p, rank, i)];
    if k == i {
      assert p'[Root(p, rank, i)] == Root(p, rank, i);
    } else if p[k] != k {
      CompressRoot(p, rank, i, p[k]);
    }
  }

  /** Finds the representative and points everything on the way at it. */
  method Find(parent: array<int>, i: int, ghost rank: seq<nat>) returns (r: int)
    requires Forest(parent[..], rank) && 0 <= i < parent.Length
    modifies parent
    ensures Forest(parent[..], rank) && SameRoots(old(parent[..]), parent[..], rank)
    ensures r == old(Root(parent[..], rank, i)) && parent[i] == r
    decreases rank[i]
  {
    ghost var p := parent[..];
    if parent[i] == i {
      return i;
    }
    r := Find(parent, parent[i], rank);
    ghost var p1 := parent[..];
    assert Root(p1, rank, i) == Root(p, rank, i) == r;
    CompressForest(p1, rank, i);
    parent[i] := r;
    assert parent[..] == p1[i := r];
    forall k | 0 <= k < |p| ensures Root(parent[..], rank, k) == Root(p, rank, k) {
      CompressRoot(p1, rank, i, k);
    }
  }

  /** The new ranks after the set of `x` has been put below `y`. */
  ghost function Raised(p: seq<int>, rank: seq<nat>, x: int, y: int): (r: seq<nat>)
    requires Forest(p, rank) && 0 <= x < |p| && 0 <= y < |p|
    ensures |r| == |p| && forall k :: 0 <= k < |p| ==>
            r[k] == if Root(p, rank, k) == x then rank[k] + rank[y] + 1 else rank[k]
  {
    seq(|p|, k requires 0 <= k < |p| => if Root(p, rank, k) == x then rank[k] + rank[y] + 1 else rank[k])
  }

  lemma JoinForest(p: seq<int>, rank: seq<nat>, x: int, y: int)
    requires Forest(p, rank) && 0 <= x < |p| && 0 <= y < |p| && p[x] == x && p[y] == y && x != y
    ensures Forest(p[x := y], Raised(p, rank, x, y))
  {
    var p', r' := p[x := y], Raised(p, rank, x, y);
    forall i | 0 <= i < |p'| && p'[i] != i ensures r'[p'[i]] < r'[i] {
      if i != x { assert Root(p, rank, i) == Root(p, rank, p[i]); }
    }
  }

  lemma {:induction false} JoinRoot(p: seq<int>, rank: seq<nat>, x: int, y: int, k: int)
    requires Forest(p, rank) && 0 <= x < |p| && 0 <= y < |p| && p[x] == x && p[y] == y && x != y && 0 <= k < |p|
    ensures Forest(p[x := y], Raised(p, rank, x, y))
    ensures Root(p[x := y], Raised(p, rank, x, y), k) == if Root(p, rank, k) == x then y else Root(p, rank, k)
    decreases rank[k]
  {
    hide Raised;
    JoinForest(p, rank, x, y);
    var p', r' := p[x := y], Raised(p, rank, x, y);
    if k == x {
      assert Root(p', r', y) == y;
    } else if p[k] != k {
      JoinRoot(p, rank, x, y, p[k]);
      assert Root(p', r', k) == Root(p', r', p'[k]);
    }
  }

  /** `a` and `b` belong together once the sets of `x` and `y` are one. */
  ghost predicate Joined(p: seq<int>, rank: seq<nat>, x: int, y: int, a: int, b: int)
    requires Forest(p, rank) && 0 <= x < |p| && 0 <= y < |p| && 0 <= a < |p| && 0 <= b < |p|
  {
    || SameSet(p, rank, a, b)
    || (SameSet(p, rank, a, x) && SameSet(p, rank, b, y))
    || (SameSet(p, rank, a, y) && SameSet(p, rank, b, x))
  }

  /** The forest `p'` is `p` with the sets of `x` and `y` merged. */
  ghost predicate Merges(p: seq<int>, rank: seq<nat>, x: int, y: int, p': seq<int>, rank': seq<nat>)
    requires Forest(p, rank) && 0 <= x < |p| && 0 <= y < |p|
  {
    && Forest(p', rank') && |p'| == |p|
    && forall a, b :: 0 <= a < |p| && 0 <= b < |p| ==> (SameSet(p', rank', a, b) <==> Joined(p, rank, x, y, a, b))
  }

  lemma SameRootsTrans(p: seq<int>, p1: seq<int>, p2: seq<int>, rank: seq<nat>)
    requires Forest(p, rank) && Forest(p1, rank) && Forest(p2, rank) && |p| == |p1| == |p2|
    requires SameRoots(p, p1, rank) && SameRoots(p1, p2, rank)
    ensures SameRoots(p, p2, rank)
  {
    forall k | 0 <= k < |p| ensures Root(p2, rank, k) == Root(p, rank, k) {
      assert Root(p1, rank, k) == Root(p, rank, k);
    }
  }

  lemma AlreadyMerged(p: seq<int>, p2: seq<int>, rank: seq<nat>, x: int, y: int)
    requires Forest(p, rank) && Forest(p2, rank) && |p| == |p2| && SameRoots(p, p2, rank)
    requires 0 <= x < |p| && 0 <= y < |p| && SameSet(p, rank, x, y)
    ensures Merges(p, rank, x, y, p2, rank)
  {
    forall a, b | 0 <= a < |p| && 0 <= b < |p| ensures SameSet(p2, rank, a, b) <==> Joined(p, rank, x, y, a, b) {
      assert Root(p2, rank, a) == Root(p, rank, a) && Root(p2, rank, b) == Root(p, rank, b);
    }
  }

  lemma JoinMerges(p: seq<int>, p2: seq<int>, rank: seq<nat>, x: int, y: int)
    requires Forest(p, rank) && Forest(p2, rank) && |p| == |p2| && SameRoots(p, p2, rank)
    requires 0 <= x < |p| && 0 <= y < |p| && !SameSet(p, rank, x, y)
    ensures var xset, yset := Root(p, rank, x), Root(p, rank, y);
            Merges(p, rank, x, y, p2[xset := yset], Raised(p2, rank, xset, yset))
  {
    hide Raised;
    var xset, yset := Root(p, rank, x), Root(p, rank, y);
    assert Root(p2, rank, x) == xset && Root(p2, rank, y) == yset;
    assert p2[xset] == xset && p2[yset] == yset;
    JoinForest(p2, rank, xset, yset);
    var p', rank' := p2[xset := yset], Raised(p2, rank, xset, yset);
    hide Root, SameSet, Joined, SameRoots;
    forall a, b | 0 <= a < |p| && 0 <= b < |p| ensures SameSet(p', rank', a, b) <==> Joined(p, rank, x, y, a, b) {
      JoinPair(p, p2, rank, x, y, p', rank', a, b);
    }
  }

  lemma JoinPair(p: seq<int>, p2: seq<int>, rank: seq<nat>, x: int, y: int, p': seq<int>, rank': seq<nat>, a: int,
                 b: int)
    requires Forest(p, rank) && Forest(p2, rank) && |p| == |p2| && SameRoots(p, p2, rank)
    requires 0 <= x < |p| && 0 <= y < |p| && !SameSet(p, rank, x, y) && 0 <= a < |p| && 0 <= b < |p|
    requires Forest(p', rank') && |p'| == |p| && p' == p2[Root(p, rank, x) := Root(p, rank, y)]
    requires rank' == Raised(p2, rank, Root(p, rank, x), Root(p, rank, y))
    ensures SameSet(p', rank', a, b) <==> Joined(p, rank, x, y, a, b)
  {
    hide Raised, Root;
    RootsAgree(p, p2, rank, x);
    RootsAgree(p, p2, rank, y);
    JoinedRoot(p, p2, rank, x, y, p', rank', a);
    JoinedRoot(p, p2, rank, x, y, p', rank', b);
    hide Forest, SameRoots;
  }

  lemma JoinedRoot(p: seq<int>, p2: seq<int>, rank: seq<nat>, x: int, y: int, p': seq<int>, rank': seq<nat>, a: int)
    requires Forest(p, rank) && Forest(p2, rank) && |p| == |p2| && SameRoots(p, p2, rank)
    requires 0 <= x < |p| && 0 <= y < |p| && !SameSet(p, rank, x, y) && 0 <= a < |p|
    requires Forest(p', rank') && |p'| == |p| && p' == p2[Root(p, rank, x) := Root(p, rank, y)]
    requires rank' == Raised(p2, rank, Root(p, rank, x), Root(p, rank, y))
    ensures Root(p', rank', a) == if SameSet(p, rank, a, x) then Root(p, rank, y) else Root(p, rank, a)
  {
    hide Raised, Root;
    RootsAgree(p, p2, rank, x);
    RootsAgree(p, p2, rank, y);
    RootsAgree(p, p2, rank, a);
    hide SameRoots;
    JoinRoot(p2, rank, Root(p, rank, x), Root(p, rank, y), a);
  }

  /** Merges the sets of `x` and `y` and leaves all others as they are. */
  method Union(parent: array<int>, x: int, y: int, ghost rank: seq<nat>) returns (ghost rank': seq<nat>)
    requires Forest(parent[..], rank) && 0 <= x < parent.Length && 0 <= y < parent.Length
    modifies parent
    ensures Merges(old(parent[..]), rank, x, y, parent[..], rank')
  {
    hide Raised, Merges, SameRoots;
    ghost var p := parent[..];
    var xset := Find(parent, x, rank);
    ghost var p1 := parent[..];
    var yset := Find(parent, y, rank);
    ghost var p2 := parent[..];
    SameRootsTrans(p, p1, p2, rank);
    RootsAgree(p, p1, rank, y);
    rank' := rank;
    if xset == yset {
      AlreadyMerged(p, p2, rank, x, y);
      return;
    }
    JoinMerges(p, p2, rank, x, y);
    parent[xset] := yset;
    rank' := Raised(p2, rank, xset, yset);
    assert parent[..] == p2[xset := yset];
  }

  lemma RootsAgree(p: seq<int>, p': seq<int>, rank: seq<nat>, k: int)
    requires Forest(p, rank) && Forest(p', rank) && |p| == |p'| && SameRoots(p, p', rank) && 0 <= k < |p|
    ensures Root(p', rank, k) == Root(p, rank, k)
  {
  }
}
