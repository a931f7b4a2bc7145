/**
 The progress tree of the adaptive join as a value.

 A node of the tree is named by the path of tables that leads to it from the root, and
 the tree maps each of its nodes to the node's `last_completed_tuple`.  Two table orders
 share the nodes of their common prefix.
 */
module ProgressTrees {
  import opened Vectors

  type Tree = map<seq<nat>, int>

  /** The first `d` tables of `path` have nodes. */
  ghost predicate Stored(nodes: Tree, path: seq<nat>, d: nat)
    requires d <= |path|
  {
    forall i :: 0 < i <= d ==> path[..i] in nodes
  }

  /** Nodes hang below their parents, name tables of the join and hold rows of their table. */
  ghost predicate IsTree(card: seq<int>, nodes: Tree)
  {
    forall p :: p in nodes ==>
                  && 0 < |p| <= |card| && InBounds(p, |card|)
                  && 0 <= nodes[p] < card[p[|p| - 1]]
                  && Stored(nodes, p, |p|)
  }

  /** The rows stored along the first `d` tables of a path. */
  ghost function Vals(nodes: Tree, path: seq<nat>, d: nat): (w: seq<int>)
    requires d <= |path| && Stored(nodes, path, d)
  {
    seq(d, i requires 0 <= i < d => nodes[path[..i + 1]])
  }

  /** How many leading tables of an order already have nodes. */
  ghost function Depth(nodes: Tree, order: seq<nat>, i: nat := 0): (d: nat)
    requires i <= |order| && Stored(nodes, order, i)
    ensures i <= d <= |order|
    ensures Stored(nodes, order, d)
    ensures d < |order| ==> order[..d + 1] !in nodes
    decreases |order| - i
  {
    if i < |order| && order[..i + 1] in nodes then Depth(nodes, order, i + 1) else i
  }

  /** The vectors a tree vouches for along an order: those before the stored prefix, or up
      to the stored vector when the whole order is stored. */
  ghost predicate Behind(nodes: Tree, order: seq<nat>, v: seq<int>)
    requires InBounds(order, |v|)
  {
    var d := Depth(nodes, order);
    if d == |order| then LexLe(View(order[..d], v), Vals(nodes, order, d))
    else LexLt(View(order[..d], v), Vals(nodes, order, d))
  }

  /** Every vector before a node's path has been processed; a complete path includes the
      vector it spells. */
  ghost predicate Covers(card: seq<int>, nodes: Tree, done: iset<seq<int>>)
    requires IsTree(card, nodes)
  {
    forall p, v :: p in nodes && InRange(card, v) ==> NodeCovers(card, nodes, p, done, v)
  }

  ghost predicate NodeCovers(card: seq<int>, nodes: Tree, p: seq<nat>, done: iset<seq<int>>, v: seq<int>)
    requires IsTree(card, nodes) && p in nodes && InRange(card, v)
  {
    && (LexLt(View(p, v), Vals(nodes, p, |p|)) ==> v in done)
    && (|p| == |card| && View(p, v) == Vals(nodes, p, |p|) ==> v in done)
  }

  lemma ValsOfPrefix(nodes: Tree, order: seq<nat>, d: nat)
    requires d <= |order| && Stored(nodes, order, d)
    ensures Stored(nodes, order[..d], d) && Vals(nodes, order[..d], d) == Vals(nodes, order, d)
  {
    assert forall i :: 0 < i <= d ==> order[..d][..i] == order[..i];
  }

  /** What a tree vouches for along any order has been processed. */
  lemma BehindIsProcessed(card: seq<int>, nodes: Tree, done: iset<seq<int>>, order: seq<nat>, v: seq<int>)
    requires IsTree(card, nodes) && Covers(card, nodes, done)
    requires IsOrder(order, |card|) && |card| > 0 && InRange(card, v) && Behind(nodes, order, v)
    ensures v in done
  {
    var d := Depth(nodes, order);
    LexTotal(View(order[..d], v), Vals(nodes, order, d));
    if d > 0 {
      ValsOfPrefix(nodes, order, d);
      assert NodeCovers(card, nodes, order[..d], done, v);
    }
  }

  // ----- moving an order forward -----

  /** `f` spells a vector before the stored prefix of `order`: the case that `Update` rejects. */
  ghost predicate Regresses(nodes: Tree, order: seq<nat>, f: seq<int>)
    requires InBounds(order, |f|)
  {
    var d := Depth(nodes, order);
    LexLt(View(order[..d], f), Vals(nodes, order, d))
  }

  /** The depth at which `f` leaves the stored prefix of `order`. */
  ghost function Fork(nodes: Tree, order: seq<nat>, f: seq<int>): (g: nat)
    requires InBounds(order, |f|)
    ensures g <= Depth(nodes, order)
  {
    var d := Depth(nodes, order);
    FirstDiff(Vals(nodes, order, d), View(order[..d], f))
  }

  /** A node survives unless it lies at or below the first node of `order` that changes. */
  ghost predicate Survives(nodes: Tree, order: seq<nat>, f: seq<int>, p: seq<nat>)
    requires InBounds(order, |f|)
  {
    var g := Fork(nodes, order, f);
    p in nodes && !(g < Depth(nodes, order) && Shares(order, p, g + 1))
  }

  /** The two paths agree on their first `k` tables. */
  ghost predicate Shares(order: seq<nat>, p: seq<nat>, k: nat)
    requires k <= |order|
  {
    k <= |p| && p[..k] == order[..k]
  }

  ghost predicate OnPath(order: seq<nat>, p: seq<nat>)
  {
    0 < |p| <= |order| && p == order[..|p|]
  }

  /** Nodes on the path of `order` take the rows of `f`; nodes elsewhere below the first
      changed node are dropped; all others stay. */
  ghost predicate IsAdvance(nodes: Tree, order: seq<nat>, f: seq<int>, nodes': Tree)
    requires InBounds(order, |f|)
  {
    && (forall p :: p in nodes' <==> OnPath(order, p) || Survives(nodes, order, f, p))
    && (forall p :: p in nodes' ==> nodes'[p] == if OnPath(order, p) then f[p[|p| - 1]] else nodes[p])
  }

  lemma AdvanceOnPath(nodes: Tree, order: seq<nat>, f: seq<int>, nodes': Tree, k: nat)
    requires InBounds(order, |f|) && IsAdvance(nodes, order, f, nodes') && k <= |order|
    ensures Stored(nodes', order, k)
    ensures Vals(nodes', order, k) == View(order[..k], f)
  {
    forall i | 0 < i <= k ensures order[..i] in nodes' && nodes'[order[..i]] == f[order[i - 1]] {
      assert OnPath(order, order[..i]);
    }
  }

  lemma StoredIsShallow(nodes: Tree, order: seq<nat>, i: nat)
    requires i <= |order| && Stored(nodes, order, i)
    ensures i <= Depth(nodes, order)
  {
  }

  /** Orders with a common prefix read the same nodes along it. */
  lemma SharedPrefix(nodes: Tree, order: seq<nat>, other: seq<nat>, k: nat)
    requires k <= |order| && k <= |other| && order[..k] == other[..k] && Stored(nodes, order, k)
    ensures Stored(nodes, other, k) && Vals(nodes, other, k) == Vals(nodes, order, k)
  {
    assert forall i :: 0 < i <= k ==> other[..i] == order[..k][..i] == order[..i];
  }

  /** A stored path that `order` runs along agrees with `f` before the fork. */
  lemma BeforeFork(nodes: Tree, order: seq<nat>, f: seq<int>, p: seq<nat>, i: nat)
    requires InBounds(order, |f|) && 0 < i <= |p| && Stored(nodes, p, i) && Survives(nodes, order, f, p)
    requires i <= |order| && Shares(order, p, i)
    ensures nodes[p[..i]] == f[order[i - 1]]
  {
    var d, g := Depth(nodes, order), Fork(nodes, order, f);
    SharedPrefix(nodes, p, order, i);
    StoredIsShallow(nodes, order, i);
    assert Vals(nodes, order, d)[i - 1] == View(order[..d], f)[i - 1];
  }

  /** Nodes above a surviving node survive. */
  lemma SurvivesAbove(nodes: Tree, order: seq<nat>, f: seq<int>, p: seq<nat>, i: nat)
    requires InBounds(order, |f|) && 0 < i <= |p| && p[..i] in nodes && Survives(nodes, order, f, p)
    ensures Survives(nodes, order, f, p[..i])
  {
    var g := Fork(nodes, order, f);
    assert g < i ==> p[..i][..g + 1] == p[..g + 1];
  }

  /** Nodes above a surviving node keep their rows. */
  lemma AdvanceOffNode(nodes: Tree, order: seq<nat>, f: seq<int>, nodes': Tree, p: seq<nat>, i: nat)
    requires InBounds(order, |f|) && IsAdvance(nodes, order, f, nodes')
    requires 0 < i <= |p| && Stored(nodes, p, i) && Survives(nodes, order, f, p)
    ensures p[..i] in nodes' && nodes'[p[..i]] == nodes[p[..i]]
  {
    var q := p[..i];
    SurvivesAbove(nodes, order, f, p, i);
    if OnPath(order, q) {
      BeforeFork(nodes, order, f, p, i);
    }
  }

  /** A surviving path keeps the rows of all its nodes. */
  lemma AdvanceOffPath(card: seq<int>, nodes: Tree, order: seq<nat>, f: seq<int>, nodes': Tree, p: seq<nat>)
    requires IsTree(card, nodes) && InBounds(order, |f|) && IsAdvance(nodes, order, f, nodes')
    requires Survives(nodes, order, f, p)
    ensures Stored(nodes', p, |p|)
    ensures Vals(nodes', p, |p|) == Vals(nodes, p, |p|)
  {
    forall i | 0 < i <= |p|
      ensures p[..i] in nodes' && nodes'[p[..i]] == nodes[p[..i]]
    {
      AdvanceOffNode(nodes, order, f, nodes', p, i);
    }
  }

  lemma AdvanceIsTree(card: seq<int>, nodes: Tree, order: seq<nat>, f: seq<int>, nodes': Tree)
    requires IsTree(card, nodes) && IsOrder(order, |card|) && InRange(card, f)
    requires IsAdvance(nodes, order, f, nodes')
    ensures IsTree(card, nodes')
  {
    forall p | p in nodes'
      ensures 0 < |p| <= |card| && InBounds(p, |card|)
      ensures 0 <= nodes'[p] < card[p[|p| - 1]] && Stored(nodes', p, |p|)
    {
      hide IsAdvance, IsTree, Survives;
      NewNode(nodes, order, f, nodes', p);
      if OnPath(order, p) {
        NodeOnPath(card, nodes, order, f, nodes', p);
      } else {
        TreeNode(card, nodes, p);
        AdvanceOffPath(card, nodes, order, f, nodes', p);
      }
    }
  }

  lemma NewNode(nodes: Tree, order: seq<nat>, f: seq<int>, nodes': Tree, p: seq<nat>)
    requires InBounds(order, |f|) && IsAdvance(nodes, order, f, nodes') && p in nodes'
    ensures !OnPath(order, p) ==> Survives(nodes, order, f, p) && p in nodes && nodes'[p] == nodes[p]
  {
  }

  lemma TreeNode(card: seq<int>, nodes: Tree, p: seq<nat>)
    requires IsTree(card, nodes) && p in nodes
    ensures 0 < |p| <= |card| && InBounds(p, |card|) && 0 <= nodes[p] < card[p[|p| - 1]]
  {
  }

  lemma NodeOnPath(card: seq<int>, nodes: Tree, order: seq<nat>, f: seq<int>, nodes': Tree, p: seq<nat>)
    requires IsOrder(order, |card|) && InRange(card, f) && IsAdvance(nodes, order, f, nodes') && OnPath(order, p)
    ensures p in nodes' && InBounds(p, |card|) && 0 <= nodes'[p] < card[p[|p| - 1]] && Stored(nodes', p, |p|)
  {
    AdvanceOnPath(nodes, order, f, nodes', |p|);
    SharedPrefix(nodes', order, p, |p|);
  }

  /** Storing `f` is justified once everything up to `f` along `order` is processed. */
  lemma AdvanceCovers(card: seq<int>, nodes: Tree, order: seq<nat>, f: seq<int>, nodes': Tree, done: iset<seq<int>>)
    requires IsTree(card, nodes) && IsOrder(order, |card|) && InRange(card, f)
    requires IsAdvance(nodes, order, f, nodes') && IsTree(card, nodes')
    requires Covers(card, nodes, done)
    requires forall v :: InRange(card, v) && LexLe(View(order, v), View(order, f)) ==> v in done
    ensures Covers(card, nodes', done)
  {
    forall p, v | p in nodes' && InRange(card, v)
      ensures NodeCovers(card, nodes', p, done, v)
    {
      if OnPath(order, p) {
        var k := |p|;
        AdvanceOnPath(nodes, order, f, nodes', k);
        assert p == order[..k];
        ValsOfPrefix(nodes', order, k);
        ViewPrefix(order, v, k);
        ViewPrefix(order, f, k);
        LexPrefix(View(order, v), View(order, f), k);
        LexTotal(View(order, v), View(order, f));
        if k == |card| { assert order[..k] == order; }
      } else {
        AdvanceOffPath(card, nodes, order, f, nodes', p);
        assert NodeCovers(card, nodes, p, done, v);
      }
    }
  }

  /** The advanced order resumes right after `f`. */
  lemma AdvanceOwn(card: seq<int>, nodes: Tree, order: seq<nat>, f: seq<int>, nodes': Tree, v: seq<int>)
    requires IsOrder(order, |card|) && |f| == |card| && |v| == |card|
    requires IsAdvance(nodes, order, f, nodes')
    ensures Behind(nodes', order, v) <==> LexLe(View(order, v), View(order, f))
  {
    AdvanceOnPath(nodes, order, f, nodes', |order|);
    StoredIsShallow(nodes', order, |order|);
    assert order[..|order|] == order;
  }

  /** Comparing along a longer prefix keeps strict comparisons. */
  lemma StrictlyBehind(nodes: Tree, order: seq<nat>, v: seq<int>, k: nat)
    requires InBounds(order, |v|) && k <= |order| && Stored(nodes, order, k)
    requires LexLt(View(order[..k], v), Vals(nodes, order, k))
    ensures Behind(nodes, order, v)
  {
    var d := Depth(nodes, order);
    StoredIsShallow(nodes, order, k);
    ViewPrefix(order[..d], v, k);
    assert order[..d][..k] == order[..k];
    assert Vals(nodes, order, d)[..k] == Vals(nodes, order, k);
    LexPrefix(View(order[..d], v), Vals(nodes, order, d), k);
    LexTotal(View(order[..d], v), Vals(nodes, order, d));
  }

  /** Being behind implies being at or before every stored prefix. */
  lemma BehindOnPrefix(nodes: Tree, order: seq<nat>, v: seq<int>, k: nat)
    requires InBounds(order, |v|) && Behind(nodes, order, v) && k <= Depth(nodes, order)
    ensures LexLe(View(order[..k], v), Vals(nodes, order, k))
  {
    var d := Depth(nodes, order);
    var x, y := View(order[..d], v), Vals(nodes, order, d);
    assert View(order[..k], v) == x[..k];
    assert Vals(nodes, order, k) == y[..k];
    LexTotal(x, y);
    LexPrefix(x, y, k);
    LexPrefix(y, x, k);
  }

  /** The stored prefix up to and including the fork lies strictly before `f`. */
  lemma ForkIsAhead(nodes: Tree, order: seq<nat>, f: seq<int>)
    requires InBounds(order, |f|) && !Regresses(nodes, order, f)
    requires Fork(nodes, order, f) < Depth(nodes, order)
    ensures LexLt(Vals(nodes, order, Fork(nodes, order, f) + 1), View(order[..Fork(nodes, order, f) + 1], f))
  {
    var d, g := Depth(nodes, order), Fork(nodes, order, f);
    var x, y := Vals(nodes, order, d), View(order[..d], f);
    LexTotal(x, y);
    assert Vals(nodes, order, g + 1) == x[..g + 1];
    assert View(order[..g + 1], f) == y[..g + 1];
    LexLtAt(x[..g + 1], y[..g + 1], g);
  }

  /** When the fast-forwarded node lies on the other order's path, that order moves past it. */
  lemma AdvanceMonotoneShared(card: seq<int>, nodes: Tree, order: seq<nat>, f: seq<int>, nodes': Tree,
                              other: seq<nat>, v: seq<int>)
    requires IsTree(card, nodes) && IsOrder(order, |card|) && IsOrder(other, |card|)
    requires |f| == |card| && |v| == |card|
    requires IsAdvance(nodes, order, f, nodes') && !Regresses(nodes, order, f)
    requires Fork(nodes, order, f) < Depth(nodes, order)
    requires Shares(order, other, Fork(nodes, order, f) + 1)
    requires Behind(nodes, other, v)
    ensures Behind(nodes', other, v)
  {
    var k := Fork(nodes, order, f) + 1;
    assert other[..k] == order[..k];
    SharedPrefix(nodes, order, other, k);
    AdvanceOnPath(nodes, order, f, nodes', k);
    SharedPrefix(nodes', order, other, k);
    StoredIsShallow(nodes, other, k);
    BehindOnPrefix(nodes, other, v, k);
    ForkIsAhead(nodes, order, f);
    LexLeLt(View(other[..k], v), Vals(nodes, other, k), View(order[..k], f));
    StrictlyBehind(nodes', other, v, k);
  }

  /** Otherwise every node of the other order survives. */
  lemma AdvanceMonotoneApart(card: seq<int>, nodes: Tree, order: seq<nat>, f: seq<int>, nodes': Tree, other: seq<nat>,
                             v: seq<int>)
    requires IsTree(card, nodes) && IsOrder(order, |card|) && IsOrder(other, |card|)
    requires |f| == |card| && |v| == |card|
    requires IsAdvance(nodes, order, f, nodes')
    requires Fork(nodes, order, f) < Depth(nodes, order) ==> !Shares(order, other, Fork(nodes, order, f) + 1)
    requires Behind(nodes, other, v)
    ensures Behind(nodes', other, v)
  {
    var e := Depth(nodes, other);
    if e > 0 {
      StoredSurvives(nodes, order, f, other, e);
      AdvanceOffPath(card, nodes, order, f, nodes', other[..e]);
      SharedPrefix(nodes', other[..e], other, e);
      SharedPrefix(nodes, other[..e], other, e);
      StoredIsShallow(nodes', other, e);
      if e < |other| {
        StrictlyBehind(nodes', other, v, e);
      }
    }
  }

  lemma StoredSurvives(nodes: Tree, order: seq<nat>, f: seq<int>, other: seq<nat>, e: nat)
    requires InBounds(order, |f|) && 0 < e <= |other| && other[..e] in nodes
    requires Fork(nodes, order, f) < Depth(nodes, order) ==> !Shares(order, other, Fork(nodes, order, f) + 1)
    ensures Survives(nodes, order, f, other[..e])
  {
    var g := Fork(nodes, order, f);
    assert e > g ==> other[..e][..g + 1] == other[..g + 1];
  }

  /** Advancing one order never moves another order's resume point backwards. */
  lemma AdvanceMonotone(card: seq<int>, nodes: Tree, order: seq<nat>, f: seq<int>, nodes': Tree, other: seq<nat>,
                        v: seq<int>)
    requires IsTree(card, nodes) && IsOrder(order, |card|) && IsOrder(other, |card|)
    requires |f| == |card| && |v| == |card|
    requires IsAdvance(nodes, order, f, nodes') && !Regresses(nodes, order, f)
    requires Behind(nodes, other, v)
    ensures Behind(nodes', other, v)
  {
    hide IsTree, IsAdvance, Behind, Regresses, Fork, Depth;
    var g := Fork(nodes, order, f);
    if g < Depth(nodes, order) && Shares(order, other, g + 1) {
      AdvanceMonotoneShared(card, nodes, order, f, nodes', other, v);
    } else {
      AdvanceMonotoneApart(card, nodes, order, f, nodes', other, v);
    }
  }

  /** An update is rejected exactly when the order was already at or past `f`, unless `f` is
      the very vector that is stored. */
  lemma RegressesExactly(nodes: Tree, order: seq<nat>, f: seq<int>)
    requires InBounds(order, |f|)
    ensures Regresses(nodes, order, f) <==>
            Behind(nodes, order, f) && !(Stored(nodes, order, |order|) && View(order, f) == Vals(nodes, order, |order|))
  {
    var d := Depth(nodes, order);
    LexTotal(View(order[..d], f), Vals(nodes, order, d));
    if Stored(nodes, order, |order|) {
      StoredIsShallow(nodes, order, |order|);
      assert order[..|order|] == order;
    }
  }

  /** A final vector that the order had not yet reached never regresses. */
  lemma AheadNeverRegresses(nodes: Tree, order: seq<nat>, f: seq<int>)
    requires InBounds(order, |f|) && !Behind(nodes, order, f)
    ensures !Regresses(nodes, order, f)
  {
    var d := Depth(nodes, order);
    LexTotal(View(order[..d], f), Vals(nodes, order, d));
  }
}
