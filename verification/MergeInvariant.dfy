/**
 The invariant of block merging: every reachable block belongs to exactly one chain, and the
 edited graph, segments and value map describe these chains.
 */
module MergeInvariant {
  import opened Khir
  import opened Ssa
  import opened CfgSimulation
  import opened ChainMerge
  import opened CfgPreservation

  /** What the merge leaves alone: unreachable blocks that only dead blocks lead to. */
  ghost predicate DeadOk(f: Function, dead: seq<bool>)
  {
    && |dead| == |f.blocks|
    && (forall b: nat :: b < |dead| && dead[b] ==> !Reachable(f, b))
    && (forall a: nat, b: nat :: Edge(f, a, b) && b < |dead| && dead[b] ==> dead[a])
  }

  predicate Survives(x: nat, dead: seq<bool>)
  {
    x < |dead| && !dead[x]
  }

  /** The members of a list that are not dead. */
  function Live(s: seq<nat>, dead: seq<bool>): (r: seq<nat>)
  {
    if s == [] then [] else Live(s[..|s| - 1], dead) + if Survives(s[|s| - 1], dead) then [s[|s| - 1]] else []
  }

  lemma {:induction false} LiveCounts(s: seq<nat>, dead: seq<bool>, x: nat)
    ensures multiset(Live(s, dead))[x] == if Survives(x, dead) then multiset(s)[x] else 0
  {
    if s != [] {
      LiveCounts(s[..|s| - 1], dead, x);
      assert s == s[..|s| - 1] + [s[|s| - 1]];
    }
  }

  lemma {:induction false} AllLive(s: seq<nat>, dead: seq<bool>)
    requires forall x :: x in s ==> Survives(x, dead)
    ensures Live(s, dead) == s
  {
    if s != [] {
      assert s == s[..|s| - 1] + [s[|s| - 1]];
      assert s[|s| - 1] in s;
      AllLive(s[..|s| - 1], dead);
    }
  }

  // ----- cycles -----

  /** Once the dead blocks are gone, `x` leads to `y` only and is the only way there. */
  ghost predicate LiveLinked(f: Function, dead: seq<bool>, x: nat, y: nat)
  {
    && x < |f.blocks| && y < |f.blocks| && Survives(x, dead) && Survives(y, dead)
    && Live(f.blocks[x].succ, dead) == [y] && Live(f.blocks[y].pred, dead) == [x]
  }

  /** A cycle whose blocks all have one successor and one predecessor. */
  ghost predicate IsPureCycle(f: Function, dead: seq<bool>, cycle: seq<nat>)
  {
    0 < |cycle| && LinkedThrough(f, dead, cycle) && LiveLinked(f, dead, Tail(cycle), cycle[0])
  }

  ghost predicate LinkedThrough(f: Function, dead: seq<bool>, chain: seq<nat>)
  {
    forall k: nat :: 0 < k < |chain| ==> LiveLinked(f, dead, chain[k - 1], chain[k])
  }

  ghost predicate HasPureCycle(f: Function, dead: seq<bool>)
  {
    exists cycle :: IsPureCycle(f, dead, cycle)
  }

  // ----- chains -----

  /** Entry `i` holds the chain that starts at block `i`, or nothing. */
  ghost predicate Partition(f: Function, chain: seq<seq<nat>>)
  {
    && |chain| == |f.blocks|
    && (forall i :: 0 <= i < |chain| && chain[i] != [] ==> IsChain(f, chain[i]) && chain[i][0] == i)
    && (forall c: nat, i: nat, c': nat, i': nat, b: nat :: InChain(chain, c, i, b) && InChain(chain, c', i', b) ==>
        c == c' && i == i')
    && (forall b: nat :: b < |f.blocks| && Reachable(f, b) ==> exists c: nat, i: nat :: InChain(chain, c, i, b))
  }

  function Tail(chain: seq<nat>): (b: nat)
    requires chain != []
  {
    chain[|chain| - 1]
  }

  ghost predicate IsLive(chain: seq<seq<nat>>, i: nat)
  {
    i < |chain| && chain[i] != []
  }

  function Joined(chain: seq<seq<nat>>, i: nat, j: nat): (r: seq<seq<nat>>)
    requires i < |chain| && j < |chain|
  {
    chain[i := chain[i] + chain[j]][j := []]
  }

  /** The chains run through the blocks that are not dead, along their only edges. */
  ghost predicate LiveLinks(f: Function, dead: seq<bool>, chain: seq<seq<nat>>)
  {
    forall i: nat :: i < |chain| ==> LinkedThrough(f, dead, chain[i])
  }

  ghost predicate Placed(chain: seq<seq<nat>>, b: nat)
  {
    exists c: nat, i: nat :: InChain(chain, c, i, b)
  }

  ghost predicate CoversLive(dead: seq<bool>, chain: seq<seq<nat>>)
  {
    forall b: nat :: Survives(b, dead) <==> Placed(chain, b)
  }

  lemma JoinLiveLinks(f: Function, dead: seq<bool>, chain: seq<seq<nat>>, i: nat, j: nat)
    requires LiveLinks(f, dead, chain) && IsLive(chain, i) && IsLive(chain, j) && i != j && chain[j][0] == j
    requires LiveLinked(f, dead, Tail(chain[i]), j)
    ensures LiveLinks(f, dead, Joined(chain, i, j))
  {
    hide LiveLinked;
    var a, b := chain[i], chain[j];
    forall k: nat | 0 < k < |a + b| ensures LiveLinked(f, dead, (a + b)[k - 1], (a + b)[k]) {
      if k < |a| {
        assert LiveLinked(f, dead, a[k - 1], a[k]);
      } else if k > |a| {
        assert LiveLinked(f, dead, b[k - |a| - 1], b[k - |a|]);
      }
    }
  }

  lemma JoinCoversLive(dead: seq<bool>, chain: seq<seq<nat>>, i: nat, j: nat)
    requires CoversLive(dead, chain) && i < |chain| && j < |chain| && i != j
    ensures CoversLive(dead, Joined(chain, i, j))
  {
    var chain' := Joined(chain, i, j);
    forall b: nat ensures Placed(chain', b) <==> Placed(chain, b) {
      if c: nat, k: nat :| InChain(chain, c, k, b) {
        var c1, k1 := NewPlace(chain, i, j, c, k, b);
      }
      if c: nat, k: nat :| InChain(chain', c, k, b) {
        var c0, k0 := OldPlace(chain, i, j, c, k, b);
      }
    }
  }

  /** Along live links the block before is the only way in. */
  lemma LiveWaysIn(f: Function, dead: seq<bool>, chain: seq<seq<nat>>)
    requires Mirrored(f) && LiveLinks(f, dead, chain) && CoversLive(dead, chain)
    ensures OnlyWaysIn(f, chain)
  {
    hide Mirrored;
    forall c: nat, k: nat, y: nat, c': nat, i: nat, b: nat |
      0 < k && InChain(chain, c, k, y) && InChain(chain, c', i, b) && Edge(f, b, y)
      ensures b == chain[c][k - 1]
    {
      assert Placed(chain, b);
      assert LiveLinked(f, dead, chain[c][k - 1], y);
      EdgeMirror(f, b, y);
      LiveCounts(f.blocks[y].pred, dead, b);
      assert b in multiset(Live(f.blocks[y].pred, dead));
    }
  }

  /** Where a block of the joined chains was before. */
  lemma OldPlace(chain: seq<seq<nat>>, i: nat, j: nat, c: nat, k: nat, b: nat) returns (c0: nat, k0: nat)
    requires i < |chain| && j < |chain| && i != j && InChain(Joined(chain, i, j), c, k, b)
    ensures InChain(chain, c0, k0, b) && c != j
    ensures if c == i && k >= |chain[i]| then c0 == j && k0 == k - |chain[i]| else c0 == c && k0 == k
  {
    if c == i && k >= |chain[i]| {
      c0, k0 := j, k - |chain[i]|;
    } else {
      c0, k0 := c, k;
    }
  }

  lemma NewPlace(chain: seq<seq<nat>>, i: nat, j: nat, c: nat, k: nat, b: nat) returns (c1: nat, k1: nat)
    requires i < |chain| && j < |chain| && i != j && InChain(chain, c, k, b)
    ensures InChain(Joined(chain, i, j), c1, k1, b)
    ensures if c == j then c1 == i && k1 == k + |chain[i]| else c1 == c && k1 == k
  {
    if c == j {
      c1, k1 := i, k + |chain[i]|;
    } else {
      c1, k1 := c, k;
    }
  }

  lemma JoinIsChain(f: Function, a: seq<nat>, b: seq<nat>)
    requires IsChain(f, a) && IsChain(f, b) && Linked(f, Tail(a), b[0])
    ensures IsChain(f, a + b)
  {
    hide Linked;
    forall i | 0 < i < |a + b| ensures Linked(f, (a + b)[i - 1], (a + b)[i]) {
      if i < |a| {
        assert Linked(f, a[i - 1], a[i]);
      } else if i > |a| {
        assert Linked(f, b[i - |a| - 1], b[i - |a|]);
      }
    }
  }

  lemma JoinPartition(f: Function, chain: seq<seq<nat>>, i: nat, j: nat)
    requires Partition(f, chain) && IsLive(chain, i) && IsLive(chain, j) && i != j && Linked(f, Tail(chain[i]), j)
    ensures Partition(f, Joined(chain, i, j))
  {
    hide Linked, IsChain;
    var chain' := Joined(chain, i, j);
    JoinIsChain(f, chain[i], chain[j]);
    forall c: nat, k: nat, c': nat, k': nat, b: nat | InChain(chain', c, k, b) && InChain(chain', c', k', b)
      ensures c == c' && k == k'
    {
      var c0, k0 := OldPlace(chain, i, j, c, k, b);
      var c1, k1 := OldPlace(chain, i, j, c', k', b);
    }
    forall b: nat | b < |f.blocks| && Reachable(f, b) ensures exists c: nat, k: nat :: InChain(chain', c, k, b) {
      var c: nat, k: nat :| InChain(chain, c, k, b);
      var c1, k1 := NewPlace(chain, i, j, c, k, b);
    }
  }

  // ----- the graph over chains -----

  ghost predicate SuccessorsOfTail(f: Function, chain: seq<seq<nat>>, succ: seq<seq<nat>>)
    requires |succ| == |chain|
  {
    forall i: nat :: IsLive(chain, i) ==> Tail(chain[i]) < |f.blocks| && succ[i] == f.blocks[Tail(chain[i])].succ
  }

  ghost predicate AllInLive(chain: seq<seq<nat>>, lists: seq<seq<nat>>)
    requires |lists| == |chain|
  {
    forall i: nat, x :: IsLive(chain, i) && x in lists[i] ==> IsLive(chain, x)
  }

  ghost predicate PredecessorCounts(f: Function, dead: seq<bool>, chain: seq<seq<nat>>, pred: seq<seq<nat>>)
    requires Mirrored(f) && |dead| == |f.blocks| == |chain| == |pred|
  {
    forall x: nat :: IsLive(chain, x) ==> |pred[x]| == |Live(f.blocks[x].pred, dead)|
  }

  ghost predicate MirroredLists(chain: seq<seq<nat>>, succ: seq<seq<nat>>, pred: seq<seq<nat>>)
    requires |chain| == |succ| == |pred|
  {
    forall i: nat, x: nat :: IsLive(chain, i) && IsLive(chain, x) ==> multiset(pred[x])[i] == multiset(succ[i])[x]
  }

  /** The edges that leave a chain are those of its tail; they lead to heads of chains. */
  ghost predicate Neighbours(f: Function, dead: seq<bool>, chain: seq<seq<nat>>, succ: seq<seq<nat>>,
                             pred: seq<seq<nat>>)
    requires Mirrored(f) && |dead| == |f.blocks|
  {
    && |chain| == |succ| == |pred| == |f.blocks|
    && SuccessorsOfTail(f, chain, succ) && AllInLive(chain, succ)
    && PredecessorCounts(f, dead, chain, pred) && AllInLive(chain, pred) && MirroredLists(chain, succ, pred)
  }

  /** A chain with one successor that has one predecessor is linked to it. */
  lemma LinkFound(f: Function, dead: seq<bool>, chain: seq<seq<nat>>, succ: seq<seq<nat>>, pred: seq<seq<nat>>,
                  i: nat, j: nat)
    requires IsSsa(f) && DeadOk(f, dead) && Partition(f, chain) && Neighbours(f, dead, chain, succ, pred)
    requires CoversLive(dead, chain)
    requires IsLive(chain, i) && succ[i] == [j] && j < |pred| && |pred[j]| == 1
    ensures IsLive(chain, j) && pred[j] == [i]
    ensures LiveLinked(f, dead, Tail(chain[i]), j) && Linked(f, Tail(chain[i]), j)
  {
    hide PhisLead, CalleesOk, UsesDominated, MembersMatch, MembersTargetSuccessors, BlocksOk, Mirrored;
    hide Live, DeadOk, LiveLinked, IsChain, Linked;
    var t := Tail(chain[i]);
    assert j in succ[i];
    assert InChain(chain, i, |chain[i]| - 1, t);
    assert Placed(chain, t);
    ChainTail(f, chain[i]);
    OnlyLivePredecessor(f, dead, t, j);
    assert multiset(pred[j])[i] == multiset(succ[i])[j] == 1;
    assert i in pred[j];
  }

  lemma ChainTail(f: Function, chain: seq<nat>)
    requires IsChain(f, chain)
    ensures Tail(chain) < |f.blocks|
  {
  }

  lemma LivePredecessor(f: Function, dead: seq<bool>, a: nat, j: nat)
    requires Mirrored(f) && Survives(a, dead) && Edge(f, a, j)
    ensures a in Live(f.blocks[j].pred, dead)
  {
    hide Live;
    EdgeMirror(f, a, j);
    LiveCounts(f.blocks[j].pred, dead, a);
    assert a in multiset(f.blocks[j].pred);
    assert a in multiset(Live(f.blocks[j].pred, dead));
  }

  /** The successors of a block that is not dead are not dead. */
  lemma LiveSuccessors(f: Function, dead: seq<bool>, i: nat)
    requires Mirrored(f) && DeadOk(f, dead) && i < |dead| && !dead[i]
    ensures Live(f.blocks[i].succ, dead) == f.blocks[i].succ
    ensures forall x :: x in f.blocks[i].succ ==> x < |dead| && !dead[x]
  {
    forall x | x in f.blocks[i].succ ensures Survives(x, dead) {
      assert Edge(f, i, x);
    }
    AllLive(f.blocks[i].succ, dead);
  }

  lemma OnlyLivePredecessor(f: Function, dead: seq<bool>, t: nat, j: nat)
    requires Mirrored(f) && EntryOk(f) && DeadOk(f, dead) && t < |dead| && !dead[t] && Edge(f, t, j)
    requires f.blocks[t].succ == [j] && |Live(f.blocks[j].pred, dead)| == 1
    ensures LiveLinked(f, dead, t, j) && Linked(f, t, j)
  {
    hide Mirrored, Reachable, Live;
    EdgeMirror(f, t, j);
    LiveSuccessors(f, dead, t);
    LivePredecessor(f, dead, t, j);
    forall a: nat | Reachable(f, a) && Edge(f, a, j) ensures a == t {
      LivePredecessor(f, dead, a, j);
    }
  }

  // ----- merging forever -----

  /** A chain that leads back to its own head is a cycle. */
  lemma BackToHead(f: Function, dead: seq<bool>, chain: seq<seq<nat>>, i: nat)
    requires LiveLinks(f, dead, chain) && IsLive(chain, i) && chain[i][0] == i && LiveLinked(f, dead, Tail(chain[i]), i)
    ensures HasPureCycle(f, dead)
  {
    assert IsPureCycle(f, dead, chain[i]);
  }

  /** Reachable code has no such cycles. */
  lemma NoReachableCycle(f: Function, dead: seq<bool>, cycle: seq<nat>)
    requires Mirrored(f) && EntryOk(f) && DeadOk(f, dead) && IsPureCycle(f, dead, cycle)
    ensures !Reachable(f, cycle[0])
  {
    hide LiveLinked, Mirrored, DeadOk, Live;
    if p :| PathTo(f, p, cycle[0]) {
      NoPathInto(f, dead, cycle, 0, p);
    }
  }

  /** Whatever leads into a cycle would have to come out of it. */
  lemma {:induction false} NoPathInto(f: Function, dead: seq<bool>, cycle: seq<nat>, k: nat, path: seq<nat>)
    requires Mirrored(f) && EntryOk(f) && DeadOk(f, dead) && IsPureCycle(f, dead, cycle) && k < |cycle|
    ensures !PathTo(f, path, cycle[k])
    decreases |path|
  {
    hide Mirrored, Live, LinkedThrough, DeadOk;
    if PathTo(f, path, cycle[k]) {
      var y, n := cycle[k], |path| - 1;
      var before := if k == 0 then |cycle| - 1 else k - 1;
      CycleLink(f, dead, cycle, k);
      NotEntry(f, dead, cycle[before], y);
      assert Edge(f, path[n - 1], path[n]);
      PathPrefix(f, path, n - 1);
      ReachableSurvives(f, dead, path[n - 1]);
      LivePredecessor(f, dead, path[n - 1], y);
      NoPathInto(f, dead, cycle, before, path[..n]);
    }
  }

  lemma CycleLink(f: Function, dead: seq<bool>, cycle: seq<nat>, k: nat)
    requires IsPureCycle(f, dead, cycle) && k < |cycle|
    ensures LiveLinked(f, dead, cycle[if k == 0 then |cycle| - 1 else k - 1], cycle[k])
  {
  }

  lemma NotEntry(f: Function, dead: seq<bool>, x: nat, y: nat)
    requires EntryOk(f) && LiveLinked(f, dead, x, y)
    ensures y != 0
  {
    assert Live([], dead) == [];
  }

  lemma ReachableSurvives(f: Function, dead: seq<bool>, b: nat)
    requires DeadOk(f, dead) && Reachable(f, b) && b < |f.blocks|
    ensures Survives(b, dead)
  {
  }

  function Replaced(s: seq<nat>, j: nat, i: nat): (r: seq<nat>)
    ensures |r| == |s| && forall k :: 0 <= k < |s| ==> r[k] == if s[k] == j then i else s[k]
  {
    seq(|s|, k requires 0 <= k < |s| => if s[k] == j then i else s[k])
  }

  lemma {:induction false} ReplacedCounts(s: seq<nat>, j: nat, i: nat, x: nat)
    requires i != j
    ensures multiset(Replaced(s, j, i))[x] == if x == j then 0 else if x == i then multiset(s)[i] +
            multiset(s)[j] else multiset(s)[x]
  {
    if s != [] {
      var s0, y := s[..|s| - 1], s[|s| - 1];
      ReplacedCounts(s0, j, i, x);
      assert s == s0 + [y];
      assert Replaced(s, j, i) == Replaced(s0, j, i) + [if y == j then i else y];
    }
  }

  /** The predecessor lists after block `i` has taken the place of `j` in those of its new
      successors. */
  ghost predicate Redirected(next: seq<nat>, pred: seq<seq<nat>>, pred': seq<seq<nat>>, j: nat, i: nat)
  {
    |pred'| == |pred| && forall x: nat :: x < |pred| ==>
        pred'[x] == if x in next then Replaced(pred[x], j, i) else pred[x]
  }

  lemma RedirectedSize(next: seq<nat>, pred: seq<seq<nat>>, pred': seq<seq<nat>>, j: nat, i: nat)
    requires Redirected(next, pred, pred', j, i)
    ensures |pred'| == |pred|
  {
  }

  lemma RedirectedCounts(f: Function, dead: seq<bool>, chain: seq<seq<nat>>, succ: seq<seq<nat>>, pred: seq<seq<nat>>,
                         pred': seq<seq<nat>>,
                         i: nat, j: nat, a: nat, x: nat)
    requires Mirrored(f) && |dead| == |f.blocks| && Neighbours(f, dead, chain, succ, pred)
    requires IsLive(chain, i) && IsLive(chain, j) && i != j && succ[i] == [j] && pred[j] == [i]
    requires Redirected(succ[j], pred, pred', j, i) && IsLive(chain, a) && IsLive(chain, x) && a != j && x != j
    ensures multiset(pred'[x])[a] == multiset(if a == i then succ[j] else succ[a])[x]
  {
    hide Mirrored, Live;
    ReplacedCounts(pred[x], j, i, a);
    assert multiset(pred[x])[a] == multiset(succ[a])[x];
    assert multiset(pred[x])[i] == multiset(succ[i])[x] == 0;
    assert multiset(pred[x])[j] == multiset(succ[j])[x];
    if x !in succ[j] {
      assert multiset(succ[j])[x] == 0;
    }
  }

  lemma JoinedLists(f: Function, dead: seq<bool>, chain: seq<seq<nat>>, succ: seq<seq<nat>>, pred: seq<seq<nat>>,
                    pred': seq<seq<nat>>, i: nat, j: nat)
    requires Mirrored(f) && |dead| == |f.blocks| && Neighbours(f, dead, chain, succ, pred)
    requires IsLive(chain, i) && IsLive(chain, j) && i != j && succ[i] == [j] && pred[j] == [i]
    requires Redirected(succ[j], pred, pred', j, i)
    ensures AllInLive(Joined(chain, i, j), succ[i := succ[j]]) && AllInLive(Joined(chain, i, j), pred')
  {
    hide Mirrored, Live, Replaced, SuccessorsOfTail, PredecessorCounts, MirroredLists, Redirected;
    var chain', succ' := Joined(chain, i, j), succ[i := succ[j]];
    JoinedLive(chain, i, j);
    hide Joined;
    RedirectedSize(succ[j], pred, pred', j, i);
    forall a: nat, x | IsLive(chain', a) && x in succ'[a] ensures IsLive(chain', x) {
      SuccessorStaysLive(f, dead, chain, succ, pred, i, j, if a == i then j else a, x);
    }
    forall x: nat, a | IsLive(chain', x) && a in pred'[x] ensures IsLive(chain', a) {
      RedirectedLive(f, dead, chain, succ, pred, pred', i, j, x, a);
    }
  }

  lemma JoinedMirror(f: Function, dead: seq<bool>, chain: seq<seq<nat>>, succ: seq<seq<nat>>, pred: seq<seq<nat>>,
                     pred': seq<seq<nat>>, i: nat, j: nat)
    requires Mirrored(f) && |dead| == |f.blocks| && Neighbours(f, dead, chain, succ, pred)
    requires IsLive(chain, i) && IsLive(chain, j) && i != j && succ[i] == [j] && pred[j] == [i]
    requires Redirected(succ[j], pred, pred', j, i)
    ensures MirroredLists(Joined(chain, i, j), succ[i := succ[j]], pred')
    ensures PredecessorCounts(f, dead, Joined(chain, i, j), pred')
  {
    hide Mirrored, Live, Replaced;
    var chain', succ' := Joined(chain, i, j), succ[i := succ[j]];
    JoinedLive(chain, i, j);
    hide Joined, IsLive;
    forall a: nat, x: nat | IsLive(chain', a) && IsLive(chain', x)
      ensures multiset(pred'[x])[a] == multiset(succ'[a])[x]
    {
      RedirectedCounts(f, dead, chain, succ, pred, pred', i, j, a, x);
    }
  }

  lemma JoinNeighbours(f: Function, dead: seq<bool>, chain: seq<seq<nat>>, succ: seq<seq<nat>>, pred: seq<seq<nat>>,
                       pred': seq<seq<nat>>, i: nat, j: nat)
    requires Mirrored(f) && |dead| == |f.blocks| && Neighbours(f, dead, chain, succ, pred)
    requires IsLive(chain, i) && IsLive(chain, j) && i != j && succ[i] == [j] && pred[j] == [i]
    requires Redirected(succ[j], pred, pred', j, i)
    ensures Neighbours(f, dead, Joined(chain, i, j), succ[i := succ[j]], pred')
  {
    hide Mirrored, Live, MirroredLists, AllInLive, PredecessorCounts, SuccessorsOfTail;
    JoinedTails(f, chain, succ, i, j);
    JoinedLists(f, dead, chain, succ, pred, pred', i, j);
    JoinedMirror(f, dead, chain, succ, pred, pred', i, j);
  }

  lemma JoinedLive(chain: seq<seq<nat>>, i: nat, j: nat)
    requires IsLive(chain, i) && IsLive(chain, j) && i != j
    ensures forall a: nat :: IsLive(Joined(chain, i, j), a) <==> IsLive(chain, a) && a != j
  {
  }

  lemma JoinedTails(f: Function, chain: seq<seq<nat>>, succ: seq<seq<nat>>, i: nat, j: nat)
    requires |succ| == |chain| && SuccessorsOfTail(f, chain, succ) && IsLive(chain, i) && IsLive(chain, j) && i != j
    ensures SuccessorsOfTail(f, Joined(chain, i, j), succ[i := succ[j]])
  {
    var chain' := Joined(chain, i, j);
    assert Tail(chain'[i]) == Tail(chain[j]);
    forall a: nat | IsLive(chain', a)
      ensures Tail(chain'[a]) < |f.blocks| && succ[i := succ[j]][a] == f.blocks[Tail(chain'[a])].succ
    {
      assert IsLive(chain, a);
    }
  }

  lemma SuccessorStaysLive(f: Function, dead: seq<bool>, chain: seq<seq<nat>>, succ: seq<seq<nat>>,
                           pred: seq<seq<nat>>, i: nat, j: nat, a: nat, x: nat)
    requires Mirrored(f) && |dead| == |f.blocks| && Neighbours(f, dead, chain, succ, pred)
    requires IsLive(chain, i) && IsLive(chain, j) && i != j && succ[i] == [j] && pred[j] == [i]
    requires IsLive(chain, a) && a != i && x in succ[a]
    ensures IsLive(chain, x) && x != j
  {
    hide Mirrored, Live;
    assert multiset(pred[j])[a] == multiset(succ[a])[j];
    assert multiset(pred[j])[a] == 0;
    assert x in multiset(succ[a]);
  }

  lemma RedirectedLive(f: Function, dead: seq<bool>, chain: seq<seq<nat>>, succ: seq<seq<nat>>, pred: seq<seq<nat>>,
                       pred': seq<seq<nat>>,
                       i: nat, j: nat, x: nat, a: nat)
    requires Mirrored(f) && |dead| == |f.blocks| && Neighbours(f, dead, chain, succ, pred)
    requires IsLive(chain, i) && IsLive(chain, j) && i != j
    requires Redirected(succ[j], pred, pred', j, i) && IsLive(chain, x) && x != j && a in pred'[x]
    ensures IsLive(chain, a) && a != j
  {
    hide Mirrored, Live;
    assert multiset(pred[x])[j] == multiset(succ[j])[x];
    assert x in succ[j] <==> multiset(succ[j])[x] > 0;
    assert j in pred[x] <==> multiset(pred[x])[j] > 0;
    if x in succ[j] {
      var k :| 0 <= k < |pred'[x]| && pred'[x][k] == a;
      assert pred[x][k] in pred[x];
    }
  }

  // ----- the value map -----

  /** The value map after the `n` members before index `end` have been recorded. */
  function WithMembers(instrs: seq<Instr>, vm: map<Value, Value>, end: int, n: nat): (r: map<Value, Value>)
    requires n <= end <= |instrs| && forall k :: end - n <= k < end ==> instrs[k].PhiMember?
  {
    if n == 0 then vm else WithMembers(instrs, vm, end, n - 1)[instrs[end - n].phi := instrs[end - n].value]
  }

  lemma {:induction false} RecordedMember(instrs: seq<Instr>, vm: map<Value, Value>, end: int, n: nat, k: int)
    requires AreMembers(instrs, end - n, end - 1) && end - n <= k < end
    ensures instrs[k].phi in WithMembers(instrs, vm, end, n) &&
            WithMembers(instrs, vm, end, n)[instrs[k].phi] == instrs[k].value
    decreases n
  {
    if k > end - n { RecordedMember(instrs, vm, end, n - 1, k); }
  }

  ghost predicate IsRecorded(instrs: seq<Instr>, end: int, n: nat, v: Value)
    requires AreMembers(instrs, end - n, end - 1)
  {
    exists k :: end - n <= k < end && instrs[k].phi == v
  }

  lemma {:induction false} OtherValues(instrs: seq<Instr>, vm: map<Value, Value>, end: int, n: nat, v: Value)
    requires AreMembers(instrs, end - n, end - 1) && !IsRecorded(instrs, end, n, v)
    ensures v in WithMembers(instrs, vm, end, n) <==> v in vm
    ensures v in vm ==> WithMembers(instrs, vm, end, n)[v] == vm[v]
    decreases n
  {
    if n > 0 {
      assert instrs[end - n].phi != v;
      OtherValues(instrs, vm, end, n - 1, v);
    }
  }

  /** Links inside the old chains are links inside the joined ones. */
  lemma NewLink(f: Function, chain: seq<seq<nat>>, i: nat, j: nat, c: nat, k: nat, o: nat, v: Value)
    returns (c1: nat, k1: nat)
    requires BlocksOk(f) && i < |chain| && j < |chain| && i != j && RemovedPhi(f, chain, c, k, o, v)
    ensures RemovedPhi(f, Joined(chain, i, j), c1, k1, o, v)
  {
    hide BlocksOk, NumPhis;
    var c2, k2;
    c1, k1 := NewPlace(chain, i, j, c, k, chain[c][k]);
    c2, k2 := NewPlace(chain, i, j, c, k - 1, chain[c][k - 1]);
  }

  lemma OldLink(f: Function, chain: seq<seq<nat>>, i: nat, j: nat, c: nat, k: nat, o: nat, v: Value)
    returns (c0: nat, k0: nat)
    requires BlocksOk(f) && i < |chain| && j < |chain| && i != j && RemovedPhi(f, Joined(chain, i, j), c, k, o, v)
    requires !(c == i && k == |chain[i]|)
    ensures RemovedPhi(f, chain, c0, k0, o, v) && chain[c0][k0 - 1] == Joined(chain, i, j)[c][k - 1]
  {
    hide BlocksOk, NumPhis;
    var c2, k2;
    c0, k0 := OldPlace(chain, i, j, c, k, Joined(chain, i, j)[c][k]);
    c2, k2 := OldPlace(chain, i, j, c, k - 1, Joined(chain, i, j)[c][k - 1]);
  }

  /** The tail of chain `i` is about to be joined to chain `j`, `n` phis wide. */
  ghost predicate Joining(f: Function, chain: seq<seq<nat>>, i: nat, j: nat, end: int, n: nat)
  {
    && IsSsa(f) && Partition(f, chain) && IsLive(chain, i) && IsLive(chain, j) && i != j && j < |f.blocks|
    && Tail(chain[i]) < |f.blocks| && Linked(f, Tail(chain[i]), j) && MembersMatch(f, Tail(chain[i]), j)
    && end == Last(f, Tail(chain[i])) && n == NumPhis(f, j) && AreMembers(f.instrs, end - n, end - 1)
  }

  lemma JoiningHolds(f: Function, chain: seq<seq<nat>>, i: nat, j: nat, end: int, n: nat)
    requires IsSsa(f) && Partition(f, chain) && IsLive(chain, i) && IsLive(chain, j) && i != j &&
             Linked(f, Tail(chain[i]), j)
    requires end == Last(f, Tail(chain[i])) && n == NumPhis(f, j)
    ensures Joining(f, chain, i, j, end, n)
  {
    hide PhisLead, CalleesOk, UsesDominated, MembersTargetSuccessors, Mirrored, NumPhis;
    var t := Tail(chain[i]);
    assert MembersMatch(f, t, j);
    hide MembersMatch;
    TrailingMembers(f, t, j);
  }

  lemma TrailingMembers(f: Function, t: nat, j: nat)
    requires BlocksOk(f) && t < |f.blocks| && j < |f.blocks| && MembersMatch(f, t, j)
    ensures AreMembers(f.instrs, Last(f, t) - NumPhis(f, j), Last(f, t) - 1)
    ensures First(f, t) + NumPhis(f, t) <= Last(f, t) - NumPhis(f, j)
  {
    hide NumPhis, MembersMatch;
    var hi := Last(f, t) - 1;
    var lo := hi + 1 - NumPhis(f, j);
    if lo <= hi { MemberExists(f, t, j, hi - lo); }
    assert 0 <= lo && hi < |f.instrs|;
    forall k | lo <= k <= hi ensures f.instrs[k].PhiMember? && f.instrs[k].phi.Local? {
      MemberExists(f, t, j, hi - k);
    }
    forall k, k' | lo <= k < k' <= hi ensures f.instrs[k].phi != f.instrs[k'].phi {
      MembersDiffer(f, t, j, hi - k', hi - k);
    }
    assert lo <= hi ==> f.instrs[lo].PhiMember?;
  }

  /** A recorded phi leads block `j`. */
  lemma RecordedHeld(f: Function, chain: seq<seq<nat>>, i: nat, j: nat, end: int, n: nat, v: Value) returns (o: nat)
    requires Joining(f, chain, i, j, end, n) && IsRecorded(f.instrs, end, n, v)
    ensures HoldsValue(f, j, v) && o < n && IsMember(f, Tail(chain[i]), o) && MemberPhi(f, Tail(chain[i]), o) == v
  {
    hide PhisLead, CalleesOk, UsesDominated, MembersTargetSuccessors, Mirrored, EntryOk, NumPhis, Linked, Partition;
    hide MembersMatch;
    var k :| end - n <= k < end && f.instrs[k].phi == v;
    o := end - 1 - k;
    MemberInBlock(f, Tail(chain[i]), j, o);
  }

  lemma RecordedIsRemoved(f: Function, chain: seq<seq<nat>>, i: nat, j: nat, end: int, n: nat, v: Value)
    returns (o: nat)
    requires Joining(f, chain, i, j, end, n) && IsRecorded(f.instrs, end, n, v)
    ensures RemovedPhi(f, Joined(chain, i, j), i, |chain[i]|, o, v)
  {
    hide PhisLead, CalleesOk, UsesDominated, MembersTargetSuccessors, Mirrored, EntryOk, NumPhis, Linked, Partition;
    hide MembersMatch, BlocksOk, Joined, AreMembers;
    o := RecordedHeld(f, chain, i, j, end, n, v);
    FreshLink(f, chain, i, j);
  }

  lemma FreshLink(f: Function, chain: seq<seq<nat>>, i: nat, j: nat)
    requires Partition(f, chain) && IsLive(chain, i) && IsLive(chain, j) && i != j
    ensures var ch := Joined(chain, i, j);
            |ch| == |chain| && 0 < |chain[i]| < |ch[i]| && ch[i][|chain[i]|] == j &&
              ch[i][|chain[i]| - 1] == Tail(chain[i])
  {
  }

  lemma MemberInBlock(f: Function, t: nat, j: nat, o: nat)
    requires BlocksOk(f) && t < |f.blocks| && j < |f.blocks| && MembersMatch(f, t, j) && o < NumPhis(f, j)
    ensures IsMember(f, t, o) && HoldsValue(f, j, MemberPhi(f, t, o))
  {
  }

  /** Phis removed earlier are not those of `j`. */
  lemma OldPhiKept(f: Function, chain: seq<seq<nat>>, i: nat, j: nat, end: int, n: nat, c: nat, k: nat, o: nat,
                   v: Value)
    requires Joining(f, chain, i, j, end, n) && RemovedPhi(f, chain, c, k, o, v)
    ensures !IsRecorded(f.instrs, end, n, v)
  {
    hide PhisLead, CalleesOk, UsesDominated, MembersTargetSuccessors, Mirrored, EntryOk, NumPhis, MembersMatch;
    assert IsLive(chain, c) && IsChain(f, chain[c]);
    assert Linked(f, chain[c][k - 1], chain[c][k]);
    hide Linked, IsChain;
    assert InChain(chain, c, k, chain[c][k]) && InChain(chain, j, 0, j);
    if IsRecorded(f.instrs, end, n, v) {
      var o' := RecordedHeld(f, chain, i, j, end, n, v);
      MemberInBlock(f, chain[c][k - 1], chain[c][k], o);
      HoldsOnce(f, j, chain[c][k], v.idx);
    }
  }

  lemma JoinedValue(f: Function, chain: seq<seq<nat>>, vm: map<Value, Value>, i: nat, j: nat, end: int, n: nat,
                    c: nat, k: nat, o: nat, v: Value)
    requires Joining(f, chain, i, j, end, n) && ValueMapOk(f, chain, vm) &&
             RemovedPhi(f, Joined(chain, i, j), c, k, o, v)
    ensures var vm' := WithMembers(f.instrs, vm, end, n);
            v in vm' && vm'[v] == MemberValue(f, Joined(chain, i, j)[c][k - 1], o)
  {
    hide PhisLead, CalleesOk, UsesDominated, MembersTargetSuccessors, Mirrored, EntryOk, NumPhis, MembersMatch, Linked;
    hide Partition, ValueMapOk, WithMembers;
    if c == i && k == |chain[i]| {
      FreshLink(f, chain, i, j);
      RecordedMember(f.instrs, vm, end, n, end - 1 - o);
    } else {
      var c0, k0 := OldLink(f, chain, i, j, c, k, o, v);
      RemovedValue(f, chain, vm, c0, k0, o, v);
      OldPhiKept(f, chain, i, j, end, n, c0, k0, o, v);
      OtherValues(f.instrs, vm, end, n, v);
    }
  }

  lemma JoinedPhi(f: Function, chain: seq<seq<nat>>, vm: map<Value, Value>, i: nat, j: nat, end: int, n: nat, v: Value)
    requires Joining(f, chain, i, j, end, n) && ValueMapOk(f, chain, vm) && v in WithMembers(f.instrs, vm, end, n)
    ensures exists c: nat, k: nat, o: nat :: RemovedPhi(f, Joined(chain, i, j), c, k, o, v)
  {
    hide PhisLead, CalleesOk, UsesDominated, MembersTargetSuccessors, Mirrored, EntryOk, NumPhis, MembersMatch, Linked;
    hide Partition, WithMembers, RemovedPhi;
    if IsRecorded(f.instrs, end, n, v) {
      var o := RecordedIsRemoved(f, chain, i, j, end, n, v);
    } else {
      OtherValues(f.instrs, vm, end, n, v);
      var c: nat, k: nat, o: nat :| RemovedPhi(f, chain, c, k, o, v);
      var c1, k1 := NewLink(f, chain, i, j, c, k, o, v);
    }
  }

  /** Recording the members keeps the value map in step with the chains. */
  lemma JoinValueMap(f: Function, chain: seq<seq<nat>>, vm: map<Value, Value>, i: nat, j: nat, end: int, n: nat)
    requires Joining(f, chain, i, j, end, n) && ValueMapOk(f, chain, vm)
    ensures ValueMapOk(f, Joined(chain, i, j), WithMembers(f.instrs, vm, end, n))
  {
    hide PhisLead, CalleesOk, UsesDominated, MembersTargetSuccessors, Mirrored, EntryOk, NumPhis, MembersMatch, Linked;
    hide Partition, WithMembers, Joined, BlocksOk;
    var chain', vm' := Joined(chain, i, j), WithMembers(f.instrs, vm, end, n);
    forall v | v in vm' ensures exists c: nat, k: nat, o: nat :: RemovedPhi(f, chain', c, k, o, v) {
      JoinedPhi(f, chain, vm, i, j, end, n, v);
    }
    forall v, c: nat, k: nat, o: nat | RemovedPhi(f, chain', c, k, o, v)
      ensures v in vm' && vm'[v] == MemberValue(f, chain'[c][k - 1], o)
    {
      JoinedValue(f, chain, vm, i, j, end, n, c, k, o, v);
    }
  }

  // ----- segments -----

  ghost predicate AllSegments(f: Function, chain: seq<seq<nat>>, blocks: seq<Block>)
    requires BlocksOk(f)
  {
    |blocks| == |chain| && forall i: nat :: IsLive(chain, i) ==> SegmentsOk(f, chain[i], blocks[i].segments)
  }

  /** The head of a chain has room for its phis before the members it loses. */
  lemma HeadFits(f: Function, b: seq<nat>)
    requires IsSsa(f) && IsChain(f, b) && InFunction(f, b)
    ensures First(f, b[0]) + NumPhis(f, b[0]) <= PieceHi(f, b, 0) + 1
  {
    hide PhisLead, CalleesOk, UsesDominated, MembersTargetSuccessors, Mirrored, EntryOk, NumPhis;
    if |b| > 1 {
      assert Linked(f, b[1 - 1], b[1]);
      assert MembersMatch(f, b[0], b[1]);
      hide MembersMatch;
      TrailingMembers(f, b[0], b[1]);
    }
  }

  lemma JoinableHolds(f: Function, chain: seq<seq<nat>>, i: nat, j: nat, end: int, n: nat)
    requires Joining(f, chain, i, j, end, n)
    ensures Joinable(f, chain[i], chain[j], n)
  {
    hide PhisLead, CalleesOk, UsesDominated, MembersTargetSuccessors, Mirrored, EntryOk, NumPhis, MembersMatch, Linked;
    hide AreMembers;
    var a, b := chain[i], chain[j];
    assert IsChain(f, a) && IsChain(f, b) && b[0] == j;
    TrailingMembers(f, Tail(a), j);
    HeadFits(f, b);
  }

  lemma EndsInMembers(f: Function, chain: seq<seq<nat>>, i: nat, j: nat, end: int, n: nat)
    requires Joining(f, chain, i, j, end, n) && chain[i][|chain[i]| - 1] < |f.blocks|
    ensures EndsWithoutPhis(f.instrs, (PieceLo(f, chain[i], |chain[i]| - 1), end), n + 1)
  {
    hide PhisLead, CalleesOk, UsesDominated, MembersTargetSuccessors, Mirrored, EntryOk, NumPhis, MembersMatch, Linked;
    hide Partition;
    TrailingMembers(f, Tail(chain[i]), j);
    LastIsTerminator(f, Tail(chain[i]));
  }

  lemma JoinAllSegments(f: Function, chain: seq<seq<nat>>, blocks: seq<Block>, blocks': seq<Block>, i: nat, j: nat,
                        end: int, n: nat)
    requires Joining(f, chain, i, j, end, n) && AllSegments(f, chain, blocks)
    requires blocks[i].segments != [] && blocks[j].segments != [] && |blocks'| == |blocks|
    requires blocks'[i].segments == TrimBack(blocks[i].segments, n + 1) + TrimFront(blocks[j].segments, n)
    requires forall k :: 0 <= k < |blocks| && k != i && k != j ==> blocks'[k] == blocks[k]
    ensures AllSegments(f, Joined(chain, i, j), blocks')
  {
    hide PhisLead, CalleesOk, UsesDominated, MembersTargetSuccessors, Mirrored, EntryOk, NumPhis, MembersMatch, Linked;
    hide Partition, BlocksOk;
    hide WellSegmented, PieceLo, PieceHi, Indices, ChainIndices, EndsWithoutPhis, AreMembers, TrimBack, TrimFront;
    JoinableHolds(f, chain, i, j, end, n);
    EndsInMembers(f, chain, i, j, end, n);
    MergeSegments(f, chain[i], chain[j], blocks[i].segments, blocks[j].segments, n);
    hide SegmentsOk;
    var chain' := Joined(chain, i, j);
    forall k: nat | IsLive(chain', k) ensures SegmentsOk(f, chain'[k], blocks'[k].segments) {
      if k != i { assert IsLive(chain, k); }
    }
  }
}
