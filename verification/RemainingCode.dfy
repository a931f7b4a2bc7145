/**
 What is left to rewrite after merging, and the lookups that this takes, in terms of the original function.
 */
module RemainingCode {
  import opened Sequences
  import opened Khir
  import opened Ssa
  import opened Lookups
  import opened CfgSimulation
  import opened MergeInvariant
  import opened CfgMerge
  import opened CfgRewrite

  // ----- replaced phis -----

  /** Merging `y` into `x` replaces the phi `v` of `y` by the value `u` of its member. */
  ghost predicate ReplacesAt(f: Function, dead: seq<bool>, x: nat, y: nat, o: nat, v: Value, u: Value)
    requires BlocksOk(f)
  {
    && LiveLinked(f, dead, x, y) && o < NumPhis(f, y) && IsMember(f, x, o)
    && MemberPhi(f, x, o) == v && MemberValue(f, x, o) == u
  }

  ghost predicate Replaces(f: Function, dead: seq<bool>, v: Value, u: Value)
    requires BlocksOk(f)
  {
    exists x: nat, y: nat, o: nat :: ReplacesAt(f, dead, x, y, o, v, u)
  }

  ghost predicate IsReplaced(f: Function, dead: seq<bool>, v: Value)
    requires BlocksOk(f)
  {
    exists u :: Replaces(f, dead, v, u)
  }

  /** Replacements one after the other, up to a value that is not replaced. */
  ghost predicate IsTrail(f: Function, dead: seq<bool>, trail: seq<Value>)
    requires BlocksOk(f)
  {
    && 0 < |trail| && !IsReplaced(f, dead, trail[|trail| - 1])
    && forall i :: 0 < i < |trail| ==> Replaces(f, dead, trail[i - 1], trail[i])
  }

  ghost predicate LeadsOn(f: Function, dead: seq<bool>, v: Value, trail: seq<Value>)
    requires BlocksOk(f)
  {
    IsTrail(f, dead, trail) && trail[0] == v
  }

  ghost predicate LookupEnds(f: Function, dead: seq<bool>, v: Value)
    requires BlocksOk(f)
  {
    exists trail :: LeadsOn(f, dead, v, trail)
  }

  // ----- remaining instructions -----

  /** The phi goes because its block is merged into the one before. */
  ghost predicate DropsPhi(f: Function, dead: seq<bool>, b: nat, j: int)
    requires BlocksOk(f) && Holds(f, b, j)
  {
    j < First(f, b) + NumPhis(f, b) && exists x: nat :: LiveLinked(f, dead, x, b)
  }

  /** The member or branch goes because the next block is merged into its block. */
  ghost predicate DropsEnd(f: Function, dead: seq<bool>, b: nat, j: int)
    requires BlocksOk(f) && Holds(f, b, j)
  {
    exists y: nat :: LiveLinked(f, dead, b, y) && Last(f, b) - NumPhis(f, y) <= j
  }

  ghost predicate Remains(f: Function, dead: seq<bool>, b: nat, j: int)
    requires BlocksOk(f)
  {
    Survives(b, dead) && Holds(f, b, j) && !DropsPhi(f, dead, b, j) && !DropsEnd(f, dead, b, j)
  }

  /** Every value that is looked up for a remaining instruction leads to one that is not replaced. */
  ghost predicate LookupsEnd(f: Function, dead: seq<bool>)
    requires BlocksOk(f)
  {
    forall b: nat, j, v :: Remains(f, dead, b, j) && v in f.instrs[j].LookedUp() ==> LookupEnds(f, dead, v)
  }

  // ----- links and chains -----

  lemma LiveLinkIsLink(f: Function, dead: seq<bool>, x: nat, y: nat)
    requires Mirrored(f) && EntryOk(f) && DeadOk(f, dead) && LiveLinked(f, dead, x, y)
    ensures Linked(f, x, y)
  {
    hide Mirrored, DeadOk, Live;
    LiveSuccessors(f, dead, x);
    assert y in f.blocks[x].succ;
    OnlyLivePredecessor(f, dead, x, y);
  }

  /** After merging, every live link lies inside a chain. */
  lemma LinkIsMerged(f: Function, dead: seq<bool>, chain: seq<seq<nat>>, w: Work, x: nat, y: nat)
    returns (c: nat, i: nat)
    requires MergeOk(f, dead, chain, w) && MergedUpTo(w, |f.blocks|) && LiveLinked(f, dead, x, y)
    ensures c < |chain| && i + 1 < |chain[c]| && chain[c][i] == x && chain[c][i + 1] == y
  {
    hide IsSsa, Partition, Neighbours, ValueMapOk, AllSegments, LiveLinks, LiveLinked, DeadOk;
    LinkEnds(f, dead, x, y);
    assert Placed(chain, x);
    c, i :| InChain(chain, c, i, x);
    Sizes(f, dead, chain, w);
    if i + 1 == |chain[c]| {
      TailMergeable(f, dead, chain, w, c, y);
    } else {
      InnerLink(f, dead, chain, c, i);
      SameNext(f, dead, x, y, chain[c][i + 1]);
    }
  }

  lemma InnerLink(f: Function, dead: seq<bool>, chain: seq<seq<nat>>, c: nat, i: nat)
    requires LiveLinks(f, dead, chain) && c < |chain| && i + 1 < |chain[c]|
    ensures LiveLinked(f, dead, chain[c][i], chain[c][i + 1])
  {
    assert LinkedThrough(f, dead, chain[c]);
    assert LiveLinked(f, dead, chain[c][i + 1 - 1], chain[c][i + 1]);
  }

  lemma MergeBlocks(f: Function, dead: seq<bool>, chain: seq<seq<nat>>, w: Work)
    requires MergeOk(f, dead, chain, w)
    ensures BlocksOk(f) && Partition(f, chain) && LiveLinks(f, dead, chain) && CoversLive(dead, chain)
    ensures ValueMapOk(f, chain, w.vm)
  {
    hide BlocksOk;
  }

  // ----- the value map is the replacement -----

  lemma MapHolds(f: Function, dead: seq<bool>, chain: seq<seq<nat>>, w: Work, v: Value, u: Value)
    requires MergeOk(f, dead, chain, w) && MergedUpTo(w, |f.blocks|) && BlocksOk(f) && Replaces(f, dead, v, u)
    ensures v in w.vm && w.vm[v] == u
  {
    hide BlocksOk, NumPhis, IsMember, MemberPhi, MemberValue, MergeOk, MergedUpTo, Partition, LiveLinks, CoversLive;
    MergeBlocks(f, dead, chain, w);
    var x: nat, y: nat, o: nat :| ReplacesAt(f, dead, x, y, o, v, u);
    var c, i := LinkIsMerged(f, dead, chain, w, x, y);
    assert RemovedPhi(f, chain, c, i + 1, o, v);
  }

  lemma MapReplaces(f: Function, dead: seq<bool>, chain: seq<seq<nat>>, w: Work, v: Value)
    requires MergeOk(f, dead, chain, w) && BlocksOk(f) && v in w.vm
    ensures Replaces(f, dead, v, w.vm[v])
  {
    hide BlocksOk, NumPhis, IsMember, MemberPhi, MemberValue, MergeOk, Partition, LiveLinks, CoversLive, LiveLinked;
    MergeBlocks(f, dead, chain, w);
    var c: nat, i: nat, o: nat :| RemovedPhi(f, chain, c, i, o, v);
    InnerLink(f, dead, chain, c, i - 1);
    assert ReplacesAt(f, dead, chain[c][i - 1], chain[c][i], o, v, w.vm[v]);
  }

  lemma MapExactly(f: Function, dead: seq<bool>, chain: seq<seq<nat>>, w: Work, v: Value)
    requires MergeOk(f, dead, chain, w) && MergedUpTo(w, |f.blocks|) && BlocksOk(f)
    ensures v in w.vm <==> IsReplaced(f, dead, v)
    ensures v in w.vm ==> Replaces(f, dead, v, w.vm[v])
    ensures forall u :: Replaces(f, dead, v, u) ==> v in w.vm && w.vm[v] == u
  {
    hide BlocksOk, MergeOk, MergedUpTo, Replaces;
    if v in w.vm { MapReplaces(f, dead, chain, w, v); }
    forall u | Replaces(f, dead, v, u) ensures v in w.vm && w.vm[v] == u {
      MapHolds(f, dead, chain, w, v, u);
    }
  }

  lemma {:induction false} TrailIsLookup(f: Function, dead: seq<bool>, chain: seq<seq<nat>>, w: Work, trail: seq<Value>)
    requires MergeOk(f, dead, chain, w) && MergedUpTo(w, |f.blocks|) && BlocksOk(f) && IsTrail(f, dead, trail)
    ensures Ends(w.vm, trail[0])
    decreases |trail|
  {
    hide BlocksOk, MergeOk, MergedUpTo, Replaces, Ends, Resolve, IsReplaced;
    MapExactly(f, dead, chain, w, trail[0]);
    if |trail| == 1 {
      ResolveDone(w.vm, trail[0]);
    } else {
      assert Replaces(f, dead, trail[1 - 1], trail[1]);
      TailOfTrail(f, dead, trail);
      TrailIsLookup(f, dead, chain, w, trail[1..]);
      ResolveStep(w.vm, trail[0]);
    }
  }

  lemma TailOfTrail(f: Function, dead: seq<bool>, trail: seq<Value>)
    requires BlocksOk(f) && IsTrail(f, dead, trail) && |trail| > 1
    ensures IsTrail(f, dead, trail[1..])
  {
    hide BlocksOk, Replaces, IsReplaced;
    forall i | 0 < i < |trail[1..]| ensures Replaces(f, dead, trail[1..][i - 1], trail[1..][i]) {
      assert Replaces(f, dead, trail[i + 1 - 1], trail[i + 1]);
    }
  }

  lemma LongerTrail(f: Function, dead: seq<bool>, v: Value, trail: seq<Value>)
    requires BlocksOk(f) && IsTrail(f, dead, trail) && Replaces(f, dead, v, trail[0])
    ensures LookupEnds(f, dead, v)
  {
    hide BlocksOk, Replaces, IsReplaced;
    var longer := [v] + trail;
    forall i | 0 < i < |longer| ensures Replaces(f, dead, longer[i - 1], longer[i]) {
      if i > 1 { assert Replaces(f, dead, trail[i - 1 - 1], trail[i - 1]); }
    }
    assert LeadsOn(f, dead, v, longer);
  }

  lemma {:induction false} LookupIsTrail(f: Function, dead: seq<bool>, chain: seq<seq<nat>>, w: Work, v: Value, n: nat)
    requires MergeOk(f, dead, chain, w) && MergedUpTo(w, |f.blocks|) && BlocksOk(f) && EndsIn(w.vm, v, n)
    ensures LookupEnds(f, dead, v)
    decreases n
  {
    hide BlocksOk, MergeOk, MergedUpTo, Replaces, IsReplaced;
    MapExactly(f, dead, chain, w, v);
    if v in w.vm {
      LookupIsTrail(f, dead, chain, w, w.vm[v], n - 1);
      var trail :| LeadsOn(f, dead, w.vm[v], trail);
      LongerTrail(f, dead, v, trail);
    } else {
      NoTrail(f, dead, v);
    }
  }

  lemma NoTrail(f: Function, dead: seq<bool>, v: Value)
    requires BlocksOk(f) && !IsReplaced(f, dead, v)
    ensures LookupEnds(f, dead, v)
  {
    assert LeadsOn(f, dead, v, [v]);
  }

  /** Looking a value up in the map ends exactly if its replacements lead to a value that is not replaced. */
  lemma LookupEndsExactly(f: Function, dead: seq<bool>, chain: seq<seq<nat>>, w: Work, v: Value)
    requires MergeOk(f, dead, chain, w) && MergedUpTo(w, |f.blocks|) && BlocksOk(f)
    ensures Ends(w.vm, v) <==> LookupEnds(f, dead, v)
  {
    hide BlocksOk, MergeOk, MergedUpTo, Replaces, IsReplaced;
    if trail :| LeadsOn(f, dead, v, trail) {
      TrailIsLookup(f, dead, chain, w, trail);
    }
    if n: nat :| EndsIn(w.vm, v, n) {
      LookupIsTrail(f, dead, chain, w, v, n);
    }
  }

  // ----- the remaining instructions are those of the chains -----

  lemma {:induction false} KeptInIndices(f: Function, chain: seq<nat>, i: nat, p: nat, j: int)
    requires BlocksOk(f) && InFunction(f, chain) && i <= p && Kept(f, chain, p, j)
    ensures j in ChainIndices(f, chain, i)
    decreases p - i
  {
    hide BlocksOk, NumPhis, PieceLo, PieceHi, Range;
    var lo, hi := PieceLo(f, chain, i), PieceHi(f, chain, i);
    assert ChainIndices(f, chain, i) == Range(lo, hi) + ChainIndices(f, chain, i + 1);
    if i == p {
      RangeElements(lo, hi);
      assert Range(lo, hi)[j - lo] == j;
    } else {
      KeptInIndices(f, chain, i + 1, p, j);
    }
  }

  lemma {:induction false} IndicesAreKept(f: Function, chain: seq<nat>, i: nat, j: int) returns (p: nat)
    requires BlocksOk(f) && InFunction(f, chain) && i <= |chain| && j in ChainIndices(f, chain, i)
    ensures Kept(f, chain, p, j)
    decreases |chain| - i
  {
    hide BlocksOk, NumPhis, PieceLo, PieceHi, Range;
    var lo, hi := PieceLo(f, chain, i), PieceHi(f, chain, i);
    RangeElements(lo, hi);
    if j in Range(lo, hi) {
      var k :| 0 <= k < |Range(lo, hi)| && Range(lo, hi)[k] == j;
      p := i;
    } else {
      p := IndicesAreKept(f, chain, i + 1, j);
    }
  }

  lemma {:induction false} IndexOfBlock(blocks: seq<Block>, deleted: seq<bool>, n: nat, j: int) returns (b: nat)
    requires n <= |blocks| == |deleted| && j in AllIndices(blocks, deleted, n)
    ensures b < n && !deleted[b] && j in Indices(blocks[b].segments)
  {
    hide Indices;
    if !deleted[n - 1] && j in Indices(blocks[n - 1].segments) {
      b := n - 1;
    } else {
      b := IndexOfBlock(blocks, deleted, n - 1, j);
    }
  }

  /** A block that starts a chain is merged into no other, and one that ends a chain takes none in. */
  lemma ChainEnds(f: Function, dead: seq<bool>, chain: seq<seq<nat>>, w: Work, c: nat, x: nat)
    requires MergeOk(f, dead, chain, w) && MergedUpTo(w, |f.blocks|) && IsLive(chain, c)
    ensures !LiveLinked(f, dead, x, chain[c][0]) && !LiveLinked(f, dead, Tail(chain[c]), x)
  {
    hide BlocksOk, MergeOk, MergedUpTo, LiveLinks, CoversLive, LiveLinked, Partition, ValueMapOk;
    MergeBlocks(f, dead, chain, w);
    if LiveLinked(f, dead, x, chain[c][0]) {
      var c', i := LinkIsMerged(f, dead, chain, w, x, chain[c][0]);
      OnePlace(f, chain, c, 0, c', i + 1);
    }
    if LiveLinked(f, dead, Tail(chain[c]), x) {
      var c', i := LinkIsMerged(f, dead, chain, w, Tail(chain[c]), x);
      OnePlace(f, chain, c, |chain[c]| - 1, c', i);
    }
  }

  lemma OnePlace(f: Function, chain: seq<seq<nat>>, c: nat, i: nat, c': nat, i': nat)
    requires Partition(f, chain) && c < |chain| && i < |chain[c]| && c' < |chain| && i' < |chain[c']|
    requires chain[c][i] == chain[c'][i']
    ensures c == c' && i == i'
  {
    assert InChain(chain, c, i, chain[c][i]) && InChain(chain, c', i', chain[c][i]);
  }

  lemma KeptFrom(f: Function, dead: seq<bool>, chain: seq<seq<nat>>, w: Work, c: nat, p: nat, j: int)
    requires MergeOk(f, dead, chain, w) && MergedUpTo(w, |f.blocks|) && BlocksOk(f)
    requires IsLive(chain, c) && p < |chain[c]| && Holds(f, chain[c][p], j)
    ensures PieceLo(f, chain[c], p) <= j <==> !DropsPhi(f, dead, chain[c][p], j)
  {
    hide BlocksOk, MergeOk, MergedUpTo, LiveLinks, CoversLive, LiveLinked, ValueMapOk, NumPhis, Partition;
    MergeBlocks(f, dead, chain, w);
    if p > 0 {
      InnerLink(f, dead, chain, c, p - 1);
      assert LiveLinked(f, dead, chain[c][p - 1], chain[c][p]);
    } else {
      forall x: nat ensures !LiveLinked(f, dead, x, chain[c][0]) { ChainEnds(f, dead, chain, w, c, x); }
    }
  }

  lemma KeptTo(f: Function, dead: seq<bool>, chain: seq<seq<nat>>, w: Work, c: nat, p: nat, j: int)
    requires MergeOk(f, dead, chain, w) && MergedUpTo(w, |f.blocks|) && BlocksOk(f)
    requires IsLive(chain, c) && p < |chain[c]| && Holds(f, chain[c][p], j) && InFunction(f, chain[c])
    ensures j <= PieceHi(f, chain[c], p) <==> !DropsEnd(f, dead, chain[c][p], j)
  {
    hide BlocksOk, MergeOk, MergedUpTo, LiveLinks, CoversLive, LiveLinked, ValueMapOk, NumPhis, Partition;
    MergeBlocks(f, dead, chain, w);
    var b := chain[c][p];
    if p + 1 < |chain[c]| {
      InnerLink(f, dead, chain, c, p);
      var next := chain[c][p + 1];
      forall y: nat | LiveLinked(f, dead, b, y) ensures y == next { SameNext(f, dead, b, y, next); }
    } else {
      assert b == Tail(chain[c]);
      forall y: nat ensures !LiveLinked(f, dead, b, y) { ChainEnds(f, dead, chain, w, c, y); }
    }
  }

  lemma RemainsExactly(f: Function, dead: seq<bool>, chain: seq<seq<nat>>, w: Work, c: nat, p: nat, j: int)
    requires MergeOk(f, dead, chain, w) && MergedUpTo(w, |f.blocks|) && BlocksOk(f)
    requires IsLive(chain, c) && p < |chain[c]|
    ensures Kept(f, chain[c], p, j) <==> Remains(f, dead, chain[c][p], j)
  {
    hide BlocksOk, MergeOk, MergedUpTo, LiveLinks, CoversLive, ValueMapOk, Linked, DropsPhi, DropsEnd;
    MergeBlocks(f, dead, chain, w);
    PlacedSurvives(f, dead, chain, c, p);
    assert IsChain(f, chain[c]);
    if Holds(f, chain[c][p], j) {
      KeptFrom(f, dead, chain, w, c, p, j);
      KeptTo(f, dead, chain, w, c, p, j);
    }
  }

  lemma PlacedSurvives(f: Function, dead: seq<bool>, chain: seq<seq<nat>>, c: nat, p: nat)
    requires CoversLive(dead, chain) && c < |chain| && p < |chain[c]|
    ensures Survives(chain[c][p], dead)
  {
    assert InChain(chain, c, p, chain[c][p]);
    assert Placed(chain, chain[c][p]);
  }

  lemma RemainingIsListed(f: Function, dead: seq<bool>, chain: seq<seq<nat>>, w: Work, b: nat, j: int)
    requires MergeOk(f, dead, chain, w) && MergedUpTo(w, |f.blocks|) && BlocksOk(f) && Remains(f, dead, b, j)
    ensures |w.blocks| == |w.deleted| && j in AllIndices(w.blocks, w.deleted, |w.blocks|)
  {
    hide BlocksOk, MergedUpTo, LiveLinks, ValueMapOk, Remains, Kept, ChainIndices, AllIndices, Indices;
    Sizes(f, dead, chain, w);
    RemainsPlaced(f, dead, chain, w, b, j);
    var c: nat, p: nat :| InChain(chain, c, p, b);
    RemainsExactly(f, dead, chain, w, c, p, j);
    hide MergeOk;
    LiveSegments(f, dead, chain, w, c);
    KeptInIndices(f, chain[c], 0, p, j);
    NotDeleted(f, dead, chain, w, c);
    InAllIndices(w.blocks, w.deleted, |w.blocks|, c, j);
  }

  lemma RemainsPlaced(f: Function, dead: seq<bool>, chain: seq<seq<nat>>, w: Work, b: nat, j: int)
    requires MergeOk(f, dead, chain, w) && BlocksOk(f) && Remains(f, dead, b, j)
    ensures Placed(chain, b)
  {
    hide BlocksOk;
    MergeBlocks(f, dead, chain, w);
  }

  lemma NotDeleted(f: Function, dead: seq<bool>, chain: seq<seq<nat>>, w: Work, i: nat)
    requires MergeOk(f, dead, chain, w)
    ensures i < |w.deleted| ==> (!w.deleted[i] <==> IsLive(chain, i))
    ensures IsLive(chain, i) ==> i < |w.deleted|
  {
    hide IsSsa, DeadOk, Neighbours, ValueMapOk, Partition, AllSegments, LiveLinks, CoversLive;
  }

  lemma ListedRemains(f: Function, dead: seq<bool>, chain: seq<seq<nat>>, w: Work, j: int) returns (b: nat)
    requires MergeOk(f, dead, chain, w) && MergedUpTo(w, |f.blocks|) && BlocksOk(f)
    requires |w.blocks| == |w.deleted| && j in AllIndices(w.blocks, w.deleted, |w.blocks|)
    ensures Remains(f, dead, b, j)
  {
    hide BlocksOk, MergeOk, MergedUpTo, Remains, ChainIndices, AllIndices, Indices;
    var c := IndexOfBlock(w.blocks, w.deleted, |w.blocks|, j);
    NotDeleted(f, dead, chain, w, c);
    LiveSegments(f, dead, chain, w, c);
    var p := IndicesAreKept(f, chain[c], 0, j);
    RemainsExactly(f, dead, chain, w, c, p, j);
    b := chain[c][p];
  }

  /** After merging, rewriting the remaining instructions ends exactly if the values they look up lead to
      values that are not replaced. */
  lemma LookupsEndExactly(f: Function, dead: seq<bool>, chain: seq<seq<nat>>, w: Work)
    requires MergeOk(f, dead, chain, w) && MergedUpTo(w, |f.blocks|) && |w.blocks| == |w.deleted|
    ensures BlocksOk(f)
    ensures AllSettle(f, w.vm, AllIndices(w.blocks, w.deleted, |w.blocks|)) <==> LookupsEnd(f, dead)
  {
    hide MergeOk, MergedUpTo, BlocksOk, Remains, AllIndices, Ends, LookupEnds;
    MergeBlocks(f, dead, chain, w);
    forall v ensures Ends(w.vm, v) <==> LookupEnds(f, dead, v) {
      LookupEndsExactly(f, dead, chain, w, v);
    }
    forall b: nat, j | Remains(f, dead, b, j) ensures j in AllIndices(w.blocks, w.deleted, |w.blocks|) {
      RemainingIsListed(f, dead, chain, w, b, j);
    }
    forall j | j in AllIndices(w.blocks, w.deleted, |w.blocks|) ensures exists b: nat :: Remains(f, dead, b, j) {
      var b := ListedRemains(f, dead, chain, w, j);
    }
    RemainsInFunction(f, dead);
  }

  lemma RemainsInFunction(f: Function, dead: seq<bool>)
    requires BlocksOk(f)
    ensures forall b: nat, j :: Remains(f, dead, b, j) ==> 0 <= j < |f.instrs|
  {
  }

  // ----- reachable code -----

  /** Lookups of values that are defined in reachable code end. */
  lemma {:induction false} ReachableLookupEnds(f: Function, dead: seq<bool>, v: Value, b: nat)
    requires IsSsa(f) && DeadOk(f, dead) && HoldsValue(f, b, v) && Reachable(f, b)
    ensures LookupEnds(f, dead, v)
    decreases Depth(f, v)
  {
    hide BlocksOk, PhisLead, CalleesOk, UsesDominated, MembersTargetSuccessors, Mirrored, LiveLinked, DeadOk, Depth;
    hide NumPhis, Linked;
    if IsReplaced(f, dead, v) {
      var u :| Replaces(f, dead, v, u);
      var x: nat, y: nat, o: nat :| ReplacesAt(f, dead, x, y, o, v, u);
      LiveLinkIsLink(f, dead, x, y);
      LinkSuccessor(f, x, y);
      assert MembersMatch(f, x, y);
      HoldsOnce(f, b, y, v.idx);
      if u.Local? {
        var d := ValueMapDescends(f, x, y, o);
        ReachableLookupEnds(f, dead, u, d);
      } else {
        ConstIsKept(f, dead, u);
        NoTrail(f, dead, u);
      }
      var trail :| LeadsOn(f, dead, u, trail);
      LongerTrail(f, dead, v, trail);
    } else {
      NoTrail(f, dead, v);
    }
  }

  lemma LinkSuccessor(f: Function, x: nat, y: nat)
    requires Linked(f, x, y)
    ensures x < |f.blocks| && y < |f.blocks| && f.blocks[x].succ == [y]
  {
  }

  /** Only phis are replaced. */
  lemma ConstIsKept(f: Function, dead: seq<bool>, u: Value)
    requires IsSsa(f) && DeadOk(f, dead) && u.Const?
    ensures !IsReplaced(f, dead, u)
  {
    hide BlocksOk, PhisLead, CalleesOk, UsesDominated, MembersTargetSuccessors, Mirrored, LiveLinked, DeadOk, NumPhis;
    hide Linked;
    if w :| Replaces(f, dead, u, w) {
      var x: nat, y: nat, o: nat :| ReplacesAt(f, dead, x, y, o, u, w);
      LiveLinkIsLink(f, dead, x, y);
      LinkSuccessor(f, x, y);
      assert MembersMatch(f, x, y);
    }
  }

  /** The values looked up for an instruction of reachable code lead to values that are not replaced. */
  lemma ReachableCodeSettles(f: Function, dead: seq<bool>, b: nat, j: int, v: Value)
    requires IsSsa(f) && DeadOk(f, dead) && Holds(f, b, j) && Reachable(f, b) && v in f.instrs[j].LookedUp()
    ensures LookupEnds(f, dead, v)
  {
    hide PhisLead, CalleesOk, Mirrored, DeadOk, LookupEnds;
    assert 0 <= j < |f.instrs|;
    hide BlocksOk;
    if v.Const? {
      ConstIsKept(f, dead, v);
      NoTrail(f, dead, v);
    } else if v in f.instrs[j].Operands() {
      assert DominatedUse(f, b, j, v);
      var d: nat :| Holds(f, d, v.idx) && ((d == b && v.idx < j) || (d != b && Dominates(f, d, b)));
      if d != b { DominatorReachable(f, d, b); }
      ReachableLookupEnds(f, dead, v, d);
    } else {
      assert TargetsSuccessor(f, b, v);
      var t: nat :| Edge(f, b, t) && HoldsValue(f, t, v);
      var p :| PathTo(f, p, b);
      PathAppend(f, p, t);
      ReachableLookupEnds(f, dead, v, t);
    }
  }
}
