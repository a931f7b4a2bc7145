/**
 When the control-flow simplifier ends.

 Blocks of unreachable code stay in the graph when they lie on or behind a cycle, and then they are
 merged like all others.  Two loops of the pass can fail to end on them: merging a cycle of blocks that
 each have one successor and one predecessor, and looking up a phi that comes to stand for itself.
 */
module EndlessMerging {
  import opened Sequences
  import opened Khir
  import opened Ssa
  import opened CfgSimulation
  import opened ChainMerge
  import opened MergeInvariant
  import opened CfgMerge
  import opened RemainingCode
  import DeadBlocks

  /** Once the dead blocks are dropped there is no cycle to merge forever, and every value that is looked up
      for a remaining instruction leads to one that is not replaced. */
  ghost predicate CanSimplify(f: Function)
    requires BlocksOk(f) && Mirrored(f)
  {
    forall dead :: DeadBlocks.IsDeadSet(f, dead) ==> !HasPureCycle(f, dead) && LookupsEnd(f, dead)
  }

  /** It is enough to look at the blocks that the pass marks. */
  lemma OneDeadSet(f: Function, dead: seq<bool>)
    requires BlocksOk(f) && Mirrored(f) && DeadBlocks.IsDeadSet(f, dead)
    ensures CanSimplify(f) <==> !HasPureCycle(f, dead) && LookupsEnd(f, dead)
  {
    hide BlocksOk, Mirrored, DeadBlocks.IsDeadSet, HasPureCycle, LookupsEnd;
    forall other | DeadBlocks.IsDeadSet(f, other) ensures other == dead {
      DeadBlocks.DeadSetIsUnique(f, other, dead);
    }
  }

  lemma DeadSetIsOk(f: Function, dead: seq<bool>)
    requires Mirrored(f) && EntryOk(f) && DeadBlocks.IsDeadSet(f, dead)
    ensures DeadOk(f, dead)
  {
    hide Mirrored;
    forall b: nat | b < |dead| && dead[b] ensures !Reachable(f, b) {
      if path :| PathTo(f, path, b) {
        DeadBlocks.DeletedIsUnreachable(f, dead, path);
      }
    }
    forall a: nat, b: nat | Edge(f, a, b) && dead[b] ensures dead[a] {
      EdgeMirror(f, a, b);
    }
  }

  /** Functions without unreachable cycles pose no such problem. */
  lemma AcyclicCanBeSimplified(f: Function)
    requires IsSsa(f) && DeadBlocks.NoUnreachableCycles(f)
    ensures CanSimplify(f)
  {
    hide BlocksOk, PhisLead, UsesDominated, CalleesOk, MembersTargetSuccessors, MembersMatch, Mirrored;
    var rank: seq<nat> :| DeadBlocks.RanksUnreachable(f, rank);
    forall dead | DeadBlocks.IsDeadSet(f, dead) ensures !HasPureCycle(f, dead) && LookupsEnd(f, dead) {
      hide DeadBlocks.RanksUnreachable, LinkedThrough, LookupEnds;
      DeadSetIsOk(f, dead);
      forall b: nat | Survives(b, dead) ensures Reachable(f, b) {
        if !Reachable(f, b) {
          DeadBlocks.UnreachableIsDeleted(f, dead, rank, b);
        }
      }
      if cycle :| IsPureCycle(f, dead, cycle) {
        CycleLink(f, dead, cycle, 0);
        NoReachableCycle(f, dead, cycle);
      }
      forall b: nat, j, v | Remains(f, dead, b, j) && 0 <= j < |f.instrs| && v in f.instrs[j].LookedUp()
        ensures LookupEnds(f, dead, v)
      {
        ReachableCodeSettles(f, dead, b, j, v);
      }
      RemainsInFunction(f, dead);
    }
  }

  // ----- examples -----

  /** The entry block returns; the other one is unreachable and only branches to itself. */
  function LoopFunction(branch: Instr): (f: Function)
  {
    Function([Return, branch], [Block([(0, 0)], [], []), Block([(1, 1)], branch.Targets(), branch.Targets())])
  }

  /** A branch to block 1 that depends on no instruction. */
  predicate IsSelfBranch(branch: Instr)
  {
    branch == Br(1) || (branch.CondBr? && branch.cond.Const? && branch.ifTrue == branch.ifFalse == 1)
  }

  lemma LoopShape(branch: Instr)
    ensures var f := LoopFunction(branch);
            && |f.instrs| == |f.blocks| == 2 && f.instrs[0] == Return && f.instrs[1] == branch
            && f.blocks[0].succ == f.blocks[0].pred == [] && f.blocks[1].succ == f.blocks[1].pred == branch.Targets()
            && |f.blocks[0].segments| == 1 && First(f, 0) == Last(f, 0) == 0
            && |f.blocks[1].segments| == 1 && First(f, 1) == Last(f, 1) == 1
  {
  }

  lemma SelfTargets(branch: Instr)
    requires IsSelfBranch(branch)
    ensures branch.IsTerminator() && 0 < |branch.Targets()| && branch.Targets()[0] == 1
    ensures forall x :: x in branch.Targets() ==> x == 1
  {
  }

  lemma LoopBlocks(branch: Instr)
    requires IsSelfBranch(branch)
    ensures BlocksOk(LoopFunction(branch)) && EntryOk(LoopFunction(branch))
  {
    hide LoopFunction;
    LoopShape(branch);
    SelfTargets(branch);
    hide IsSelfBranch;
  }

  lemma LoopMirror(branch: Instr)
    requires IsSelfBranch(branch)
    ensures Mirrored(LoopFunction(branch))
  {
    hide LoopFunction;
    LoopShape(branch);
    SelfTargets(branch);
    hide IsSelfBranch;
    assert 0 !in multiset(branch.Targets());
  }

  lemma LoopGraph(branch: Instr)
    requires IsSelfBranch(branch)
    ensures IsGraph(LoopFunction(branch)) && DeadBlocks.IsDeadSet(LoopFunction(branch), [false, false])
  {
    hide BlocksOk, EntryOk, LoopFunction;
    var f, dead := LoopFunction(branch), [false, false];
    LoopBlocks(branch);
    LoopMirror(branch);
    LoopShape(branch);
    SelfTargets(branch);
    hide IsSelfBranch;
    assert branch.Targets()[0] in f.blocks[1].pred;
    assert DeadBlocks.IsClosed(f, dead);
    assert DeadBlocks.Timed(f, dead, [0, 0], 1);
  }

  lemma LoopIsSsa(branch: Instr)
    requires IsSelfBranch(branch)
    ensures IsSsa(LoopFunction(branch))
  {
    hide Mirrored, EntryOk, DeadBlocks.IsDeadSet, LoopFunction, BlocksOk, NumPhis;
    var f := LoopFunction(branch);
    LoopGraph(branch);
    LoopShape(branch);
    LoopHolds(branch);
    forall x: nat, y: nat | x < |f.blocks| && y < |f.blocks| && f.blocks[x].succ == [y] ensures MembersMatch(f, x, y) {
    }
  }

  /** Block `b` consists of instruction `b`. */
  lemma LoopHolds(branch: Instr)
    requires IsSelfBranch(branch) && BlocksOk(LoopFunction(branch))
    ensures var f := LoopFunction(branch);
            && NumPhis(f, 0) == NumPhis(f, 1) == 0
            && forall b: nat, i :: Holds(f, b, i) ==> b == i && b < 2
  {
  }

  /** A function on which merging never ends normally. */
  method SelfLoop() returns (f: Function, r: Merge)
    ensures f == LoopFunction(Br(1)) && IsSsa(f) && r.Stuck? && r.block == 1 && r.how.NoFirst?
  {
    hide IsSsa, MergeOk, HasPureCycle, DeadBlocks.IsDeadSet;
    f := LoopFunction(Br(1));
    LoopGraph(Br(1));
    LoopIsSsa(Br(1));
    var dead := DeadBlocks.GetDeletedBlocks(f);
    DeadBlocks.DeadSetIsUnique(f, dead, [false, false]);
    DeadSetIsOk(f, dead);
    SelfLoopIsPure();
    ghost var chain;
    r, chain := MergeAll(f, dead);
    OwnSegment(f, dead, chain, r.work, r.block);
  }

  /** Block 1 is the only one that leads anywhere, and its branch is all it has. */
  lemma OwnSegment(f: Function, dead: seq<bool>, chain: seq<seq<nat>>, w: Work, i: nat)
    requires f == LoopFunction(Br(1)) && MergeOk(f, dead, chain, w) && IsOwnNeighbour(w, i) && i < |w.blocks|
    ensures i == 1 && IsBare(f.instrs, w.blocks[i].segments)
  {
    hide IsSsa, DeadOk, ValueMapOk, LiveLinks, CoversLive, BlocksOk, NumPhis, CountPhis, Mirrored, LoopFunction;
    LoopShape(Br(1));
    Sizes(f, dead, chain, w);
    MergeBlocks(f, dead, chain, w);
    NotDeleted(f, dead, chain, w, i);
    LiveSegments(f, dead, chain, w, i);
    hide MergeOk, AllSegments;
    TailSuccessors(f, dead, chain, w, i);
    AloneInChain(f, chain, i);
    SegmentIsAll(f, w.blocks[i].segments);
  }

  lemma TailSuccessors(f: Function, dead: seq<bool>, chain: seq<seq<nat>>, w: Work, i: nat)
    requires MergeOk(f, dead, chain, w) && IsLive(chain, i) && i < |w.succ|
    ensures Tail(chain[i]) < |f.blocks| && w.succ[i] == f.blocks[Tail(chain[i])].succ
  {
    hide IsSsa, DeadOk, ValueMapOk, LiveLinks, CoversLive, Partition, AllSegments;
  }

  lemma AloneInChain(f: Function, chain: seq<seq<nat>>, i: nat)
    requires |f.blocks| == 2 && Partition(f, chain) && IsLive(chain, i) && f.blocks[0].succ == []
    requires Tail(chain[i]) < 2 && f.blocks[Tail(chain[i])].succ == [i]
    ensures chain[i] == [1] && i == 1
  {
    var c := chain[i];
    assert IsChain(f, c) && c[0] == i;
    assert Tail(c) == 1;
    if |c| > 1 {
      assert Linked(f, c[1 - 1], c[1]);
      assert InChain(chain, i, |c| - 1, 1) && InChain(chain, i, 0, c[0]);
    }
  }

  lemma SegmentIsAll(f: Function, segs: seq<(int, int)>)
    requires BlocksOk(f) && |f.blocks| == 2 && First(f, 1) == Last(f, 1) == 1 && |f.instrs| == 2
    requires SegmentsOk(f, [1], segs)
    ensures IsBare(f.instrs, segs)
  {
    hide BlocksOk, NumPhis, CountPhis;
    assert ChainIndices(f, [1], 1) == [];
    assert PieceLo(f, [1], 0) == 1 && PieceHi(f, [1], 0) == 1;
    assert Range(1, 1) == [1] + Range(2, 1);
    assert Indices(segs) == [1];
    IndicesCount(f.instrs, segs);
  }

  lemma {:induction false} IndicesCount(instrs: seq<Instr>, segs: seq<(int, int)>)
    requires forall k :: 0 <= k < |segs| ==> SegmentOk(instrs, segs[k])
    ensures |Indices(segs)| >= |segs|
  {
    hide Range;
    if segs != [] {
      IndicesCount(instrs, segs[1..]);
      RangeElements(segs[0].0, segs[0].1);
    }
  }

  lemma SelfLoopIsPure()
    ensures HasPureCycle(LoopFunction(Br(1)), [false, false])
  {
    var f, dead := LoopFunction(Br(1)), [false, false];
    assert Live([1], dead) == Live([], dead) + [1];
    assert IsPureCycle(f, dead, [1]);
  }

  /** A cycle that is not merged: both sides of a condition lead back to it. */
  lemma TwoSidedLoop(cond: nat)
    ensures var f := LoopFunction(CondBr(Const(cond), 1, 1));
            IsSsa(f) && !DeadBlocks.NoUnreachableCycles(f) && CanSimplify(f)
  {
    hide IsSsa, DeadBlocks.IsDeadSet;
    var branch := CondBr(Const(cond), 1, 1);
    var f := LoopFunction(branch);
    LoopGraph(branch);
    LoopIsSsa(branch);
    assert Edge(f, 1, 1);
    if path :| PathTo(f, path, 1) { EntryOnly(f, path); }
    forall dead | DeadBlocks.IsDeadSet(f, dead) ensures !HasPureCycle(f, dead) && LookupsEnd(f, dead) {
      DeadBlocks.DeadSetIsUnique(f, dead, [false, false]);
      forall x: nat, y: nat ensures !LiveLinked(f, dead, x, y) {
        assert Live([1, 1], dead) == Live([1], dead) + [1] && Live([1], dead) == Live([], dead) + [1];
      }
      LoopHolds(branch);
      forall v ensures LookupEnds(f, dead, v) { NoTrail(f, dead, v); }
    }
  }

  lemma EntryOnly(f: Function, path: seq<nat>)
    requires 0 < |f.blocks| && f.blocks[0].succ == [] && IsPath(f, path)
    ensures path == [0]
  {
    if |path| > 1 {
      PathEdge(f, path, 1);
    }
  }

  lemma PathEdge(f: Function, path: seq<nat>, i: nat)
    requires IsPath(f, path) && 0 < i < |path|
    ensures Edge(f, path[i - 1], path[i])
  {
  }
}
