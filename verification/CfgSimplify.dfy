/**
 The control-flow simplifier: drops dead blocks, merges chains, renumbers what remains.
 */
module CfgSimplify {
  import opened Khir
  import opened Wrappers
  import opened Ssa
  import opened CfgSimulation
  import opened ChainMerge
  import opened MergeInvariant
  import opened CfgMerge
  import opened CfgRewrite
  import opened RemainingCode
  import opened LiveChains
  import opened CfgPreservation

  // ----- merging, then rewriting -----

  lemma SegmentsInFunction(f: Function, dead: seq<bool>, chain: seq<seq<nat>>, w: Work, b: nat)
    requires MergeOk(f, dead, chain, w) && b < |w.deleted| && !w.deleted[b]
    ensures b < |w.blocks| && |w.blocks[b].segments| > 0
    ensures forall k :: 0 <= k < |w.blocks[b].segments| ==> SegmentOk(f.instrs, w.blocks[b].segments[k])
  {
    hide IsSsa, DeadOk, Neighbours, ValueMapOk, Partition, ChainIndices, Indices, CountPhis, PieceLo, PieceHi;
    LiveSegments(f, dead, chain, w, b);
  }

  lemma MergePlan(f: Function, dead: seq<bool>, chain: seq<seq<nat>>, w: Work)
    requires MergeOk(f, dead, chain, w)
    ensures PlanOk(f, Listed(chain), w.vm)
  {
    hide IsSsa, DeadOk, Neighbours, ValueMapOk, Partition, AllSegments, PlanOk, LiveLinks, CoversLive;
    SsaParts(f);
    ListedPlan(f, dead, chain, w.vm);
  }

  lemma PlanParts(f: Function, chains: seq<seq<nat>>, vm: map<Value, Value>)
    requires PlanOk(f, chains, vm)
    ensures BlocksOk(f)
  {
  }

  /** The instructions and blocks after merging and rewriting. */
  datatype Edit = Edit(instrs: seq<Instr>, work: Work)

  /** Merges, then rewrites what remains.  There is no result exactly if one of these loops does not end
      normally. */
  method MergeBasicBlocks(f: Function, dead: seq<bool>) returns (r: Option<Edit>, ghost chain: seq<seq<nat>>)
    requires IsSsa(f) && DeadOk(f, dead)
    ensures r.Some? <==> !HasPureCycle(f, dead) && LookupsEnd(f, dead)
    ensures r.Some? ==> IsEdit(f, dead, chain, r.value)
  {
    hide IsSsa, DeadOk, MergeOk, PlanOk, BlocksOk, MergedUpTo, RewrittenIn, HasPureCycle, LookupsEnd, AllSettle;
    SsaBlocks(f);
    var merge;
    merge, chain := MergeAll(f, dead);
    if merge.Stuck? {
      return None, chain;
    }
    var w := merge.work;
    Sizes(f, dead, chain, w);
    MergePlan(f, dead, chain, w);
    forall b: nat | b < |w.blocks| && !w.deleted[b]
      ensures forall k :: 0 <= k < |w.blocks[b].segments| ==> SegmentOk(f.instrs, w.blocks[b].segments[k])
    {
      SegmentsInFunction(f, dead, chain, w, b);
    }
    LookupsEndExactly(f, dead, chain, w);
    var instrs := RewriteAll(f, w.vm, w.blocks, w.deleted);
    r := if instrs.Some? then Some(Edit(instrs.value, w)) else None;
  }

  ghost predicate IsEdit(f: Function, dead: seq<bool>, chain: seq<seq<nat>>, e: Edit)
  {
    var w := e.work;
    && MergeOk(f, dead, chain, w) && MergedUpTo(w, |f.blocks|) && PlanOk(f, Listed(chain), w.vm)
    && |w.blocks| == |w.deleted| && RewrittenIn(f, w.vm, AllIndices(w.blocks, w.deleted, |w.blocks|), e.instrs)
  }

  // ----- output -----

  /** The new indices of the remaining blocks. */
  method NumberBlocks(deleted: seq<bool>, ghost chain: seq<seq<nat>>) returns (idx: map<nat, nat>)
    requires |deleted| == |chain| && forall i: nat :: i < |chain| ==> (deleted[i] <==> !IsLive(chain, i))
    ensures NumbersLive(chain, idx)
  {
    hide Listed;
    idx := map[];
    var next := 0;
    FirstIndex(chain);
    for i := 0 to |deleted|
      invariant next == NewIdx(chain, i)
      invariant forall k: nat :: k in idx ==> IsLive(chain, k) && idx[k] == NewIdx(chain, k)
      invariant forall k: nat :: k < i && IsLive(chain, k) ==> k in idx
    {
      NewIdxStep(chain, i);
      if deleted[i] {
        continue;
      }
      idx := idx[i := next];
      next := next + 1;
    }
  }

  ghost predicate NumbersLive(chain: seq<seq<nat>>, idx: map<nat, nat>)
  {
    && (forall k: nat :: IsLive(chain, k) ==> k in idx)
    && (forall k: nat :: k in idx ==> IsLive(chain, k) && idx[k] == NewIdx(chain, k))
  }

  function Renamed(idx: map<nat, nat>, list: seq<nat>): (r: seq<nat>)
    requires forall x :: x in list ==> x in idx
    ensures |r| == |list| && forall k :: 0 <= k < |list| ==> list[k] in idx && r[k] == idx[list[k]]
  {
    seq(|list|, k requires 0 <= k < |list| => assert list[k] in list; idx[list[k]])
  }

  method RenameList(list: seq<nat>, deleted: seq<bool>, idx: map<nat, nat>) returns (r: seq<nat>)
    requires forall x :: x in list ==> x < |deleted| && (!deleted[x] ==> x in idx)
    ensures forall x :: x in Live(list, deleted) ==> x in idx
    ensures r == Renamed(idx, Live(list, deleted))
  {
    r := [];
    ghost var kept: seq<nat> := [];
    for k := 0 to |list|
      invariant kept == Live(list[..k], deleted) && |r| == |kept|
      invariant forall q :: 0 <= q < |kept| ==> kept[q] in idx && r[q] == idx[kept[q]]
    {
      assert list[k] in list;
      assert list[..k + 1][..k] == list[..k];
      if deleted[list[k]] {
        continue;
      }
      kept := kept + [list[k]];
      r := r + [idx[list[k]]];
    }
    assert list[..|list|] == list;
  }

  datatype Branch = NotTerminated | Branch(instr: Instr)

  function RenumberBy(idx: map<nat, nat>, instr: Instr): (r: Instr)
    requires forall t :: t in instr.Targets() ==> t in idx
  {
    match instr
    case Br(t) =>
      assert t in instr.Targets();
      Br(idx[t])
    case CondBr(c, t, e) =>
      assert t in instr.Targets() && e in instr.Targets();
      CondBr(c, idx[t], idx[e])
    case _ => instr
  }

  /** Renumbers the targets of the instruction that ends a block. */
  method RewriteBranch(instr: Instr, idx: map<nat, nat>) returns (r: Branch)
    requires forall t :: t in instr.Targets() ==> t in idx
    ensures r.Branch? <==> instr.IsTerminator()
    ensures r.Branch? ==> r.instr == RenumberBy(idx, instr)
  {
    match instr
    case Br(t) =>
      assert t in instr.Targets();
      r := Branch(Br(idx[t]));
    case CondBr(c, t, e) =>
      assert t in instr.Targets() && e in instr.Targets();
      r := Branch(CondBr(c, idx[t], idx[e]));
    case Return => r := Branch(instr);
    case ReturnValue(_) => r := Branch(instr);
    case _ => r := NotTerminated;
  }

  /** Instruction `j` ends one of the first `n` chains. */
  ghost predicate EndsChain(f: Function, chain: seq<seq<nat>>, n: nat, j: int)
    requires BlocksOk(f)
  {
    exists k: nat :: k < n && IsLive(chain, k) && EndOf(f, chain, k) == j
  }

  ghost function EndOf(f: Function, chain: seq<seq<nat>>, k: nat): (j: int)
    requires BlocksOk(f) && IsLive(chain, k)
  {
    if Tail(chain[k]) < |f.blocks| then Last(f, Tail(chain[k])) else -1
  }

  lemma EndOfLive(f: Function, dead: seq<bool>, chain: seq<seq<nat>>, w: Work, k: nat)
    requires MergeOk(f, dead, chain, w) && IsLive(chain, k)
    ensures Tail(chain[k]) < |f.blocks| && k < |w.blocks| && k < |w.succ| && |w.blocks[k].segments| > 0
    ensures EndOf(f, chain, k) == w.blocks[k].segments[|w.blocks[k].segments| - 1].1 == Last(f, Tail(chain[k]))
    ensures 0 <= EndOf(f, chain, k) < |f.instrs| && f.instrs[EndOf(f, chain, k)].IsTerminator()
    ensures w.succ[k] == f.instrs[EndOf(f, chain, k)].Targets()
  {
    hide PhisLead, CalleesOk, UsesDominated, MembersTargetSuccessors, MembersMatch, EntryOk, DeadOk, ValueMapOk;
    hide Partition, ChainIndices, Indices, CountPhis, PieceHi, AllSegments, AllInLive, PredecessorCounts, MirroredLists;
    hide Mirrored;
    LiveSegments(f, dead, chain, w, k);
    Sizes(f, dead, chain, w);
  }

  lemma EndsDiffer(f: Function, dead: seq<bool>, chain: seq<seq<nat>>, w: Work, k: nat, k': nat)
    requires MergeOk(f, dead, chain, w) && IsLive(chain, k) && IsLive(chain, k') &&
             EndOf(f, chain, k) == EndOf(f, chain, k')
    ensures k == k'
  {
    hide PhisLead, CalleesOk, UsesDominated, MembersTargetSuccessors, MembersMatch, EntryOk, DeadOk, ValueMapOk;
    hide AllSegments, Neighbours, Mirrored, IsChain;
    EndOfLive(f, dead, chain, w, k);
    EndOfLive(f, dead, chain, w, k');
    HoldsOnce(f, Tail(chain[k]), Tail(chain[k']), EndOf(f, chain, k));
    assert InChain(chain, k, |chain[k]| - 1, Tail(chain[k])) && InChain(chain, k', |chain[k']| - 1, Tail(chain[k']));
  }

  /** The neighbours of a remaining block remain. */
  lemma NeighboursLive(f: Function, dead: seq<bool>, chain: seq<seq<nat>>, w: Work, i: nat)
    requires MergeOk(f, dead, chain, w) && IsLive(chain, i)
    ensures i < |w.succ| && i < |w.pred|
    ensures forall x :: x in w.succ[i] ==> x < |w.deleted| && !w.deleted[x] && IsLive(chain, x)
    ensures forall x :: x in w.pred[i] ==> x < |w.deleted| && !w.deleted[x] && IsLive(chain, x)
  {
    hide IsSsa, DeadOk, ValueMapOk, Partition, AllSegments, SuccessorsOfTail, PredecessorCounts, MirroredLists;
    Sizes(f, dead, chain, w);
    forall x | x in w.pred[i] ensures IsLive(chain, x) {
    }
    forall x | x in w.succ[i] ensures IsLive(chain, x) {
    }
  }

  /** A remaining block with its neighbours renamed. */
  ghost predicate IsOutput(w: Work, idx: map<nat, nat>, k: nat, block: Block)
  {
    && k < |w.blocks| && k < |w.succ| && k < |w.pred| && block.segments == w.blocks[k].segments
    && (forall x :: x in w.succ[k] ==> x in idx) && block.succ == Renamed(idx, w.succ[k])
    && (forall x :: x in w.pred[k] ==> x in idx) && block.pred == Renamed(idx, w.pred[k])
  }

  lemma NeighboursNumbered(f: Function, dead: seq<bool>, chain: seq<seq<nat>>, w: Work, idx: map<nat, nat>, i: nat)
    requires MergeOk(f, dead, chain, w) && IsLive(chain, i) && NumbersLive(chain, idx)
    ensures i < |w.succ| && i < |w.pred|
    ensures forall x :: x in w.succ[i] ==> x < |w.deleted| && x in idx
    ensures forall x :: x in w.pred[i] ==> x < |w.deleted| && x in idx
    ensures Live(w.succ[i], w.deleted) == w.succ[i] && Live(w.pred[i], w.deleted) == w.pred[i]
  {
    hide MergeOk;
    NeighboursLive(f, dead, chain, w, i);
    AllLive(w.succ[i], w.deleted);
    AllLive(w.pred[i], w.deleted);
  }

  method RewriteBlock(ghost f: Function, ghost dead: seq<bool>, ghost chain: seq<seq<nat>>, w: Work,
                      idx: map<nat, nat>, i: nat, instr: Instr)
    returns (block: Block, branch: Branch)
    requires MergeOk(f, dead, chain, w) && NumbersLive(chain, idx) && IsLive(chain, i)
    requires forall t :: t in instr.Targets() ==> t in idx
    ensures IsOutput(w, idx, i, block)
    ensures branch.Branch? <==> instr.IsTerminator()
    ensures branch.Branch? ==> branch.instr == RenumberBy(idx, instr)
  {
    hide MergeOk, RenumberBy, NumbersLive, IsLive;
    NeighboursNumbered(f, dead, chain, w, idx, i);
    Sizes(f, dead, chain, w);
    var pred := RenameList(w.pred[i], w.deleted, idx);
    var succ := RenameList(w.succ[i], w.deleted, idx);
    block := Block(w.blocks[i].segments, succ, pred);
    branch := RewriteBranch(instr, idx);
  }

  ghost predicate TargetsIn(idx: map<nat, nat>, instr: Instr)
  {
    forall t :: t in instr.Targets() ==> t in idx
  }

  /** The branches of the first `n` chains have been renumbered. */
  ghost predicate Renumbered(f: Function, chain: seq<seq<nat>>, idx: map<nat, nat>, n: nat, instrs0: seq<Instr>,
                             instrs: seq<Instr>)
    requires BlocksOk(f)
  {
    && |instrs| == |instrs0|
    && forall j :: 0 <= j < |instrs| ==>
                     if EndsChain(f, chain, n, j) then TargetsIn(idx, instrs0[j]) &&
                       instrs[j] == RenumberBy(idx, instrs0[j])
                     else instrs[j] == instrs0[j]
  }

  /** The output lists the first `n` remaining blocks. */
  ghost predicate Outputs(chain: seq<seq<nat>>, w: Work, idx: map<nat, nat>, n: nat, output: seq<Block>)
    requires n <= |chain|
  {
    && |output| == NewIdx(chain, n)
    && forall k: nat :: k < n && IsLive(chain, k) ==>
        NewIdx(chain, k) < |output| && IsOutput(w, idx, k, output[NewIdx(chain, k)])
  }

  lemma OutputsNext(chain: seq<seq<nat>>, w: Work, idx: map<nat, nat>, n: nat, output: seq<Block>, block: Block)
    requires n < |chain| && Outputs(chain, w, idx, n, output) && IsLive(chain, n) && IsOutput(w, idx, n, block)
    ensures Outputs(chain, w, idx, n + 1, output + [block])
  {
    hide Listed, IsOutput;
    NewIdxStep(chain, n);
    forall k: nat | k < n && IsLive(chain, k) ensures (output + [block])[NewIdx(chain, k)] == output[NewIdx(chain, k)] {
    }
  }

  lemma OutputsSkip(chain: seq<seq<nat>>, w: Work, idx: map<nat, nat>, n: nat, output: seq<Block>)
    requires n < |chain| && Outputs(chain, w, idx, n, output) && !IsLive(chain, n)
    ensures Outputs(chain, w, idx, n + 1, output)
  {
    hide Listed, IsOutput;
    NewIdxStep(chain, n);
  }

  lemma RenumberedNext(f: Function, chain: seq<seq<nat>>, idx: map<nat, nat>, n: nat, instrs0: seq<Instr>,
                       instrs: seq<Instr>, end: int, instr: Instr)
    requires BlocksOk(f) && Renumbered(f, chain, idx, n, instrs0, instrs) && IsLive(chain, n) &&
             end == EndOf(f, chain, n) && 0 <= end < |instrs|
    requires TargetsIn(idx, instrs0[end]) && instr == RenumberBy(idx, instrs0[end])
    ensures Renumbered(f, chain, idx, n + 1, instrs0, instrs[end := instr])
  {
    hide BlocksOk, EndOf, RenumberBy, TargetsIn;
    forall j | 0 <= j < |instrs| ensures EndsChain(f, chain, n + 1, j) <==> EndsChain(f, chain, n, j) || j == end {
      if EndsChain(f, chain, n + 1, j) {
        var k: nat :| k < n + 1 && IsLive(chain, k) && EndOf(f, chain, k) == j;
        assert k < n ==> EndsChain(f, chain, n, j);
      }
      if EndsChain(f, chain, n, j) {
        var k: nat :| k < n && IsLive(chain, k) && EndOf(f, chain, k) == j;
      }
    }
  }

  lemma RenumberedSkip(f: Function, chain: seq<seq<nat>>, idx: map<nat, nat>, n: nat, instrs0: seq<Instr>,
                       instrs: seq<Instr>)
    requires BlocksOk(f) && Renumbered(f, chain, idx, n, instrs0, instrs) && !IsLive(chain, n)
    ensures Renumbered(f, chain, idx, n + 1, instrs0, instrs)
  {
    hide BlocksOk, EndOf, RenumberBy, TargetsIn;
    forall j | 0 <= j < |instrs| ensures EndsChain(f, chain, n + 1, j) <==> EndsChain(f, chain, n, j) {
      if EndsChain(f, chain, n, j) {
        var k: nat :| k < n && IsLive(chain, k) && EndOf(f, chain, k) == j;
      }
    }
  }

  /** Rewriting operands keeps the terminators and their targets. */
  lemma RewrittenEnd(f: Function, dead: seq<bool>, chain: seq<seq<nat>>, w: Work, idx: map<nat, nat>,
                     instrs: seq<Instr>, done: seq<int>, k: nat)
    requires MergeOk(f, dead, chain, w) && IsLive(chain, k) && NumbersLive(chain, idx)
    requires BlocksOk(f) && RewrittenIn(f, w.vm, done, instrs)
    ensures 0 <= EndOf(f, chain, k) < |instrs| && instrs[EndOf(f, chain, k)].IsTerminator() &&
            TargetsIn(idx, instrs[EndOf(f, chain, k)])
  {
    hide MergeOk, BlocksOk, EndOf;
    EndOfLive(f, dead, chain, w, k);
    NeighboursNumbered(f, dead, chain, w, idx, k);
  }

  lemma NotYetRenumbered(f: Function, dead: seq<bool>, chain: seq<seq<nat>>, w: Work, i: nat)
    requires MergeOk(f, dead, chain, w) && BlocksOk(f) && IsLive(chain, i)
    ensures !EndsChain(f, chain, i, EndOf(f, chain, i))
  {
    hide MergeOk, BlocksOk, EndOf;
    if EndsChain(f, chain, i, EndOf(f, chain, i)) {
      var k: nat :| k < i && IsLive(chain, k) && EndOf(f, chain, k) == EndOf(f, chain, i);
      EndsDiffer(f, dead, chain, w, k, i);
    }
  }

  lemma DeletedIsDead(f: Function, dead: seq<bool>, chain: seq<seq<nat>>, w: Work)
    requires MergeOk(f, dead, chain, w)
    ensures |w.deleted| == |chain| && forall i: nat :: i < |chain| ==> (w.deleted[i] <==> !IsLive(chain, i))
  {
    hide IsSsa, DeadOk, Neighbours, ValueMapOk, Partition, AllSegments;
  }

  method OutputBlocks(f: Function, ghost dead: seq<bool>, ghost chain: seq<seq<nat>>, w: Work, instrs0: seq<Instr>,
                      ghost done: seq<int>, idx: map<nat, nat>)
    returns (output: seq<Block>, instrs: seq<Instr>)
    requires MergeOk(f, dead, chain, w) && BlocksOk(f) && RewrittenIn(f, w.vm, done, instrs0) &&
             NumbersLive(chain, idx)
    ensures |chain| == |f.blocks| && Outputs(chain, w, idx, |chain|, output) &&
            Renumbered(f, chain, idx, |chain|, instrs0, instrs)
  {
    hide MergeOk, BlocksOk, RewrittenIn, NumbersLive, EndOf, IsOutput, Listed, RenumberBy, Outputs;
    hide Renumbered;
    output, instrs := [], instrs0;
    Sizes(f, dead, chain, w);
    DeletedIsDead(f, dead, chain, w);
    StartOutput(f, chain, w, idx, instrs0);
    for i := 0 to |f.blocks|
      invariant Outputs(chain, w, idx, i, output) && Renumbered(f, chain, idx, i, instrs0, instrs)
    {
      if w.deleted[i] {
        OutputsSkip(chain, w, idx, i, output);
        RenumberedSkip(f, chain, idx, i, instrs0, instrs);
        continue;
      }
      EndOfLive(f, dead, chain, w, i);
      RewrittenEnd(f, dead, chain, w, idx, instrs0, done, i);
      NotYetRenumbered(f, dead, chain, w, i);
      var segs := w.blocks[i].segments;
      var end := segs[|segs| - 1].1;
      SameUntilNow(f, chain, idx, i, instrs0, instrs, end);
      var block, branch := RewriteBlock(f, dead, chain, w, idx, i, instrs[end]);
      assert branch.Branch?;  // the "BB not terminated" error is never raised
      OutputsNext(chain, w, idx, i, output, block);
      RenumberedNext(f, chain, idx, i, instrs0, instrs, end, branch.instr);
      output, instrs := output + [block], instrs[end := branch.instr];
    }
  }

  lemma StartOutput(f: Function, chain: seq<seq<nat>>, w: Work, idx: map<nat, nat>, instrs0: seq<Instr>)
    requires BlocksOk(f)
    ensures Outputs(chain, w, idx, 0, []) && Renumbered(f, chain, idx, 0, instrs0, instrs0)
  {
    FirstIndex(chain);
  }

  lemma SameUntilNow(f: Function, chain: seq<seq<nat>>, idx: map<nat, nat>, n: nat, instrs0: seq<Instr>,
                     instrs: seq<Instr>, j: int)
    requires BlocksOk(f) && Renumbered(f, chain, idx, n, instrs0, instrs) && 0 <= j < |instrs0| &&
             !EndsChain(f, chain, n, j)
    ensures |instrs| == |instrs0| && instrs[j] == instrs0[j]
  {
    hide BlocksOk, EndOf, RenumberBy;
  }

  // ----- the result -----

  /** Everything the output phase has established. */
  ghost predicate Done(f: Function, dead: seq<bool>, chain: seq<seq<nat>>, w: Work, idx: map<nat, nat>,
                       instrs0: seq<Instr>, g: Function)
  {
    && MergeOk(f, dead, chain, w) && PlanOk(f, Listed(chain), w.vm) && NumbersLive(chain, idx)
    && |chain| == |f.blocks| == |w.blocks| == |w.deleted| &&
        RewrittenIn(f, w.vm, AllIndices(w.blocks, w.deleted, |w.blocks|), instrs0)
    && Outputs(chain, w, idx, |chain|, g.blocks) && Renumbered(f, chain, idx, |chain|, instrs0, g.instrs)
  }

  lemma OutputSize(f: Function, dead: seq<bool>, chain: seq<seq<nat>>, w: Work, idx: map<nat, nat>,
                   instrs0: seq<Instr>, g: Function)
    requires Done(f, dead, chain, w, idx, instrs0, g)
    ensures |g.blocks| == |Listed(chain)| && |g.instrs| == |f.instrs|
  {
    hide MergeOk, PlanOk, NumbersLive, IsOutput, Rewrite, AllIndices, RenumberBy, EndsChain;
    PlanParts(f, Listed(chain), w.vm);
    assert chain[..|chain|] == chain;
  }

  lemma OutputAt(f: Function, dead: seq<bool>, chain: seq<seq<nat>>, w: Work, idx: map<nat, nat>, instrs0: seq<Instr>,
                 g: Function, c: nat)
    returns (i: nat)
    requires Done(f, dead, chain, w, idx, instrs0, g) && c < |Listed(chain)|
    ensures IsLive(chain, i) && NewIdx(chain, i) == c && Listed(chain)[c] == chain[i] && c < |g.blocks| &&
            IsOutput(w, idx, i, g.blocks[c])
  {
    hide MergeOk, PlanOk, NumbersLive, IsOutput, RewrittenIn, AllIndices, Renumbered, Listed;
    i := ListedFrom(chain, c);
    PlanParts(f, Listed(chain), w.vm);
  }

  lemma OutputIndices(f: Function, dead: seq<bool>, chain: seq<seq<nat>>, w: Work, idx: map<nat, nat>,
                      instrs0: seq<Instr>, g: Function, c: nat)
    requires Done(f, dead, chain, w, idx, instrs0, g) && BlocksOk(f) && c < |Listed(chain)|
    ensures c < |g.blocks| && InFunction(f, Listed(chain)[c]) &&
            Indices(g.blocks[c].segments) == ChainIndices(f, Listed(chain)[c], 0)
  {
    hide MergeOk, PlanOk, NumbersLive, RewrittenIn, AllIndices, Renumbered, Listed, Outputs, Renamed, WellSegmented;
    hide PieceLo, PieceHi, Indices, ChainIndices;
    var i := OutputAt(f, dead, chain, w, idx, instrs0, g, c);
    LiveSegments(f, dead, chain, w, i);
  }

  lemma RenumberAgrees(f: Function, chain: seq<seq<nat>>, idx: map<nat, nat>, instr: Instr)
    requires Partition(f, chain) && 0 < |f.blocks| && NumbersLive(chain, idx) && TargetsIn(idx, instr)
    ensures forall t :: t in instr.Targets() ==> IsHead(Listed(chain), t)
    ensures RenumberBy(idx, instr) == Renumber(Listed(chain), instr)
  {
    hide Partition, Listed;
    forall t | t in instr.Targets() ensures IsHead(Listed(chain), t) && NewIndex(Listed(chain), t) == idx[t] {
      NewIndexIs(f, chain, t);
    }
    assert instr.Br? ==> instr.target in instr.Targets();
    assert instr.CondBr? ==> instr.ifTrue in instr.Targets() && instr.ifFalse in instr.Targets();
  }

  /** Only the last instruction of a chain is a terminator. */
  lemma OnlyEndTerminates(f: Function, chains: seq<seq<nat>>, vm: map<Value, Value>, c: nat, p: nat, j: int)
    requires PlanOk(f, chains, vm) && c < |chains| && Kept(f, chains[c], p, j)
    ensures 0 <= j < |f.instrs| && p < |chains[c]| && Holds(f, chains[c][p], j)
    ensures f.instrs[j].IsTerminator() ==> p == |chains[c]| - 1 && j == Last(f, chains[c][p])
  {
    hide PhisLead, CalleesOk, Mirrored, EntryOk, UsesDominated, MembersMatch, MembersTargetSuccessors, ValueMapOk;
    hide ChainsOk;
    PieceBounds(f, chains, c, p);
  }

  lemma KeptIsRewritten(f: Function, dead: seq<bool>, chain: seq<seq<nat>>, w: Work, idx: map<nat, nat>,
                        instrs0: seq<Instr>, g: Function, i: nat, p: nat, j: int)
    requires Done(f, dead, chain, w, idx, instrs0, g) && BlocksOk(f) && IsLive(chain, i) &&
             Kept(f, chain[i], p, j) && 0 <= j < |f.instrs|
    ensures |instrs0| == |f.instrs| && instrs0[j] == Rewrite(w.vm, f.instrs[j])
  {
    hide MergeOk, PlanOk, NumbersLive, Renumbered, Listed, Outputs, WellSegmented, PieceLo, PieceHi, Indices;
    hide ChainIndices, Rewrite, AllIndices, BlocksOk;
    DeletedIsDead(f, dead, chain, w);
    LiveSegments(f, dead, chain, w, i);
    KeptInIndices(f, chain[i], 0, p, j);
    InAllIndices(w.blocks, w.deleted, |w.blocks|, i, j);
  }

  lemma MergeParts(f: Function, dead: seq<bool>, chain: seq<seq<nat>>, w: Work)
    requires MergeOk(f, dead, chain, w)
    ensures Partition(f, chain) && 0 < |f.blocks|
  {
    hide BlocksOk, PhisLead, CalleesOk, Mirrored, UsesDominated, MembersMatch, MembersTargetSuccessors, DeadOk;
    hide Neighbours, ValueMapOk, Partition, AllSegments;
  }

  lemma OutputRewritten(f: Function, dead: seq<bool>, chain: seq<seq<nat>>, w: Work, idx: map<nat, nat>,
                        instrs0: seq<Instr>, g: Function, c: nat, p: nat, j: int)
    requires Done(f, dead, chain, w, idx, instrs0, g) && BlocksOk(f) && c < |Listed(chain)| &&
             Kept(f, Listed(chain)[c], p, j)
    ensures RewrittenAt(f, Listed(chain), w.vm, g, j)
  {
    hide MergeOk, PlanOk, NumbersLive, RewrittenIn, Listed, Outputs, Rewrite, Renumber, RenumberBy, AllIndices;
    hide BlocksOk, Kept, EndOf, IsOutput, IsHead;
    OutputSize(f, dead, chain, w, idx, instrs0, g);
    MergeParts(f, dead, chain, w);
    var i := OutputAt(f, dead, chain, w, idx, instrs0, g, c);
    OnlyEndTerminates(f, Listed(chain), w.vm, c, p, j);
    KeptIsRewritten(f, dead, chain, w, idx, instrs0, g, i, p, j);
    SameTargets(w.vm, f.instrs[j]);
    EndOfLive(f, dead, chain, w, i);
    if f.instrs[j].IsTerminator() {
      assert EndsChain(f, chain, |chain|, j);
      RenumberAgrees(f, chain, idx, instrs0[j]);
    } else {
      NotAnEnd(f, dead, chain, w, j);
      NoTargets(Listed(chain), f.instrs[j], instrs0[j]);
    }
  }

  lemma SameTargets(vm: map<Value, Value>, instr: Instr)
    ensures Rewrite(vm, instr).Targets() == instr.Targets()
    ensures Rewrite(vm, instr).IsTerminator() == instr.IsTerminator()
  {
  }

  lemma NoTargets(chains: seq<seq<nat>>, instr: Instr, instr': Instr)
    requires !instr.IsTerminator() && !instr'.IsTerminator()
    ensures instr.Targets() == [] == instr'.Targets() && Renumber(chains, instr') == instr'
  {
  }

  lemma NotAnEnd(f: Function, dead: seq<bool>, chain: seq<seq<nat>>, w: Work, j: int)
    requires MergeOk(f, dead, chain, w) && BlocksOk(f) && 0 <= j < |f.instrs| && !f.instrs[j].IsTerminator()
    ensures !EndsChain(f, chain, |chain|, j)
  {
    hide MergeOk, BlocksOk, EndOf;
    forall k: nat | IsLive(chain, k) ensures EndOf(f, chain, k) != j {
      EndOfLive(f, dead, chain, w, k);
    }
  }

  /** The output is the simplified function. */
  lemma OutputImplements(f: Function, dead: seq<bool>, chain: seq<seq<nat>>, w: Work, idx: map<nat, nat>,
                         instrs0: seq<Instr>, g: Function)
    requires Done(f, dead, chain, w, idx, instrs0, g) && BlocksOk(f)
    ensures Implements(f, Listed(chain), w.vm, g)
  {
    hide Done, Listed, BlocksOk, Kept, RewrittenAt, Indices, ChainIndices, InFunction;
    OutputSize(f, dead, chain, w, idx, instrs0, g);
    forall c: nat | c < |Listed(chain)|
      ensures InFunction(f, Listed(chain)[c]) && Indices(g.blocks[c].segments) == ChainIndices(f, Listed(chain)[c], 0)
    {
      OutputIndices(f, dead, chain, w, idx, instrs0, g, c);
    }
    forall c: nat, p: nat, j | c < |Listed(chain)| && Kept(f, Listed(chain)[c], p, j)
      ensures RewrittenAt(f, Listed(chain), w.vm, g, j)
    {
      OutputRewritten(f, dead, chain, w, idx, instrs0, g, c, p, j);
    }
  }
}
