/**
 The graph of the simplified function: well formed, and with nothing left to merge.
 */
module SimplifiedGraph {
  import opened Wrappers
  import opened Khir
  import opened KhirSemantics
  import opened Ssa
  import opened CfgSimulation
  import opened CfgPreservation
  import opened MergeInvariant
  import opened CfgMerge
  import opened CfgRewrite
  import opened RemainingCode
  import opened LiveChains
  import opened CfgSimplify
  import opened EndlessMerging
  import DeadBlocks

  lemma {:induction false} RenamedCounts(chain: seq<seq<nat>>, idx: map<nat, nat>, list: seq<nat>, x: nat)
    requires NumbersLive(chain, idx) && (forall y :: y in list ==> y in idx) && x in idx
    ensures multiset(Renamed(idx, list))[idx[x]] == multiset(list)[x]
  {
    hide Listed, NewIdx;
    if list != [] {
      var s, y := list[..|list| - 1], list[|list| - 1];
      assert list == s + [y];
      assert y in list;
      RenamedCounts(chain, idx, s, x);
      assert Renamed(idx, list) == Renamed(idx, s) + [idx[y]];
      if idx[x] == idx[y] { NewIdxInjective(chain, x, y); }
    }
  }

  lemma MirrorOf(f: Function, dead: seq<bool>, chain: seq<seq<nat>>, w: Work, i: nat, x: nat)
    requires MergeOk(f, dead, chain, w) && IsLive(chain, i) && IsLive(chain, x)
    ensures i < |w.succ| && x < |w.pred| && multiset(w.pred[x])[i] == multiset(w.succ[i])[x]
  {
    hide IsSsa, DeadOk, ValueMapOk, Partition, AllSegments, SuccessorsOfTail, PredecessorCounts, AllInLive;
    Sizes(f, dead, chain, w);
  }

  lemma OutputMirror(f: Function, dead: seq<bool>, chain: seq<seq<nat>>, w: Work, idx: map<nat, nat>,
                     instrs0: seq<Instr>, g: Function, a: nat, b: nat)
    requires Done(f, dead, chain, w, idx, instrs0, g) && a < |g.blocks| && b < |g.blocks|
    ensures multiset(g.blocks[a].succ)[b] == multiset(g.blocks[b].pred)[a]
  {
    hide MergeOk, PlanOk, RewrittenIn, Listed, Outputs, Renumbered, AllIndices, NewIdx, Renamed;
    OutputSize(f, dead, chain, w, idx, instrs0, g);
    var i := OutputAt(f, dead, chain, w, idx, instrs0, g, a);
    var x := OutputAt(f, dead, chain, w, idx, instrs0, g, b);
    MirrorOf(f, dead, chain, w, i, x);
    RenamedCounts(chain, idx, w.succ[i], x);
    RenamedCounts(chain, idx, w.pred[x], i);
  }

  /** Renamed neighbours are blocks of the output. */
  lemma RenamedInRange(chain: seq<seq<nat>>, idx: map<nat, nat>, list: seq<nat>, t: nat)
    requires NumbersLive(chain, idx) && (forall y :: y in list ==> y in idx) && t in Renamed(idx, list)
    ensures t < |Listed(chain)|
  {
    hide Listed, NewIdx;
    var k :| 0 <= k < |list| && Renamed(idx, list)[k] == t;
    ListedAt(chain, list[k]);
  }

  lemma OutputMirrored(f: Function, dead: seq<bool>, chain: seq<seq<nat>>, w: Work, idx: map<nat, nat>,
                       instrs0: seq<Instr>, g: Function)
    requires Done(f, dead, chain, w, idx, instrs0, g)
    ensures Mirrored(g)
  {
    hide MergeOk, PlanOk, RewrittenIn, Listed, Outputs, Renumbered, AllIndices, Renamed, NumbersLive;
    OutputSize(f, dead, chain, w, idx, instrs0, g);
    forall b: nat, t | b < |g.blocks| && t in g.blocks[b].succ ensures t < |g.blocks| {
      var i := OutputAt(f, dead, chain, w, idx, instrs0, g, b);
      RenamedInRange(chain, idx, w.succ[i], t);
    }
    forall b: nat, t | b < |g.blocks| && t in g.blocks[b].pred ensures t < |g.blocks| {
      var i := OutputAt(f, dead, chain, w, idx, instrs0, g, b);
      RenamedInRange(chain, idx, w.pred[i], t);
    }
    forall a: nat, b: nat | a < |g.blocks| && b < |g.blocks|
      ensures multiset(g.blocks[a].succ)[b] == multiset(g.blocks[b].pred)[a]
    {
      OutputMirror(f, dead, chain, w, idx, instrs0, g, a, b);
    }
  }

  lemma EntryHasNoPredecessor(f: Function, dead: seq<bool>, chain: seq<seq<nat>>, w: Work)
    requires MergeOk(f, dead, chain, w)
    ensures IsLive(chain, 0) && 0 < |w.pred| && w.pred[0] == []
  {
    hide BlocksOk, PhisLead, CalleesOk, UsesDominated, MembersMatch, MembersTargetSuccessors, DeadOk, ValueMapOk;
    hide Partition, AllSegments, AllInLive, SuccessorsOfTail, MirroredLists;
    MergeParts(f, dead, chain, w);
    EntryIsHead(f, chain);
    assert Live(f.blocks[0].pred, dead) == [];
  }

  lemma OutputEntry(f: Function, dead: seq<bool>, chain: seq<seq<nat>>, w: Work, idx: map<nat, nat>,
                    instrs0: seq<Instr>, g: Function)
    requires Done(f, dead, chain, w, idx, instrs0, g)
    ensures EntryOk(g)
  {
    hide MergeOk, PlanOk, RewrittenIn, Listed, Renumbered, AllIndices, Renamed, NumbersLive;
    EntryHasNoPredecessor(f, dead, chain, w);
    FirstIndex(chain);
    PlanParts(f, Listed(chain), w.vm);
    assert IsOutput(w, idx, 0, g.blocks[NewIdx(chain, 0)]);
  }

  /** The block ends in a terminator whose targets are its successors. */
  ghost predicate EndsInBranch(g: Function, b: nat)
    requires b < |g.blocks|
  {
    var segs := g.blocks[b].segments;
    && 0 < |segs| && 0 <= segs[|segs| - 1].1 < |g.instrs|
    && g.instrs[segs[|segs| - 1].1].IsTerminator() && g.blocks[b].succ == g.instrs[segs[|segs| - 1].1].Targets()
  }

  lemma RenumberedBranch(idx: map<nat, nat>, instr: Instr, list: seq<nat>)
    requires instr.IsTerminator() && TargetsIn(idx, instr) && list == instr.Targets()
    ensures RenumberBy(idx, instr).IsTerminator() && RenumberBy(idx, instr).Targets() == Renamed(idx, list)
  {
    assert instr.Br? ==> list == [instr.target];
    assert instr.CondBr? ==> list == [instr.ifTrue, instr.ifFalse];
  }

  lemma OutputEnd(f: Function, dead: seq<bool>, chain: seq<seq<nat>>, w: Work, idx: map<nat, nat>,
                  instrs0: seq<Instr>, g: Function, b: nat)
    requires Done(f, dead, chain, w, idx, instrs0, g) && b < |g.blocks|
    ensures EndsInBranch(g, b)
  {
    hide MergeOk, PlanOk, Listed, Outputs, AllIndices, NewIdx, NumbersLive, Rewrite, RenumberBy, EndOf, BlocksOk;
    OutputSize(f, dead, chain, w, idx, instrs0, g);
    PlanParts(f, Listed(chain), w.vm);
    var i := OutputAt(f, dead, chain, w, idx, instrs0, g, b);
    EndOfLive(f, dead, chain, w, i);
    var j := EndOf(f, chain, i);
    assert EndsChain(f, chain, |chain|, j);
    SameTargets(w.vm, f.instrs[j]);
    RenumberedBranch(idx, instrs0[j], w.succ[i]);
  }

  /** No block could be merged with its successor any more. */
  ghost predicate FullyMerged(g: Function)
  {
    forall a: nat, b: nat :: a < |g.blocks| && b < |g.blocks| && g.blocks[a].succ == [b] ==> |g.blocks[b].pred| != 1
  }

  lemma OutputFullyMerged(f: Function, dead: seq<bool>, chain: seq<seq<nat>>, w: Work, idx: map<nat, nat>,
                          instrs0: seq<Instr>, g: Function)
    requires Done(f, dead, chain, w, idx, instrs0, g) && MergedUpTo(w, |chain|)
    ensures FullyMerged(g)
  {
    hide MergeOk, PlanOk, RewrittenIn, Listed, Outputs, Renumbered, AllIndices, NewIdx;
    OutputSize(f, dead, chain, w, idx, instrs0, g);
    DeletedIsDead(f, dead, chain, w);
    forall a: nat, b: nat | a < |g.blocks| && b < |g.blocks| && g.blocks[a].succ == [b]
      ensures |g.blocks[b].pred| != 1
    {
      var i := OutputAt(f, dead, chain, w, idx, instrs0, g, a);
      var x := OutputAt(f, dead, chain, w, idx, instrs0, g, b);
      var y := w.succ[i][0];
      assert idx[y] == b && NewIdx(chain, y) == b;
      NewIdxInjective(chain, x, y);
      assert !Mergeable(w, i);
    }
  }

  ghost predicate IsSimplified(g: Function)
  {
    && Mirrored(g) && EntryOk(g) && FullyMerged(g)
    && forall b: nat :: b < |g.blocks| ==> EndsInBranch(g, b)
  }

  /** The pass.  It has a result exactly if neither merging nor value lookups go on forever. */
  method CFGSimplify(f: Function)
    returns (r: Option<Function>, ghost chains: seq<seq<nat>>, ghost vm: map<Value, Value>)
    requires IsSsa(f)
    ensures r.Some? <==> CanSimplify(f)
    ensures r.Some? ==> PlanOk(f, chains, vm) && Implements(f, chains, vm, r.value) && IsSimplified(r.value)
  {
    hide IsSsa, DeadBlocks.NoUnreachableCycles, DeadBlocks.IsDeadSet, MergeOk, PlanOk, Implements, RewrittenIn, Listed;
    hide Outputs, Renumbered, AllIndices, NumbersLive, BlocksOk, MergedUpTo, Reachable, Mirrored, FullyMerged;
    hide EndsInBranch, DeadOk, HasPureCycle, LookupsEnd;
    SsaGraph(f);
    GraphParts(f);
    var dead := DeadBlocks.GetDeletedBlocks(f);
    DeadSetIsOk(f, dead);
    OneDeadSet(f, dead);
    var edit;
    ghost var chain;
    edit, chain := MergeBasicBlocks(f, dead);
    if edit.None? {
      return None, [], map[];
    }
    var instrs0, w := edit.value.instrs, edit.value.work;
    Sizes(f, dead, chain, w);
    DeletedIsDead(f, dead, chain, w);
    chains, vm := Listed(chain), w.vm;
    var idx := NumberBlocks(w.deleted, chain);
    var output, instrs := OutputBlocks(f, dead, chain, w, instrs0, AllIndices(w.blocks, w.deleted, |w.blocks|), idx);
    var g := Function(instrs, output);
    OutputImplements(f, dead, chain, w, idx, instrs0, g);
    OutputMirrored(f, dead, chain, w, idx, instrs0, g);
    OutputEntry(f, dead, chain, w, idx, instrs0, g);
    OutputFullyMerged(f, dead, chain, w, idx, instrs0, g);
    forall b: nat | b < |g.blocks| ensures EndsInBranch(g, b) {
      OutputEnd(f, dead, chain, w, idx, instrs0, g, b);
    }
    r := Some(g);
  }

  lemma GraphParts(f: Function)
    requires IsGraph(f)
    ensures BlocksOk(f) && Mirrored(f) && EntryOk(f)
  {
  }

  /** The simplified function does what the original does, on every machine and from every state. */
  method SimplifyAndRun<V(!new), S(!new)>(f: Function, ghost m: Machine<V, S>, ghost st0: State<V, S>)
    returns (r: Option<Function>)
    requires IsSsa(f)
    ensures CodeOk(f) && (r.Some? <==> CanSimplify(f))
    ensures r.Some? ==> IsSimplified(r.value) && CodeOk(r.value)
    ensures r.Some? ==> forall exit, store, trace ::
              Finishes(m, f, st0, exit, store, trace) <==> Finishes(m, r.value, st0, exit, store, trace)
  {
    hide IsSsa, CanSimplify, IsSimplified, PlanOk, Implements, CodeOk, Finishes;
    ghost var chains, vm;
    r, chains, vm := CFGSimplify(f);
    SsaGraph(f);
    OriginalCodeOk(f);
    if r.Some? {
      SimplifiedCodeOk(f, chains, vm, r.value);
      forall exit, store, trace
        ensures Finishes(m, f, st0, exit, store, trace) <==> Finishes(m, r.value, st0, exit, store, trace)
      {
        SimplificationPreservesMeaning(m, f, chains, vm, r.value, st0, exit, store, trace);
      }
    }
  }
}
