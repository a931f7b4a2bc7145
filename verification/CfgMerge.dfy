/**
 Merging straight-line chains of basic blocks, as the simplifier does it.
 */
module CfgMerge {
  import opened Sequences
  import opened Khir
  import opened Ssa
  import opened CfgSimulation
  import opened ChainMerge
  import opened MergeInvariant
  import DeadBlocks

  /** The variables of the merge: blocks being edited, which of them are gone, the edges
      between the remaining ones, and the values that replace phis. */
  datatype Work = Work(blocks: seq<Block>, deleted: seq<bool>, succ: seq<seq<nat>>, pred: seq<seq<nat>>,
      vm: map<Value, Value>)

  ghost predicate MergeOk(f: Function, dead: seq<bool>, chain: seq<seq<nat>>, w: Work)
  {
    && IsSsa(f) && DeadOk(f, dead) && Partition(f, chain) && Neighbours(f, dead, chain, w.succ, w.pred)
    && LiveLinks(f, dead, chain) && CoversLive(dead, chain)
    && ValueMapOk(f, chain, w.vm) && AllSegments(f, chain, w.blocks)
    && |w.deleted| == |chain| && (forall i: nat :: i < |chain| ==> (w.deleted[i] <==> !IsLive(chain, i)))
  }

  // ----- phis of the merged block -----

  datatype Collected = MissingMember | Collected(vm: map<Value, Value>, count: nat)

  /** Pairs the leading phis of a segment with the members before index `end`. */
  method CollectPhis(instrs: seq<Instr>, vm: map<Value, Value>, end: int, start: (int, int)) returns (r: Collected)
    requires 0 <= start.0 && start.1 < |instrs| && CountPhis(instrs, start.0, start.1) <= end <= |instrs|
    ensures r.Collected? <==> forall k :: end - CountPhis(instrs, start.0, start.1) <= k < end ==> instrs[k].PhiMember?
    ensures r.Collected? ==>
            r.count == CountPhis(instrs, start.0, start.1) && r.vm == WithMembers(instrs, vm, end, r.count)
  {
    var offset, map' := 0, vm;
    while start.0 + offset <= start.1 && instrs[start.0 + offset].Phi?
      invariant 0 <= offset &&
                CountPhis(instrs, start.0, start.1) == offset + CountPhis(instrs, start.0 + offset, start.1)
      invariant forall k :: end - offset <= k < end ==> instrs[k].PhiMember?
      invariant map' == WithMembers(instrs, vm, end, offset)
      decreases start.1 - offset
    {
      var instr := instrs[end - 1 - offset];
      if !instr.PhiMember? {
        return MissingMember;
      }
      map' := map'[instr.phi := instr.value];
      offset := offset + 1;
    }
    r := Collected(map', offset);
  }

  /** Lets block `i` take the place of `j` in the predecessors of its new successors. */
  method Redirect(pred0: seq<seq<nat>>, next: seq<nat>, j: nat, i: nat) returns (pred: seq<seq<nat>>)
    requires i != j && forall x :: x in next ==> x < |pred0|
    ensures Redirected(next, pred0, pred, j, i)
  {
    pred := pred0;
    for k := 0 to |next|
      invariant Redirected(next[..k], pred0, pred, j, i)
    {
      var x := next[k];
      assert x in next;
      var list := pred[x];
      for q := 0 to |list|
        invariant |list| == |pred[x]|
        invariant forall p :: 0 <= p < q ==> list[p] == if pred[x][p] == j then i else pred[x][p]
        invariant forall p :: q <= p < |list| ==> list[p] == pred[x][p]
      {
        if list[q] == j {
          list := list[q := i];
        }
      }
      assert next[..k + 1] == next[..k] + [x];
      assert list == Replaced(pred0[x], j, i);
      pred := pred[x := list];
    }
    assert next[..|next|] == next;
  }

  lemma SsaParts(f: Function)
    requires IsSsa(f)
    ensures BlocksOk(f) && Mirrored(f)
  {
  }

  lemma TargetsInRange(f: Function, dead: seq<bool>, chain: seq<seq<nat>>, succ: seq<seq<nat>>, pred: seq<seq<nat>>,
                       j: nat)
    requires Mirrored(f) && |dead| == |f.blocks| && Neighbours(f, dead, chain, succ, pred) && IsLive(chain, j)
    ensures forall x :: x in succ[j] ==> x < |pred|
  {
  }

  lemma Sizes(f: Function, dead: seq<bool>, chain: seq<seq<nat>>, w: Work)
    requires MergeOk(f, dead, chain, w)
    ensures |f.blocks| == |dead| == |chain| == |w.blocks| == |w.deleted| == |w.succ| == |w.pred|
  {
    hide IsSsa, ValueMapOk, SuccessorsOfTail, AllInLive, PredecessorCounts, MirroredLists, SegmentsOk, LiveLinks;
    hide CoversLive;
  }

  lemma LinkReady(f: Function, dead: seq<bool>, chain: seq<seq<nat>>, w: Work, i: nat, j: nat)
    requires MergeOk(f, dead, chain, w) && IsLive(chain, i) && i < |w.succ| && w.succ[i] == [j] && j < |w.pred| &&
             |w.pred[j]| == 1
    ensures IsLive(chain, j) && w.pred[j] == [i] && j < |f.blocks| && Tail(chain[i]) < |f.blocks|
    ensures LiveLinked(f, dead, Tail(chain[i]), j)
    ensures j == i ==> HasPureCycle(f, dead)
    ensures j != i ==> Joining(f, chain, i, j, Last(f, Tail(chain[i])), NumPhis(f, j))
  {
    hide IsSsa, DeadOk, NumPhis, Neighbours, ValueMapOk, AllSegments, Joining, IsChain, BlocksOk, Mirrored, LiveLinks;
    hide CoversLive;
    hide LiveLinked;
    SsaParts(f);
    LinkFound(f, dead, chain, w.succ, w.pred, i, j);
    hide Linked;
    ChainTail(f, chain[i]);
    if j == i {
      BackToHead(f, dead, chain, i);
    } else {
      hide Partition;
      OneSegment(f, Tail(chain[i]));
      JoiningHolds(f, chain, i, j, Last(f, Tail(chain[i])), NumPhis(f, j));
    }
  }

  lemma LiveSegments(f: Function, dead: seq<bool>, chain: seq<seq<nat>>, w: Work, i: nat)
    requires MergeOk(f, dead, chain, w) && IsLive(chain, i)
    ensures i < |w.blocks| && SegmentsOk(f, chain[i], w.blocks[i].segments) && chain[i][0] == i
  {
    hide IsSsa, DeadOk, Neighbours, ValueMapOk, SegmentsOk, IsChain, LiveLinks, CoversLive;
  }

  /** What the segments of a live block tell about phis and members. */
  lemma ReadyToCollect(f: Function, chain: seq<seq<nat>>, blocks: seq<Block>, i: nat, j: nat, end: int, n: nat)
    requires Joining(f, chain, i, j, end, n) && |blocks| == |chain| && chain[j][0] == j
    requires SegmentsOk(f, chain[i], blocks[i].segments) && SegmentsOk(f, chain[j], blocks[j].segments)
    ensures blocks[i].segments != [] && blocks[i].segments[|blocks[i].segments| - 1].1 == end
    ensures blocks[j].segments != []
    ensures var s := blocks[j].segments[0];
            0 <= s.0 && s.1 < |f.instrs| && CountPhis(f.instrs, s.0, s.1) == n
    ensures n <= end <= |f.instrs| && forall k :: end - n <= k < end ==> f.instrs[k].PhiMember?
  {
    hide PhisLead, CalleesOk, UsesDominated, MembersTargetSuccessors, Mirrored, EntryOk, NumPhis, MembersMatch;
    hide ValueMapOk, Linked, Partition, ChainIndices, Indices, CountPhis;
  }

  lemma JoinMergeOk(f: Function, dead: seq<bool>, chain: seq<seq<nat>>, w: Work, w': Work, i: nat, j: nat, end: int,
                    n: nat)
    requires MergeOk(f, dead, chain, w) && Joining(f, chain, i, j, end, n) &&
             |w.succ| == |w.pred| == |w.blocks| == |chain|
    requires w.succ[i] == [j] && w.pred[j] == [i] && chain[j][0] == j && LiveLinked(f, dead, Tail(chain[i]), j)
    requires w.blocks[i].segments != [] && w.blocks[j].segments != [] && |w'.blocks| == |w.blocks|
    requires w'.blocks[i].segments == TrimBack(w.blocks[i].segments, n + 1) + TrimFront(w.blocks[j].segments, n)
    requires forall k :: 0 <= k < |w.blocks| && k != i && k != j ==> w'.blocks[k] == w.blocks[k]
    requires w'.deleted == w.deleted[j := true] && w'.succ == w.succ[i := w.succ[j]] &&
             Redirected(w.succ[j], w.pred, w'.pred, j, i)
    requires w'.vm == WithMembers(f.instrs, w.vm, end, n)
    ensures MergeOk(f, dead, Joined(chain, i, j), w')
  {
    hide PhisLead, CalleesOk, UsesDominated, MembersTargetSuccessors, EntryOk, NumPhis, MembersMatch, ValueMapOk;
    hide Linked, BlocksOk, Mirrored;
    hide Partition, SegmentsOk, AllSegments, WithMembers, Neighbours, Redirected, AreMembers, TrimBack, TrimFront;
    hide LiveLinks, CoversLive, LiveLinked;
    DeadSize(f, dead);
    hide DeadOk;
    JoinPartition(f, chain, i, j);
    JoinLiveLinks(f, dead, chain, i, j);
    JoinCoversLive(dead, chain, i, j);
    JoinNeighbours(f, dead, chain, w.succ, w.pred, w'.pred, i, j);
    JoinValueMap(f, chain, w.vm, i, j, end, n);
    JoinAllSegments(f, chain, w.blocks, w'.blocks, i, j, end, n);
    JoinedLive(chain, i, j);
  }

  /** Deletes the members and the branch, then the phis, and puts the rest together. */
  method JoinSegments(first: seq<(int, int)>, second: seq<(int, int)>, offset: nat) returns (r: seq<(int, int)>)
    requires first != [] && second != []
    ensures r == TrimBack(first, offset + 1) + TrimFront(second, offset)
  {
    var segs, next := first, second;
    var (lo, hi) := segs[|segs| - 1];
    segs := segs[|segs| - 1 := (lo, hi - offset - 1)];
    next := next[0 := (next[0].0 + offset, next[0].1)];
    if segs[|segs| - 1].0 > segs[|segs| - 1].1 {
      segs := segs[..|segs| - 1];
    }
    if next[0].0 > next[0].1 {
      next := next[1..];
    }
    assert segs == TrimBack(first, offset + 1);
    assert next == TrimFront(second, offset);
    r := segs + next;
  }

  /** Joins block `i` with its only successor. */
  method MergeSuccessor(f: Function, ghost dead: seq<bool>, w: Work, ghost chain: seq<seq<nat>>, i: nat)
    returns (w': Work, ghost chain': seq<seq<nat>>)
    requires MergeOk(f, dead, chain, w) && i < |w.deleted| && !w.deleted[i] && i < |w.succ| && |w.succ[i]| == 1
    requires w.succ[i][0] < |w.pred| && |w.pred[w.succ[i][0]]| == 1 && w.succ[i][0] != i
    ensures MergeOk(f, dead, chain', w') && i < |w'.deleted| && !w'.deleted[i]
    ensures var j := w.succ[i][0]; j < |w.deleted| && !w.deleted[j] && w'.deleted == w.deleted[j := true]
    ensures |w'.succ| == |w.succ| && forall k :: 0 <= k < |w.succ| && k != i ==> w'.succ[k] == w.succ[k]
    ensures |w'.pred| == |w.pred| && forall k :: 0 <= k < |w.pred| ==> |w'.pred[k]| == |w.pred[k]|
  {
    hide IsSsa, DeadOk, Partition, Neighbours, ValueMapOk, SegmentsOk, AllSegments, BlocksOk, NumPhis, Joining;
    hide WithMembers, CountPhis, TrimBack, TrimFront, Joined, LiveLinks, CoversLive, LiveLinked;
    var j := w.succ[i][0];
    assert w.succ[i] == [j];
    SsaParts(f);
    Sizes(f, dead, chain, w);
    LinkReady(f, dead, chain, w, i, j);
    LiveSegments(f, dead, chain, w, i);
    LiveSegments(f, dead, chain, w, j);
    OneSegment(f, Tail(chain[i]));
    ghost var end, n := Last(f, Tail(chain[i])), NumPhis(f, j);
    ReadyToCollect(f, chain, w.blocks, i, j, end, n);
    var segs, next := w.blocks[i].segments, w.blocks[j].segments;
    var collected := CollectPhis(f.instrs, w.vm, segs[|segs| - 1].1, next[0]);
    assert collected.Collected?;  // the "Missing phi member" error is never raised
    var joined := JoinSegments(segs, next, collected.count);
    TargetsInRange(f, dead, chain, w.succ, w.pred, j);
    var pred := Redirect(w.pred, w.succ[j], j, i);
    w' := Work(w.blocks[i := w.blocks[i].(segments := joined)], w.deleted[j := true], w.succ[i := w.succ[j]], pred,
        collected.vm);
    chain' := Joined(chain, i, j);
    JoinMergeOk(f, dead, chain, w, w', i, j, end, n);
  }

  // ----- the start -----

  /** The neighbours that are not dead. */
  method LiveNeighbours(f: Function, deleted: seq<bool>) returns (succ: seq<seq<nat>>, pred: seq<seq<nat>>)
    requires Mirrored(f) && |deleted| == |f.blocks|
    ensures |succ| == |pred| == |f.blocks|
    ensures forall i :: 0 <= i < |f.blocks| ==>
            succ[i] == Live(f.blocks[i].succ, deleted) && pred[i] == Live(f.blocks[i].pred, deleted)
  {
    hide Live;
    succ, pred := [], [];
    for i := 0 to |f.blocks|
      invariant |succ| == |pred| == i
      invariant forall k :: 0 <= k < i ==>
                succ[k] == Live(f.blocks[k].succ, deleted) && pred[k] == Live(f.blocks[k].pred, deleted)
    {
      var s := KeepLive(f.blocks[i].succ, deleted);
      var p := KeepLive(f.blocks[i].pred, deleted);
      succ, pred := succ + [s], pred + [p];
    }
  }

  method KeepLive(list: seq<nat>, deleted: seq<bool>) returns (r: seq<nat>)
    requires forall x :: x in list ==> x < |deleted|
    ensures r == Live(list, deleted)
  {
    r := [];
    for k := 0 to |list|
      invariant r == Live(list[..k], deleted)
    {
      assert list[k] in list;
      if !deleted[list[k]] {
        r := r + [list[k]];
      }
      assert list[..k + 1][..k] == list[..k];
    }
    assert list[..|list|] == list;
  }

  function Singles(dead: seq<bool>): (chain: seq<seq<nat>>)
    ensures |chain| == |dead| && forall i :: 0 <= i < |dead| ==> chain[i] == if dead[i] then [] else [i]
  {
    seq(|dead|, i requires 0 <= i < |dead| => if dead[i] then [] else [i])
  }

  lemma StartPartition(f: Function, dead: seq<bool>)
    requires DeadOk(f, dead)
    ensures Partition(f, Singles(dead)) && LiveLinks(f, dead, Singles(dead)) && CoversLive(dead, Singles(dead))
  {
    hide Reachable;
    var chain := Singles(dead);
    forall b: nat | b < |f.blocks| && !dead[b] ensures exists c: nat, i: nat :: InChain(chain, c, i, b) {
      assert InChain(chain, b, 0, b);
    }
    forall b: nat | Survives(b, dead) ensures Placed(chain, b) {
      assert InChain(chain, b, 0, b);
    }
  }

  lemma LiveMember(list: seq<nat>, dead: seq<bool>, x: nat)
    requires x in Live(list, dead)
    ensures Survives(x, dead)
  {
    LiveCounts(list, dead, x);
    assert x in multiset(Live(list, dead));
  }

  lemma StartMirror(f: Function, dead: seq<bool>, i: nat, x: nat)
    requires Mirrored(f) && |dead| == |f.blocks| && i < |dead| && x < |dead| && !dead[i] && !dead[x]
    ensures multiset(Live(f.blocks[x].pred, dead))[i] == multiset(Live(f.blocks[i].succ, dead))[x]
  {
    hide Live;
    LiveCounts(f.blocks[x].pred, dead, i);
    LiveCounts(f.blocks[i].succ, dead, x);
  }

  lemma StartNeighbours(f: Function, dead: seq<bool>, succ: seq<seq<nat>>, pred: seq<seq<nat>>)
    requires Mirrored(f) && DeadOk(f, dead) && |succ| == |pred| == |f.blocks|
    requires forall i :: 0 <= i < |f.blocks| ==>
             succ[i] == Live(f.blocks[i].succ, dead) && pred[i] == Live(f.blocks[i].pred, dead)
    ensures Neighbours(f, dead, Singles(dead), succ, pred)
  {
    hide Live, Mirrored, DeadOk, Reachable;
    DeadSize(f, dead);
    var chain := Singles(dead);
    assert forall i: nat :: IsLive(chain, i) <==> i < |dead| && !dead[i];
    forall i: nat | IsLive(chain, i)
      ensures Tail(chain[i]) == i && succ[i] == f.blocks[i].succ && forall x :: x in succ[i] ==> IsLive(chain, x)
    {
      LiveSuccessors(f, dead, i);
    }
    forall x: nat, i | IsLive(chain, x) && i in pred[x] ensures IsLive(chain, i) {
      LiveMember(f.blocks[x].pred, dead, i);
    }
    forall i: nat, x: nat | IsLive(chain, i) && IsLive(chain, x) ensures multiset(pred[x])[i] == multiset(succ[i])[x] {
      StartMirror(f, dead, i, x);
    }
  }

  lemma StartSegments(f: Function, i: nat)
    requires BlocksOk(f) && i < |f.blocks|
    ensures SegmentsOk(f, [i], f.blocks[i].segments)
  {
    LastIsTerminator(f, i);
    var segs := f.blocks[i].segments;
    assert segs[1..] == [];
    assert ChainIndices(f, [i], 1) == [];
    hide BlocksOk, Range;
    assert PieceLo(f, [i], 0) == First(f, i) && PieceHi(f, [i], 0) == Last(f, i);
    assert Indices(segs) == Range(segs[0].0, segs[0].1) + Indices(segs[1..]);
  }

  lemma StartOk(f: Function, dead: seq<bool>, w: Work)
    requires IsSsa(f) && DeadOk(f, dead) && Neighbours(f, dead, Singles(dead), w.succ, w.pred)
    requires w.blocks == f.blocks && w.deleted == dead && w.vm == map[]
    ensures MergeOk(f, dead, Singles(dead), w)
  {
    hide PhisLead, CalleesOk, UsesDominated, MembersTargetSuccessors, EntryOk, NumPhis, MembersMatch, Mirrored;
    hide Neighbours, Reachable, SegmentsOk, BlocksOk;
    var chain := Singles(dead);
    StartPartition(f, dead);
    forall i: nat | IsLive(chain, i) ensures SegmentsOk(f, chain[i], w.blocks[i].segments) {
      StartSegments(f, i);
    }
    forall v, c: nat, k: nat, o: nat ensures !RemovedPhi(f, chain, c, k, o, v) {
      if c < |chain| { assert |chain[c]| <= 1; }
    }
  }

  // ----- merging -----

  /** Block `i` and its successor are still to be merged. */
  predicate Mergeable(w: Work, i: nat)
  {
    i < |w.succ| && |w.succ[i]| == 1 && w.succ[i][0] < |w.pred| && |w.pred[w.succ[i][0]]| == 1
  }

  /** None of the first `n` blocks can be merged further. */
  ghost predicate MergedUpTo(w: Work, n: nat)
  {
    forall k: nat :: k < n && k < |w.deleted| && !w.deleted[k] ==> !Mergeable(w, k)
  }

  lemma StillMerged(w: Work, w': Work, i: nat, j: nat)
    requires MergedUpTo(w, i) && j < |w.deleted| && w'.deleted == w.deleted[j := true]
    requires |w'.succ| == |w.succ| && forall k :: 0 <= k < |w.succ| && k != i ==> w'.succ[k] == w.succ[k]
    requires |w'.pred| == |w.pred| && forall k :: 0 <= k < |w.pred| ==> |w'.pred[k]| == |w.pred[k]|
    ensures MergedUpTo(w', i)
  {
    forall k: nat | k < i && k < |w'.deleted| && !w'.deleted[k] ensures !Mergeable(w', k) {
      assert !Mergeable(w, k);
    }
  }

  /** What merging a block with itself comes to after both ends of its only list of segments are trimmed:
      the first segment of an empty list is read, or a range of the list is appended to that very list.
      Neither is defined. */
  datatype SelfMerge = NoFirst | OwnRange(segments: seq<(int, int)>)

  /** The merge ends normally, or comes to a block that is its own only neighbour and is to be merged with
      itself. */
  datatype Merge = Merged(work: Work) | Stuck(work: Work, block: nat, how: SelfMerge)

  /** The edits of a merge where both blocks are the same one, which has `count` phis. */
  method MergeWithItself(segs0: seq<(int, int)>, count: nat) returns (r: SelfMerge)
    requires segs0 != []
    ensures r.NoFirst? <==> |segs0| == 1 && segs0[0].1 - segs0[0].0 <= 2 * count
    ensures r.OwnRange? ==> r.segments != []
  {
    var segs, last := segs0, |segs0| - 1;
    segs := segs[last := (segs[last].0, segs[last].1 - count - 1)];
    segs := segs[0 := (segs[0].0 + count, segs[0].1)];
    if segs[last].0 > segs[last].1 {
      segs := segs[..last];
    }
    r := if segs == [] then NoFirst else OwnRange(segs);
  }

  /** The block consists of one segment that holds nothing but its phis, their members and the branch. */
  ghost predicate IsBare(instrs: seq<Instr>, segs: seq<(int, int)>)
  {
    && |segs| == 1 && 0 <= segs[0].0 && segs[0].1 < |instrs|
    && segs[0].1 - segs[0].0 <= 2 * CountPhis(instrs, segs[0].0, segs[0].1)
  }

  predicate IsOwnNeighbour(w: Work, i: nat)
  {
    i < |w.deleted| && !w.deleted[i] && i < |w.succ| && i < |w.pred| && w.succ[i] == [i] && w.pred[i] == [i]
  }

  /** Merging such a block with itself changes no edge, so it can be merged again. */
  lemma SelfMergeRepeats(w: Work, w': Work, i: nat)
    requires IsOwnNeighbour(w, i)
    requires w'.succ == w.succ[i := w.succ[w.succ[i][0]]] && Redirected(w.succ[i], w.pred, w'.pred, i, i)
    ensures Mergeable(w, i) && Mergeable(w', i) && w'.succ == w.succ && w'.pred == w.pred
  {
    forall x: nat | x < |w.pred| ensures w'.pred[x] == w.pred[x] {
      assert Replaced(w.pred[x], i, i) == w.pred[x];
    }
  }

  /** Merges every block with its successor as long as that is its only way on and the only
      way in there.  This does not end normally exactly when some cycle consists of such blocks only: then
      the loop comes to a block that it merges with itself. */
  method MergeAll(f: Function, dead: seq<bool>) returns (r: Merge, ghost chain: seq<seq<nat>>)
    requires IsSsa(f) && DeadOk(f, dead)
    ensures r.Stuck? <==> HasPureCycle(f, dead)
    ensures MergeOk(f, dead, chain, r.work)
    ensures r.Stuck? ==> IsOwnNeighbour(r.work, r.block) && r.block < |r.work.blocks|
    ensures r.Stuck? ==> (r.how.NoFirst? <==> IsBare(f.instrs, r.work.blocks[r.block].segments))
    ensures r.Merged? ==> MergedUpTo(r.work, |f.blocks|)
  {
    hide IsSsa, DeadOk, MergeOk, Mirrored, BlocksOk, Neighbours, Live, DeadBlocks.Kept, HasPureCycle;
    SsaParts(f);
    DeadSize(f, dead);
    var succ, pred := LiveNeighbours(f, dead);
    var w: Work;
    w, chain := Work(f.blocks, dead, succ, pred, map[]), Singles(dead);
    StartNeighbours(f, dead, succ, pred);
    StartOk(f, dead, w);
    for i := 0 to |f.blocks|
      invariant MergeOk(f, dead, chain, w) && MergedUpTo(w, i)
    {
      Sizes(f, dead, chain, w);
      if w.deleted[i] {
        continue;
      }
      TargetInPred(f, dead, chain, w, i);
      while |w.succ[i]| == 1 && |w.pred[w.succ[i][0]]| == 1
        invariant MergeOk(f, dead, chain, w) && MergedUpTo(w, i)
        invariant i < |w.deleted| && !w.deleted[i] && i < |w.succ| && (|w.succ[i]| > 0 ==> w.succ[i][0] < |w.pred|)
        decreases DeadBlocks.Kept(w.deleted)
      {
        if w.succ[i][0] == i {
          OwnNeighbour(f, dead, chain, w, i);
          var segs := w.blocks[i].segments;
          var how := MergeWithItself(segs, CountPhis(f.instrs, segs[0].0, segs[0].1));
          return Stuck(w, i, how), chain;
        }
        ghost var w0 := w;
        ghost var j := w.succ[i][0];
        w, chain := MergeSuccessor(f, dead, w, chain, i);
        DeadBlocks.KeptShrinks(w0.deleted, j);
        StillMerged(w0, w, i, j);
        Sizes(f, dead, chain, w);
        TargetInPred(f, dead, chain, w, i);
      }
    }
    if HasPureCycle(f, dead) {
      CycleStaysMergeable(f, dead, chain, w);
    }
    r := Merged(w);
  }

  lemma OwnNeighbour(f: Function, dead: seq<bool>, chain: seq<seq<nat>>, w: Work, i: nat)
    requires MergeOk(f, dead, chain, w) && i < |w.deleted| && !w.deleted[i] && Mergeable(w, i) && w.succ[i][0] == i
    ensures IsOwnNeighbour(w, i) && HasPureCycle(f, dead) && i < |w.blocks| && w.blocks[i].segments != []
    ensures 0 <= w.blocks[i].segments[0].0 && w.blocks[i].segments[0].1 < |f.instrs|
  {
    hide IsSsa, DeadOk, Partition, Neighbours, ValueMapOk, AllSegments, LiveLinks, CoversLive, HasPureCycle;
    assert w.succ[i] == [i];
    LinkReady(f, dead, chain, w, i, i);
    LiveSegments(f, dead, chain, w, i);
  }

  /** While there is a cycle, some block of it can still be merged. */
  lemma CycleStaysMergeable(f: Function, dead: seq<bool>, chain: seq<seq<nat>>, w: Work)
    requires MergeOk(f, dead, chain, w) && HasPureCycle(f, dead)
    ensures !MergedUpTo(w, |f.blocks|)
  {
    hide IsSsa, Partition, Neighbours, ValueMapOk, AllSegments, LiveLinks, LiveLinked, LinkedThrough, DeadOk;
    var cycle :| IsPureCycle(f, dead, cycle);
    CycleLink(f, dead, cycle, 0);
    LinkEnds(f, dead, cycle[|cycle| - 1], cycle[0]);
    assert Placed(chain, cycle[0]);
    var c: nat, i: nat :| InChain(chain, c, i, cycle[0]);
    var k := TailInCycle(f, dead, chain, cycle, c, i, 0);
    var y := CycleNext(f, dead, cycle, k);
    TailMergeable(f, dead, chain, w, c, y);
    Sizes(f, dead, chain, w);
  }

  lemma LinkEnds(f: Function, dead: seq<bool>, x: nat, y: nat)
    requires LiveLinked(f, dead, x, y)
    ensures Survives(x, dead) && Survives(y, dead)
  {
  }

  lemma CycleNext(f: Function, dead: seq<bool>, cycle: seq<nat>, k: nat) returns (y: nat)
    requires IsPureCycle(f, dead, cycle) && k < |cycle|
    ensures LiveLinked(f, dead, cycle[k], y) && y in cycle
  {
    hide LiveLinked;
    if k + 1 < |cycle| {
      y := cycle[k + 1];
      assert LiveLinked(f, dead, cycle[k + 1 - 1], cycle[k + 1]);
    } else {
      y := cycle[0];
    }
  }

  lemma SameNext(f: Function, dead: seq<bool>, x: nat, y: nat, y': nat)
    requires LiveLinked(f, dead, x, y) && LiveLinked(f, dead, x, y')
    ensures y == y'
  {
    assert [y][0] == [y'][0];
  }

  /** A chain that enters a cycle ends in it. */
  lemma {:induction false} TailInCycle(f: Function, dead: seq<bool>, chain: seq<seq<nat>>, cycle: seq<nat>, c: nat,
                                       i: nat, k: nat)
    returns (k': nat)
    requires LiveLinks(f, dead, chain) && IsPureCycle(f, dead, cycle) && k < |cycle| && InChain(chain, c, i, cycle[k])
    ensures k' < |cycle| && IsLive(chain, c) && Tail(chain[c]) == cycle[k']
    decreases |chain[c]| - i
  {
    hide LiveLinked, IsPureCycle;
    if i + 1 == |chain[c]| {
      k' := k;
    } else {
      var y := CycleNext(f, dead, cycle, k);
      assert LiveLinked(f, dead, chain[c][i + 1 - 1], chain[c][i + 1]);
      SameNext(f, dead, cycle[k], y, chain[c][i + 1]);
      var m :| 0 <= m < |cycle| && cycle[m] == y;
      k' := TailInCycle(f, dead, chain, cycle, c, i + 1, m);
    }
  }

  lemma TailMergeable(f: Function, dead: seq<bool>, chain: seq<seq<nat>>, w: Work, c: nat, y: nat)
    requires MergeOk(f, dead, chain, w) && IsLive(chain, c) && LiveLinked(f, dead, Tail(chain[c]), y)
    ensures c < |w.deleted| && !w.deleted[c] && Mergeable(w, c)
  {
    hide IsSsa, Partition, ValueMapOk, AllSegments, LiveLinks, CoversLive, Live, DeadOk, MirroredLists;
    SsaParts(f);
    DeadSize(f, dead);
    Sizes(f, dead, chain, w);
    LiveSuccessors(f, dead, Tail(chain[c]));
    assert y in w.succ[c];
  }

  lemma DeadSize(f: Function, dead: seq<bool>)
    requires DeadOk(f, dead)
    ensures |dead| == |f.blocks|
  {
  }

  lemma TargetInPred(f: Function, dead: seq<bool>, chain: seq<seq<nat>>, w: Work, i: nat)
    requires MergeOk(f, dead, chain, w) && i < |w.deleted| && !w.deleted[i]
    ensures i < |w.succ| && (|w.succ[i]| > 0 ==> w.succ[i][0] < |w.pred|)
  {
    hide IsSsa, DeadOk, Neighbours, ValueMapOk, SegmentsOk, Partition;
    SsaParts(f);
    DeadSize(f, dead);
    Sizes(f, dead, chain, w);
    TargetsInRange(f, dead, chain, w.succ, w.pred, i);
    if |w.succ[i]| > 0 { assert w.succ[i][0] in w.succ[i]; }
  }
}
