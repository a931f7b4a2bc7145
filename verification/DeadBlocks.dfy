/**
 The first step of the control-flow simplifier: which blocks to drop.
 */
module DeadBlocks {
  import opened Khir

  /** Unreachable blocks can be ranked along their edges: they contain no cycle. */
  ghost predicate NoUnreachableCycles(f: Function)
  {
    exists rank: seq<nat> :: RanksUnreachable(f, rank)
  }

  ghost predicate RanksUnreachable(f: Function, rank: seq<nat>)
  {
    && |rank| == |f.blocks|
    && forall a: nat, b: nat :: Edge(f, a, b) && !Reachable(f, a) && !Reachable(f, b) ==> rank[a] < rank[b]
  }

  predicate AllDeleted(preds: seq<nat>, deleted: seq<bool>)
    requires forall a :: a in preds ==> a < |deleted|
  {
    forall a :: a in preds ==> deleted[a]
  }

  /** Deleted blocks hang off deleted blocks only, and every other block but the entry has a
      predecessor that stays. */
  ghost predicate IsClosed(f: Function, deleted: seq<bool>)
    requires Mirrored(f)
  {
    && |deleted| == |f.blocks| && (0 < |deleted| ==> !deleted[0])
    && forall b :: 0 < b < |f.blocks| ==> (deleted[b] <==> AllDeleted(f.blocks[b].pred, deleted))
  }

  /** No walk from the entry ends in a deleted block. */
  lemma {:induction false} DeletedIsUnreachable(f: Function, deleted: seq<bool>, path: seq<nat>)
    requires Mirrored(f) && IsClosed(f, deleted) && IsPath(f, path)
    ensures !deleted[path[|path| - 1]]
    decreases |path|
  {
    if |path| > 1 {
      var k := |path| - 1;
      PathPrefix(f, path, k - 1);
      DeletedIsUnreachable(f, deleted, path[..k]);
      assert Edge(f, path[k - 1], path[k]);
      EdgeMirror(f, path[k - 1], path[k]);
    }
  }

  /** Without unreachable cycles every unreachable block is deleted. */
  lemma {:induction false} UnreachableIsDeleted(f: Function, deleted: seq<bool>, rank: seq<nat>, b: nat)
    requires Mirrored(f) && IsClosed(f, deleted) && RanksUnreachable(f, rank)
    requires b < |f.blocks| && !Reachable(f, b)
    ensures deleted[b]
    decreases rank[b]
  {
    assert b != 0 by { assert PathTo(f, [0], 0); }
    forall a | a in f.blocks[b].pred ensures deleted[a] {
      EdgeMirror(f, a, b);
      if path :| PathTo(f, path, a) {
        PathAppend(f, path, b);
      }
      assert !Reachable(f, a);
      UnreachableIsDeleted(f, deleted, rank, a);
    }
  }

  ghost function Kept(deleted: seq<bool>): (s: set<nat>)
  {
    set b: nat | b < |deleted| && !deleted[b]
  }

  /** Invariant of the worklist: a block all of whose predecessors are deleted is deleted
      itself, or one of them still has to be processed. */
  ghost predicate Closing(f: Function, deleted: seq<bool>, worklist: seq<nat>, rest: seq<nat>)
    requires Mirrored(f)
  {
    && |deleted| == |f.blocks| && 0 < |deleted| && !deleted[0]
    && (forall b :: b in worklist ==> b < |deleted| && deleted[b])
    && (forall b :: 0 <= b < |f.blocks| && deleted[b] ==> AllDeleted(f.blocks[b].pred, deleted))
    && (forall b: nat :: 0 < b < |f.blocks| && !deleted[b] && AllDeleted(f.blocks[b].pred, deleted) ==>
                           b in rest || exists a :: a in worklist && a in f.blocks[b].pred)
  }

  /** `time` records when a block was marked: always after all of its predecessors. */
  ghost predicate Timed(f: Function, deleted: seq<bool>, time: seq<nat>, clock: nat)
    requires Mirrored(f)
  {
    && |deleted| == |time| == |f.blocks|
    && (forall b: nat :: b < |time| && deleted[b] ==> time[b] < clock)
    && forall a: nat, b: nat :: Edge(f, a, b) && deleted[b] ==> deleted[a] && time[a] < time[b]
  }

  /** The blocks that are marked: closed, and marked one after the other. */
  ghost predicate IsDeadSet(f: Function, deleted: seq<bool>)
    requires Mirrored(f)
  {
    IsClosed(f, deleted) && exists time: seq<nat>, clock: nat :: Timed(f, deleted, time, clock)
  }

  /** There is only one such set. */
  lemma DeadSetIsUnique(f: Function, deleted: seq<bool>, deleted': seq<bool>)
    requires Mirrored(f) && IsDeadSet(f, deleted) && IsDeadSet(f, deleted')
    ensures deleted == deleted'
  {
    hide Mirrored, IsClosed, Timed;
    ClosedSize(f, deleted);
    ClosedSize(f, deleted');
    var time: seq<nat>, clock: nat :| Timed(f, deleted, time, clock);
    var time': seq<nat>, clock': nat :| Timed(f, deleted', time', clock');
    forall b: nat | b < |f.blocks| ensures deleted[b] == deleted'[b] {
      if deleted[b] { MarkedInEvery(f, deleted, time, clock, deleted', b); }
      if deleted'[b] { MarkedInEvery(f, deleted', time', clock', deleted, b); }
    }
  }

  lemma ClosedSize(f: Function, deleted: seq<bool>)
    requires Mirrored(f) && IsClosed(f, deleted)
    ensures |deleted| == |f.blocks|
  {
  }

  lemma {:induction false} MarkedInEvery(f: Function, deleted: seq<bool>, time: seq<nat>, clock: nat,
                                         closed: seq<bool>, b: nat)
    requires Mirrored(f) && IsClosed(f, deleted) && Timed(f, deleted, time, clock) && IsClosed(f, closed)
    requires b < |f.blocks| && deleted[b]
    ensures closed[b]
    decreases time[b]
  {
    forall a | a in f.blocks[b].pred ensures a < |closed| && closed[a] {
      EdgeMirror(f, a, b);
      MarkedInEvery(f, deleted, time, clock, closed, a);
    }
  }

  /** Marks blocks without predecessors, and then blocks whose predecessors are all marked. */
  method GetDeletedBlocks(f: Function) returns (deleted: seq<bool>)
    requires Mirrored(f) && EntryOk(f)
    ensures IsDeadSet(f, deleted)
    ensures forall b: nat :: b < |f.blocks| && deleted[b] ==> !Reachable(f, b)
    ensures (forall b: nat :: b < |f.blocks| ==> (deleted[b] <==> !Reachable(f, b))) <==> NoUnreachableCycles(f)
  {
    deleted := seq(|f.blocks|, _ => false);
    var worklist: seq<nat> := [];
    for i := 1 to |f.blocks|
      invariant |deleted| == |f.blocks|
      invariant forall b :: 0 <= b < |deleted| ==> (deleted[b] <==> 0 < b < i && f.blocks[b].pred == [])
      invariant forall b: nat :: b in worklist <==> b < |deleted| && deleted[b]
    {
      if f.blocks[i].pred == [] {
        worklist := worklist + [i];
        deleted := deleted[i := true];
      }
    }
    Started(f, deleted, worklist);
    ghost var time, clock := seq(|f.blocks|, _ => 0), 1;
    StartedTimed(f, deleted, time);

    while worklist != []
      invariant Closing(f, deleted, worklist, []) && 0 < clock
      invariant Timed(f, deleted, time, clock)
      decreases Kept(deleted), |worklist|
    {
      var curr := worklist[0];
      PopStep(f, deleted, worklist);
      worklist := worklist[1..];
      deleted, worklist, time, clock := MarkSuccessors(f, deleted, worklist, curr, time, clock);
    }
    Finished(f, deleted, time, clock);
  }

  /** Processes one block of the worklist. */
  method MarkSuccessors(f: Function, deleted0: seq<bool>, worklist0: seq<nat>, curr: nat, ghost time0: seq<nat>,
                        ghost clock0: nat)
    returns (deleted: seq<bool>, worklist: seq<nat>, ghost time: seq<nat>, ghost clock: nat)
    requires Mirrored(f) && EntryOk(f) && curr < |f.blocks| && Closing(f, deleted0, worklist0, f.blocks[curr].succ)
    requires Timed(f, deleted0, time0, clock0) && 0 < clock0
    ensures Closing(f, deleted, worklist, []) && Timed(f, deleted, time, clock) && 0 < clock
    ensures Kept(deleted) < Kept(deleted0) || (Kept(deleted) == Kept(deleted0) && worklist == worklist0)
  {
    hide Closing, Kept, Timed;
    ClosingRange(f, deleted0, worklist0, f.blocks[curr].succ, time0, clock0);
    deleted, worklist, time, clock := deleted0, worklist0, time0, clock0;
    var succs := f.blocks[curr].succ;
    assert succs[0..] == succs;
    for k := 0 to |succs|
      invariant |deleted| == |time| == |f.blocks|
      invariant Closing(f, deleted, worklist, succs[k..]) && Timed(f, deleted, time, clock) && 0 < clock
      invariant Kept(deleted) < Kept(deleted0) || (Kept(deleted) == Kept(deleted0) && worklist == worklist0)
    {
      var next := succs[k];
      assert succs[k..][0] == next && succs[k..][1..] == succs[k + 1..];
      assert next in succs && Edge(f, curr, next);
      if !deleted[next] && AllDeleted(f.blocks[next].pred, deleted) {
        MarkStep(f, deleted, worklist, curr, succs[k..]);
        MarkTimed(f, deleted, time, clock, next);
        time, clock := time[next := clock], clock + 1;
        worklist := worklist + [next];
        deleted := deleted[next := true];
      } else {
        SkipStep(f, deleted, worklist, succs[k..]);
      }
    }
    assert succs[|succs|..] == [];
  }

  lemma ClosingRange(f: Function, deleted: seq<bool>, worklist: seq<nat>, rest: seq<nat>, time: seq<nat>, clock: nat)
    requires Mirrored(f) && Closing(f, deleted, worklist, rest) && Timed(f, deleted, time, clock)
    ensures |deleted| == |time| == |f.blocks|
  {
  }

  lemma SkipStep(f: Function, deleted: seq<bool>, worklist: seq<nat>, rest: seq<nat>)
    requires Mirrored(f) && rest != [] && Closing(f, deleted, worklist, rest) && rest[0] < |f.blocks|
    requires deleted[rest[0]] || !AllDeleted(f.blocks[rest[0]].pred, deleted)
    ensures Closing(f, deleted, worklist, rest[1..])
  {
    assert rest == [rest[0]] + rest[1..];
  }

  lemma Started(f: Function, deleted: seq<bool>, worklist: seq<nat>)
    requires Mirrored(f) && EntryOk(f) && |deleted| == |f.blocks|
    requires forall b :: 0 <= b < |deleted| ==> (deleted[b] <==> 0 < b && f.blocks[b].pred == [])
    requires forall b: nat :: b in worklist <==> b < |deleted| && deleted[b]
    ensures Closing(f, deleted, worklist, [])
  {
    forall b: nat | 0 < b < |f.blocks| && !deleted[b] && AllDeleted(f.blocks[b].pred, deleted)
      ensures exists a :: a in worklist && a in f.blocks[b].pred
    {
      assert f.blocks[b].pred[0] in f.blocks[b].pred;
    }
  }

  lemma StartedTimed(f: Function, deleted: seq<bool>, time: seq<nat>)
    requires Mirrored(f) && |deleted| == |time| == |f.blocks|
    requires forall b :: 0 <= b < |deleted| && deleted[b] ==> f.blocks[b].pred == []
    requires forall b :: 0 <= b < |time| ==> time[b] == 0
    ensures Timed(f, deleted, time, 1)
  {
    forall a: nat, b: nat | Edge(f, a, b) ensures !deleted[b] {
      EdgeMirror(f, a, b);
    }
  }

  lemma MarkTimed(f: Function, deleted: seq<bool>, time: seq<nat>, clock: nat, next: nat)
    requires Mirrored(f) && Timed(f, deleted, time, clock) && next < |f.blocks| && 0 < clock
    requires !deleted[next] && AllDeleted(f.blocks[next].pred, deleted)
    ensures Timed(f, deleted[next := true], time[next := clock], clock + 1)
  {
    forall a: nat, b: nat | Edge(f, a, b) && deleted[next := true][b]
      ensures deleted[next := true][a] && time[next := clock][a] < time[next := clock][b]
    {
      EdgeMirror(f, a, b);
    }
  }

  lemma PopStep(f: Function, deleted: seq<bool>, worklist: seq<nat>)
    requires Mirrored(f) && worklist != [] && Closing(f, deleted, worklist, [])
    ensures worklist[0] < |f.blocks| && Closing(f, deleted, worklist[1..], f.blocks[worklist[0]].succ)
  {
    var curr := worklist[0];
    assert curr in worklist;
    assert forall b :: b in worklist[1..] ==> b in worklist;
    forall b: nat | 0 < b < |f.blocks| && !deleted[b] && AllDeleted(f.blocks[b].pred, deleted)
      ensures b in f.blocks[curr].succ || exists a :: a in worklist[1..] && a in f.blocks[b].pred
    {
      var a :| a in worklist && a in f.blocks[b].pred;
      if a == curr {
        EdgeMirror(f, curr, b);
      }
    }
  }

  lemma KeptShrinks(deleted: seq<bool>, next: nat)
    requires next < |deleted| && !deleted[next]
    ensures Kept(deleted[next := true]) < Kept(deleted)
  {
    assert next in Kept(deleted) && next !in Kept(deleted[next := true]);
  }

  lemma MarkStep(f: Function, deleted: seq<bool>, worklist: seq<nat>, curr: nat, rest: seq<nat>)
    requires Mirrored(f) && EntryOk(f) && curr < |f.blocks| && rest != [] && rest[0] < |f.blocks|
    requires Closing(f, deleted, worklist, rest) && Edge(f, curr, rest[0])
    requires !deleted[rest[0]] && AllDeleted(f.blocks[rest[0]].pred, deleted)
    ensures Closing(f, deleted[rest[0] := true], worklist + [rest[0]], rest[1..])
    ensures Kept(deleted[rest[0] := true]) < Kept(deleted)
  {
    var next := rest[0];
    var deleted', worklist' := deleted[next := true], worklist + [next];
    EdgeMirror(f, curr, next);
    KeptShrinks(deleted, next);
    hide Kept;
    forall b: nat | 0 < b < |f.blocks| && !deleted'[b] && AllDeleted(f.blocks[b].pred, deleted')
      ensures b in rest[1..] || exists a :: a in worklist' && a in f.blocks[b].pred
    {
      if next in f.blocks[b].pred {
        assert next in worklist';
      } else {
        assert AllDeleted(f.blocks[b].pred, deleted);
        if a :| a in worklist && a in f.blocks[b].pred {
          assert a in worklist';
        }
      }
    }
  }

  lemma Finished(f: Function, deleted: seq<bool>, time: seq<nat>, clock: nat)
    requires Mirrored(f) && EntryOk(f) && Closing(f, deleted, [], []) && Timed(f, deleted, time, clock)
    ensures IsDeadSet(f, deleted)
    ensures forall b: nat :: b < |f.blocks| && deleted[b] ==> !Reachable(f, b)
    ensures (forall b: nat :: b < |f.blocks| ==> (deleted[b] <==> !Reachable(f, b))) <==> NoUnreachableCycles(f)
  {
    if forall b: nat :: b < |f.blocks| ==> (deleted[b] <==> !Reachable(f, b)) {
      assert RanksUnreachable(f, time);
    }
    forall b: nat | b < |f.blocks| && deleted[b] ensures !Reachable(f, b) {
      if path :| PathTo(f, path, b) {
        DeletedIsUnreachable(f, deleted, path);
      }
    }
    if NoUnreachableCycles(f) {
      var rank: seq<nat> :| RanksUnreachable(f, rank);
      forall b: nat | b < |f.blocks| && !Reachable(f, b) ensures deleted[b] {
        UnreachableIsDeleted(f, deleted, rank, b);
      }
    }
  }
}
