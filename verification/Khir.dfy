/**
 KHIR functions: instructions, basic blocks and the control-flow graph.
 */
module Khir {
  import opened Sequences

  /** An operand: the result of an instruction, or a constant or global. */
  datatype Value = Local(idx: nat) | Const(id: nat)

  /** Instructions, grouped by how the simplifier treats their operands. */
  datatype Instr =
    | Op(code: nat, a0: Value, a1: Value)      // operands are rewritten
    | Plain(code: nat)                         // no value operands
    | CallIndirect(callee: Value)              // the callee is never rewritten
    | Phi
    | PhiMember(phi: Value, value: Value)
    | Br(target: nat)
    | CondBr(cond: Value, ifTrue: nat, ifFalse: nat)
    | Return
    | ReturnValue(value: Value)
  {
    predicate IsTerminator() { Br? || CondBr? || Return? || ReturnValue? }

    function Targets(): (s: seq<nat>)
    {
      if Br? then [target] else if CondBr? then [ifTrue, ifFalse] else []
    }

    /** The values read by the instruction. */
    function Operands(): (s: seq<Value>)
    {
      match this
      case Op(_, a0, a1) => [a0, a1]
      case CallIndirect(c) => [c]
      case PhiMember(_, v) => [v]
      case CondBr(c, _, _) => [c]
      case ReturnValue(v) => [v]
      case _ => []
    }

    /** The values that the simplifier looks up to rewrite the instruction. */
    function LookedUp(): (s: seq<Value>)
    {
      match this
      case Op(_, a0, a1) => [a0, a1]
      case PhiMember(p, v) => [p, v]
      case CondBr(c, _, _) => [c]
      case ReturnValue(v) => [v]
      case _ => []
    }
  }

  /** Inclusive ranges of instruction indices, and the neighbours in the graph. */
  datatype Block = Block(segments: seq<(int, int)>, succ: seq<nat>, pred: seq<nat>)

  datatype Function = Function(instrs: seq<Instr>, blocks: seq<Block>)

  /** The instruction indices of a list of segments, in execution order. */
  function Indices(segments: seq<(int, int)>): (s: seq<int>)
  {
    if segments == [] then [] else Range(segments[0].0, segments[0].1) + Indices(segments[1..])
  }

  lemma AppendAssociates(a: seq<int>, b: seq<int>, c: seq<int>)
    ensures a + (b + c) == a + b + c
  {
  }

  lemma {:induction false} IndicesConcat(a: seq<(int, int)>, b: seq<(int, int)>)
    ensures Indices(a + b) == Indices(a) + Indices(b)
  {
    hide Range;
    if a == [] {
      assert a + b == b;
    } else {
      IndicesConcat(a[1..], b);
      assert (a + b)[1..] == a[1..] + b;
      assert (a + b)[0] == a[0];
      AppendAssociates(Range(a[0].0, a[0].1), Indices(a[1..]), Indices(b));
    }
  }

  // ----- well-formed graphs -----

  /** First and last instruction of a block that has not been merged yet. */
  function First(f: Function, b: nat): (i: int)
    requires b < |f.blocks| && |f.blocks[b].segments| == 1
  {
    f.blocks[b].segments[0].0
  }

  function Last(f: Function, b: nat): (i: int)
    requires b < |f.blocks| && |f.blocks[b].segments| == 1
  {
    f.blocks[b].segments[0].1
  }

  /** Blocks are disjoint ranges that end in their only terminator, whose targets are the
      successors. */
  ghost predicate BlocksOk(f: Function)
  {
    && (forall b :: 0 <= b < |f.blocks| ==> |f.blocks[b].segments| == 1)
    && (forall b :: 0 <= b < |f.blocks| ==>
                      && 0 <= First(f, b) <= Last(f, b) < |f.instrs|
                      && f.instrs[Last(f, b)].IsTerminator()
                      && f.blocks[b].succ == f.instrs[Last(f, b)].Targets())
    && (forall b, i :: 0 <= b < |f.blocks| && First(f, b) <= i < Last(f, b) ==> !f.instrs[i].IsTerminator())
    && (forall a, b :: 0 <= a < b < |f.blocks| ==> Last(f, a) < First(f, b) || Last(f, b) < First(f, a))
  }

  /** Successor and predecessor lists are mirror images, edge by edge. */
  ghost predicate Mirrored(f: Function)
  {
    && (forall b, t :: 0 <= b < |f.blocks| && t in f.blocks[b].succ ==> t < |f.blocks|)
    && (forall b, t :: 0 <= b < |f.blocks| && t in f.blocks[b].pred ==> t < |f.blocks|)
    && (forall a: nat, b: nat :: a < |f.blocks| && b < |f.blocks| ==>
                                   multiset(f.blocks[a].succ)[b] == multiset(f.blocks[b].pred)[a])
  }

  /** Nothing branches to the entry block. */
  ghost predicate EntryOk(f: Function)
  {
    0 < |f.blocks| && f.blocks[0].pred == []
  }

  ghost predicate IsGraph(f: Function)
  {
    BlocksOk(f) && Mirrored(f) && EntryOk(f)
  }

  predicate Edge(f: Function, a: nat, b: nat)
  {
    a < |f.blocks| && b < |f.blocks| && b in f.blocks[a].succ
  }

  lemma EdgeMirror(f: Function, a: nat, b: nat)
    requires Mirrored(f) && a < |f.blocks| && b < |f.blocks|
    ensures Edge(f, a, b) <==> a in f.blocks[b].pred
  {
    assert b in multiset(f.blocks[a].succ) <==> b in f.blocks[a].succ;
    assert a in multiset(f.blocks[b].pred) <==> a in f.blocks[b].pred;
  }

  // ----- paths and dominance -----

  /** A walk from the entry. */
  ghost predicate IsPath(f: Function, path: seq<nat>)
  {
    && 0 < |path| && path[0] == 0
    && (forall i :: 0 <= i < |path| ==> path[i] < |f.blocks|)
    && (forall i :: 0 < i < |path| ==> Edge(f, path[i - 1], path[i]))
  }

  ghost predicate PathTo(f: Function, path: seq<nat>, b: nat)
  {
    IsPath(f, path) && path[|path| - 1] == b
  }

  ghost predicate Reachable(f: Function, b: nat)
  {
    exists path :: PathTo(f, path, b)
  }

  /** Every walk from the entry to `b` visits `a`. */
  ghost predicate Dominates(f: Function, a: nat, b: nat)
  {
    forall path :: PathTo(f, path, b) ==> a in path
  }

  lemma PathPrefix(f: Function, path: seq<nat>, k: nat)
    requires IsPath(f, path) && k < |path|
    ensures PathTo(f, path[..k + 1], path[k])
  {
  }

  lemma PathAppend(f: Function, path: seq<nat>, b: nat)
    requires IsPath(f, path) && Edge(f, path[|path| - 1], b)
    ensures PathTo(f, path + [b], b)
  {
    var q := path + [b];
    forall i | 0 < i < |q| ensures Edge(f, q[i - 1], q[i]) {
      if i < |path| { assert Edge(f, path[i - 1], path[i]); }
    }
  }

  lemma DominatesTrans(f: Function, a: nat, b: nat, c: nat)
    requires Dominates(f, a, b) && Dominates(f, b, c)
    ensures Dominates(f, a, c)
  {
    forall path | PathTo(f, path, c) ensures a in path {
      assert b in path;
      var k :| 0 <= k < |path| && path[k] == b;
      PathPrefix(f, path, k);
      assert a in path[..k + 1];
    }
  }

  /** Mutual dominance of different blocks would need an endless walk. */
  lemma {:induction false} DominanceIsAntisymmetric(f: Function, a: nat, b: nat, path: seq<nat>)
    requires Dominates(f, a, b) && Dominates(f, b, a) && a != b
    ensures !PathTo(f, path, a) && !PathTo(f, path, b)
    decreases |path|
  {
    if PathTo(f, path, a) {
      var k :| 0 <= k < |path| && path[k] == b;
      PathPrefix(f, path, k);
      DominanceIsAntisymmetric(f, a, b, path[..k + 1]);
    }
    if PathTo(f, path, b) {
      var k :| 0 <= k < |path| && path[k] == a;
      PathPrefix(f, path, k);
      DominanceIsAntisymmetric(f, a, b, path[..k + 1]);
    }
  }

  /** The dominators of a block. */
  ghost function Dominators(f: Function, b: nat): (s: set<nat>)
  {
    set a: nat | a < |f.blocks| && Dominates(f, a, b)
  }

  lemma StrictDominatorHasFewer(f: Function, a: nat, b: nat)
    requires Dominates(f, a, b) && a != b && Reachable(f, b) && b < |f.blocks|
    ensures |Dominators(f, a)| < |Dominators(f, b)|
  {
    var s, t := Dominators(f, a), Dominators(f, b);
    forall x | x in s ensures x in t {
      DominatesTrans(f, x, a, b);
    }
    var path :| PathTo(f, path, b);
    assert b in t;
    if Dominates(f, b, a) {
      DominanceIsAntisymmetric(f, a, b, path);
    }
    assert s < t;
    SmallerSubset(s, t);
  }

  lemma SmallerSubset(s: set<nat>, t: set<nat>)
    requires s < t
    ensures |s| < |t|
  {
    var x :| x in t && x !in s;
    assert s <= t - {x};
    SubsetSize(s, t - {x});
  }

  lemma {:induction false} SubsetSize(s: set<nat>, t: set<nat>)
    requires s <= t
    ensures |s| <= |t|
  {
    if s != {} {
      var x :| x in s;
      SubsetSize(s - {x}, t - {x});
    }
  }
}
