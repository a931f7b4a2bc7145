/**
 Replacing removed phis in the instructions that remain.
 */
module CfgRewrite {
  import opened Sequences
  import opened Khir
  import opened Wrappers
  import opened Lookups
  import opened CfgSimulation
  import opened ChainMerge

  /** The lookups needed to rewrite the instruction end. */
  ghost predicate Settles(vm: map<Value, Value>, instr: Instr)
  {
    forall v :: v in instr.LookedUp() ==> Ends(vm, v)
  }

  /** Looks the operands up one after the other; there is no result if one of the lookups never ends. */
  method RewriteInstr(vm: map<Value, Value>, instr: Instr) returns (r: Option<Instr>)
    ensures r.Some? <==> Settles(vm, instr)
    ensures r.Some? ==> r.value == Rewrite(vm, instr)
  {
    hide Ends, Resolve;
    match instr
    case Op(code, a0, a1) =>
      var v0, v1 := ResolveBoth(vm, a0, a1);
      r := if v1.Some? then Some(Op(code, v0.value, v1.value)) else None;
    case PhiMember(p, v) =>
      var v0, v1 := ResolveBoth(vm, p, v);
      r := if v1.Some? then Some(PhiMember(v0.value, v1.value)) else None;
    case CondBr(c, t, e) =>
      var v0 := ResolveValue(vm, c);
      r := if v0.Some? then Some(CondBr(v0.value, t, e)) else None;
    case ReturnValue(v) =>
      var v0 := ResolveValue(vm, v);
      r := if v0.Some? then Some(ReturnValue(v0.value)) else None;
    case _ =>
      r := Some(instr);
  }

  method ResolveBoth(vm: map<Value, Value>, a0: Value, a1: Value) returns (v0: Option<Value>, v1: Option<Value>)
    ensures v1.Some? <==> Ends(vm, a0) && Ends(vm, a1)
    ensures v1.Some? ==> v0 == Some(Resolve(vm, a0)) && v1.value == Resolve(vm, a1)
  {
    v0 := ResolveValue(vm, a0);
    v1 := None;
    if v0.Some? {
      v1 := ResolveValue(vm, a1);
    }
  }

  lemma RewriteTwice(vm: map<Value, Value>, instr: Instr)
    ensures Rewrite(vm, Rewrite(vm, instr)) == Rewrite(vm, instr)
    ensures Settles(vm, instr) ==> Settles(vm, Rewrite(vm, instr))
  {
    hide Ends, Resolve;
    forall v ensures Resolve(vm, Resolve(vm, v)) == Resolve(vm, v) && (Ends(vm, v) ==> Ends(vm, Resolve(vm, v))) {
      ResolveTwice(vm, v);
    }
    if instr.Op? { assert instr.a0 in instr.LookedUp() && instr.a1 in instr.LookedUp(); }
    if instr.PhiMember? { assert instr.phi in instr.LookedUp() && instr.value in instr.LookedUp(); }
    if instr.CondBr? { assert instr.cond in instr.LookedUp(); }
    if instr.ReturnValue? { assert instr.value in instr.LookedUp(); }
  }

  /** Index `j` has been rewritten exactly if it is in `done`. */
  ghost predicate RewrittenIn(f: Function, vm: map<Value, Value>, done: seq<int>, instrs: seq<Instr>)
  {
    |instrs| == |f.instrs| && forall j :: 0 <= j < |instrs| ==>
        instrs[j] == if j in done then Rewrite(vm, f.instrs[j]) else f.instrs[j]
  }

  ghost predicate AllSettle(f: Function, vm: map<Value, Value>, done: seq<int>)
  {
    forall j :: j in done && 0 <= j < |f.instrs| ==> Settles(vm, f.instrs[j])
  }

  method RewriteRange(ghost f: Function, vm: map<Value, Value>, ghost done: seq<int>, instrs0: seq<Instr>, lo: int,
                      hi: int)
    returns (r: Option<seq<Instr>>)
    requires RewrittenIn(f, vm, done, instrs0) && AllSettle(f, vm, done) && 0 <= lo && hi < |instrs0|
    ensures r.Some? <==> AllSettle(f, vm, done + Range(lo, hi))
    ensures r.Some? ==> RewrittenIn(f, vm, done + Range(lo, hi), r.value)
  {
    hide Settles, Rewrite, Range;
    var instrs := instrs0;
    var idx := lo;
    RangeElements(lo, lo - 1);
    RangeElements(lo, hi);
    assert done + Range(lo, lo - 1) == done;
    while idx <= hi
      invariant lo <= idx && if lo > hi then idx == lo else idx <= hi + 1
      invariant RewrittenIn(f, vm, done + Range(lo, idx - 1), instrs) && AllSettle(f, vm, done + Range(lo, idx - 1))
    {
      RewriteTwice(vm, f.instrs[idx]);
      var instr := RewriteInstr(vm, instrs[idx]);
      if instr.None? {
        assert Range(lo, hi)[idx - lo] == idx && idx in done + Range(lo, hi);
        return None;
      }
      instrs := instrs[idx := instr.value];
      RangeSplit(lo, idx, idx);
      SingleIndex(idx);
      idx := idx + 1;
    }
    if lo > hi {
      assert Range(lo, hi) == Range(lo, lo - 1);
    }
    r := Some(instrs);
  }

  lemma SingleIndex(i: int)
    ensures Range(i, i) == [i]
  {
    assert Range(i + 1, i) == [];
  }

  method RewriteSegments(ghost f: Function, vm: map<Value, Value>, ghost done: seq<int>, instrs0: seq<Instr>,
                         segs: seq<(int, int)>)
    returns (r: Option<seq<Instr>>)
    requires RewrittenIn(f, vm, done, instrs0) && AllSettle(f, vm, done)
    requires forall k :: 0 <= k < |segs| ==> SegmentOk(instrs0, segs[k])
    ensures r.Some? <==> AllSettle(f, vm, done + Indices(segs))
    ensures r.Some? ==> RewrittenIn(f, vm, done + Indices(segs), r.value)
  {
    hide Settles, Rewrite, Range, RewrittenIn;
    assert done + Indices([]) == done;
    r := Some(instrs0);
    for k := 0 to |segs|
      invariant r.Some? && RewrittenIn(f, vm, done + Indices(segs[..k]), r.value)
      invariant AllSettle(f, vm, done + Indices(segs[..k]))
    {
      assert SegmentOk(instrs0, segs[k]);
      RewrittenSize(f, vm, done, instrs0);
      RewrittenSize(f, vm, done + Indices(segs[..k]), r.value);
      r := RewriteRange(f, vm, done + Indices(segs[..k]), r.value, segs[k].0, segs[k].1);
      assert segs[..k + 1] == segs[..k] + [segs[k]];
      IndicesConcat(segs[..k], [segs[k]]);
      SingleSegment(segs[k].0, segs[k].1);
      assert done + Indices(segs[..k]) + Range(segs[k].0, segs[k].1) == done + Indices(segs[..k + 1]);
      if r.None? {
        assert segs == segs[..k + 1] + segs[k + 1..];
        IndicesConcat(segs[..k + 1], segs[k + 1..]);
        return;
      }
    }
    assert segs[..|segs|] == segs;
  }

  lemma RewrittenSize(f: Function, vm: map<Value, Value>, done: seq<int>, instrs: seq<Instr>)
    requires RewrittenIn(f, vm, done, instrs)
    ensures |instrs| == |f.instrs|
  {
  }

  /** The indices of the first `n` remaining blocks. */
  ghost function AllIndices(blocks: seq<Block>, deleted: seq<bool>, n: nat): (s: seq<int>)
    requires n <= |blocks| == |deleted|
  {
    if n == 0 then []
    else AllIndices(blocks, deleted, n - 1) + if deleted[n - 1] then [] else Indices(blocks[n - 1].segments)
  }

  lemma {:induction false} InAllIndices(blocks: seq<Block>, deleted: seq<bool>, n: nat, b: nat, j: int)
    requires b < n <= |blocks| == |deleted| && !deleted[b] && j in Indices(blocks[b].segments)
    ensures j in AllIndices(blocks, deleted, n)
  {
    hide Indices;
    var last := if deleted[n - 1] then [] else Indices(blocks[n - 1].segments);
    assert AllIndices(blocks, deleted, n) == AllIndices(blocks, deleted, n - 1) + last;
    if b < n - 1 { InAllIndices(blocks, deleted, n - 1, b, j); }
  }

  /** Rewrites the instructions of all remaining blocks.  This ends exactly if the lookups of all of these
      instructions end. */
  method RewriteAll(f: Function, vm: map<Value, Value>, blocks: seq<Block>, deleted: seq<bool>)
    returns (r: Option<seq<Instr>>)
    requires |blocks| == |deleted|
    requires forall b, k :: 0 <= b < |blocks| && !deleted[b] && 0 <= k < |blocks[b].segments| ==>
             SegmentOk(f.instrs, blocks[b].segments[k])
    ensures r.Some? <==> AllSettle(f, vm, AllIndices(blocks, deleted, |blocks|))
    ensures r.Some? ==> RewrittenIn(f, vm, AllIndices(blocks, deleted, |blocks|), r.value)
  {
    hide Settles, Rewrite, Indices;
    r := Some(f.instrs);
    for i := 0 to |blocks|
      invariant r.Some? && RewrittenIn(f, vm, AllIndices(blocks, deleted, i), r.value)
      invariant AllSettle(f, vm, AllIndices(blocks, deleted, i))
    {
      if deleted[i] {
        assert AllIndices(blocks, deleted, i + 1) == AllIndices(blocks, deleted, i);
        continue;
      }
      r := RewriteSegments(f, vm, AllIndices(blocks, deleted, i), r.value, blocks[i].segments);
      if r.None? {
        IndicesGrow(blocks, deleted, i + 1, |blocks|);
        return;
      }
    }
  }

  lemma {:induction false} IndicesGrow(blocks: seq<Block>, deleted: seq<bool>, n: nat, m: nat)
    requires n <= m <= |blocks| == |deleted|
    ensures forall j :: j in AllIndices(blocks, deleted, n) ==> j in AllIndices(blocks, deleted, m)
    decreases m
  {
    hide Indices;
    if n < m { IndicesGrow(blocks, deleted, n, m - 1); }
  }
}
