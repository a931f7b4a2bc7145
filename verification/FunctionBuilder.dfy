/**
 Building a KHIR function instruction by instruction.
 */
module FunctionBuilder {
  import opened Sequences
  import opened Wrappers
  import opened Khir

  // ----- edges -----

  ghost predicate InRange(lists: seq<seq<nat>>, n: nat)
  {
    forall b, t :: 0 <= b < |lists| && t in lists[b] ==> t < n
  }

  ghost predicate Mirror(succ: seq<seq<nat>>, pred: seq<seq<nat>>)
    requires |succ| == |pred|
  {
    forall a: nat, b: nat :: a < |succ| && b < |succ| ==> multiset(succ[a])[b] == multiset(pred[b])[a]
  }

  ghost predicate EdgesOk(succ: seq<seq<nat>>, pred: seq<seq<nat>>)
  {
    |succ| == |pred| && InRange(succ, |succ|) && InRange(pred, |succ|) && Mirror(succ, pred)
  }

  function Pushed(lists: seq<seq<nat>>, b: nat, t: nat): (r: seq<seq<nat>>)
    requires b < |lists|
    ensures |r| == |lists| && forall a :: 0 <= a < |lists| ==> r[a] == lists[a] + (if a == b then [t] else [])
  {
    lists[b := lists[b] + [t]]
  }

  /** One entry for each time a block is a target. */
  function Arrivals(targets: seq<nat>, t: nat, from: nat): (s: seq<nat>)
  {
    if targets == [] then [] else (if targets[0] == t then [from] else []) + Arrivals(targets[1..], t, from)
  }

  /** Every target has gained its entries at the end of its predecessor list. */
  ghost predicate Arrived(before: seq<seq<nat>>, after: seq<seq<nat>>, targets: seq<nat>, from: nat)
  {
    |after| == |before| && forall t: nat :: t < |after| ==> after[t] == before[t] + Arrivals(targets, t, from)
  }

  lemma ArrivedNowhere(pred: seq<seq<nat>>, from: nat)
    ensures Arrived(pred, pred, [], from)
  {
  }

  lemma ArrivedOnce(pred: seq<seq<nat>>, t: nat, from: nat)
    requires t < |pred|
    ensures Arrived(pred, Pushed(pred, t, from), [t], from)
  {
  }

  lemma ArrivedTwice(pred: seq<seq<nat>>, t: nat, e: nat, from: nat)
    requires t < |pred| && e < |pred|
    ensures Arrived(pred, Pushed(Pushed(pred, t, from), e, from), [t, e], from)
  {
    forall x: nat | x < |pred|
      ensures Pushed(Pushed(pred, t, from), e, from)[x] == pred[x] + Arrivals([t, e], x, from)
    {
      assert [t, e][1..] == [e] && [e][1..] == [];
      assert Arrivals([e], x, from) == if e == x then [from] else [];
    }
  }

  lemma PushedCounts(succ: seq<seq<nat>>, pred: seq<seq<nat>>, curr: nat, t: nat, a: nat, b: nat)
    requires |succ| == |pred| && curr < |succ| && t < |succ| && a < |succ| && b < |succ| &&
             multiset(succ[a])[b] == multiset(pred[b])[a]
    ensures multiset(Pushed(succ, curr, t)[a])[b] == multiset(Pushed(pred, t, curr)[b])[a]
  {
    hide Pushed;
    var s, p: seq<nat> := if a == curr then [t] else [], if b == t then [curr] else [];
    CountAppend(succ[a], s, b);
    CountAppend(pred[b], p, a);
    assert multiset(s)[b] == multiset(p)[a];
  }

  lemma PushedInRange(lists: seq<seq<nat>>, b: nat, t: nat, n: nat)
    requires InRange(lists, n) && b < |lists| && t < n
    ensures InRange(Pushed(lists, b, t), n)
  {
    forall a, x | 0 <= a < |lists| && x in Pushed(lists, b, t)[a] ensures x < n {
      assert x in lists[a] || x == t;
    }
  }

  /** An edge recorded on both sides. */
  lemma PushedEdges(succ: seq<seq<nat>>, pred: seq<seq<nat>>, curr: nat, t: nat)
    requires EdgesOk(succ, pred) && curr < |succ| && t < |succ|
    ensures EdgesOk(Pushed(succ, curr, t), Pushed(pred, t, curr))
  {
    hide InRange, Pushed;
    PushedInRange(succ, curr, t, |succ|);
    PushedInRange(pred, t, curr, |succ|);
    forall a: nat, b: nat | a < |succ| && b < |succ|
      ensures multiset(Pushed(succ, curr, t)[a])[b] == multiset(Pushed(pred, t, curr)[b])[a]
    {
      PushedCounts(succ, pred, curr, t, a, b);
    }
  }

  lemma NewBlockEdges(succ: seq<seq<nat>>, pred: seq<seq<nat>>)
    requires EdgesOk(succ, pred)
    ensures EdgesOk(succ + [[]], pred + [[]])
  {
    var s, p, n := succ + [[]], pred + [[]], |succ|;
    forall a: nat, b: nat | a < |s| && b < |s| ensures multiset(s[a])[b] == multiset(p[b])[a] {
      assert a < n ==> (b in succ[a] <==> b in multiset(succ[a]));
      assert b < n ==> (a in pred[b] <==> a in multiset(pred[b]));
    }
  }

  // ----- blocks -----

  /** A block is fresh, open (it has a start only) or closed. */
  predicate Fresh(r: (int, int))
  {
    r.0 < 0 && r.1 < 0
  }

  predicate Closed(r: (int, int))
  {
    0 <= r.0 && 0 <= r.1
  }

  /** Where the instructions of a block end so far. */
  function End(r: (int, int), size: nat): (e: int)
  {
    if r.1 >= 0 then r.1 else size - 1
  }

  ghost predicate BlockOk(instrs: seq<Instr>, r: (int, int), succ: seq<nat>)
  {
    if r.1 >= 0 then
      && 0 <= r.0 <= r.1 < |instrs| && instrs[r.1].IsTerminator() && succ == instrs[r.1].Targets()
      && (forall i :: r.0 <= i < r.1 ==> !instrs[i].IsTerminator())
    else
      && succ == [] && r.0 < |instrs| && (r.0 >= 0 ==> forall i :: r.0 <= i < |instrs| ==> !instrs[i].IsTerminator())
  }

  ghost predicate Disjoint(ranges: seq<(int, int)>, size: nat)
  {
    forall a, b :: 0 <= a < b < |ranges| && ranges[a].0 >= 0 && ranges[b].0 >= 0 ==>
                     End(ranges[a], size) < ranges[b].0 || End(ranges[b], size) < ranges[a].0
  }

  /** Only the current block can be open. */
  ghost predicate OneOpen(ranges: seq<(int, int)>, current: nat)
  {
    forall b :: 0 <= b < |ranges| && b != current ==> Fresh(ranges[b]) || Closed(ranges[b])
  }

  ghost predicate Ranged(instrs: seq<Instr>, ranges: seq<(int, int)>, succ: seq<seq<nat>>, current: nat)
  {
    && |ranges| == |succ| && current < |ranges| && OneOpen(ranges, current) && Disjoint(ranges, |instrs|)
    && forall b :: 0 <= b < |ranges| ==> BlockOk(instrs, ranges[b], succ[b])
  }

  datatype Outcome<T> = Error(message: string) | Ok(value: T)

  /** A stray instruction outside all closed blocks. */
  lemma StrayAppended(instrs: seq<Instr>, ranges: seq<(int, int)>, succ: seq<seq<nat>>, current: nat, instr: Instr)
    requires Ranged(instrs, ranges, succ, current) && ranges[current].1 >= 0
    ensures Ranged(instrs + [instr], ranges, succ, current)
  {
    forall b | 0 <= b < |ranges| ensures BlockOk(instrs + [instr], ranges[b], succ[b]) {
      assert BlockOk(instrs, ranges[b], succ[b]);
    }
  }

  /** The current block grows by an instruction that does not end it. */
  lemma PlainAppended(instrs: seq<Instr>, ranges: seq<(int, int)>, succ: seq<seq<nat>>, current: nat, instr: Instr)
    requires Ranged(instrs, ranges, succ, current) && ranges[current].1 < 0 && !instr.IsTerminator()
    ensures var first := if ranges[current].0 < 0 then |instrs| else ranges[current].0;
            Ranged(instrs + [instr], ranges[current := (first, ranges[current].1)], succ, current)
  {
    var first := if ranges[current].0 < 0 then |instrs| else ranges[current].0;
    var instrs', ranges' := instrs + [instr], ranges[current := (first, ranges[current].1)];
    forall b | 0 <= b < |ranges| ensures BlockOk(instrs', ranges'[b], succ[b]) {
      assert BlockOk(instrs, ranges[b], succ[b]);
    }
    forall a, b | 0 <= a < b < |ranges'| && ranges'[a].0 >= 0 && ranges'[b].0 >= 0
      ensures End(ranges'[a], |instrs'|) < ranges'[b].0 || End(ranges'[b], |instrs'|) < ranges'[a].0
    {
      assert BlockOk(instrs, ranges[a], succ[a]) && BlockOk(instrs, ranges[b], succ[b]);
    }
  }

  /** The current block ends. */
  lemma TerminatorAppended(instrs: seq<Instr>, ranges: seq<(int, int)>, succ: seq<seq<nat>>, current: nat, instr: Instr)
    requires Ranged(instrs, ranges, succ, current) && ranges[current].1 < 0 && instr.IsTerminator()
    ensures var first := if ranges[current].0 < 0 then |instrs| else ranges[current].0;
            Ranged(instrs + [instr], ranges[current := (first, |instrs|)], succ[current := instr.Targets()], current)
  {
    var first := if ranges[current].0 < 0 then |instrs| else ranges[current].0;
    var instrs', ranges', succ' := instrs + [instr], ranges[current := (first, |instrs|)],
        succ[current := instr.Targets()];
    forall b | 0 <= b < |ranges| ensures BlockOk(instrs', ranges'[b], succ'[b]) {
      assert BlockOk(instrs, ranges[b], succ[b]);
    }
    forall a, b | 0 <= a < b < |ranges'| && ranges'[a].0 >= 0 && ranges'[b].0 >= 0
      ensures End(ranges'[a], |instrs'|) < ranges'[b].0 || End(ranges'[b], |instrs'|) < ranges'[a].0
    {
      assert BlockOk(instrs, ranges[a], succ[a]) && BlockOk(instrs, ranges[b], succ[b]);
    }
  }

  // ----- what a block contains -----

  /** The indices of the instructions in the range of a block so far. */
  function Members(r: (int, int), size: nat): (s: seq<int>)
  {
    if r.0 < 0 then [] else Range(r.0, End(r, size))
  }

  /** Of all instructions, those that a block took, in the order in which they were appended. */
  ghost function Taken(homes: seq<Option<nat>>, b: nat): (s: seq<int>)
  {
    if homes == [] then []
    else
      var n := |homes| - 1;
      Taken(homes[..n], b) + if homes[n] == Some(b) then [n] else []
  }

  lemma TakenNext(homes: seq<Option<nat>>, home: Option<nat>, b: nat)
    ensures Taken(homes + [home], b) == Taken(homes, b) + if home == Some(b) then [|homes|] else []
  {
    assert (homes + [home])[..|homes|] == homes;
  }

  /** The range of a block is the list of the instructions that it took. */
  ghost predicate Housed(homes: seq<Option<nat>>, ranges: seq<(int, int)>, size: nat)
  {
    && |homes| == size && (forall i :: 0 <= i < size && homes[i].Some? ==> homes[i].value < |ranges|)
    && forall b: nat :: b < |ranges| ==> Members(ranges[b], size) == Taken(homes, b)
  }

  lemma {:induction false} NothingTaken(homes: seq<Option<nat>>, b: nat)
    requires forall i :: 0 <= i < |homes| && homes[i].Some? ==> homes[i].value < b
    ensures Taken(homes, b) == []
  {
    if homes != [] { NothingTaken(homes[..|homes| - 1], b); }
  }

  lemma HousedNewBlock(homes: seq<Option<nat>>, ranges: seq<(int, int)>, size: nat)
    requires Housed(homes, ranges, size)
    ensures Housed(homes, ranges + [(-1, -1)], size)
  {
    NothingTaken(homes, |ranges|);
  }

  lemma HousedStray(homes: seq<Option<nat>>, ranges: seq<(int, int)>, size: nat)
    requires Housed(homes, ranges, size) && forall b :: 0 <= b < |ranges| ==> Fresh(ranges[b]) || Closed(ranges[b])
    ensures Housed(homes + [None], ranges, size + 1)
    ensures forall b :: 0 <= b < |ranges| ==> Members(ranges[b], size + 1) == Members(ranges[b], size)
  {
    forall b: nat | b < |ranges| ensures Members(ranges[b], size + 1) == Taken(homes + [None], b) {
      TakenNext(homes, None, b);
    }
  }

  /** A block that takes an instruction has it at its end, and no other block changes. */
  lemma HousedNext(homes: seq<Option<nat>>, ranges: seq<(int, int)>, size: nat, current: nat, r: (int, int))
    requires Housed(homes, ranges, size) && current < |ranges| && OneOpen(ranges, current)
    requires ranges[current].1 < 0 && ranges[current].0 < size && (r.1 < 0 || r.1 == size)
    requires r.0 == if ranges[current].0 < 0 then size else ranges[current].0
    ensures Housed(homes + [Some(current)], ranges[current := r], size + 1)
    ensures Members(r, size + 1) == Members(ranges[current], size) + [size]
    ensures forall b :: 0 <= b < |ranges| && b != current ==> Members(ranges[b], size + 1) == Members(ranges[b], size)
  {
    RangeSplit(r.0, size, size);
    forall b: nat | b < |ranges|
      ensures Members(ranges[current := r][b], size + 1) == Taken(homes + [Some(current)], b)
    {
      TakenNext(homes, Some(current), b);
    }
  }

  /** The instructions at the given indices. */
  ghost function At(instrs: seq<Instr>, indices: seq<int>): (s: seq<Instr>)
    requires forall i :: i in indices ==> 0 <= i < |instrs|
  {
    seq(|indices|, k requires 0 <= k < |indices| => assert indices[k] in indices; instrs[indices[k]])
  }

  lemma AtNext(instrs: seq<Instr>, indices: seq<int>, instr: Instr)
    requires forall i :: i in indices ==> 0 <= i < |instrs|
    ensures At(instrs + [instr], indices) == At(instrs, indices)
    ensures At(instrs + [instr], indices + [|instrs|]) == At(instrs, indices) + [instr]
  {
    forall k | 0 <= k < |indices| ensures At(instrs + [instr], indices)[k] == At(instrs, indices)[k] {
      assert indices[k] in indices;
    }
  }

  lemma MembersInBounds(instrs: seq<Instr>, ranges: seq<(int, int)>, succ: seq<seq<nat>>, current: nat, b: nat)
    requires Ranged(instrs, ranges, succ, current) && b < |ranges|
    ensures forall i :: i in Members(ranges[b], |instrs|) ==> 0 <= i < |instrs|
  {
    assert BlockOk(instrs, ranges[b], succ[b]);
    RangeElements(ranges[b].0, End(ranges[b], |instrs|));
  }

  /** Every terminated block is listed once. */
  ghost predicate Listed(order: seq<nat>, ranges: seq<(int, int)>)
  {
    Distinct(order) && forall b: nat :: b in order <==> b < |ranges| && ranges[b].1 >= 0
  }

  lemma ListedNext(order: seq<nat>, ranges: seq<(int, int)>, current: nat, ends: bool, idx: nat)
    requires Listed(order, ranges) && current < |ranges| && ranges[current].1 < 0
    ensures forall first :: ends ==> Listed(order + [current], ranges[current := (first, idx)])
    ensures forall first :: !ends ==> Listed(order, ranges[current := (first, ranges[current].1)])
  {
  }

  class FunctionBuilder {
    var instrs: seq<Instr>
    var ranges: seq<(int, int)>
    var succ: seq<seq<nat>>
    var pred: seq<seq<nat>>
    var current: nat
    var order: seq<nat>
    ghost var homes: seq<Option<nat>>  // for each instruction, the block that took it

    ghost predicate Valid()
      reads this
    {
      && Ranged(instrs, ranges, succ, current) && EdgesOk(succ, pred) && Housed(homes, ranges, |instrs|)
      && Listed(order, ranges)
    }

    /** The instructions in the range of a block so far. */
    ghost function Contents(b: nat): (s: seq<Instr>)
      requires Valid() && b < |ranges|
      reads this
    {
      MembersInBounds(instrs, ranges, succ, current, b);
      At(instrs, Members(ranges[b], |instrs|))
    }

    /** A function starts with its entry block. */
    constructor ()
      ensures Valid() && |ranges| == 1 && current == 0 && instrs == [] && Contents(0) == []
    {
      instrs, ranges, succ, pred, current, order, homes := [], [(-1, -1)], [[]], [[]], 0, [], [];
    }

    method GenerateBasicBlock() returns (id: nat)
      requires Valid()
      modifies this
      ensures Valid() && id == |old(ranges)| && ranges == old(ranges) + [(-1, -1)]
      ensures instrs == old(instrs) && succ == old(succ) + [[]] && pred == old(pred) + [[]] && current == old(current)
      ensures order == old(order) && homes == old(homes) && Contents(id) == []
    {
      hide EdgesOk, Housed;
      NewBlockEdges(succ, pred);
      HousedNewBlock(homes, ranges, |instrs|);
      id := |ranges|;
      ranges := ranges + [(-1, -1)];
      succ := succ + [[]];
      pred := pred + [[]];
    }

    /** Leaving a block that is not terminated is an error. */
    method SetCurrentBlock(id: nat) returns (r: Outcome<()>)
      requires Valid() && id < |ranges|
      modifies this`current
      ensures r.Error? <==> ranges[old(current)].1 < 0
      ensures Valid() && current == if r.Ok? then id else old(current)
    {
      if ranges[current].1 < 0 {
        return Error("Cannot switch from current block unless it is terminated.");
      }
      forall b | 0 <= b < |ranges| && b != id ensures Fresh(ranges[b]) || Closed(ranges[b]) {
        assert BlockOk(instrs, ranges[b], succ[b]);
      }
      current := id;
      r := Ok(());
    }

    /** Records the edges of a branch on both sides. */
    method UpdateSuccessors(instr: Instr)
      requires EdgesOk(succ, pred) && current < |succ| && forall t :: t in instr.Targets() ==> t < |succ|
      modifies this`succ, this`pred
      ensures EdgesOk(succ, pred) && |succ| == |old(succ)|
      ensures succ == old(succ)[current := old(succ)[current] + instr.Targets()]
      ensures Arrived(old(pred), pred, instr.Targets(), current)
    {
      hide InRange, Mirror, Arrived;
      ghost var s := succ;
      match instr
      case Br(t) =>
        assert t in instr.Targets();
        PushedEdges(succ, pred, current, t);
        ArrivedOnce(pred, t, current);
        succ := Pushed(succ, current, t);
        pred := Pushed(pred, t, current);
      case CondBr(_, t, e) =>
        assert t in instr.Targets() && e in instr.Targets();
        ArrivedTwice(pred, t, e, current);
        PushedEdges(succ, pred, current, t);
        succ := Pushed(succ, current, t);
        pred := Pushed(pred, t, current);
        PushedEdges(succ, pred, current, e);
        succ := Pushed(succ, current, e);
        pred := Pushed(pred, e, current);
        assert s[current] + [t] + [e] == s[current] + [t, e];
      case _ =>
        ArrivedNowhere(pred, current);
        assert s[current] + [] == s[current];
        assert s[current := s[current]] == s;
    }

    /** What one more instruction does to the contents of a block. */
    lemma GrownContents(instr: Instr)
      requires Valid()
      ensures forall b: nat :: b < |ranges| ==>
                var members := Members(ranges[b], |instrs|);
                && (forall i :: i in members ==> 0 <= i < |instrs|)
                && At(instrs + [instr], members) == Contents(b)
                && At(instrs + [instr], members + [|instrs|]) == Contents(b) + [instr]
    {
      forall b: nat | b < |ranges|
        ensures forall i :: i in Members(ranges[b], |instrs|) ==> 0 <= i < |instrs|
        ensures At(instrs + [instr], Members(ranges[b], |instrs|)) == Contents(b)
        ensures At(instrs + [instr], Members(ranges[b], |instrs|) + [|instrs|]) == Contents(b) + [instr]
      {
        MembersInBounds(instrs, ranges, succ, current, b);
        AtNext(instrs, Members(ranges[b], |instrs|), instr);
      }
    }

    /** Appends to the current block; a terminated block takes no more instructions. */
    method Append(instr: Instr) returns (r: Outcome<nat>)
      requires Valid() && forall t :: t in instr.Targets() ==> t < |ranges|
      modifies this
      ensures Valid() && |ranges| == |old(ranges)| && current == old(current) && instrs == old(instrs) + [instr]
      ensures r.Error? <==> old(ranges)[current].1 >= 0
      ensures r.Error? ==> ranges == old(ranges) && succ == old(succ) && pred == old(pred)
      ensures r.Ok? ==> r.value == |old(instrs)| && (ranges[current].1 >= 0 <==> instr.IsTerminator())
      ensures r.Ok? ==> Arrived(old(pred), pred, instr.Targets(), current)
      ensures order == old(order) + if r.Ok? && instr.IsTerminator() then [current] else []
      ensures homes == old(homes) + [if r.Ok? then Some(current) else None]
      ensures forall b: nat :: b < |ranges| ==>
                Contents(b) == old(Contents(b)) + if r.Ok? && b == current then [instr] else []
    {
      hide EdgesOk, BlockOk, Disjoint, OneOpen, Members, At, Housed, Listed, Arrived;
      var idx := |instrs|;
      GrownContents(instr);
      if ranges[current].1 >= 0 {
        NoneOpen(instrs, ranges, succ, current);
        HousedStray(homes, ranges, idx);
        StrayAppended(instrs, ranges, succ, current, instr);
        instrs, homes := instrs + [instr], homes + [None];
        return Error("Cannot append to terminated basic block.");
      }
      NoEdgesYet(instrs, ranges, succ, current);
      if instr.IsTerminator() {
        TerminatorAppended(instrs, ranges, succ, current, instr);
        assert [] + instr.Targets() == instr.Targets();
      } else {
        PlainAppended(instrs, ranges, succ, current, instr);
        ArrivedNowhere(pred, current);
      }
      ListedNext(order, ranges, current, instr.IsTerminator(), idx);
      ghost var first := if ranges[current].0 < 0 then idx else ranges[current].0;
      HousedNext(homes, ranges, idx, current, (first, if instr.IsTerminator() then idx else ranges[current].1));
      instrs, homes := instrs + [instr], homes + [Some(current)];
      if ranges[current].0 < 0 {
        ranges := ranges[current := (idx, ranges[current].1)];
      }
      assert ranges == old(ranges)[current := (first, old(ranges)[current].1)];
      if instr.IsTerminator() {
        ranges := ranges[current := (ranges[current].0, idx)];
        assert ranges == old(ranges)[current := (first, idx)];
        UpdateSuccessors(instr);
        order := order + [current];
      }
      r := Ok(idx);
    }

    /** The blocks of a finished function form a graph. */
    method Build() returns (f: Function)
      requires Valid() && forall b :: 0 <= b < |ranges| ==> Closed(ranges[b])
      ensures BlocksOk(f) && Mirrored(f) && f.instrs == instrs && |f.blocks| == |ranges|
      ensures IsGraph(f) <==> pred[0] == []
      ensures forall b: nat :: b < |f.blocks| ==> Indices(f.blocks[b].segments) == Taken(homes, b)
    {
      var rs, ss, ps := ranges, succ, pred;
      var blocks := seq(|rs|, b requires 0 <= b < |rs| == |ss| == |ps| => Block([rs[b]], ss[b], ps[b]));
      f := Function(instrs, blocks);
      FinishedBlocks(instrs, ranges, succ, pred, current, f);
      forall b: nat | b < |f.blocks| ensures Indices(f.blocks[b].segments) == Taken(homes, b) {
        assert Closed(ranges[b]) && Members(ranges[b], |instrs|) == Taken(homes, b);
        assert Indices(f.blocks[b].segments) == Range(rs[b].0, rs[b].1) + Indices([]);
      }
    }
  }

  lemma NoneOpen(instrs: seq<Instr>, ranges: seq<(int, int)>, succ: seq<seq<nat>>, current: nat)
    requires Ranged(instrs, ranges, succ, current) && ranges[current].1 >= 0
    ensures forall b :: 0 <= b < |ranges| ==> Fresh(ranges[b]) || Closed(ranges[b])
  {
    assert BlockOk(instrs, ranges[current], succ[current]);
  }

  lemma NoEdgesYet(instrs: seq<Instr>, ranges: seq<(int, int)>, succ: seq<seq<nat>>, current: nat)
    requires Ranged(instrs, ranges, succ, current) && ranges[current].1 < 0
    ensures succ[current] == [] && ranges[current].0 < |instrs|
  {
    assert BlockOk(instrs, ranges[current], succ[current]);
  }

  lemma FinishedBlocks(instrs: seq<Instr>, ranges: seq<(int, int)>, succ: seq<seq<nat>>, pred: seq<seq<nat>>,
                       current: nat, f: Function)
    requires Ranged(instrs, ranges, succ, current) && EdgesOk(succ, pred) && forall b :: 0 <= b < |ranges| ==>
             Closed(ranges[b])
    requires f.instrs == instrs && |f.blocks| == |ranges| && forall b :: 0 <= b < |ranges| ==>
             f.blocks[b] == Block([ranges[b]], succ[b], pred[b])
    ensures BlocksOk(f) && Mirrored(f)
  {
    forall b | 0 <= b < |ranges|
      ensures 0 <= First(f, b) <= Last(f, b) < |instrs| && instrs[Last(f, b)].IsTerminator() &&
              succ[b] == instrs[Last(f, b)].Targets()
      ensures forall i :: First(f, b) <= i < Last(f, b) ==> !instrs[i].IsTerminator()
    {
      assert BlockOk(instrs, ranges[b], succ[b]);
    }
    forall a, b | 0 <= a < b < |ranges| ensures Last(f, a) < First(f, b) || Last(f, b) < First(f, a) {
      assert ranges[a].0 >= 0 && ranges[b].0 >= 0;
    }
    forall a: nat, b: nat | a < |f.blocks| && b < |f.blocks|
      ensures multiset(f.blocks[a].succ)[b] == multiset(f.blocks[b].pred)[a]
    {
      assert multiset(succ[a])[b] == multiset(pred[b])[a];
    }
  }
}
