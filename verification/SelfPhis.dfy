/**
 A phi of unreachable code that stands for itself: whether the pass ends depends on whether it is used.
 */
module SelfPhis {
  import opened Khir
  import opened Ssa
  import opened MergeInvariant
  import opened CfgMerge
  import opened RemainingCode
  import opened EndlessMerging
  import DeadBlocks

  /** The entry returns.  Block 1 leads to itself and to block 2, which hands the phi of block 3 to itself;
      block 3 ends with `last`. */
  function PhiFunction(last: Instr): (f: Function)
  {
    Function([Return, CondBr(Const(0), 1, 2), PhiMember(Local(4), Local(4)), Br(3), Phi, last],
             [Block([(0, 0)], [], []), Block([(1, 1)], [1, 2], [1]),
              Block([(2, 3)], [3], [1]), Block([(4, 5)], [], [2])])
  }

  predicate IsReturn(last: Instr)
  {
    last == Return || last == ReturnValue(Local(4))
  }

  const Kept: seq<bool> := [false, false, false, false]

  lemma Shape(last: Instr)
    ensures var f := PhiFunction(last);
            && |f.instrs| == 6 && |f.blocks| == 4
            && f.instrs[0] == Return && f.instrs[1] == CondBr(Const(0), 1, 2)
            && f.instrs[2] == PhiMember(Local(4), Local(4)) && f.instrs[3] == Br(3)
            && f.instrs[4] == Phi && f.instrs[5] == last
            && f.blocks[0] == Block([(0, 0)], [], []) && f.blocks[1] == Block([(1, 1)], [1, 2], [1])
            && f.blocks[2] == Block([(2, 3)], [3], [1]) && f.blocks[3] == Block([(4, 5)], [], [2])
  {
  }

  lemma Ranges(last: Instr)
    ensures var f := PhiFunction(last);
            && (forall b :: 0 <= b < 4 ==> |f.blocks[b].segments| == 1)
            && First(f, 0) == Last(f, 0) == 0 && First(f, 1) == Last(f, 1) == 1
            && First(f, 2) == 2 && Last(f, 2) == 3 && First(f, 3) == 4 && Last(f, 3) == 5
  {
    hide PhiFunction;
    Shape(last);
  }

  lemma Blocks(last: Instr)
    requires IsReturn(last)
    ensures BlocksOk(PhiFunction(last)) && EntryOk(PhiFunction(last)) && CalleesOk(PhiFunction(last))
  {
    hide PhiFunction;
    Shape(last);
    Ranges(last);
  }

  lemma Counts(x: nat, y: nat, b: nat)
    ensures multiset([x])[b] == if b == x then 1 else 0
    ensures x != y ==> multiset([x, y])[b] == if b == x || b == y then 1 else 0
  {
    assert [x, y] == [x] + [y];
  }

  predicate IsEdge(a: nat, b: nat)
  {
    (a == 1 && (b == 1 || b == 2)) || (a == 2 && b == 3)
  }

  lemma EdgeCounts(last: Instr, a: nat, b: nat)
    requires a < 4 && b < 4
    ensures var f := PhiFunction(last);
            && |f.blocks| == 4 && multiset(f.blocks[a].succ)[b] == (if IsEdge(a, b) then 1 else 0)
            && multiset(f.blocks[b].pred)[a] == (if IsEdge(a, b) then 1 else 0)
  {
    hide PhiFunction;
    Shape(last);
    Counts(1, 2, a);
    Counts(1, 2, b);
    Counts(2, 3, a);
    Counts(3, 2, b);
    var f := PhiFunction(last);
    var succ, pred := f.blocks[a].succ, f.blocks[b].pred;
    if a == 1 { assert succ == [1, 2]; } else if a == 2 { assert succ == [3]; } else { assert succ == []; }
    if b == 0 { assert pred == []; } else if b == 3 { assert pred == [2]; } else { assert pred == [1]; }
  }

  lemma Mirror(last: Instr)
    ensures Mirrored(PhiFunction(last))
  {
    hide PhiFunction, IsEdge;
    Shape(last);
    var f := PhiFunction(last);
    forall b, t | 0 <= b < 4 && (t in f.blocks[b].succ || t in f.blocks[b].pred) ensures t < 4 {
    }
    hide *;
    forall a: nat, b: nat | a < |f.blocks| && b < |f.blocks|
      ensures multiset(f.blocks[a].succ)[b] == multiset(f.blocks[b].pred)[a]
    {
      EdgeCounts(last, a, b);
    }
    MirroredBy(f);
  }

  lemma MirroredBy(f: Function)
    requires |f.blocks| == 4
    requires forall b, t :: 0 <= b < 4 && (t in f.blocks[b].succ || t in f.blocks[b].pred) ==> t < 4
    requires forall a: nat, b: nat :: a < |f.blocks| && b < |f.blocks| ==>
               multiset(f.blocks[a].succ)[b] == multiset(f.blocks[b].pred)[a]
    ensures Mirrored(f)
  {
  }

  lemma NothingIsDead(last: Instr)
    requires IsReturn(last)
    ensures Mirrored(PhiFunction(last)) && DeadBlocks.IsDeadSet(PhiFunction(last), Kept)
  {
    Mirror(last);
    hide PhiFunction, Mirrored;
    Shape(last);
    var f := PhiFunction(last);
    assert 1 in f.blocks[1].pred && 1 in f.blocks[2].pred && 2 in f.blocks[3].pred;
    assert DeadBlocks.IsClosed(f, Kept);
    assert DeadBlocks.Timed(f, Kept, [0, 0, 0, 0], 1);
  }

  /** Only the entry is reachable. */
  lemma EntryIsAlone(last: Instr, b: nat)
    ensures Reachable(PhiFunction(last), b) ==> b == 0
  {
    hide PhiFunction;
    Shape(last);
    if path :| PathTo(PhiFunction(last), path, b) {
      EntryOnly(PhiFunction(last), path);
    }
  }

  lemma Phis(last: Instr)
    requires IsReturn(last) && BlocksOk(PhiFunction(last))
    ensures var f := PhiFunction(last);
            && NumPhis(f, 0) == NumPhis(f, 1) == NumPhis(f, 2) == 0 && NumPhis(f, 3) == 1 && PhisLead(f)
  {
    hide PhiFunction;
    Shape(last);
    Ranges(last);
    hide BlocksOk;
    var f := PhiFunction(last);
    assert CountPhis(f.instrs, 5, 5) == 0;
    forall b: nat, i | Holds(f, b, i) && f.instrs[i].Phi? ensures b == 3 && i == 4 {
    }
  }

  lemma Members(last: Instr)
    requires IsReturn(last) && BlocksOk(PhiFunction(last)) && NumPhis(PhiFunction(last), 3) == 1
    ensures MembersMatch(PhiFunction(last), 2, 3) && MembersTargetSuccessors(PhiFunction(last))
  {
    hide PhiFunction, NumPhis;
    Shape(last);
    Ranges(last);
    hide BlocksOk;
    var f := PhiFunction(last);
    assert Edge(f, 2, 3) && HoldsValue(f, 3, Local(4));
    assert TargetsSuccessor(f, 2, Local(4));
    assert IsMember(f, 2, 0) && MemberPhi(f, 2, 0) == Local(4);
    forall b: nat, i | Holds(f, b, i) && f.instrs[i].PhiMember? ensures b == 2 && i == 2 {
    }
  }

  lemma Uses(last: Instr)
    requires IsReturn(last) && BlocksOk(PhiFunction(last))
    ensures UsesDominated(PhiFunction(last))
  {
    hide PhiFunction, Reachable;
    Shape(last);
    Ranges(last);
    hide BlocksOk;
    var f := PhiFunction(last);
    forall b: nat, i, v | Holds(f, b, i) && v in f.instrs[i].Operands() ensures !Reachable(f, b) {
      EntryIsAlone(last, b);
    }
  }

  lemma PhiFunctionIsSsa(last: Instr)
    requires IsReturn(last)
    ensures IsSsa(PhiFunction(last))
  {
    hide PhiFunction, BlocksOk, Mirrored, EntryOk, PhisLead, UsesDominated, CalleesOk, MembersTargetSuccessors;
    hide MembersMatch, NumPhis;
    var f := PhiFunction(last);
    Shape(last);
    Blocks(last);
    Mirror(last);
    Phis(last);
    Uses(last);
    Members(last);
    forall x: nat, y: nat | x < |f.blocks| && y < |f.blocks| && f.blocks[x].succ == [y] ensures MembersMatch(f, x, y) {
      assert [1, 2] != [y];
      assert x == 2 && f.blocks[2].succ[0] == [y][0];
    }
  }

  lemma NeighboursLive(last: Instr, b: nat)
    requires b < 4
    ensures var f := PhiFunction(last);
            && |f.blocks| == 4 && Live(f.blocks[b].succ, Kept) == f.blocks[b].succ
            && Live(f.blocks[b].pred, Kept) == f.blocks[b].pred
  {
    hide PhiFunction, Live;
    Shape(last);
    AllLive(PhiFunction(last).blocks[b].succ, Kept);
    AllLive(PhiFunction(last).blocks[b].pred, Kept);
  }

  /** The only merge is that of block 3 into block 2. */
  lemma OneLink(last: Instr, x: nat, y: nat)
    ensures LiveLinked(PhiFunction(last), Kept, x, y) <==> x == 2 && y == 3
  {
    hide PhiFunction, Live;
    Shape(last);
    if x < 4 && y < 4 {
      NeighboursLive(last, x);
      NeighboursLive(last, y);
      var succ := PhiFunction(last).blocks[x].succ;
      if succ == [y] {
        assert |succ| == 1 && succ[0] == y;
        assert x == 2;
      }
    }
  }

  lemma NoCycle(last: Instr)
    ensures !HasPureCycle(PhiFunction(last), Kept)
  {
    hide PhiFunction, LiveLinked;
    var f := PhiFunction(last);
    forall x: nat, y: nat ensures LiveLinked(f, Kept, x, y) <==> x == 2 && y == 3 { OneLink(last, x, y); }
    if cycle :| IsPureCycle(f, Kept, cycle) {
      CycleLink(f, Kept, cycle, 0);
      var y := CycleNext(f, Kept, cycle, 0);
    }
  }

  /** Looking the phi up never ends. */
  lemma StandsForItself(last: Instr)
    requires IsReturn(last) && BlocksOk(PhiFunction(last))
    ensures Replaces(PhiFunction(last), Kept, Local(4), Local(4)) && !LookupEnds(PhiFunction(last), Kept, Local(4))
  {
    hide PhiFunction, LiveLinked, BlocksOk, NumPhis, IsReplaced;
    var f := PhiFunction(last);
    Phis(last);
    OneLink(last, 2, 3);
    OwnMember(last);
    assert ReplacesAt(f, Kept, 2, 3, 0, Local(4), Local(4));
    if trail :| LeadsOn(f, Kept, Local(4), trail) {
      OnlyItself(last, trail, |trail| - 1);
      ReplacedByItself(last);
    }
  }

  lemma ReplacedByItself(last: Instr)
    requires BlocksOk(PhiFunction(last)) && Replaces(PhiFunction(last), Kept, Local(4), Local(4))
    ensures IsReplaced(PhiFunction(last), Kept, Local(4))
  {
  }

  lemma OwnMember(last: Instr)
    requires IsReturn(last) && BlocksOk(PhiFunction(last))
    ensures var f := PhiFunction(last);
            IsMember(f, 2, 0) && MemberPhi(f, 2, 0) == Local(4) && MemberValue(f, 2, 0) == Local(4)
  {
    hide PhiFunction, BlocksOk;
    Shape(last);
    Ranges(last);
  }

  lemma {:induction false} OnlyItself(last: Instr, trail: seq<Value>, i: nat)
    requires IsReturn(last) && BlocksOk(PhiFunction(last)) && LeadsOn(PhiFunction(last), Kept, Local(4), trail)
    requires i < |trail|
    ensures trail[i] == Local(4)
  {
    hide PhiFunction, LiveLinked, BlocksOk, NumPhis, IsReplaced;
    if i > 0 {
      OnlyItself(last, trail, i - 1);
      assert Replaces(PhiFunction(last), Kept, trail[i - 1], trail[i]);
      var x: nat, y: nat, o: nat :| ReplacesAt(PhiFunction(last), Kept, x, y, o, trail[i - 1], trail[i]);
      OneLink(last, x, y);
      Phis(last);
      OwnMember(last);
    }
  }

  /** What remains to be rewritten besides the last instruction looks up constants only. */
  lemma Remaining(last: Instr, b: nat, j: int)
    requires IsReturn(last) && BlocksOk(PhiFunction(last)) && Remains(PhiFunction(last), Kept, b, j)
    ensures j == 0 || j == 1 || (b == 3 && j == 5)
  {
    hide PhiFunction, LiveLinked, BlocksOk, NumPhis;
    Shape(last);
    Ranges(last);
    Phis(last);
    OneLink(last, 2, 3);
  }

  lemma LastRemains(last: Instr)
    requires IsReturn(last) && BlocksOk(PhiFunction(last))
    ensures Remains(PhiFunction(last), Kept, 3, 5)
  {
    hide PhiFunction, LiveLinked, BlocksOk, NumPhis;
    Shape(last);
    Ranges(last);
    Phis(last);
    forall y: nat ensures !LiveLinked(PhiFunction(last), Kept, 3, y) { OneLink(last, 3, y); }
  }

  /** The function has an unreachable cycle and a phi that stands for itself, and yet it is simplified
      exactly if that phi is not used. */
  lemma UsedPhiNeverEnds(last: Instr)
    requires IsReturn(last)
    ensures IsSsa(PhiFunction(last)) && (CanSimplify(PhiFunction(last)) <==> last == Return)
  {
    hide PhiFunction, BlocksOk, Mirrored, IsSsa, HasPureCycle, Remains, LookupEnds, DeadBlocks.IsDeadSet, DeadOk;
    hide Replaces;
    var f := PhiFunction(last);
    PhiFunctionIsSsa(last);
    Blocks(last);
    NothingIsDead(last);
    DeadSetIsOk(f, Kept);
    NoCycle(last);
    OneDeadSet(f, Kept);
    Shape(last);
    StandsForItself(last);
    LastRemains(last);
    if last == Return {
      forall b: nat, j, v | Remains(f, Kept, b, j) && 0 <= j < |f.instrs| && v in f.instrs[j].LookedUp()
        ensures LookupEnds(f, Kept, v)
      {
        Remaining(last, b, j);
        ConstIsKept(f, Kept, v);
        NoTrail(f, Kept, v);
      }
      RemainsInFunction(f, Kept);
    } else {
      assert Local(4) in f.instrs[5].LookedUp();
    }
  }
}
