/**
 SSA form, and the straight-line chains of blocks that the simplifier merges.
 */
module Ssa {
  import opened Khir

  function CountPhis(instrs: seq<Instr>, lo: int, hi: int): (n: nat)
    requires 0 <= lo && hi < |instrs|
    ensures lo <= hi ==> lo + n <= hi + 1
    ensures lo > hi ==> n == 0
    ensures forall i :: lo <= i < lo + n ==> instrs[i].Phi?
    ensures lo + n <= hi ==> !instrs[lo + n].Phi?
    decreases hi - lo + 1
  {
    if lo > hi || !instrs[lo].Phi? then 0 else 1 + CountPhis(instrs, lo + 1, hi)
  }

  /** The number of phis a block starts with. */
  ghost function NumPhis(f: Function, b: nat): (n: nat)
    requires BlocksOk(f) && b < |f.blocks|
    ensures First(f, b) + n <= Last(f, b)
    ensures forall i :: First(f, b) <= i < First(f, b) + n ==> f.instrs[i].Phi?
    ensures !f.instrs[First(f, b) + n].Phi?
  {
    CountPhis(f.instrs, First(f, b), Last(f, b))
  }

  /** Block `b` contains the instruction. */
  ghost predicate Holds(f: Function, b: nat, i: int)
    requires BlocksOk(f)
  {
    b < |f.blocks| && First(f, b) <= i <= Last(f, b)
  }

  ghost predicate HoldsValue(f: Function, b: nat, v: Value)
    requires BlocksOk(f)
  {
    v.Local? && Holds(f, b, v.idx)
  }

  lemma HoldsOnce(f: Function, a: nat, b: nat, i: int)
    requires BlocksOk(f) && Holds(f, a, i) && Holds(f, b, i)
    ensures a == b
  {
  }

  ghost predicate PhisLead(f: Function)
    requires BlocksOk(f)
  {
    forall b: nat, i :: Holds(f, b, i) && f.instrs[i].Phi? ==> i < First(f, b) + NumPhis(f, b)
  }

  /** The phi member at distance `o` from the branch that ends block `x`. */
  ghost predicate IsMember(f: Function, x: nat, o: nat)
    requires BlocksOk(f) && x < |f.blocks|
  {
    First(f, x) <= Last(f, x) - 1 - o && f.instrs[Last(f, x) - 1 - o].PhiMember?
  }

  ghost function MemberPhi(f: Function, x: nat, o: nat): (v: Value)
    requires BlocksOk(f) && x < |f.blocks| && IsMember(f, x, o)
  {
    f.instrs[Last(f, x) - 1 - o].phi
  }

  ghost function MemberValue(f: Function, x: nat, o: nat): (v: Value)
    requires BlocksOk(f) && x < |f.blocks| && IsMember(f, x, o)
  {
    f.instrs[Last(f, x) - 1 - o].value
  }

  /** Block `x` branches to `y` and ends with one member for each phi of `y`. */
  ghost predicate MembersMatch(f: Function, x: nat, y: nat)
    requires BlocksOk(f) && x < |f.blocks| && y < |f.blocks|
  {
    && (forall o: nat :: o < NumPhis(f, y) ==>
                           IsMember(f, x, o) && MemberPhi(f, x, o).Local?
                           && First(f, y) <= MemberPhi(f, x, o).idx < First(f, y) + NumPhis(f, y))
    && (forall o: nat, o': nat :: o < o' < NumPhis(f, y) ==> MemberPhi(f, x, o) != MemberPhi(f, x, o'))
    && (forall i :: First(f, y) <= i < First(f, y) + NumPhis(f, y) ==>
        exists o: nat :: o < NumPhis(f, y) && MemberPhi(f, x, o) == Local(i))
    && (forall i :: Holds(f, x, i) && f.instrs[i].PhiMember? ==> Last(f, x) - NumPhis(f, y) <= i)
  }

  /** Members belong to phis of a successor of their block. */
  ghost predicate MembersTargetSuccessors(f: Function)
    requires BlocksOk(f)
  {
    forall b: nat, i :: Holds(f, b, i) && f.instrs[i].PhiMember? ==> TargetsSuccessor(f, b, f.instrs[i].phi)
  }

  ghost predicate TargetsSuccessor(f: Function, b: nat, phi: Value)
    requires BlocksOk(f)
  {
    exists t: nat :: Edge(f, b, t) && HoldsValue(f, t, phi)
  }

  /** The operand is a constant, or defined earlier in the same block or in a dominator. */
  ghost predicate DominatedUse(f: Function, b: nat, i: int, v: Value)
    requires BlocksOk(f)
  {
    v.Local? ==> exists d: nat :: Holds(f, d, v.idx) && ((d == b && v.idx < i) || (d != b && Dominates(f, d, b)))
  }

  ghost predicate UsesDominated(f: Function)
    requires BlocksOk(f)
  {
    forall b: nat, i, v :: Holds(f, b, i) && Reachable(f, b) && v in f.instrs[i].Operands() ==> DominatedUse(f, b, i, v)
  }

  /** Callees of indirect calls are not phis: the simplifier does not rewrite them. */
  ghost predicate CalleesOk(f: Function)
  {
    forall i :: 0 <= i < |f.instrs| && f.instrs[i].CallIndirect? && f.instrs[i].callee.Local? ==>
                  f.instrs[i].callee.idx < |f.instrs| && !f.instrs[f.instrs[i].callee.idx].Phi?
  }

  ghost predicate IsSsa(f: Function)
  {
    && IsGraph(f) && PhisLead(f) && UsesDominated(f) && CalleesOk(f) && MembersTargetSuccessors(f)
    && forall x: nat, y: nat :: x < |f.blocks| && y < |f.blocks| && f.blocks[x].succ == [y] ==> MembersMatch(f, x, y)
  }

  /** Hands a value to the phi of its second block, which returns it. */
  ghost predicate IsExample(f: Function)
  {
    && f.instrs == [Plain(0), PhiMember(Local(3), Local(0)), Br(1), Phi, ReturnValue(Local(3))]
    && f.blocks == [Block([(0, 2)], [1], []), Block([(3, 4)], [], [0])]
  }

  lemma ExampleBlocks(f: Function)
    requires IsExample(f)
    ensures BlocksOk(f) && EntryOk(f) && CalleesOk(f)
  {
    assert f.instrs[2].Targets() == [1] && f.instrs[4].Targets() == [];
  }

  lemma ExampleMirror(f: Function)
    requires IsExample(f)
    ensures Mirrored(f)
  {
    var s0, s1, p0, p1 := f.blocks[0].succ, f.blocks[1].succ, f.blocks[0].pred, f.blocks[1].pred;
    assert s0 == [1] && s1 == [] && p0 == [] && p1 == [0];
    assert multiset(s0)[0] == 0 && multiset(s0)[1] == 1 && multiset(p1)[0] == 1 && multiset(p1)[1] == 0;
    assert multiset(s1)[0] == multiset(s1)[1] == multiset(p0)[0] == multiset(p0)[1] == 0;
  }

  lemma ExamplePhis(f: Function)
    requires IsExample(f) && BlocksOk(f)
    ensures NumPhis(f, 0) == 0 && NumPhis(f, 1) == 1 && PhisLead(f)
  {
    assert CountPhis(f.instrs, 4, 4) == 0;
    forall b: nat, i | Holds(f, b, i) && f.instrs[i].Phi? ensures b == 1 && i == 3 {
      assert i == 3;
    }
  }

  lemma ExampleUses(f: Function)
    requires IsExample(f) && BlocksOk(f)
    ensures UsesDominated(f)
  {
    forall b: nat, i, v | Holds(f, b, i) && v in f.instrs[i].Operands() ensures DominatedUse(f, b, i, v) {
      assert v == Local(if i == 1 then 0 else 3) && b == (if i == 1 then 0 else 1);
      assert Holds(f, b, v.idx);
    }
  }

  lemma ExampleMembers(f: Function)
    requires IsExample(f) && BlocksOk(f) && NumPhis(f, 1) == 1
    ensures MembersMatch(f, 0, 1) && MembersTargetSuccessors(f)
  {
    hide NumPhis, CountPhis;
    assert Edge(f, 0, 1) && HoldsValue(f, 1, Local(3));
    assert TargetsSuccessor(f, 0, Local(3));
    assert IsMember(f, 0, 0) && MemberPhi(f, 0, 0) == Local(3);
    forall b: nat, i | Holds(f, b, i) && f.instrs[i].PhiMember? ensures b == 0 && i == 1 {
    }
  }

  /** A function with a phi and its member is in SSA form. */
  lemma SsaExample(f: Function)
    requires IsExample(f)
    ensures IsSsa(f) && NumPhis(f, 1) == 1
  {
    hide BlocksOk, Mirrored, EntryOk, PhisLead, UsesDominated, CalleesOk, MembersTargetSuccessors, MembersMatch;
    ExampleBlocks(f);
    ExampleMirror(f);
    ExamplePhis(f);
    ExampleUses(f);
    ExampleMembers(f);
    forall x: nat, y: nat | x < |f.blocks| && y < |f.blocks| && f.blocks[x].succ == [y] ensures MembersMatch(f, x, y) {
      assert x == 0 && y == 1;
    }
  }

  // ----- links and chains -----

  /** `x` leads to `y` only, and no other reachable block leads there. */
  ghost predicate Linked(f: Function, x: nat, y: nat)
  {
    && x < |f.blocks| && y < |f.blocks| && y != 0
    && f.blocks[x].succ == [y]
    && forall a: nat :: Reachable(f, a) && Edge(f, a, y) ==> a == x
  }

  /** Linked blocks are both reachable or both unreachable. */
  lemma LinkedReachable(f: Function, x: nat, y: nat)
    requires Linked(f, x, y)
    ensures Reachable(f, x) <==> Reachable(f, y)
  {
    if p :| PathTo(f, p, x) {
      PathAppend(f, p, y);
    }
    if p :| PathTo(f, p, y) {
      var k := |p| - 1;
      assert Edge(f, p[k - 1], p[k]);
      PathPrefix(f, p, k - 1);
      assert Reachable(f, p[k - 1]);
    }
  }

  lemma LinkedDominates(f: Function, x: nat, y: nat)
    requires Linked(f, x, y) && Reachable(f, x)
    ensures Dominates(f, x, y) && Reachable(f, y)
  {
    forall path | PathTo(f, path, y) ensures x in path {
      var k := |path| - 1;
      assert Edge(f, path[k - 1], path[k]);
      PathPrefix(f, path, k - 1);
      assert Reachable(f, path[k - 1]);
    }
    var p :| PathTo(f, p, x);
    PathAppend(f, p, y);
  }

  lemma LinkedDiffers(f: Function, x: nat, y: nat)
    requires Linked(f, x, y) && Reachable(f, x)
    ensures x != y
  {
    if x == y {
      var p :| PathTo(f, p, x);
      NoSelfLink(f, x, p);
    }
  }

  lemma {:induction false} NoSelfLink(f: Function, x: nat, path: seq<nat>)
    requires Linked(f, x, x)
    ensures !PathTo(f, path, x)
    decreases |path|
  {
    if PathTo(f, path, x) {
      var k := |path| - 1;
      assert Edge(f, path[k - 1], path[k]);
      PathPrefix(f, path, k - 1);
      assert Reachable(f, path[k - 1]);
      NoSelfLink(f, x, path[..k]);
    }
  }

  /** The value a member hands to a linked block is defined in a block that strictly
      dominates the linked block. */
  lemma MemberDefinedAbove(f: Function, x: nat, y: nat, o: nat) returns (d: nat)
    requires IsSsa(f) && Linked(f, x, y) && Reachable(f, x) && o < NumPhis(f, y)
    requires IsMember(f, x, o) && MemberValue(f, x, o).Local?
    ensures HoldsValue(f, d, MemberValue(f, x, o)) && Dominates(f, d, y) && d != y
  {
    hide PhisLead, CalleesOk, Mirrored, EntryOk, MembersMatch, Dominates;
    var v, i := MemberValue(f, x, o), Last(f, x) - 1 - o;
    assert v in f.instrs[i].Operands();
    assert Holds(f, x, i);
    assert DominatedUse(f, x, i, v);
    d :| Holds(f, d, v.idx) && ((d == x && v.idx < i) || (d != x && Dominates(f, d, x)));
    LinkedDominates(f, x, y);
    LinkedDiffers(f, x, y);
    if d != x {
      DominatesTrans(f, d, x, y);
      if d == y {
        var p :| PathTo(f, p, x);
        DominanceIsAntisymmetric(f, x, y, p);
      }
    }
  }

  /** Chains: sequences of linked blocks that together visit every reachable block once.  A chain is
      reachable as a whole or not at all. */
  ghost predicate IsChain(f: Function, chain: seq<nat>)
  {
    && 0 < |chain|
    && (forall i :: 0 <= i < |chain| ==> chain[i] < |f.blocks|)
    && (forall i :: 0 < i < |chain| ==> Linked(f, chain[i - 1], chain[i]))
  }

  ghost predicate ChainsOk(f: Function, chains: seq<seq<nat>>)
  {
    && 0 < |chains|
    && (forall c :: 0 <= c < |chains| ==> IsChain(f, chains[c]))
    && chains[0][0] == 0 && OnlyWaysIn(f, chains)
    && (forall c: nat, i: nat, c': nat, i': nat, b: nat :: InChain(chains, c, i, b) && InChain(chains, c', i', b) ==>
        c == c' && i == i')
    && (forall b: nat :: b < |f.blocks| && Reachable(f, b) ==> exists c: nat, i: nat :: InChain(chains, c, i, b))
  }

  /** Within the chains, the block before an inner block is the only way into it. */
  ghost predicate OnlyWaysIn(f: Function, chains: seq<seq<nat>>)
  {
    forall c: nat, k: nat, y: nat, c': nat, i: nat, b: nat ::
      0 < k && InChain(chains, c, k, y) && InChain(chains, c', i, b) && Edge(f, b, y) ==> b == chains[c][k - 1]
  }

  ghost predicate InChain(chains: seq<seq<nat>>, c: nat, i: nat, b: nat)
  {
    c < |chains| && i < |chains[c]| && chains[c][i] == b
  }

  /** The phi whose member in the previous chain block sits at distance `o`. */
  ghost predicate RemovedPhi(f: Function, chains: seq<seq<nat>>, c: nat, i: nat, o: nat, v: Value)
    requires BlocksOk(f)
  {
    && c < |chains| && 0 < i < |chains[c]| && chains[c][i] < |f.blocks| && chains[c][i - 1] < |f.blocks|
    && o < NumPhis(f, chains[c][i]) && IsMember(f, chains[c][i - 1], o) && MemberPhi(f, chains[c][i - 1], o) == v
  }

  /** The value map replaces each phi inside a chain by the value of its only member. */
  ghost predicate ValueMapOk(f: Function, chains: seq<seq<nat>>, vm: map<Value, Value>)
    requires BlocksOk(f)
  {
    && (forall v :: v in vm ==> exists c: nat, i: nat, o: nat :: RemovedPhi(f, chains, c, i, o, v))
    && (forall v, c: nat, i: nat, o: nat :: RemovedPhi(f, chains, c, i, o, v) ==>
        v in vm && vm[v] == MemberValue(f, chains[c][i - 1], o))
  }

  /** Where a removed phi lives and what replaces it. */
  lemma RemovedFrom(f: Function, chains: seq<seq<nat>>, vm: map<Value, Value>, v: Value)
    returns (c: nat, k: nat, o: nat)
    requires IsSsa(f) && ChainsOk(f, chains) && ValueMapOk(f, chains, vm) && v in vm
    ensures RemovedPhi(f, chains, c, k, o, v) && vm[v] == MemberValue(f, chains[c][k - 1], o)
    ensures Linked(f, chains[c][k - 1], chains[c][k]) && HoldsValue(f, chains[c][k], v)
    ensures v.idx < First(f, chains[c][k]) + NumPhis(f, chains[c][k])
  {
    c, k, o :| RemovedPhi(f, chains, c, k, o, v);
    assert Linked(f, chains[c][k - 1], chains[c][k]);
    assert MembersMatch(f, chains[c][k - 1], chains[c][k]);
  }

  /** Removed phis lead blocks in the middle of a chain. */
  lemma RemovedIsInner(f: Function, chains: seq<seq<nat>>, vm: map<Value, Value>, b: nat, i: nat)
    requires IsSsa(f) && ChainsOk(f, chains) && ValueMapOk(f, chains, vm) && Holds(f, b, i) && Local(i) in vm
    ensures i < First(f, b) + NumPhis(f, b) && exists c: nat, k: nat :: 0 < k && InChain(chains, c, k, b)
  {
    hide PhisLead, CalleesOk, Mirrored, EntryOk, UsesDominated, MembersMatch, ValueMapOk, ChainsOk;
    var c, k, o := RemovedFrom(f, chains, vm, Local(i));
    HoldsOnce(f, b, chains[c][k], i);
    assert InChain(chains, c, k, b);
  }

  // ----- why lookups end -----

  /** How many blocks dominate the definition of a value. */
  ghost function Depth(f: Function, v: Value): (n: nat)
    requires BlocksOk(f)
  {
    if b: nat :| HoldsValue(f, b, v) then |Dominators(f, b)| else 0
  }

  lemma DepthOf(f: Function, v: Value, b: nat)
    requires BlocksOk(f) && HoldsValue(f, b, v)
    ensures Depth(f, v) == |Dominators(f, b)|
  {
    forall a: nat | HoldsValue(f, a, v) ensures a == b { HoldsOnce(f, a, b, v.idx); }
  }

  /** In reachable code, replacing a phi by the value of its only member moves up the dominator tree. */
  lemma ValueMapDescends(f: Function, x: nat, y: nat, o: nat) returns (d: nat)
    requires IsSsa(f) && Linked(f, x, y) && Reachable(f, y) && o < NumPhis(f, y)
    requires IsMember(f, x, o) && MemberValue(f, x, o).Local?
    ensures HoldsValue(f, d, MemberValue(f, x, o)) && Reachable(f, d)
    ensures Depth(f, MemberValue(f, x, o)) < Depth(f, MemberPhi(f, x, o))
  {
    hide PhisLead, CalleesOk, Mirrored, EntryOk, UsesDominated, MembersTargetSuccessors, Dominates, Dominators, Depth;
    LinkedReachable(f, x, y);
    d := MemberDefinedAbove(f, x, y, o);
    DominatorReachable(f, d, y);
    StrictDominatorHasFewer(f, d, y);
    assert MembersMatch(f, x, y);
    DepthOf(f, MemberPhi(f, x, o), y);
    DepthOf(f, MemberValue(f, x, o), d);
  }

  lemma SsaBlocks(f: Function)
    requires IsSsa(f)
    ensures BlocksOk(f)
  {
  }

  lemma DominatorReachable(f: Function, d: nat, b: nat)
    requires Dominates(f, d, b) && Reachable(f, b)
    ensures Reachable(f, d)
  {
    var p :| PathTo(f, p, b);
    assert d in p;
    var k :| 0 <= k < |p| && p[k] == d;
    PathPrefix(f, p, k);
  }
}
