/**
 The chains that remain after merging, in the order in which the output lists them.
 */
module LiveChains {
  import opened Khir
  import opened Ssa
  import opened CfgSimulation
  import opened MergeInvariant

  function Listed(chain: seq<seq<nat>>): (r: seq<seq<nat>>)
  {
    if chain == [] then []
    else Listed(chain[..|chain| - 1]) + if chain[|chain| - 1] == [] then [] else [chain[|chain| - 1]]
  }

  /** The index that block `i` gets in the output. */
  function NewIdx(chain: seq<seq<nat>>, i: nat): (c: nat)
    requires i <= |chain|
  {
    |Listed(chain[..i])|
  }

  lemma {:induction false} ListedPrefix(chain: seq<seq<nat>>, i: nat)
    requires i <= |chain|
    ensures NewIdx(chain, i) <= |Listed(chain)| && Listed(chain)[..NewIdx(chain, i)] == Listed(chain[..i])
    decreases |chain|
  {
    if i == |chain| {
      assert chain[..i] == chain;
    } else {
      var c := chain[..|chain| - 1];
      ListedPrefix(c, i);
      assert c[..i] == chain[..i];
    }
  }

  lemma NewIdxStep(chain: seq<seq<nat>>, i: nat)
    requires i < |chain|
    ensures NewIdx(chain, i + 1) == NewIdx(chain, i) + if chain[i] == [] then 0 else 1
    ensures Listed(chain[..i + 1]) == Listed(chain[..i]) + if chain[i] == [] then [] else [chain[i]]
  {
    assert chain[..i + 1][..i] == chain[..i];
  }

  lemma ListedAt(chain: seq<seq<nat>>, i: nat)
    requires IsLive(chain, i)
    ensures NewIdx(chain, i) < |Listed(chain)| && Listed(chain)[NewIdx(chain, i)] == chain[i]
  {
    NewIdxStep(chain, i);
    ListedPrefix(chain, i + 1);
    var c := NewIdx(chain, i);
    assert Listed(chain)[c] == Listed(chain)[..c + 1][c];
  }

  lemma {:induction false} NewIdxMonotone(chain: seq<seq<nat>>, i: nat, i': nat)
    requires i <= i' <= |chain|
    ensures NewIdx(chain, i) <= NewIdx(chain, i')
    ensures i < i' && chain[i] != [] ==> NewIdx(chain, i) < NewIdx(chain, i')
    decreases i'
  {
    if i < i' {
      NewIdxMonotone(chain, i, i' - 1);
      NewIdxStep(chain, i' - 1);
    }
  }

  lemma NewIdxInjective(chain: seq<seq<nat>>, i: nat, i': nat)
    requires IsLive(chain, i) && IsLive(chain, i') && NewIdx(chain, i) == NewIdx(chain, i')
    ensures i == i'
  {
    if i < i' { NewIdxMonotone(chain, i, i'); }
    if i' < i { NewIdxMonotone(chain, i', i); }
  }

  lemma {:induction false} ListedFrom(chain: seq<seq<nat>>, c: nat) returns (i: nat)
    requires c < |Listed(chain)|
    ensures IsLive(chain, i) && NewIdx(chain, i) == c && Listed(chain)[c] == chain[i]
    decreases |chain|
  {
    var last := |chain| - 1;
    if c < |Listed(chain[..last])| {
      i := ListedFrom(chain[..last], c);
      assert chain[..last][..i] == chain[..i];
    } else {
      i := last;
    }
  }

  lemma EntryIsHead(f: Function, chain: seq<seq<nat>>)
    requires Partition(f, chain) && 0 < |f.blocks|
    ensures IsLive(chain, 0)
  {
    assert PathTo(f, [0], 0);
    assert Reachable(f, 0);
    var c: nat, i: nat :| InChain(chain, c, i, 0);
    assert IsChain(f, chain[c]);
    if i > 0 {
      InnerIsNotEntry(f, chain[c], i);
    }
  }

  lemma InnerIsNotEntry(f: Function, chain: seq<nat>, i: nat)
    requires IsChain(f, chain) && 0 < i < |chain|
    ensures chain[i] != 0
  {
    assert Linked(f, chain[i - 1], chain[i]);
  }

  lemma InListed(chain: seq<seq<nat>>, c: nat, k: nat, b: nat) returns (i: nat)
    requires InChain(Listed(chain), c, k, b)
    ensures InChain(chain, i, k, b) && NewIdx(chain, i) == c && Listed(chain)[c] == chain[i]
  {
    i := ListedFrom(chain, c);
  }

  lemma ListedOnce(f: Function, chain: seq<seq<nat>>, c: nat, k: nat, c': nat, k': nat, b: nat)
    requires Partition(f, chain) && InChain(Listed(chain), c, k, b) && InChain(Listed(chain), c', k', b)
    ensures c == c' && k == k'
  {
    var i := InListed(chain, c, k, b);
    var i' := InListed(chain, c', k', b);
  }

  lemma ListedChainsOk(f: Function, chain: seq<seq<nat>>)
    requires Partition(f, chain) && OnlyWaysIn(f, chain) && 0 < |f.blocks|
    ensures ChainsOk(f, Listed(chain))
  {
    hide IsChain, Listed;
    var chains := Listed(chain);
    EntryIsHead(f, chain);
    ListedAt(chain, 0);
    FirstIndex(chain);
    forall c: nat | c < |chains| ensures IsChain(f, chains[c]) {
      var i := ListedFrom(chain, c);
    }
    forall c: nat, k: nat, c': nat, k': nat, b: nat | InChain(chains, c, k, b) && InChain(chains, c', k', b)
      ensures c == c' && k == k'
    {
      ListedOnce(f, chain, c, k, c', k', b);
    }
    forall c: nat, k: nat, y: nat, c': nat, k': nat, b: nat |
      0 < k && InChain(chains, c, k, y) && InChain(chains, c', k', b) && Edge(f, b, y)
      ensures b == chains[c][k - 1]
    {
      var i := InListed(chain, c, k, y);
      var i' := InListed(chain, c', k', b);
    }
    forall b: nat | b < |f.blocks| && Reachable(f, b) ensures exists c: nat, k: nat :: InChain(chains, c, k, b) {
      var i: nat, k: nat :| InChain(chain, i, k, b);
      ListedAt(chain, i);
      assert InChain(chains, NewIdx(chain, i), k, b);
    }
  }

  lemma FirstIndex(chain: seq<seq<nat>>)
    ensures NewIdx(chain, 0) == 0
  {
    assert chain[..0] == [];
  }

  lemma ListedValueMap(f: Function, chain: seq<seq<nat>>, vm: map<Value, Value>)
    requires BlocksOk(f) && ValueMapOk(f, chain, vm)
    ensures ValueMapOk(f, Listed(chain), vm)
  {
    hide Listed, BlocksOk, NumPhis, IsMember, MemberPhi, MemberValue;
    var chains := Listed(chain);
    forall v | v in vm ensures exists c: nat, k: nat, o: nat :: RemovedPhi(f, chains, c, k, o, v) {
      var i: nat, k: nat, o: nat :| RemovedPhi(f, chain, i, k, o, v);
      ListedAt(chain, i);
      assert RemovedPhi(f, chains, NewIdx(chain, i), k, o, v);
    }
    forall v, c: nat, k: nat, o: nat | RemovedPhi(f, chains, c, k, o, v)
      ensures v in vm && vm[v] == MemberValue(f, chains[c][k - 1], o)
    {
      var i := ListedFrom(chain, c);
      assert RemovedPhi(f, chain, i, k, o, v);
    }
  }

  /** The remaining chains and the value map are a plan for the simplified function. */
  lemma ListedPlan(f: Function, dead: seq<bool>, chain: seq<seq<nat>>, vm: map<Value, Value>)
    requires IsSsa(f) && Partition(f, chain) && ValueMapOk(f, chain, vm)
    requires LiveLinks(f, dead, chain) && CoversLive(dead, chain)
    ensures PlanOk(f, Listed(chain), vm)
  {
    hide PhisLead, CalleesOk, Mirrored, UsesDominated, MembersMatch, MembersTargetSuccessors, Partition, Listed;
    hide BlocksOk, ValueMapOk, ChainsOk, LiveLinks, CoversLive;
    LiveWaysIn(f, dead, chain);
    ListedChainsOk(f, chain);
    ListedValueMap(f, chain, vm);
  }

  /** Branch targets are renumbered by the position of their chain. */
  lemma NewIndexIs(f: Function, chain: seq<seq<nat>>, t: nat)
    requires Partition(f, chain) && 0 < |f.blocks| && IsLive(chain, t)
    ensures IsHead(Listed(chain), t) && NewIndex(Listed(chain), t) == NewIdx(chain, t)
  {
    hide IsChain, Listed;
    var chains := Listed(chain);
    ListedAt(chain, t);
    assert chain[t][0] == t;
    assert InChain(chains, NewIdx(chain, t), 0, t);
    ListedOnce(f, chain, NewIndex(chains, t), 0, NewIdx(chain, t), 0, t);
  }
}
