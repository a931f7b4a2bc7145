/**
 From blocks to whole runs: the simplified function runs in step with the original one.
 */
module CfgPreservation {
  import opened Sequences
  import opened Khir
  import opened KhirSemantics
  import opened Ssa
  import opened CfgSimulation

  // ----- dominance along a run -----

  /** Since its last visit to `y`, the run has not executed a definition of `v`. */
  ghost predicate UndefinedSince(f: Function, h: seq<nat>, y: nat, v: Value)
    requires BlocksOk(f)
  {
    exists k :: 0 <= k < |h| && LastVisit(f, h, k, y, v)
  }

  ghost predicate LastVisit(f: Function, h: seq<nat>, k: int, y: nat, v: Value)
    requires BlocksOk(f) && 0 <= k < |h|
  {
    h[k] == y && forall j :: k < j < |h| ==> h[j] != y && !HoldsValue(f, h[j], v)
  }

  lemma {:induction false} LastOccurrence(h: seq<nat>, y: nat) returns (k: nat)
    requires y in h
    ensures k < |h| && h[k] == y && forall j :: k < j < |h| ==> h[j] != y
    decreases |h|
  {
    var n := |h| - 1;
    if h[n] == y {
      k := n;
    } else {
      assert h[..n][..n] == h[..n];
      var i :| 0 <= i < |h| && h[i] == y;
      assert h[..n][i] == y;
      k := LastOccurrence(h[..n], y);
    }
  }

  /** On a run that has reached a block dominated by `y`, whatever strictly dominates `y` has
      not been executed again since the last visit to `y`. */
  lemma FreshAtUse(f: Function, h: seq<nat>, b: nat, y: nat, d: nat) returns (k: nat)
    requires PathTo(f, h, b) && Dominates(f, y, b) && Dominates(f, d, y) && d != y
    ensures k < |h| && h[k] == y && forall j :: k < j < |h| ==> h[j] != y && h[j] != d
  {
    k := LastOccurrence(h, y);
    forall j | k < j < |h| ensures h[j] != d {
      if h[j] == d {
        PathPrefix(f, h, k);
        if Dominates(f, y, d) {
          DominanceIsAntisymmetric(f, d, y, h[..k + 1]);
        }
        var q :| PathTo(f, q, d) && y !in q;
        JoinPaths(f, q, h, j);
      }
    }
  }

  lemma JoinPaths(f: Function, q: seq<nat>, h: seq<nat>, j: nat)
    requires IsPath(f, h) && j < |h| && PathTo(f, q, h[j])
    ensures PathTo(f, q + h[j + 1..], h[|h| - 1])
  {
    var p := q + h[j + 1..];
    forall i | 0 < i < |p| ensures Edge(f, p[i - 1], p[i]) {
      if i < |q| {
        assert Edge(f, q[i - 1], q[i]);
      } else {
        assert Edge(f, h[j + 1 + (i - |q|) - 1], h[j + 1 + (i - |q|)]);
      }
    }
  }

  /** Removed phis that have not been overtaken hold the value of their replacement. */
  ghost predicate HistoryOk<V, S>(m: Machine<V, S>, f: Function, vm: map<Value, Value>, h: seq<nat>, env: map<int, V>)
    requires BlocksOk(f)
  {
    forall v, y: nat :: v in vm && HoldsValue(f, y, v) && UndefinedSince(f, h, y, vm[v]) ==>
        Read(m, env, v) == Read(m, env, vm[v])
  }

  /** The replacement of a usable phi is still current when block `b` is entered. */
  lemma UsableIsCurrent(f: Function, chains: seq<seq<nat>>, vm: map<Value, Value>, h: seq<nat>, b: nat, v: Value,
                        y: nat)
    requires PlanOk(f, chains, vm) && PathTo(f, h + [b], b) && v in vm && HoldsValue(f, y, v) && Dominates(f, y, b) &&
             y != b
    ensures UndefinedSince(f, h, y, vm[v])
  {
    hide PhisLead, CalleesOk, Mirrored, EntryOk, UsesDominated, MembersMatch, MembersTargetSuccessors, ChainsOk;
    hide ValueMapOk, Dominates, IsPath;
    var c, k, o := RemovedFrom(f, chains, vm, v);
    HoldsOnce(f, y, chains[c][k], v.idx);
    var hb := h + [b];
    if vm[v].Local? {
      DominatorReachable(f, y, b);
      LinkedReachable(f, chains[c][k - 1], y);
      var d := MemberDefinedAbove(f, chains[c][k - 1], y, o);
      var i := FreshAtUse(f, hb, b, y, d);
      assert hb[|h|] == b;
      forall j | i < j < |h| ensures h[j] != y && !HoldsValue(f, h[j], vm[v]) {
        assert hb[j] == h[j];
        if HoldsValue(f, h[j], vm[v]) { HoldsOnce(f, h[j], d, vm[v].idx); }
      }
      assert LastVisit(f, h, i, y, vm[v]);
    } else {
      InPath(f, hb, b, y);
      var i := LastOccurrence(hb, y);
      assert hb[|h|] == b;
      assert forall j :: 0 <= j < |h| ==> hb[j] == h[j];
      assert LastVisit(f, h, i, y, vm[v]);
    }
  }

  lemma InPath(f: Function, path: seq<nat>, b: nat, y: nat)
    requires PathTo(f, path, b) && Dominates(f, y, b)
    ensures y in path
  {
  }

  // ----- the pieces of a chain -----

  lemma ChainFacts(f: Function, chains: seq<seq<nat>>, c: nat, i: nat)
    requires ChainsOk(f, chains) && c < |chains| && i < |chains[c]|
    ensures IsChain(f, chains[c]) && InFunction(f, chains[c])
    ensures i + 1 < |chains[c]| ==> Linked(f, chains[c][i], chains[c][i + 1])
  {
    assert IsChain(f, chains[c]);
    if i + 1 < |chains[c]| { assert Linked(f, chains[c][i + 1 - 1], chains[c][i + 1]); }
  }

  /** Members and leading phis of a block do not overlap. */
  lemma PieceBounds(f: Function, chains: seq<seq<nat>>, c: nat, i: nat)
    requires IsSsa(f) && ChainsOk(f, chains) && c < |chains| && i < |chains[c]| && InFunction(f, chains[c])
    ensures First(f, chains[c][i]) <= PieceLo(f, chains[c], i) <= PieceHi(f, chains[c], i) +
            1 <= Last(f, chains[c][i]) + 1
    ensures i + 1 < |chains[c]| ==>
            PieceHi(f, chains[c], i) < Last(f, chains[c][i]) && MembersMatch(f, chains[c][i], chains[c][i + 1])
  {
    hide PhisLead, CalleesOk, Mirrored, EntryOk, UsesDominated, MembersTargetSuccessors, ChainsOk;
    ChainFacts(f, chains, c, i);
    if i + 1 < |chains[c]| {
      var x, y := chains[c][i], chains[c][i + 1];
      assert MembersMatch(f, x, y);
      var n := NumPhis(f, y);
      if n > 0 {
        assert IsMember(f, x, n - 1);
        assert f.instrs[Last(f, x) - n].PhiMember?;
      }
    }
  }

  lemma PieceLocalSurvives(f: Function, chains: seq<seq<nat>>, vm: map<Value, Value>, c: nat, i: nat, j: nat)
    requires PlanOk(f, chains, vm) && c < |chains| && Kept(f, chains[c], i, j) && Holds(f, chains[c][i], j)
    ensures Local(j) !in vm
  {
    hide PhisLead, CalleesOk, Mirrored, EntryOk, UsesDominated, MembersMatch, MembersTargetSuccessors, ValueMapOk;
    hide IsChain;
    assert InChain(chains, c, i, chains[c][i]);
    if Local(j) in vm {
      RemovedIsInner(f, chains, vm, chains[c][i], j);
    }
  }

  /** Phis with a removed member live in the next block of the chain. */
  lemma PieceMemberSurvives(f: Function, chains: seq<seq<nat>>, vm: map<Value, Value>, c: nat, i: nat, j: nat)
    requires PlanOk(f, chains, vm) && c < |chains| && Kept(f, chains[c], i, j) && Holds(f, chains[c][i], j)
    requires f.instrs[j].PhiMember?
    ensures f.instrs[j].phi !in vm
  {
    hide PhisLead, CalleesOk, Mirrored, EntryOk, UsesDominated, ValueMapOk, IsChain, ChainsOk;
    var b, phi := chains[c][i], f.instrs[j].phi;
    if phi in vm {
      assert TargetsSuccessor(f, b, phi);
      var t: nat :| Edge(f, b, t) && HoldsValue(f, t, phi);
      RemovedIsInner(f, chains, vm, t, phi.idx);
      var c': nat, k: nat :| 0 < k && InChain(chains, c', k, t);
      assert InChain(chains, c, i, b);
      WayIn(f, chains, c, i, b, c', k, t);
      PieceBounds(f, chains, c, i);
    }
  }

  lemma WayIn(f: Function, chains: seq<seq<nat>>, c: nat, i: nat, b: nat, c': nat, k: nat, t: nat)
    requires ChainsOk(f, chains) && InChain(chains, c, i, b) && Edge(f, b, t) && 0 < k && InChain(chains, c', k, t)
    ensures c == c' && k == i + 1 && chains[c][i + 1] == t
  {
    hide IsChain;
    assert InChain(chains, c', k - 1, b);
  }

  lemma KeptIsCommon(f: Function, chains: seq<seq<nat>>, vm: map<Value, Value>, g: Function, c: nat, i: nat, j: int)
    requires PlanOk(f, chains, vm) && Implements(f, chains, vm, g) && c < |chains| && Kept(f, chains[c], i, j)
    ensures Common(f, vm, chains[c][i], j) && RewrittenAt(f, chains, vm, g, j)
    ensures 0 <= j < |f.instrs| && j < |g.instrs|
    ensures j < Last(f, chains[c][i]) ==> !f.instrs[j].IsTerminator()
  {
    hide PhisLead, CalleesOk, Mirrored, EntryOk, UsesDominated, MembersMatch, MembersTargetSuccessors, ValueMapOk;
    hide ChainsOk;
    PieceBounds(f, chains, c, i);
    assert Holds(f, chains[c][i], j);
    PieceLocalSurvives(f, chains, vm, c, i, j);
    if f.instrs[j].PhiMember? { PieceMemberSurvives(f, chains, vm, c, i, j); }
  }

  lemma PieceIsCommon(f: Function, chains: seq<seq<nat>>, vm: map<Value, Value>, g: Function, c: nat, i: nat, lo: int,
                      hi: int)
    requires PlanOk(f, chains, vm) && Implements(f, chains, vm, g) && c < |chains| && i < |chains[c]| &&
             InFunction(f, chains[c])
    requires PieceLo(f, chains[c], i) <= lo && hi <= PieceHi(f, chains[c], i)
    ensures CommonCode(f, chains, vm, g, chains[c][i], Range(lo, hi))
    ensures InBounds(f.instrs, Range(lo, hi)) && InBounds(g.instrs, Range(lo, hi))
    ensures hi < Last(f, chains[c][i]) ==> NoTerminator(f.instrs, Range(lo, hi))
  {
    hide PhisLead, CalleesOk, Mirrored, EntryOk, UsesDominated, MembersMatch, MembersTargetSuccessors, ChainsOk;
    hide ValueMapOk, Usable, Common, RewrittenAt, Implements, PieceLo, PieceHi, Range;
    RangeElements(lo, hi);
    forall k | 0 <= k < |Range(lo, hi)|
      ensures Common(f, vm, chains[c][i], Range(lo, hi)[k]) && RewrittenAt(f, chains, vm, g, Range(lo, hi)[k])
      ensures 0 <= Range(lo, hi)[k] < |f.instrs| && Range(lo, hi)[k] < |g.instrs|
      ensures Range(lo, hi)[k] < Last(f, chains[c][i]) ==> !f.instrs[Range(lo, hi)[k]].IsTerminator()
    {
      KeptIsCommon(f, chains, vm, g, c, i, Range(lo, hi)[k]);
    }
  }

  // ----- one block -----

  /** The members of the previous chain block have fixed the values of `b`'s phis. */
  ghost predicate PendingOk<V, S>(m: Machine<V, S>, f: Function, vm: map<Value, Value>, b: nat, st: State<V, S>)
    requires BlocksOk(f) && b < |f.blocks|
  {
    forall x: nat :: First(f, b) <= x < First(f, b) + NumPhis(f, b) ==>
                       Local(x) in vm && x in st.pending && st.pending[x] == Read(m, st.env, vm[Local(x)])
  }

  /** Phis of other blocks are current when `b` is entered. */
  lemma CurrentOnEntry<V, S>(m: Machine<V, S>, f: Function, chains: seq<seq<nat>>, vm: map<Value, Value>, h: seq<nat>,
                             b: nat, env: map<int, V>, v: Value, y: nat)
    requires PlanOk(f, chains, vm) && PathTo(f, h + [b], b) && HistoryOk(m, f, vm, h, env)
    requires v in vm && HoldsValue(f, y, v) && Dominates(f, y, b) && y != b
    ensures Read(m, env, v) == Read(m, env, vm[v])
  {
    hide PhisLead, CalleesOk, Mirrored, EntryOk, UsesDominated, MembersMatch, MembersTargetSuccessors, ChainsOk;
    hide ValueMapOk, Usable, UndefinedSince, Dominates, IsPath;
    UsableIsCurrent(f, chains, vm, h, b, v, y);
  }

  lemma GoodAtHead<V, S>(m: Machine<V, S>, f: Function, chains: seq<seq<nat>>, vm: map<Value, Value>, c: nat,
                         h: seq<nat>, env: map<int, V>)
    requires PlanOk(f, chains, vm) && c < |chains| && 0 < |chains[c]| &&
             PathTo(f, h + [chains[c][0]], chains[c][0]) && HistoryOk(m, f, vm, h, env)
    ensures Good(m, f, vm, chains[c][0], env)
  {
    hide PhisLead, CalleesOk, Mirrored, EntryOk, UsesDominated, MembersMatch, MembersTargetSuccessors, ValueMapOk;
    hide IsChain, Dominates, IsPath, UndefinedSince;
    var b := chains[c][0];
    forall v | v in vm && Usable(f, b, v) ensures Read(m, env, v) == Read(m, env, vm[v]) {
      var y: nat :| HoldsValue(f, y, v) && Dominates(f, y, b);
      assert InChain(chains, c, 0, b);
      if y == b {
        RemovedIsInner(f, chains, vm, b, v.idx);
      }
      CurrentOnEntry(m, f, chains, vm, h, b, env, v, y);
    }
  }

  lemma SameRead<V, S>(m: Machine<V, S>, f: Function, b: nat, env: map<int, V>, env': map<int, V>, v: Value)
    requires BlocksOk(f) && !HoldsValue(f, b, v)
    requires forall x: nat :: !Holds(f, b, x) ==> (x in env <==> x in env') && (x in env ==> env'[x] == env[x])
    ensures Read(m, env, v) == Read(m, env', v)
  {
  }

  /** Entering a block inside a chain: the original executes the leading phis. */
  lemma EnterInner<V, S>(m: Machine<V, S>, f: Function, chains: seq<seq<nat>>, vm: map<Value, Value>, b: nat,
                         h: seq<nat>,
                         st: State<V, S>, st1: State<V, S>)
    requires PlanOk(f, chains, vm) && b < |f.blocks| && Reachable(f, b) && PathTo(f, h + [b], b) &&
             HistoryOk(m, f, vm, h, st.env)
    requires PendingOk(m, f, vm, b, st)
    requires st1.pending == st.pending
    requires forall x :: First(f, b) <= x < First(f, b) + NumPhis(f, b) ==>
             x in st1.env && (x in st.pending ==> st1.env[x] == st.pending[x])
    requires forall x :: !(First(f, b) <= x < First(f, b) + NumPhis(f, b)) ==>
             (x in st1.env <==> x in st.env) && (x in st.env ==> st1.env[x] == st.env[x])
    ensures Good(m, f, vm, b, st1.env)
  {
    hide PhisLead, CalleesOk, Mirrored, EntryOk, UsesDominated, MembersMatch, MembersTargetSuccessors, ValueMapOk;
    hide IsChain, Dominates, IsPath, UndefinedSince, ChainsOk;
    forall v | v in vm && Usable(f, b, v) ensures Read(m, st1.env, v) == Read(m, st1.env, vm[v]) {
      var y: nat :| HoldsValue(f, y, v) && Dominates(f, y, b);
      ReplacementIsAbove(f, chains, vm, b, v);
      SameRead(m, f, b, st.env, st1.env, vm[v]);
      if y != b {
        CurrentOnEntry(m, f, chains, vm, h, b, st.env, v, y);
        if HoldsValue(f, b, v) { HoldsOnce(f, b, y, v.idx); }
        SameRead(m, f, b, st.env, st1.env, v);
      } else {
        RemovedIsInner(f, chains, vm, b, v.idx);
      }
    }
  }

  /** After block `b` the history holds for the longer run. */
  lemma HistoryAfter<V, S>(m: Machine<V, S>, f: Function, chains: seq<seq<nat>>, vm: map<Value, Value>, h: seq<nat>,
                           b: nat, env: map<int, V>, env': map<int, V>)
    requires PlanOk(f, chains, vm) && b < |f.blocks| && HistoryOk(m, f, vm, h, env) && Good(m, f, vm, b, env')
    requires forall x: nat :: !Holds(f, b, x) ==> (x in env <==> x in env') && (x in env ==> env'[x] == env[x])
    ensures HistoryOk(m, f, vm, h + [b], env')
  {
    hide PhisLead, CalleesOk, Mirrored, EntryOk, UsesDominated, MembersMatch, MembersTargetSuccessors, ValueMapOk;
    hide ChainsOk, BlocksOk;
    var hb := h + [b];
    forall v, y: nat | v in vm && HoldsValue(f, y, v) && UndefinedSince(f, hb, y, vm[v])
      ensures Read(m, env', v) == Read(m, env', vm[v])
    {
      var k :| 0 <= k < |hb| && LastVisit(f, hb, k, y, vm[v]);
      if k == |h| {
        assert Dominates(f, b, b);
        assert Usable(f, b, v);
      } else {
        assert forall j :: 0 <= j < |h| ==> hb[j] == h[j];
        assert LastVisit(f, h, k, y, vm[v]);
        assert hb[|h|] == b && b != y && !HoldsValue(f, b, vm[v]);
        if HoldsValue(f, b, v) { HoldsOnce(f, b, y, v.idx); }
        SameRead(m, f, b, env, env', v);
        SameRead(m, f, b, env, env', vm[v]);
      }
    }
  }

  /** Up to the members and the branch: leading phis, then code common to both functions. */
  lemma RunBody<V, S>(m: Machine<V, S>, f: Function, chains: seq<seq<nat>>, vm: map<Value, Value>, g: Function,
                      c: nat, i: nat, h: seq<nat>,
                      hi: int, st: State<V, S>, st': State<V, S>)
    requires PlanOk(f, chains, vm) && Implements(f, chains, vm, g) && c < |chains| && i < |chains[c]| &&
             InFunction(f, chains[c])
    requires PathTo(f, h + [chains[c][i]], chains[c][i]) && HistoryOk(m, f, vm, h, st.env) && Related(vm, st, st')
    requires i > 0 ==> PendingOk(m, f, vm, chains[c][i], st)
    requires PieceLo(f, chains[c], i) <= hi + 1 && hi <= PieceHi(f, chains[c], i) && hi < Last(f, chains[c][i])
    ensures var all, piece := Range(First(f, chains[c][i]), hi), Range(PieceLo(f, chains[c], i), hi);
            && InBounds(f.instrs, all) && NoTerminator(f.instrs, all) && InBounds(g.instrs, piece) &&
                NoTerminator(g.instrs, piece)
            && Related(vm, Exec(m, f.instrs, all, st).0, Exec(m, g.instrs, piece, st').0)
            && Good(m, f, vm, chains[c][i], Exec(m, f.instrs, all, st).0.env)
  {
    hide PhisLead, CalleesOk, Mirrored, EntryOk, UsesDominated, MembersMatch, MembersTargetSuccessors, ChainsOk;
    hide ValueMapOk, Usable, HistoryOk, Good, Related, CommonCode, PendingOk, RewrittenAt, Implements;
    hide Dominates, IsPath, Range, Exec, NumPhis;
    var b := chains[c][i];
    var first, lo := First(f, b), PieceLo(f, chains[c], i);
    ChainFacts(f, chains, c, i);
    PieceBounds(f, chains, c, i);
    PieceIsCommon(f, chains, vm, g, c, i, lo, hi);
    RangeSplit(first, lo, hi);
    RunPhis(m, f.instrs, first, lo - 1, st);
    var st1 := Exec(m, f.instrs, Range(first, lo - 1), st).0;
    if i == 0 {
      EmptyRun(m, f.instrs, first, lo - 1, st);
      GoodAtHead(m, f, chains, vm, c, h, st.env);
    } else {
      EnterInner(m, f, chains, vm, b, h, st, st1);
      RelatedAfterPhis(m, f, vm, b, st, st1, st');
    }
    RunCommon(m, f, chains, vm, g, b, Range(lo, hi), st1, st');
    ExecConcat(m, f.instrs, Range(first, lo - 1), Range(lo, hi), st);
    NoTerminatorConcat(f.instrs, Range(first, lo - 1), Range(lo, hi));
  }

  lemma EmptyRun<V, S>(m: Machine<V, S>, instrs: seq<Instr>, lo: int, hi: int, st: State<V, S>)
    requires lo > hi
    ensures Range(lo, hi) == [] && Exec(m, instrs, Range(lo, hi), st).0 == st
  {
  }

  lemma NoTerminatorConcat(instrs: seq<Instr>, a: seq<int>, b: seq<int>)
    requires InBounds(instrs, a) && InBounds(instrs, b) && NoTerminator(instrs, a) && NoTerminator(instrs, b)
    ensures InBounds(instrs, a + b) && NoTerminator(instrs, a + b)
  {
  }

  /** The leading phis of a block inside a chain are all removed. */
  lemma RelatedAfterPhis<V, S>(m: Machine<V, S>, f: Function, vm: map<Value, Value>, b: nat, st: State<V, S>,
                               st1: State<V, S>, st': State<V, S>)
    requires BlocksOk(f) && b < |f.blocks| && PendingOk(m, f, vm, b, st) && Related(vm, st, st')
    requires st1.pending == st.pending && st1.store == st.store && st1.trace == st.trace
    requires forall x :: !(First(f, b) <= x < First(f, b) + NumPhis(f, b)) ==>
             (x in st1.env <==> x in st.env) && (x in st.env ==> st1.env[x] == st.env[x])
    ensures Related(vm, st1, st')
  {
  }

  /** Index `j` holds the member of the removed phi `x`. */
  ghost predicate IsMemberOf(f: Function, vm: map<Value, Value>, j: int, x: nat)
  {
    && 0 <= j < |f.instrs| && f.instrs[j].PhiMember? && f.instrs[j].phi == Local(x)
    && Local(x) in vm && vm[Local(x)] == f.instrs[j].value
  }

  /** Members of removed phis fill the range; every phi from `first` to `end` has one. */
  ghost predicate BranchMembers(f: Function, vm: map<Value, Value>, lo: int, hi: int, first: int, end: int)
  {
    && AreMembers(f.instrs, lo, hi)
    && (forall j :: lo <= j <= hi ==> f.instrs[j].phi in vm)
    && (forall x: nat :: first <= x < end ==> HasMember(f, vm, lo, hi, x))
  }

  ghost predicate HasMember(f: Function, vm: map<Value, Value>, lo: int, hi: int, x: nat)
  {
    exists j :: lo <= j <= hi && IsMemberOf(f, vm, j, x)
  }

  lemma MemberExists(f: Function, b: nat, next: nat, o: nat)
    requires BlocksOk(f) && b < |f.blocks| && next < |f.blocks| && MembersMatch(f, b, next) && o < NumPhis(f, next)
    ensures IsMember(f, b, o) && MemberPhi(f, b, o).Local?
  {
  }

  lemma RemovedValue(f: Function, chains: seq<seq<nat>>, vm: map<Value, Value>, c: nat, k: nat, o: nat, v: Value)
    requires BlocksOk(f) && ValueMapOk(f, chains, vm) && RemovedPhi(f, chains, c, k, o, v)
    ensures v in vm && vm[v] == MemberValue(f, chains[c][k - 1], o)
  {
  }

  lemma MemberAt(f: Function, chains: seq<seq<nat>>, vm: map<Value, Value>, c: nat, i: nat, b: nat, next: nat, o: nat)
    requires BlocksOk(f) && ValueMapOk(f, chains, vm) && c < |chains| && i + 1 < |chains[c]|
    requires b == chains[c][i] < |f.blocks| && next == chains[c][i + 1] < |f.blocks| && MembersMatch(f, b, next) &&
             o < NumPhis(f, next)
    ensures IsMember(f, b, o) && MemberPhi(f, b, o).Local?
    ensures IsMemberOf(f, vm, Last(f, b) - 1 - o, MemberPhi(f, b, o).idx)
  {
    hide MembersMatch, ValueMapOk, NumPhis;
    MemberExists(f, b, next, o);
    RemovedValue(f, chains, vm, c, i + 1, o, MemberPhi(f, b, o));
  }

  lemma MembersDiffer(f: Function, b: nat, next: nat, o: nat, o': nat)
    requires BlocksOk(f) && b < |f.blocks| && next < |f.blocks| && MembersMatch(f, b, next) && o < o' < NumPhis(f, next)
    ensures IsMember(f, b, o) && IsMember(f, b, o') && MemberPhi(f, b, o) != MemberPhi(f, b, o')
  {
    MemberExists(f, b, next, o);
    MemberExists(f, b, next, o');
  }

  lemma PhiHasMember(f: Function, b: nat, next: nat, x: nat) returns (o: nat)
    requires BlocksOk(f) && b < |f.blocks| && next < |f.blocks| && MembersMatch(f, b, next)
    requires First(f, next) <= x < First(f, next) + NumPhis(f, next)
    ensures o < NumPhis(f, next) && IsMember(f, b, o) && MemberPhi(f, b, o) == Local(x)
  {
    o :| o < NumPhis(f, next) && MemberPhi(f, b, o) == Local(x);
  }

  /** The members before the branch to the next chain block. */
  lemma MembersBeforeBranch(f: Function, chains: seq<seq<nat>>, vm: map<Value, Value>, c: nat, i: nat, b: nat,
                            next: nat, lo: int, hi: int, end: int)
    requires BlocksOk(f) && ValueMapOk(f, chains, vm) && c < |chains| && i + 1 < |chains[c]|
    requires b == chains[c][i] < |f.blocks| && next == chains[c][i + 1] < |f.blocks| && MembersMatch(f, b, next)
    requires hi == Last(f, b) - 1 && lo == hi + 1 - NumPhis(f, next) && end == First(f, next) + NumPhis(f, next)
    ensures BranchMembers(f, vm, lo, hi, First(f, next), end)
  {
    hide NumPhis, ValueMapOk, MembersMatch;
    if lo <= hi { MemberExists(f, b, next, hi - lo); }
    assert 0 <= lo && hi < |f.instrs|;
    forall j | lo <= j <= hi
      ensures f.instrs[j].PhiMember? && f.instrs[j].phi.Local? && f.instrs[j].phi in vm
    {
      MemberAt(f, chains, vm, c, i, b, next, hi - j);
    }
    forall j, j' | lo <= j < j' <= hi ensures f.instrs[j].phi != f.instrs[j'].phi {
      MembersDiffer(f, b, next, hi - j', hi - j);
    }
    forall x: nat | First(f, next) <= x < end ensures HasMember(f, vm, lo, hi, x) {
      var o := PhiHasMember(f, b, next, x);
      MemberAt(f, chains, vm, c, i, b, next, o);
      assert IsMemberOf(f, vm, hi - o, x);
    }
  }

  lemma BranchToNext(f: Function, chains: seq<seq<nat>>, c: nat, i: nat)
    requires IsSsa(f) && ChainsOk(f, chains) && c < |chains| && i + 1 < |chains[c]| && InFunction(f, chains[c])
    ensures f.instrs[Last(f, chains[c][i])] == Br(chains[c][i + 1])
  {
    ChainFacts(f, chains, c, i);
    assert f.instrs[Last(f, chains[c][i])].Targets() == [chains[c][i + 1]];
  }

  /** Members only fix pending values of removed phis. */
  lemma AfterMembers<V, S>(m: Machine<V, S>, f: Function, vm: map<Value, Value>, next: nat, lo: int, hi: int,
                           st: State<V, S>, st2: State<V, S>, st': State<V, S>)
    requires BlocksOk(f) && next < |f.blocks| && Related(vm, st, st')
    requires BranchMembers(f, vm, lo, hi, First(f, next), First(f, next) + NumPhis(f, next))
    requires st2.env == st.env && st2.store == st.store && st2.trace == st.trace
    requires forall j :: lo <= j <= hi ==>
             f.instrs[j].phi.idx in st2.pending &&
             st2.pending[f.instrs[j].phi.idx] == Read(m, st.env, f.instrs[j].value)
    requires forall x: nat :: Untargeted(f.instrs, lo, hi, x) ==>
                                (x in st2.pending <==> x in st.pending) &&
                                    (x in st.pending ==> st2.pending[x] == st.pending[x])
    ensures Related(vm, st2, st') && PendingOk(m, f, vm, next, st2)
  {
    forall x: nat | Local(x) !in vm
      ensures (x in st2.pending <==> x in st'.pending) && (x in st2.pending ==> st2.pending[x] == st'.pending[x])
    {
      assert Untargeted(f.instrs, lo, hi, x);
    }
    forall x: nat | First(f, next) <= x < First(f, next) + NumPhis(f, next)
      ensures Local(x) in vm && x in st2.pending && st2.pending[x] == Read(m, st2.env, vm[Local(x)])
    {
      assert HasMember(f, vm, lo, hi, x);
      var j :| lo <= j <= hi && IsMemberOf(f, vm, j, x);
    }
  }

  /** What a block does to slots other than its own. */
  lemma BlockFrame<V, S>(m: Machine<V, S>, f: Function, b: nat, st: State<V, S>)
    requires BlocksOk(f) && b < |f.blocks|
    ensures InBounds(f.instrs, Range(First(f, b), Last(f, b)))
    ensures var env := Exec(m, f.instrs, Range(First(f, b), Last(f, b)), st).0.env;
            forall x: nat :: !Holds(f, b, x) ==> (x in st.env <==> x in env) && (x in st.env ==> env[x] == st.env[x])
  {
    hide Exec, Range;
    var code := Range(First(f, b), Last(f, b));
    RangeElements(First(f, b), Last(f, b));
    forall x: nat | !Holds(f, b, x)
      ensures var env := Exec(m, f.instrs, code, st).0.env;
              (x in st.env <==> x in env) && (x in st.env ==> env[x] == st.env[x])
    {
      ExecFrame(m, f.instrs, code, st, x);
    }
  }

  lemma ExecLast<V, S>(m: Machine<V, S>, instrs: seq<Instr>, j: int, st: State<V, S>)
    requires 0 <= j < |instrs| && instrs[j].IsTerminator()
    ensures InBounds(instrs, Range(j, j)) && Exec(m, instrs, Range(j, j), st) == (st, Leave(m, instrs[j], st))
  {
    assert Range(j, j) == [j];
  }

  /** The run so far, the block to be executed next, and the two states. */
  ghost predicate InSync<V, S>(m: Machine<V, S>, f: Function, chains: seq<seq<nat>>, vm: map<Value, Value>, c: nat,
                               i: nat, h: seq<nat>,
                               st: State<V, S>, st': State<V, S>)
    requires BlocksOk(f)
  {
    && c < |chains| && i < |chains[c]| && InFunction(f, chains[c])
    && PathTo(f, h + [chains[c][i]], chains[c][i]) && HistoryOk(m, f, vm, h, st.env) && Related(vm, st, st')
    && (i > 0 ==> PendingOk(m, f, vm, chains[c][i], st))
  }

  /** A block inside a chain: the original branches on, the simplified function falls through. */
  lemma RunInner<V, S>(m: Machine<V, S>, f: Function, chains: seq<seq<nat>>, vm: map<Value, Value>, g: Function,
                       c: nat, i: nat, h: seq<nat>,
                       st: State<V, S>, st': State<V, S>)
    requires PlanOk(f, chains, vm) && Implements(f, chains, vm, g) && InSync(m, f, chains, vm, c, i, h, st, st') &&
             i + 1 < |chains[c]|
    ensures var b := chains[c][i];
            var all, piece := Range(First(f, b), Last(f, b)), Range(PieceLo(f, chains[c], i), PieceHi(f, chains[c], i));
            && InBounds(f.instrs, all) && InBounds(g.instrs, piece) && NoTerminator(g.instrs, piece)
            && var r, st2' := Exec(m, f.instrs, all, st), Exec(m, g.instrs, piece, st').0;
            && r.1 == Goes(chains[c][i + 1]) && InSync(m, f, chains, vm, c, i + 1, h + [b], r.0, st2')
  {
    hide PhisLead, CalleesOk, Mirrored, EntryOk, UsesDominated, MembersMatch, MembersTargetSuccessors, ChainsOk;
    hide ValueMapOk, Usable, HistoryOk, Good, Related, PendingOk, RewrittenAt, Implements, Dominates, IsPath;
    hide Range, Exec, NumPhis;
    var b, next := chains[c][i], chains[c][i + 1];
    var first, lo, last := First(f, b), Last(f, b) - NumPhis(f, next), Last(f, b);
    ChainFacts(f, chains, c, i);
    PieceBounds(f, chains, c, i);
    RunBody(m, f, chains, vm, g, c, i, h, lo - 1, st, st');
    var st1, st1' := Exec(m, f.instrs, Range(first, lo - 1), st).0,
        Exec(m, g.instrs, Range(PieceLo(f, chains[c], i), lo - 1), st').0;
    MembersBeforeBranch(f, chains, vm, c, i, b, next, lo, last - 1, First(f, next) + NumPhis(f, next));
    RunMembers(m, f.instrs, lo, last - 1, st1);
    var st2 := Exec(m, f.instrs, Range(lo, last - 1), st1).0;
    AfterMembers(m, f, vm, next, lo, last - 1, st1, st2, st1');
    BranchToNext(f, chains, c, i);
    ExecLast(m, f.instrs, last, st2);
    ExecBlock(m, f.instrs, first, lo, last, st);
    BlockFrame(m, f, b, st);
    HistoryAfter(m, f, chains, vm, h, b, st.env, st2.env);
    PathAppend(f, h + [b], next);
  }

  lemma ExecBlock<V, S>(m: Machine<V, S>, instrs: seq<Instr>, first: int, lo: int, last: int, st: State<V, S>)
    requires 0 <= first <= lo <= last < |instrs|
    requires InBounds(instrs, Range(first, lo - 1)) && NoTerminator(instrs, Range(first, lo - 1))
    requires InBounds(instrs, Range(lo, last - 1)) && NoTerminator(instrs, Range(lo, last - 1))
    requires InBounds(instrs, Range(last, last))
    ensures InBounds(instrs, Range(first, last))
    ensures Exec(m, instrs, Range(first, last), st)
         == Exec(m, instrs, Range(last, last),
             Exec(m, instrs, Range(lo, last - 1), Exec(m, instrs, Range(first, lo - 1), st).0).0)
  {
    hide Exec, Range;
    RangeSplit(first, lo, last);
    RangeSplit(lo, last, last);
    ExecConcat(m, instrs, Range(first, lo - 1), Range(lo, last), st);
    ExecConcat(m, instrs, Range(lo, last - 1), Range(last, last), Exec(m, instrs, Range(first, lo - 1), st).0);
  }

  /** The last block of a chain: both functions leave it the same way. */
  lemma RunTail<V, S>(m: Machine<V, S>, f: Function, chains: seq<seq<nat>>, vm: map<Value, Value>, g: Function,
                      c: nat, i: nat, h: seq<nat>,
                      st: State<V, S>, st': State<V, S>)
    requires PlanOk(f, chains, vm) && Implements(f, chains, vm, g) && InSync(m, f, chains, vm, c, i, h, st, st') &&
             i + 1 == |chains[c]|
    ensures var b := chains[c][i];
            var all, piece := Range(First(f, b), Last(f, b)), Range(PieceLo(f, chains[c], i), PieceHi(f, chains[c], i));
            && InBounds(f.instrs, all) && InBounds(g.instrs, piece)
            && var r, r' := Exec(m, f.instrs, all, st), Exec(m, g.instrs, piece, st');
            && ExitsMatch(chains, r.1, r'.1) && Related(vm, r.0, r'.0) && HistoryOk(m, f, vm, h + [b], r.0.env)
            && (r.1.Goes? ==> Edge(f, b, r.1.block))
  {
    hide PhisLead, CalleesOk, Mirrored, EntryOk, UsesDominated, MembersMatch, MembersTargetSuccessors, ChainsOk;
    hide ValueMapOk, Usable, HistoryOk, Good, Related, PendingOk, RewrittenAt, Implements, Dominates, IsPath;
    hide Range, Exec, NumPhis, ExitsMatch, ReadsSame, Common;
    var b := chains[c][i];
    var first, lo, last := First(f, b), PieceLo(f, chains[c], i), Last(f, b);
    ChainFacts(f, chains, c, i);
    PieceBounds(f, chains, c, i);
    RunBody(m, f, chains, vm, g, c, i, h, last - 1, st, st');
    var st1, st1' := Exec(m, f.instrs, Range(first, last - 1), st).0, Exec(m, g.instrs, Range(lo, last - 1), st').0;
    KeptIsCommon(f, chains, vm, g, c, i, last);
    RelatedEnv(vm, st1, st1');
    RewriteReadsSame(m, f, chains, vm, b, last, st1.env, st1'.env);
    RewrittenTerminator(f, chains, vm, g, last);
    LeaveSame(m, chains, vm, f.instrs[last], Rewrite(vm, f.instrs[last]), st1, st1');
    ExecLast(m, f.instrs, last, st1);
    ExecLast(m, g.instrs, last, st1');
    RangeSplit(first, last, last);
    RangeSplit(lo, last, last);
    ExecConcat(m, f.instrs, Range(first, last - 1), Range(last, last), st);
    ExecConcat(m, g.instrs, Range(lo, last - 1), Range(last, last), st');
    BlockFrame(m, f, b, st);
    HistoryAfter(m, f, chains, vm, h, b, st.env, st1.env);
    LeaveTarget(m, f, b, st1);
  }

  lemma RewrittenTerminator(f: Function, chains: seq<seq<nat>>, vm: map<Value, Value>, g: Function, j: int)
    requires BlocksOk(f) && RewrittenAt(f, chains, vm, g, j) && f.instrs[j].IsTerminator()
    ensures var r := Rewrite(vm, f.instrs[j]);
            r.Targets() == f.instrs[j].Targets() && g.instrs[j] == Renumber(chains, r)
    ensures g.instrs[j].IsTerminator() && forall t :: t in f.instrs[j].Targets() ==> IsHead(chains, t)
  {
  }

  lemma LeaveTarget<V, S>(m: Machine<V, S>, f: Function, b: nat, st: State<V, S>)
    requires IsGraph(f) && b < |f.blocks|
    ensures var e := Leave(m, f.instrs[Last(f, b)], st); e.Goes? ==> Edge(f, b, e.block)
  {
    var instr := f.instrs[Last(f, b)];
    assert instr.Br? ==> instr.Targets()[0] == instr.target;
    assert instr.CondBr? ==> instr.Targets()[0] == instr.ifTrue && instr.Targets()[1] == instr.ifFalse;
    var e := Leave(m, instr, st);
    assert e.Goes? ==> e.block in f.blocks[b].succ;
  }

  // ----- whole runs -----

  lemma OriginalBlock(f: Function, b: nat)
    requires BlocksOk(f) && b < |f.blocks|
    ensures Indices(f.blocks[b].segments) == Range(First(f, b), Last(f, b))
    ensures InBounds(f.instrs, Range(First(f, b), Last(f, b)))
  {
    RangeElements(First(f, b), Last(f, b));
    assert f.blocks[b].segments[1..] == [];
  }

  lemma SyncBounds<V, S>(m: Machine<V, S>, f: Function, chains: seq<seq<nat>>, vm: map<Value, Value>, c: nat, i: nat,
                         h: seq<nat>,
                         st: State<V, S>, st': State<V, S>)
    requires BlocksOk(f) && InSync(m, f, chains, vm, c, i, h, st, st')
    ensures c < |chains| && i < |chains[c]| && InFunction(f, chains[c])
  {
  }

  lemma OriginalCodeOk(f: Function)
    requires IsGraph(f)
    ensures CodeOk(f)
  {
    hide Range, Indices;
    forall b: nat | b < |f.blocks| ensures InBounds(f.instrs, Indices(f.blocks[b].segments)) {
      OriginalBlock(f, b);
    }
    forall b: nat, i: nat, t | b < |f.blocks| && i < |Indices(f.blocks[b].segments)| &&
        t in f.instrs[Indices(f.blocks[b].segments)[i]].Targets()
      ensures t < |f.blocks|
    {
      OriginalBlock(f, b);
      RangeElements(First(f, b), Last(f, b));
      assert Indices(f.blocks[b].segments)[i] == Last(f, b);
    }
  }

  /** Every index of a merged chain comes from one of its pieces. */
  lemma {:induction false} FromPiece(f: Function, chain: seq<nat>, i: nat, k: nat) returns (p: nat)
    requires BlocksOk(f) && InFunction(f, chain) && i <= |chain| && k < |ChainIndices(f, chain, i)|
    ensures Kept(f, chain, p, ChainIndices(f, chain, i)[k])
    decreases |chain| - i
  {
    hide BlocksOk, NumPhis, PieceLo, PieceHi, Range;
    var piece := Range(PieceLo(f, chain, i), PieceHi(f, chain, i));
    RangeElements(PieceLo(f, chain, i), PieceHi(f, chain, i));
    if k < |piece| {
      p := i;
    } else {
      p := FromPiece(f, chain, i + 1, k - |piece|);
    }
  }

  lemma RewrittenTargets(f: Function, chains: seq<seq<nat>>, vm: map<Value, Value>, g: Function, j: int, t: nat)
    requires BlocksOk(f) && RewrittenAt(f, chains, vm, g, j) && t in g.instrs[j].Targets()
    ensures t < |chains|
  {
    hide BlocksOk;
    assert Rewrite(vm, f.instrs[j]).Targets() == f.instrs[j].Targets();
  }

  lemma SimplifiedCodeOk(f: Function, chains: seq<seq<nat>>, vm: map<Value, Value>, g: Function)
    requires PlanOk(f, chains, vm) && Implements(f, chains, vm, g)
    ensures CodeOk(g)
  {
    hide IsGraph, PhisLead, UsesDominated, CalleesOk, MembersTargetSuccessors, MembersMatch, ValueMapOk;
    hide RewrittenAt, ChainIndices;
    assert BlocksOk(f) by { SsaBlocks(f); }
    assert 0 < |chains|;
    forall b: nat, i: nat | b < |g.blocks| && i < |Indices(g.blocks[b].segments)|
      ensures 0 <= Indices(g.blocks[b].segments)[i] < |g.instrs|
      ensures forall t :: t in g.instrs[Indices(g.blocks[b].segments)[i]].Targets() ==> t < |g.blocks|
    {
      SimplifiedIndexOk(f, chains, vm, g, b, i);
    }
  }

  lemma SimplifiedIndexOk(f: Function, chains: seq<seq<nat>>, vm: map<Value, Value>, g: Function, b: nat, i: nat)
    requires BlocksOk(f) && Implements(f, chains, vm, g) && b < |chains| &&
             i < |Indices(g.blocks[b].segments)|
    ensures 0 <= Indices(g.blocks[b].segments)[i] < |g.instrs|
    ensures forall t :: t in g.instrs[Indices(g.blocks[b].segments)[i]].Targets() ==> t < |chains|
  {
    hide BlocksOk, ChainIndices, Indices;
    var p := FromPiece(f, chains[b], 0, i);
    var j := Indices(g.blocks[b].segments)[i];
    assert RewrittenAt(f, chains, vm, g, j);
    forall t | t in g.instrs[j].Targets() ensures t < |chains| {
      RewrittenTargets(f, chains, vm, g, j, t);
    }
  }

  lemma ChainInBounds(f: Function, chains: seq<seq<nat>>, vm: map<Value, Value>, g: Function, c: nat, i: nat)
    requires BlocksOk(f) && Implements(f, chains, vm, g) && c < |chains| && i <= |chains[c]|
    ensures InBounds(g.instrs, ChainIndices(f, chains[c], i))
  {
    hide BlocksOk, ChainIndices, Indices;
    forall k: nat | k < |ChainIndices(f, chains[c], i)| ensures 0 <= ChainIndices(f, chains[c], i)[k] < |g.instrs| {
      var p := FromPiece(f, chains[c], i, k);
      assert RewrittenAt(f, chains, vm, g, ChainIndices(f, chains[c], i)[k]);
    }
  }

  /** Runs a block of the original function. */
  lemma RunOriginal<V, S>(m: Machine<V, S>, f: Function, b: nat, st: State<V, S>)
    requires BlocksOk(f) && CodeOk(f) && b < |f.blocks|
    ensures InBounds(f.instrs, Range(First(f, b), Last(f, b)))
    ensures var r := Exec(m, f.instrs, Range(First(f, b), Last(f, b)), st);
            RunBlock(m, f, At(b, st)) == if r.1.Goes? then At(r.1.block, r.0) else Halted(r.1, r.0)
  {
    hide Exec, Range, Indices;
    OriginalBlock(f, b);
  }

  /** One block further along a chain. */
  lemma ChainStep<V, S>(m: Machine<V, S>, f: Function, chains: seq<seq<nat>>, vm: map<Value, Value>, g: Function,
                        c: nat, i: nat, h: seq<nat>, st: State<V, S>, st': State<V, S>)
    returns (h1: seq<nat>, st1: State<V, S>, st1': State<V, S>)
    requires PlanOk(f, chains, vm) && Implements(f, chains, vm, g) && CodeOk(f)
    requires InSync(m, f, chains, vm, c, i, h, st, st') && i + 1 < |chains[c]|
    ensures InSync(m, f, chains, vm, c, i + 1, h1, st1, st1')
    ensures RunBlock(m, f, At(chains[c][i], st)) == At(chains[c][i + 1], st1)
    ensures InBounds(g.instrs, ChainIndices(f, chains[c], i)) && InBounds(g.instrs, ChainIndices(f, chains[c], i + 1))
    ensures Exec(m, g.instrs, ChainIndices(f, chains[c], i), st') ==
            Exec(m, g.instrs, ChainIndices(f, chains[c], i + 1), st1')
  {
    hide IsSsa, ChainsOk, ValueMapOk, Exec, Range, Indices, Implements, NumPhis, PieceLo, PieceHi, InSync;
    hide CodeOk, RunBlock, BlocksOk;
    SsaBlocks(f);
    SyncBounds(m, f, chains, vm, c, i, h, st, st');
    ChainInBounds(f, chains, vm, g, c, i);
    ChainInBounds(f, chains, vm, g, c, i + 1);
    RunInner(m, f, chains, vm, g, c, i, h, st, st');
    var b, piece := chains[c][i], Range(PieceLo(f, chains[c], i), PieceHi(f, chains[c], i));
    RunOriginal(m, f, b, st);
    ExecConcat(m, g.instrs, piece, ChainIndices(f, chains[c], i + 1), st');
    h1, st1, st1' := h + [b], Exec(m, f.instrs, Range(First(f, b), Last(f, b)), st).0, Exec(m, g.instrs, piece, st').0;
  }

  /** While the original runs through a chain, the simplified function is inside one block. */
  lemma {:induction false} AlongChain<V, S>(m: Machine<V, S>, f: Function, chains: seq<seq<nat>>,
                                            vm: map<Value, Value>, g: Function,
                                           c: nat, i: nat, n: nat, h: seq<nat>, st0: State<V, S>, st: State<V, S>,
                                               st': State<V, S>)
    returns (h1: seq<nat>, st1: State<V, S>, st1': State<V, S>)
    requires PlanOk(f, chains, vm) && Implements(f, chains, vm, g) && CodeOk(f)
    requires InSync(m, f, chains, vm, c, 0, h, st, st') && i < |chains[c]| && Run(m, f, st0, n) == At(chains[c][0], st)
    ensures InSync(m, f, chains, vm, c, i, h1, st1, st1') && Run(m, f, st0, n + i) == At(chains[c][i], st1)
    ensures InBounds(g.instrs, ChainIndices(f, chains[c], 0)) && InBounds(g.instrs, ChainIndices(f, chains[c], i))
    ensures Exec(m, g.instrs, ChainIndices(f, chains[c], 0), st') ==
            Exec(m, g.instrs, ChainIndices(f, chains[c], i), st1')
    decreases i
  {
    hide IsSsa, ChainsOk, ValueMapOk, Exec, Implements, NumPhis, PieceLo, PieceHi, InSync, CodeOk, RunBlock;
    hide BlocksOk, ChainIndices;
    SsaBlocks(f);
    SyncBounds(m, f, chains, vm, c, 0, h, st, st');
    ChainInBounds(f, chains, vm, g, c, 0);
    if i == 0 {
      h1, st1, st1' := h, st, st';
    } else {
      var h2, st2, st2' := AlongChain(m, f, chains, vm, g, c, i - 1, n, h, st0, st, st');
      h1, st1, st1' := ChainStep(m, f, chains, vm, g, c, i - 1, h2, st2, st2');
      assert Run(m, f, st0, n + i) == RunBlock(m, f, Run(m, f, st0, n + i - 1));
    }
  }

  /** The configurations show the same effects, at corresponding places. */
  ghost predicate Corresponds<V, S>(chains: seq<seq<nat>>, cfg: Config<V, S>, cfg': Config<V, S>)
  {
    if cfg'.At? then
      && cfg.At? && cfg'.block < |chains| && 0 < |chains[cfg'.block]| && cfg.block == chains[cfg'.block][0]
      && cfg.st.store == cfg'.st.store && cfg.st.trace == cfg'.st.trace
    else
      && cfg.Halted? && cfg.exit == cfg'.exit && cfg.final.store == cfg'.final.store &&
          cfg.final.trace == cfg'.final.trace
  }

  /** The invariant behind `Corresponds`. */
  ghost predicate Simulates<V, S>(m: Machine<V, S>, f: Function, chains: seq<seq<nat>>, vm: map<Value, Value>,
                                  cfg: Config<V, S>, cfg': Config<V, S>)
    requires BlocksOk(f)
  {
    && Corresponds(chains, cfg, cfg')
    && (cfg'.At? ==> exists h :: InSync(m, f, chains, vm, cfg'.block, 0, h, cfg.st, cfg'.st))
  }

  /** Both functions leave the last block of a chain. */
  lemma LeaveChain<V, S>(m: Machine<V, S>, f: Function, chains: seq<seq<nat>>, vm: map<Value, Value>, g: Function,
                         c: nat, h: seq<nat>,
                         st: State<V, S>, st': State<V, S>)
    requires PlanOk(f, chains, vm) && Implements(f, chains, vm, g) && CodeOk(f) && c < |chains| && |chains[c]| > 0
    requires InSync(m, f, chains, vm, c, |chains[c]| - 1, h, st, st')
    ensures InBounds(g.instrs, ChainIndices(f, chains[c], |chains[c]| - 1))
    ensures var r' := Exec(m, g.instrs, ChainIndices(f, chains[c], |chains[c]| - 1), st');
            Simulates(m, f, chains, vm, RunBlock(m, f, At(chains[c][|chains[c]| - 1], st)), if r'.1.Goes?
                then At(r'.1.block, r'.0) else Halted(r'.1, r'.0))
  {
    hide IsSsa, ValueMapOk, Exec, Implements, NumPhis, PieceLo, PieceHi, CodeOk, RunBlock, BlocksOk;
    hide HistoryOk, IsPath, PendingOk, IsGraph, Range;
    SsaBlocks(f);
    var i := |chains[c]| - 1;
    RunTail(m, f, chains, vm, g, c, i, h, st, st');
    var b, piece := chains[c][i], Range(PieceLo(f, chains[c], i), PieceHi(f, chains[c], i));
    assert ChainIndices(f, chains[c], i + 1) == [];
    assert ChainIndices(f, chains[c], i) == piece;
    RunOriginal(m, f, b, st);
    var r, r' := Exec(m, f.instrs, Range(First(f, b), Last(f, b)), st), Exec(m, g.instrs, piece, st');
    if r.1.Goes? {
      PathAppend(f, h + [b], r.1.block);
      var c' := NewIndex(chains, r.1.block);
      ChainFacts(f, chains, c', 0);
      assert InSync(m, f, chains, vm, c', 0, h + [b], r.0, r'.0);
    }
  }

  /** One block of the simplified function is one chain of the original one. */
  lemma RunChain<V, S>(m: Machine<V, S>, f: Function, chains: seq<seq<nat>>, vm: map<Value, Value>, g: Function,
                       st0: State<V, S>, n: nat,
                       cfg: Config<V, S>, cfg': Config<V, S>) returns (n': nat)
    requires PlanOk(f, chains, vm) && Implements(f, chains, vm, g) && CodeOk(f) && CodeOk(g)
    requires cfg == Run(m, f, st0, n) && Simulates(m, f, chains, vm, cfg, cfg')
    ensures n' > n && Simulates(m, f, chains, vm, Run(m, f, st0, n'), RunBlock(m, g, cfg'))
  {
    hide IsSsa, ChainsOk, ValueMapOk, Exec, NumPhis, PieceLo, PieceHi, InSync, CodeOk, BlocksOk, ChainIndices;
    hide Kept, RewrittenAt;
    SsaBlocks(f);
    if cfg'.At? {
      var c := cfg'.block;
      var h :| InSync(m, f, chains, vm, c, 0, h, cfg.st, cfg'.st);
      var i := |chains[c]| - 1;
      var h1, st1, st1' := AlongChain(m, f, chains, vm, g, c, i, n, h, st0, cfg.st, cfg'.st);
      LeaveChain(m, f, chains, vm, g, c, h1, st1, st1');
      n' := n + i + 1;
      assert Run(m, f, st0, n') == RunBlock(m, f, Run(m, f, st0, n + i));
    } else {
      n' := n + 1;
    }
  }

  /** Whatever the simplified function has done after `k` blocks, the original one does. */
  lemma {:induction false} EverySimplifiedRun<V, S>(m: Machine<V, S>, f: Function, chains: seq<seq<nat>>,
                                                    vm: map<Value, Value>, g: Function,
                                                   st0: State<V, S>, k: nat) returns (n: nat)
    requires PlanOk(f, chains, vm) && Implements(f, chains, vm, g) && CodeOk(f) && CodeOk(g)
    ensures n >= k && Simulates(m, f, chains, vm, Run(m, f, st0, n), Run(m, g, st0, k))
  {
    hide IsSsa, ValueMapOk, Simulates, Implements, RunBlock, CodeOk;
    SsaBlocks(f);
    if k == 0 {
      n := 0;
      StartInSync(m, f, chains, vm, st0);
    } else {
      var n0 := EverySimplifiedRun(m, f, chains, vm, g, st0, k - 1);
      n := RunChain(m, f, chains, vm, g, st0, n0, Run(m, f, st0, n0), Run(m, g, st0, k - 1));
    }
  }

  lemma StartInSync<V, S>(m: Machine<V, S>, f: Function, chains: seq<seq<nat>>, vm: map<Value, Value>, st0: State<V, S>)
    requires PlanOk(f, chains, vm)
    ensures Simulates(m, f, chains, vm, At(0, st0), At(0, st0))
  {
    hide PhisLead, CalleesOk, Mirrored, EntryOk, UsesDominated, MembersMatch, MembersTargetSuccessors, ValueMapOk;
    hide Usable, BlocksOk;
    ChainFacts(f, chains, 0, 0);
    assert [] + [chains[0][0]] == [0];
    assert InSync(m, f, chains, vm, 0, 0, [], st0, st0);
  }

  lemma {:induction false} StaysHalted<V, S>(m: Machine<V, S>, f: Function, st0: State<V, S>, n: nat, n': nat)
    requires CodeOk(f) && n <= n' && Run(m, f, st0, n).Halted?
    ensures Run(m, f, st0, n') == Run(m, f, st0, n)
    decreases n'
  {
    if n < n' { StaysHalted(m, f, st0, n, n' - 1); }
  }

  /** The function returns, having shown these effects. */
  ghost predicate Finishes<V, S>(m: Machine<V, S>, f: Function, st0: State<V, S>, exit: Exit<V>, store: S,
                                 trace: seq<Event<V>>)
    requires CodeOk(f)
  {
    exists n: nat :: HaltsAt(Run(m, f, st0, n), exit, store, trace)
  }

  ghost predicate HaltsAt<V, S>(cfg: Config<V, S>, exit: Exit<V>, store: S, trace: seq<Event<V>>)
  {
    cfg.Halted? && cfg.exit == exit && cfg.final.store == store && cfg.final.trace == trace
  }

  /** Simplification preserves the meaning of the function: on every machine and from every
      state, both functions return the same value, leave the same store and show the same
      trace of operations, or neither returns. */
  lemma SimplificationPreservesMeaning<V, S>(m: Machine<V, S>, f: Function, chains: seq<seq<nat>>,
                                             vm: map<Value, Value>, g: Function,
                                             st0: State<V, S>, exit: Exit<V>, store: S, trace: seq<Event<V>>)
    requires PlanOk(f, chains, vm) && Implements(f, chains, vm, g)
    ensures CodeOk(f) && CodeOk(g)
    ensures Finishes(m, f, st0, exit, store, trace) <==> Finishes(m, g, st0, exit, store, trace)
  {
    hide IsSsa, ChainsOk, ValueMapOk, Implements, Run, CodeOk, InSync;
    SsaBlocks(f);
    SsaGraph(f);
    OriginalCodeOk(f);
    SimplifiedCodeOk(f, chains, vm, g);
    if Finishes(m, f, st0, exit, store, trace) {
      var n: nat :| HaltsAt(Run(m, f, st0, n), exit, store, trace);
      var n' := EverySimplifiedRun(m, f, chains, vm, g, st0, n);
      StaysHalted(m, f, st0, n, n');
      assert HaltsAt(Run(m, g, st0, n), exit, store, trace);
    }
    if Finishes(m, g, st0, exit, store, trace) {
      var k: nat :| HaltsAt(Run(m, g, st0, k), exit, store, trace);
      var n := EverySimplifiedRun(m, f, chains, vm, g, st0, k);
      assert HaltsAt(Run(m, f, st0, n), exit, store, trace);
    }
  }

  lemma SsaGraph(f: Function)
    requires IsSsa(f)
    ensures IsGraph(f)
  {
  }
}
