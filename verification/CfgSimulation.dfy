/**
 Merging chains of blocks preserves execution.

 `Implements` says what the simplified function looks like in terms of the original one;
 the theorem of this module is that such a function performs the same instructions on the
 same values and returns the same result.
 */
module CfgSimulation {
  import opened Sequences
  import opened Khir
  import opened KhirSemantics
  import opened Ssa
  import opened Lookups

  // ----- the simplified function -----

  /** Operands after replacing removed phis. */
  ghost function Rewrite(vm: map<Value, Value>, instr: Instr): (r: Instr)
  {
    match instr
    case Op(code, a0, a1) => Op(code, Resolve(vm, a0), Resolve(vm, a1))
    case PhiMember(p, v) => PhiMember(Resolve(vm, p), Resolve(vm, v))
    case CondBr(c, t, e) => CondBr(Resolve(vm, c), t, e)
    case ReturnValue(v) => ReturnValue(Resolve(vm, v))
    case _ => instr
  }

  ghost predicate IsHead(chains: seq<seq<nat>>, b: nat)
  {
    exists c: nat :: InChain(chains, c, 0, b)
  }

  ghost function NewIndex(chains: seq<seq<nat>>, b: nat): (c: nat)
    requires IsHead(chains, b)
    ensures InChain(chains, c, 0, b)
  {
    var c: nat :| InChain(chains, c, 0, b); c
  }

  ghost function Renumber(chains: seq<seq<nat>>, instr: Instr): (r: Instr)
    requires forall t :: t in instr.Targets() ==> IsHead(chains, t)
  {
    match instr
    case Br(t) => Br(NewIndex(chains, t))
    case CondBr(c, t, e) => CondBr(c, NewIndex(chains, t), NewIndex(chains, e))
    case _ => instr
  }

  /** What remains of the block at position `i` of a chain: its leading phis go unless it is
      the head, its members and branch go unless it is the tail. */
  ghost function PieceLo(f: Function, chain: seq<nat>, i: nat): (lo: int)
    requires BlocksOk(f) && i < |chain| && chain[i] < |f.blocks|
  {
    First(f, chain[i]) + if i == 0 then 0 else NumPhis(f, chain[i])
  }

  ghost function PieceHi(f: Function, chain: seq<nat>, i: nat): (hi: int)
    requires BlocksOk(f) && i < |chain| && chain[i] < |f.blocks|
    requires i + 1 < |chain| ==> chain[i + 1] < |f.blocks|
  {
    Last(f, chain[i]) - if i + 1 == |chain| then 0 else NumPhis(f, chain[i + 1]) + 1
  }

  ghost predicate InFunction(f: Function, chain: seq<nat>)
  {
    forall i :: 0 <= i < |chain| ==> chain[i] < |f.blocks|
  }

  /** The instructions of a merged chain from position `i` on. */
  ghost function ChainIndices(f: Function, chain: seq<nat>, i: nat): (s: seq<int>)
    requires BlocksOk(f) && InFunction(f, chain) && i <= |chain|
    decreases |chain| - i
  {
    if i == |chain| then [] else Range(PieceLo(f, chain, i), PieceHi(f, chain, i)) + ChainIndices(f, chain, i + 1)
  }

  ghost predicate Implements(f: Function, chains: seq<seq<nat>>, vm: map<Value, Value>, g: Function)
    requires BlocksOk(f)
  {
    && |g.blocks| == |chains| && |g.instrs| == |f.instrs|
    && (forall c :: 0 <= c < |chains| ==>
        InFunction(f, chains[c]) && Indices(g.blocks[c].segments) == ChainIndices(f, chains[c], 0))
    && (forall c, i: nat, j :: 0 <= c < |chains| && Kept(f, chains[c], i, j) ==> RewrittenAt(f, chains, vm, g, j))
  }

  ghost predicate Kept(f: Function, chain: seq<nat>, i: nat, j: int)
    requires BlocksOk(f)
  {
    i < |chain| && InFunction(f, chain) && PieceLo(f, chain, i) <= j <= PieceHi(f, chain, i)
  }

  ghost predicate RewrittenAt(f: Function, chains: seq<seq<nat>>, vm: map<Value, Value>, g: Function, j: int)
    requires BlocksOk(f)
  {
    && 0 <= j < |f.instrs| && j < |g.instrs|
    && (forall t :: t in f.instrs[j].Targets() ==> IsHead(chains, t))
    && g.instrs[j] == Renumber(chains, Rewrite(vm, f.instrs[j]))
  }

  // ----- values -----

  /** The removed phi's block dominates `b`. */
  ghost predicate Usable(f: Function, b: nat, v: Value)
    requires BlocksOk(f)
  {
    exists y: nat :: HoldsValue(f, y, v) && Dominates(f, y, b)
  }

  /** Usable removed phis have the value of their replacement. */
  ghost predicate Good<V, S>(m: Machine<V, S>, f: Function, vm: map<Value, Value>, b: nat, env: map<int, V>)
    requires BlocksOk(f)
  {
    forall v :: v in vm && Usable(f, b, v) ==> Read(m, env, v) == Read(m, env, vm[v])
  }

  ghost predicate SameExcept<V>(vm: map<Value, Value>, env: map<int, V>, env': map<int, V>)
  {
    forall x: nat :: Local(x) !in vm ==> (x in env <==> x in env') && (x in env ==> env[x] == env'[x])
  }

  /** The states agree except on removed phis. */
  ghost predicate Related<V, S>(vm: map<Value, Value>, st: State<V, S>, st': State<V, S>)
  {
    && SameExcept(vm, st.env, st'.env) && SameExcept(vm, st.pending, st'.pending)
    && st.store == st'.store && st.trace == st'.trace
  }

  ghost predicate PlanOk(f: Function, chains: seq<seq<nat>>, vm: map<Value, Value>)
  {
    IsSsa(f) && ChainsOk(f, chains) && ValueMapOk(f, chains, vm)
  }

  /** The replacement of a usable phi is defined in another block than `b`, and usable itself
      when it is a removed phi. */
  lemma ReplacementIsAbove(f: Function, chains: seq<seq<nat>>, vm: map<Value, Value>, b: nat, v: Value)
    requires PlanOk(f, chains, vm) && v in vm && Usable(f, b, v) && Reachable(f, b)
    ensures !HoldsValue(f, b, vm[v])
    ensures vm[v] in vm ==> Usable(f, b, vm[v]) && Depth(f, vm[v]) < Depth(f, v)
  {
    hide PhisLead, CalleesOk, Mirrored, EntryOk, UsesDominated, MembersMatch, ValueMapOk, ChainsOk, Dominates;
    hide MembersTargetSuccessors;
    if vm[v].Local? {
      var c, k, o := RemovedFrom(f, chains, vm, v);
      var x, y := chains[c][k - 1], chains[c][k];
      var y': nat :| HoldsValue(f, y', v) && Dominates(f, y', b);
      HoldsOnce(f, y, y', v.idx);
      DominatorReachable(f, y, b);
      LinkedReachable(f, x, y);
      var a := ValueMapDescends(f, x, y, o);
      var d := MemberDefinedAbove(f, x, y, o);
      DominatesTrans(f, d, y, b);
      if HoldsValue(f, b, vm[v]) {
        HoldsOnce(f, b, d, vm[v].idx);
        var p :| PathTo(f, p, b);
        DominanceIsAntisymmetric(f, b, y, p);
      }
    } else if vm[v] in vm {
      var c, k, o := RemovedFrom(f, chains, vm, vm[v]);
    }
  }

  /** In reachable code the lookup of an operand ends, and reading the operand before and its
      replacement after rewriting gives the same value. */
  lemma {:induction false} ReadResolved<V, S>(m: Machine<V, S>, f: Function, chains: seq<seq<nat>>,
                                              vm: map<Value, Value>, b: nat,
                                              env: map<int, V>, env': map<int, V>, v: Value)
    requires PlanOk(f, chains, vm) && Reachable(f, b) && Good(m, f, vm, b, env) && SameExcept(vm, env, env')
    requires v in vm ==> Usable(f, b, v)
    ensures Ends(vm, v) && Read(m, env, v) == Read(m, env', Resolve(vm, v))
    decreases if v in vm then 1 else 0, Depth(f, v)
  {
    hide IsSsa, IsGraph, ChainsOk, ValueMapOk, Usable, Depth, Resolve, Ends;
    if v in vm {
      ReplacementIsAbove(f, chains, vm, b, v);
      ResolveStep(vm, v);
      if vm[v] in vm {
        ReadResolved(m, f, chains, vm, b, env, env', vm[v]);
      } else {
        ResolveDone(vm, vm[v]);
      }
    } else {
      ResolveDone(vm, v);
    }
  }

  lemma OperandIsUsable(f: Function, vm: map<Value, Value>, b: nat, i: int, v: Value)
    requires IsSsa(f) && Holds(f, b, i) && Reachable(f, b) && v in f.instrs[i].Operands() && v.Local?
    ensures Usable(f, b, v)
  {
    assert DominatedUse(f, b, i, v);
    var d: nat :| Holds(f, d, v.idx) && ((d == b && v.idx < i) || (d != b && Dominates(f, d, b)));
    assert HoldsValue(f, d, v);
    if d == b {
      assert Dominates(f, b, b);
    }
  }

  // ----- instructions -----

  /** An instruction of block `b` that both functions execute. */
  ghost predicate Common(f: Function, vm: map<Value, Value>, b: nat, i: int)
    requires BlocksOk(f)
  {
    && Holds(f, b, i) && Local(i) !in vm
    && (f.instrs[i].PhiMember? ==> f.instrs[i].phi !in vm)
  }

  lemma ReadOperand<V, S>(m: Machine<V, S>, f: Function, chains: seq<seq<nat>>, vm: map<Value, Value>, b: nat, i: int,
                          v: Value,
                          env: map<int, V>, env': map<int, V>)
    requires PlanOk(f, chains, vm) && Reachable(f, b) && Good(m, f, vm, b, env) && SameExcept(vm, env, env')
    requires Holds(f, b, i) && v in f.instrs[i].Operands()
    ensures Read(m, env, v) == Read(m, env', Resolve(vm, v))
  {
    hide ChainsOk, ValueMapOk, Usable, Good, SameExcept, Resolve;
    if v in vm {
      var c, k, o := RemovedFrom(f, chains, vm, v);
      OperandIsUsable(f, vm, b, i, v);
    }
    ReadResolved(m, f, chains, vm, b, env, env', v);
  }

  /** Callees are never removed phis. */
  lemma CalleeSurvives(f: Function, chains: seq<seq<nat>>, vm: map<Value, Value>, i: int)
    requires PlanOk(f, chains, vm) && 0 <= i < |f.instrs| && f.instrs[i].CallIndirect?
    ensures f.instrs[i].callee !in vm
  {
    hide PhisLead, Mirrored, EntryOk, UsesDominated, MembersMatch, ValueMapOk, ChainsOk;
    hide MembersTargetSuccessors;
    if f.instrs[i].callee in vm {
      var c, k, o := RemovedFrom(f, chains, vm, f.instrs[i].callee);
    }
  }

  /** Executing an instruction of `b` leaves the usable phis consistent. */
  lemma GoodAfter<V, S>(m: Machine<V, S>, f: Function, chains: seq<seq<nat>>, vm: map<Value, Value>, b: nat, i: int,
                        env: map<int, V>, x: V)
    requires PlanOk(f, chains, vm) && Reachable(f, b) && Holds(f, b, i) && i >= 0 && Local(i) !in vm &&
             Good(m, f, vm, b, env)
    ensures Good(m, f, vm, b, env[i := x])
  {
    hide BlocksOk, PhisLead, CalleesOk, Mirrored, EntryOk, UsesDominated, MembersMatch, MembersTargetSuccessors;
    hide ChainsOk, ValueMapOk, Usable, Dominates;
    forall v | v in vm && Usable(f, b, v) ensures Read(m, env[i := x], v) == Read(m, env[i := x], vm[v]) {
      ReplacementIsAbove(f, chains, vm, b, v);
      assert HoldsValue(f, b, Local(i));
      assert v != Local(i);
      assert vm[v] != Local(i);
    }
  }

  /** The rewritten instruction reads the same values from the other state. */
  ghost predicate ReadsSame<V, S>(m: Machine<V, S>, vm: map<Value, Value>, instr: Instr, instr': Instr,
                                  env: map<int, V>, env': map<int, V>)
  {
    match instr
    case Op(code, a0, a1) => instr'.Op? && instr'.code == code && Read(m, env, a0) == Read(m, env', instr'.a0) &&
        Read(m, env, a1) == Read(m, env', instr'.a1)
    case CallIndirect(c) => instr'.CallIndirect? && Read(m, env, c) == Read(m, env', instr'.callee)
    case PhiMember(p, v) => instr'.PhiMember? && instr'.phi == p && p !in vm &&
        Read(m, env, v) == Read(m, env', instr'.value)
    case CondBr(c, _, _) => instr'.CondBr? && Read(m, env, c) == Read(m, env', instr'.cond)
    case ReturnValue(v) => instr'.ReturnValue? && Read(m, env, v) == Read(m, env', instr'.value)
    case _ => instr' == instr
  }

  lemma RewriteReadsSame<V, S>(m: Machine<V, S>, f: Function, chains: seq<seq<nat>>, vm: map<Value, Value>, b: nat,
                               i: int,
                               env: map<int, V>, env': map<int, V>)
    requires PlanOk(f, chains, vm) && Reachable(f, b) && Common(f, vm, b, i) && 0 <= i < |f.instrs|
    requires SameExcept(vm, env, env') && Good(m, f, vm, b, env)
    ensures ReadsSame(m, vm, f.instrs[i], Rewrite(vm, f.instrs[i]), env, env')
  {
    hide BlocksOk, PhisLead, CalleesOk, Mirrored, EntryOk, UsesDominated, MembersMatch, MembersTargetSuccessors;
    hide ChainsOk, ValueMapOk, Usable, Good;
    match f.instrs[i]
    case Op(code, a0, a1) =>
      ReadOperand(m, f, chains, vm, b, i, a0, env, env');
      ReadOperand(m, f, chains, vm, b, i, a1, env, env');
    case CallIndirect(callee) =>
      CalleeSurvives(f, chains, vm, i);
    case PhiMember(phi, v) =>
      ReadOperand(m, f, chains, vm, b, i, v, env, env');
    case CondBr(c, _, _) =>
      ReadOperand(m, f, chains, vm, b, i, c, env, env');
    case ReturnValue(v) =>
      ReadOperand(m, f, chains, vm, b, i, v, env, env');
    case _ =>
  }

  /** One instruction, executed by both functions. */
  lemma StepSame<V, S>(m: Machine<V, S>, vm: map<Value, Value>, i: nat, instr: Instr, instr': Instr, st: State<V, S>,
                       st': State<V, S>)
    requires Related(vm, st, st') && Local(i) !in vm && ReadsSame(m, vm, instr, instr', st.env, st'.env)
    ensures Related(vm, Step(m, i, instr, st), Step(m, i, instr', st'))
  {
  }

  /** An instruction of `b` writes at most its own slot. */
  lemma StepGood<V, S>(m: Machine<V, S>, f: Function, chains: seq<seq<nat>>, vm: map<Value, Value>, b: nat, i: int,
                       st: State<V, S>)
    requires PlanOk(f, chains, vm) && Reachable(f, b) && Common(f, vm, b, i) && 0 <= i < |f.instrs| &&
             Good(m, f, vm, b, st.env)
    ensures Good(m, f, vm, b, Step(m, i, f.instrs[i], st).env)
  {
    hide BlocksOk, PhisLead, CalleesOk, Mirrored, EntryOk, UsesDominated, MembersMatch, MembersTargetSuccessors;
    hide ChainsOk, ValueMapOk, Usable, Good, PlanOk;
    var env' := Step(m, i, f.instrs[i], st).env;
    if i in env' && env' == st.env[i := env'[i]] {
      GoodAfter(m, f, chains, vm, b, i, st.env, env'[i]);
    } else {
      assert env' == st.env;
    }
  }

  // ----- straight-line code -----

  /** Code that both functions execute, index by index. */
  ghost predicate CommonCode(f: Function, chains: seq<seq<nat>>, vm: map<Value, Value>, g: Function, b: nat,
                             code: seq<int>)
    requires BlocksOk(f)
  {
    forall k :: 0 <= k < |code| ==> Common(f, vm, b, code[k]) && RewrittenAt(f, chains, vm, g, code[k])
  }

  lemma {:induction false} RunCommon<V, S>(m: Machine<V, S>, f: Function, chains: seq<seq<nat>>,
                                           vm: map<Value, Value>, g: Function, b: nat,
                                          code: seq<int>, st: State<V, S>, st': State<V, S>)
    requires PlanOk(f, chains, vm) && Reachable(f, b) && CommonCode(f, chains, vm, g, b, code)
    requires InBounds(f.instrs, code) && InBounds(g.instrs, code) && NoTerminator(f.instrs, code)
    requires Related(vm, st, st') && Good(m, f, vm, b, st.env)
    ensures NoTerminator(g.instrs, code)
    ensures Exec(m, f.instrs, code, st).1 == Falls && Exec(m, g.instrs, code, st').1 == Falls
    ensures Related(vm, Exec(m, f.instrs, code, st).0, Exec(m, g.instrs, code, st').0)
    ensures Good(m, f, vm, b, Exec(m, f.instrs, code, st).0.env)
    decreases |code|
  {
    hide BlocksOk, PhisLead, CalleesOk, Mirrored, EntryOk, UsesDominated, MembersMatch, MembersTargetSuccessors;
    hide ChainsOk, ValueMapOk, Usable, Good, Common, Related, Reachable, Step;
    if code != [] {
      var i := code[0];
      assert RewrittenAt(f, chains, vm, g, i) && Common(f, vm, b, i);
      RelatedEnv(vm, st, st');
      RewriteReadsSame(m, f, chains, vm, b, i, st.env, st'.env);
      CommonSurvives(f, vm, b, i);
      StepSame(m, vm, i, f.instrs[i], g.instrs[i], st, st');
      StepGood(m, f, chains, vm, b, i, st);
      assert forall k :: 0 <= k < |code[1..]| ==> code[1..][k] == code[k + 1];
      RunCommon(m, f, chains, vm, g, b, code[1..], Step(m, i, f.instrs[i], st), Step(m, i, g.instrs[i], st'));
      assert forall k :: 0 <= k < |code| ==> code[k] == if k == 0 then i else code[1..][k - 1];
    }
  }

  lemma RelatedEnv<V, S>(vm: map<Value, Value>, st: State<V, S>, st': State<V, S>)
    requires Related(vm, st, st')
    ensures SameExcept(vm, st.env, st'.env)
  {
  }

  lemma CommonSurvives(f: Function, vm: map<Value, Value>, b: nat, i: int)
    requires BlocksOk(f) && Common(f, vm, b, i)
    ensures i >= 0 && Local(i) !in vm
  {
  }

  /** How the exits of the two functions correspond. */
  ghost predicate ExitsMatch<V>(chains: seq<seq<nat>>, e: Exit<V>, e': Exit<V>)
  {
    if e.Goes? then IsHead(chains, e.block) && e' == Goes(NewIndex(chains, e.block)) else e' == e
  }

  lemma LeaveSame<V, S>(m: Machine<V, S>, chains: seq<seq<nat>>, vm: map<Value, Value>, instr: Instr, instr': Instr,
                        st: State<V, S>, st': State<V, S>)
    requires ReadsSame(m, vm, instr, instr', st.env, st'.env) && instr.Targets() == instr'.Targets()
    requires forall t :: t in instr'.Targets() ==> IsHead(chains, t)
    ensures ExitsMatch(chains, Leave(m, instr, st), Leave(m, Renumber(chains, instr'), st'))
  {
    assert instr'.CondBr? ==> instr'.ifTrue in instr'.Targets() && instr'.ifFalse in instr'.Targets();
    assert instr'.Br? ==> instr'.target in instr'.Targets();
  }

  /** Leading phis only move pending values into their slots. */
  lemma {:induction false} RunPhis<V, S>(m: Machine<V, S>, instrs: seq<Instr>, lo: int, hi: int, st: State<V, S>)
    requires 0 <= lo && hi < |instrs| && forall i :: lo <= i <= hi ==> instrs[i].Phi?
    ensures InBounds(instrs, Range(lo, hi)) && NoTerminator(instrs, Range(lo, hi))
    ensures var st2 := Exec(m, instrs, Range(lo, hi), st).0;
            && st2.pending == st.pending && st2.store == st.store && st2.trace == st.trace
            && (forall x :: lo <= x <= hi ==> x in st2.env && (x in st.pending ==> st2.env[x] == st.pending[x]))
            && (forall x :: !(lo <= x <= hi) ==>
                (x in st2.env <==> x in st.env) && (x in st.env ==> st2.env[x] == st.env[x]))
    decreases hi - lo + 1
  {
    RangeElements(lo, hi);
    if lo <= hi {
      RunPhis(m, instrs, lo + 1, hi, Step(m, lo, instrs[lo], st));
      assert Range(lo, hi)[1..] == Range(lo + 1, hi);
    }
  }

  ghost predicate AreMembers(instrs: seq<Instr>, lo: int, hi: int)
  {
    && 0 <= lo && hi < |instrs|
    && (forall i :: lo <= i <= hi ==> instrs[i].PhiMember? && instrs[i].phi.Local?)
    && (forall i, j :: lo <= i < j <= hi ==> instrs[i].phi != instrs[j].phi)
  }

  /** No member in the range belongs to phi `x`. */
  ghost predicate Untargeted(instrs: seq<Instr>, lo: int, hi: int, x: nat)
    requires AreMembers(instrs, lo, hi)
  {
    forall i :: lo <= i <= hi ==> instrs[i].phi != Local(x)
  }

  /** The members in the range have fixed the pending values of their phis, and done nothing else. */
  ghost predicate Delivered<V, S>(m: Machine<V, S>, instrs: seq<Instr>, lo: int, hi: int, st: State<V, S>,
                                  st2: State<V, S>)
    requires AreMembers(instrs, lo, hi)
  {
    && st2.env == st.env && st2.store == st.store && st2.trace == st.trace
    && (forall i :: lo <= i <= hi ==>
          instrs[i].phi.idx in st2.pending && st2.pending[instrs[i].phi.idx] == Read(m, st.env, instrs[i].value))
    && (forall x: nat :: Untargeted(instrs, lo, hi, x) ==> SamePending(st, st2, x))
  }

  ghost predicate SamePending<V, S>(st: State<V, S>, st2: State<V, S>, x: nat)
  {
    (x in st2.pending <==> x in st.pending) && (x in st.pending ==> st2.pending[x] == st.pending[x])
  }

  lemma DeliverOne<V, S>(m: Machine<V, S>, instrs: seq<Instr>, lo: int, hi: int, st: State<V, S>, st2: State<V, S>)
    requires AreMembers(instrs, lo, hi) && lo <= hi
    requires Delivered(m, instrs, lo + 1, hi, Step(m, lo, instrs[lo], st), st2)
    ensures Delivered(m, instrs, lo, hi, st, st2)
  {
    assert Untargeted(instrs, lo + 1, hi, instrs[lo].phi.idx);
    assert SamePending(Step(m, lo, instrs[lo], st), st2, instrs[lo].phi.idx);
    forall x: nat | Untargeted(instrs, lo, hi, x) ensures SamePending(st, st2, x) {
      assert Untargeted(instrs, lo + 1, hi, x);
      assert SamePending(Step(m, lo, instrs[lo], st), st2, x);
    }
  }

  /** Trailing members only fix pending values. */
  lemma {:induction false} RunMembers<V, S>(m: Machine<V, S>, instrs: seq<Instr>, lo: int, hi: int, st: State<V, S>)
    requires AreMembers(instrs, lo, hi)
    ensures InBounds(instrs, Range(lo, hi)) && NoTerminator(instrs, Range(lo, hi))
    ensures Delivered(m, instrs, lo, hi, st, Exec(m, instrs, Range(lo, hi), st).0)
    decreases hi - lo + 1
  {
    RangeElements(lo, hi);
    if lo <= hi {
      hide Delivered;
      var st1 := Step(m, lo, instrs[lo], st);
      RunMembers(m, instrs, lo + 1, hi, st1);
      assert Range(lo, hi)[1..] == Range(lo + 1, hi);
      var st2 := Exec(m, instrs, Range(lo, hi), st).0;
      assert st2 == Exec(m, instrs, Range(lo + 1, hi), st1).0;
      DeliverOne(m, instrs, lo, hi, st, st2);
    }
  }

  /** A run touches only the slots of the instructions it executes. */
  lemma {:induction false} ExecFrame<V, S>(m: Machine<V, S>, instrs: seq<Instr>, code: seq<int>, st: State<V, S>,
                                           x: int)
    requires InBounds(instrs, code) && x !in code
    ensures var env := Exec(m, instrs, code, st).0.env;
            (x in env <==> x in st.env) && (x in env ==> env[x] == st.env[x])
    decreases |code|
  {
    if code != [] && !instrs[code[0]].IsTerminator() {
      ExecFrame(m, instrs, code[1..], Step(m, code[0], instrs[code[0]], st), x);
    }
  }
}
