/**
 What a KHIR function does when it runs.

 Phis have the meaning the LLVM back end gives them: a phi member fixes the value for its
 phi when the predecessor ends, and all phis of a block take those values on entry.
 */
module KhirSemantics {
  import opened Khir

  /** The operations of the machine; their effects on memory are part of the store. */
  datatype Machine<!V, !S> = Machine(
    op: (nat, V, V, S) -> (V, S),
    plain: (nat, S) -> (V, S),
    call: (V, S) -> (V, S),
    truth: V -> bool,
    constant: nat -> V,
    undefined: V)

  /** What can be observed of a run: the instructions with the values of their operands. */
  datatype Event<V> = OpEvent(code: nat, v0: V, v1: V) | PlainEvent(code: nat) | CallEvent(callee: V)

  datatype State<V, S> = State(env: map<int, V>, pending: map<int, V>, store: S, trace: seq<Event<V>>)

  datatype Exit<V> = Falls | Goes(block: nat) | Returns(value: V) | ReturnsVoid

  function Read<V, S>(m: Machine<V, S>, env: map<int, V>, v: Value): (x: V)
  {
    match v
    case Const(c) => m.constant(c)
    case Local(i) => if i in env then env[i] else m.undefined
  }

  /** One instruction that is not a terminator. */
  function Step<V, S>(m: Machine<V, S>, idx: int, instr: Instr, st: State<V, S>): (st': State<V, S>)
  {
    match instr
    case Op(code, a0, a1) =>
      var v0, v1 := Read(m, st.env, a0), Read(m, st.env, a1);
      var (r, store) := m.op(code, v0, v1, st.store);
      State(st.env[idx := r], st.pending, store, st.trace + [OpEvent(code, v0, v1)])
    case Plain(code) =>
      var (r, store) := m.plain(code, st.store);
      State(st.env[idx := r], st.pending, store, st.trace + [PlainEvent(code)])
    case CallIndirect(callee) =>
      var v := Read(m, st.env, callee);
      var (r, store) := m.call(v, st.store);
      State(st.env[idx := r], st.pending, store, st.trace + [CallEvent(v)])
    case Phi =>
      st.(env := st.env[idx := if idx in st.pending then st.pending[idx] else m.undefined])
    case PhiMember(phi, v) =>
      if phi.Local? then st.(pending := st.pending[phi.idx := Read(m, st.env, v)]) else st
    case _ => st
  }

  function Leave<V, S>(m: Machine<V, S>, instr: Instr, st: State<V, S>): (e: Exit<V>)
  {
    match instr
    case Br(t) => Goes(t)
    case CondBr(c, t, f) => if m.truth(Read(m, st.env, c)) then Goes(t) else Goes(f)
    case ReturnValue(v) => Returns(Read(m, st.env, v))
    case Return => ReturnsVoid
    case _ => Falls
  }

  predicate InBounds(instrs: seq<Instr>, code: seq<int>)
  {
    forall i :: 0 <= i < |code| ==> 0 <= code[i] < |instrs|
  }

  /** Runs a list of instructions up to its first terminator. */
  function Exec<V, S>(m: Machine<V, S>, instrs: seq<Instr>, code: seq<int>,
                      st: State<V, S>): (r: (State<V, S>, Exit<V>))
    requires InBounds(instrs, code)
    decreases |code|
  {
    if code == [] then (st, Falls)
    else if instrs[code[0]].IsTerminator() then (st, Leave(m, instrs[code[0]], st))
    else Exec(m, instrs, code[1..], Step(m, code[0], instrs[code[0]], st))
  }

  predicate NoTerminator(instrs: seq<Instr>, code: seq<int>)
    requires InBounds(instrs, code)
  {
    forall i :: 0 <= i < |code| ==> !instrs[code[i]].IsTerminator()
  }

  /** Straight-line code runs through into what follows it. */
  lemma {:induction false} ExecConcat<V, S>(m: Machine<V, S>, instrs: seq<Instr>, a: seq<int>, b: seq<int>,
                                            st: State<V, S>)
    requires InBounds(instrs, a) && InBounds(instrs, b) && NoTerminator(instrs, a)
    ensures Exec(m, instrs, a, st).1 == Falls
    ensures InBounds(instrs, a + b)
    ensures Exec(m, instrs, a + b, st) == Exec(m, instrs, b, Exec(m, instrs, a, st).0)
    decreases |a|
  {
    if a == [] {
      assert a + b == b;
    } else {
      assert (a + b)[1..] == a[1..] + b;
      assert forall i :: 0 <= i < |a[1..]| ==> a[1..][i] == a[i + 1];
      ExecConcat(m, instrs, a[1..], b, Step(m, a[0], instrs[a[0]], st));
    }
  }

  /** A run between two blocks, or after the function has returned. */
  datatype Config<V, S> = At(block: nat, st: State<V, S>) | Halted(exit: Exit<V>, final: State<V, S>)

  ghost predicate CodeOk(f: Function)
  {
    && 0 < |f.blocks|
    && (forall b :: 0 <= b < |f.blocks| ==> InBounds(f.instrs, Indices(f.blocks[b].segments)))
    && (forall b, i :: 0 <= b < |f.blocks| && 0 <= i < |Indices(f.blocks[b].segments)| ==>
                         forall t :: t in f.instrs[Indices(f.blocks[b].segments)[i]].Targets() ==> t < |f.blocks|)
  }

  /** Runs one block. */
  ghost function RunBlock<V, S>(m: Machine<V, S>, f: Function, c: Config<V, S>): (c': Config<V, S>)
    requires CodeOk(f)
  {
    if c.Halted? || c.block >= |f.blocks| then c
    else
      var (st, e) := Exec(m, f.instrs, Indices(f.blocks[c.block].segments), c.st);
      if e.Goes? then At(e.block, st) else Halted(e, st)
  }

  /** Runs `n` blocks from the entry. */
  ghost function Run<V, S>(m: Machine<V, S>, f: Function, st: State<V, S>, n: nat): (c: Config<V, S>)
    requires CodeOk(f)
  {
    if n == 0 then At(0, st) else RunBlock(m, f, Run(m, f, st, n - 1))
  }
}
