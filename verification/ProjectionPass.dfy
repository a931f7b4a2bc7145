/**
 The planner's pass that performs early projection, operator by operator.
 */
module ProjectionPass {
  import opened Wrappers
  import opened PlanModel
  import opened EarlyProjection

  /** The plan contains an operator the pass does not know. */
  predicate HasOther(op: Op)
  {
    match op
    case Select(_, child, _) => HasOther(child)
    case Join(_, children, _) => exists i :: 0 <= i < |children| && HasOther(children[i])
    case Group(_, child, _) => HasOther(child)
    case Output(child) => HasOther(child)
    case Scan(_, _) => false
    case Other => true
  }

  lemma PruneHasOther(op: Op, keep: seq<nat>)
    requires Fits(keep, op.Width())
    ensures HasOther(Prune(op, keep)) == HasOther(op)
  {
  }

  /** The moves of the first `n` columns of a child, added to those of earlier children. */
  function Extended(refs: set<(nat, nat)>, child: nat, n: nat,
                    m: map<(nat, nat), (nat, nat)>): (r: map<(nat, nat), (nat, nat)>)
  {
    if n == 0 then m
    else
      var r := Extended(refs, child, n - 1, m);
      if (child, n - 1) in refs then r[(child, n - 1) := (child, |KeptCols(refs, child, n - 1)|)] else r
  }

  lemma {:induction false} ExtendedAt(refs: set<(nat, nat)>, child: nat, n: nat, m: map<(nat, nat), (nat, nat)>,
                                      p: (nat, nat))
    ensures var r := Extended(refs, child, n, m);
            if p.0 == child && p.1 < n && p in refs then p in r && r[p] == (child, |KeptCols(refs, child, p.1)|)
            else (p in r <==> p in m) && (p in m ==> r[p] == m[p])
  {
    if n > 0 { ExtendedAt(refs, child, n - 1, m, p); }
  }

  /** Gives the referenced columns of a child their new positions. */
  method NumberColumns(refs: set<(nat, nat)>, child: nat, n: nat, m0: map<(nat, nat), (nat, nat)>)
    returns (m: map<(nat, nat), (nat, nat)>)
    ensures m == Extended(refs, child, n, m0)
  {
    m := m0;
    var offset := 0;
    for i := 0 to n
      invariant offset == |KeptCols(refs, child, i)| && m == Extended(refs, child, i, m0)
    {
      if (child, i) in refs {
        m := m[(child, i) := (child, offset)];
        offset := offset + 1;
        continue;
      }
    }
  }

  /** The referenced columns from `i` on. */
  function KeptFrom(refs: set<(nat, nat)>, child: nat, i: nat, n: nat): (r: seq<nat>)
    ensures Fits(r, n)
    decreases n - i
  {
    if i >= n then [] else (if (child, i) in refs then [i] else []) + KeptFrom(refs, child, i + 1, n)
  }

  lemma {:induction false} KeptSplit(refs: set<(nat, nat)>, child: nat, i: nat, n: nat)
    requires i <= n
    ensures KeptCols(refs, child, n) == KeptCols(refs, child, i) + KeptFrom(refs, child, i, n)
    decreases n - i
  {
    if i < n { KeptSplit(refs, child, i + 1, n); }
  }

  lemma DropStep<T>(schema: seq<T>, tail: seq<T>, i: nat)
    requires i < |schema|
    ensures var r := schema[..i + 1] + tail;
            r[..i] + r[i + 1..] == schema[..i] + tail && r == schema[..i] + ([schema[i]] + tail)
  {
  }

  lemma KeepStep<T>(schema: seq<T>, rest: seq<nat>, i: nat)
    requires i < |schema| && Fits(rest, |schema|)
    ensures Fits([i] + rest, |schema|) && PickSchema(schema, [i] + rest) == [schema[i]] + PickSchema(schema, rest)
  {
  }

  /** Removes the columns nobody reads, from the last one down. */
  method RemoveUnreferenced<T>(schema: seq<T>, refs: set<(nat, nat)>, child: nat) returns (r: seq<T>)
    ensures r == PickSchema(schema, KeptCols(refs, child, |schema|))
  {
    hide PickSchema;
    r := schema;
    ghost var n := |schema|;
    var i := |schema|;
    while i > 0
      invariant 0 <= i <= n && r == schema[..i] + PickSchema(schema, KeptFrom(refs, child, i, n))
    {
      i := i - 1;
      ghost var rest := KeptFrom(refs, child, i + 1, n);
      DropStep(schema, PickSchema(schema, rest), i);
      KeepStep(schema, rest, i);
      if (child, i) !in refs {
        r := r[..i] + r[i + 1..];
      }
    }
    KeptSplit(refs, child, 0, n);
  }

  method PruneOperator(op: Op, refs: set<(nat, nat)>, child: nat) returns (r: Op)
    ensures r == PruneChild(op, refs, child)
  {
    match op
    case Scan(t, cols) =>
      var c := RemoveUnreferenced(cols, refs, child);
      r := Scan(t, c);
    case Select(schema, ch, filter) =>
      var c := RemoveUnreferenced(schema, refs, child);
      r := Select(c, ch, filter);
    case Join(schema, children, conditions) =>
      var c := RemoveUnreferenced(schema, refs, child);
      r := Join(c, children, conditions);
    case Group(schema, ch, aggs) =>
      var c := RemoveUnreferenced(schema, refs, child);
      r := Group(c, ch, aggs);
    case Output(_) => r := op;
    case Other => r := op;
  }

  lemma MovesOfOne(refs: set<(nat, nat)>, n: nat)
    ensures Extended(refs, 0, n, map[]) == Moves(refs, [n])
  {
    var m, r := Moves(refs, [n]), Extended(refs, 0, n, map[]);
    forall p: (nat, nat) ensures (p in m <==> p in r) && (p in m ==> m[p] == r[p]) {
      ExtendedAt(refs, 0, n, map[], p);
    }
  }

  /** The pass; it gives up exactly on plans with unknown operators. */
  method Project(op: Op) returns (r: Option<Op>)
    ensures r.None? <==> HasOther(op)
    ensures r.Some? ==> r.value == EarlyProjected(op)
    decreases Depth(op)
  {
    var refs := ReadBy(op);
    match op
    case Group(schema, child, aggs) =>
      var m := NumberColumns(refs, 0, child.Width(), map[]);
      MovesOfOne(refs, child.Width());
      var pruned := PruneOperator(child, refs, 0);
      PruneDepth(child, KeptCols(refs, 0, child.Width()));
      PruneHasOther(child, KeptCols(refs, 0, child.Width()));
      var c := Project(pruned);
      if c.None? { return None; }
      r := Some(Group(schema, c.value, RewriteAggs(aggs, m)));
    case Join(schema, children, conditions) =>
      r := ProjectJoin(op);
    case Select(schema, child, filter) =>
      var m := NumberColumns(refs, 0, child.Width(), map[]);
      MovesOfOne(refs, child.Width());
      var pruned := PruneOperator(child, refs, 0);
      PruneDepth(child, KeptCols(refs, 0, child.Width()));
      PruneHasOther(child, KeptCols(refs, 0, child.Width()));
      var c := Project(pruned);
      if c.None? { return None; }
      r := Some(Select(RewriteAll(schema, m), c.value, Rewrite(filter, m)));
    case Output(child) =>
      var c := Project(child);
      if c.None? { return None; }
      r := Some(Output(c.value));
    case Scan(_, _) =>
      r := Some(op);
    case Other =>
      r := None;
  }

  lemma MovesOfNext(refs: set<(nat, nat)>, widths: seq<nat>, n: nat)
    ensures Extended(refs, |widths|, n, Moves(refs, widths)) == Moves(refs, widths + [n])
  {
    var c := |widths|;
    var m, r := Moves(refs, widths + [n]), Extended(refs, c, n, Moves(refs, widths));
    forall p: (nat, nat) ensures (p in m <==> p in r) && (p in m ==> m[p] == r[p]) {
      ExtendedAt(refs, c, n, Moves(refs, widths), p);
    }
  }

  /** Prunes all inputs of a join and numbers their columns. */
  method PruneInputs(children: seq<Op>, refs: set<(nat, nat)>) returns (pruned: seq<Op>, m: map<(nat, nat), (nat, nat)>)
    ensures pruned == PruneChildren(children, refs) && m == Moves(refs, Widths(children))
  {
    m, pruned := map[], [];
    assert Moves(refs, []) == map[];
    for c := 0 to |children|
      invariant |pruned| == c && forall i :: 0 <= i < c ==> pruned[i] == PruneChild(children[i], refs, i)
      invariant m == Moves(refs, Widths(children[..c]))
    {
      m := NumberColumns(refs, c, children[c].Width(), m);
      MovesOfNext(refs, Widths(children[..c]), children[c].Width());
      assert Widths(children[..c + 1]) == Widths(children[..c]) + [children[c].Width()];
      var child := PruneOperator(children[c], refs, c);
      pruned := pruned + [child];
    }
    assert children[..|children|] == children;
  }

  lemma JoinProjected(op: Op, projected: seq<Op>)
    requires op.Join? && |projected| == |op.children|
    requires forall i :: 0 <= i < |projected| ==>
             projected[i] == EarlyProjected(PruneChild(op.children[i], ReadBy(op), i))
    ensures var m := Moves(ReadBy(op), Widths(op.children));
            EarlyProjected(op) == Join(RewriteAll(op.schema, m), projected, RewriteAll(op.conditions, m))
  {
    assert EarlyProjected(op).children == projected;
  }

  lemma JoinHasOther(op: Op, i: nat)
    requires op.Join? && i < |op.children| && HasOther(op.children[i])
    ensures HasOther(op)
  {
  }

  lemma JoinHasNoOther(op: Op)
    requires op.Join? && forall i :: 0 <= i < |op.children| ==> !HasOther(op.children[i])
    ensures !HasOther(op)
  {
  }

  method ProjectJoin(op: Op) returns (r: Option<Op>)
    requires op.Join?
    ensures r.None? <==> HasOther(op)
    ensures r.Some? ==> r.value == EarlyProjected(op)
    decreases Depth(op), 0
  {
    hide EarlyProjected, HasOther, Moves, ReadBy, KeptCols;
    var refs, children := ReadBy(op), op.children;
    var pruned, m := PruneInputs(children, refs);
    var projected := [];
    for c := 0 to |children|
      invariant |projected| == c
      invariant forall i :: 0 <= i < c ==> projected[i] == EarlyProjected(PruneChild(children[i], refs, i))
      invariant forall i :: 0 <= i < c ==> !HasOther(children[i])
    {
      PruneDepth(children[c], KeptCols(refs, c, children[c].Width()));
      PruneHasOther(children[c], KeptCols(refs, c, children[c].Width()));
      var child := Project(pruned[c]);
      if child.None? {
        JoinHasOther(op, c);
        return None;
      }
      projected := projected + [child.value];
    }
    JoinProjected(op, projected);
    JoinHasNoOther(op);
    r := Some(Join(RewriteAll(op.schema, m), projected, RewriteAll(op.conditions, m)));
  }
}
