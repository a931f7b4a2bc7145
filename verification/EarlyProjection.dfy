/**
 Early projection: every operator keeps only the columns its parent reads.
 */
module EarlyProjection {
  import opened PlanModel

  // ----- which columns stay -----

  /** The referenced columns of a child, among its first `n`. */
  function KeptCols(refs: set<(nat, nat)>, child: nat, n: nat): (r: seq<nat>)
    ensures forall i :: 0 <= i < |r| ==> r[i] < n && (child, r[i]) in refs
  {
    if n == 0 then [] else KeptCols(refs, child, n - 1) + if (child, n - 1) in refs then [n - 1] else []
  }

  /** A referenced column moves to the number of referenced columns before it. */
  lemma {:induction false} KeptAt(refs: set<(nat, nat)>, child: nat, n: nat, k: nat)
    requires k < n && (child, k) in refs
    ensures |KeptCols(refs, child, k)| < |KeptCols(refs, child, n)| &&
            KeptCols(refs, child, n)[|KeptCols(refs, child, k)|] == k
  {
    if k < n - 1 { KeptAt(refs, child, n - 1, k); }
  }

  function PickSchema<T>(schema: seq<T>, keep: seq<nat>): (r: seq<T>)
    requires forall i :: 0 <= i < |keep| ==> keep[i] < |schema|
    ensures |r| == |keep| && forall i :: 0 <= i < |keep| ==> r[i] == schema[keep[i]]
  {
    seq(|keep|, i requires 0 <= i < |keep| => schema[keep[i]])
  }

  predicate Fits(keep: seq<nat>, n: nat)
  {
    forall i :: 0 <= i < |keep| ==> keep[i] < n
  }

  /** Restricts the schema of an operator. */
  function Prune(op: Op, keep: seq<nat>): (r: Op)
    requires Fits(keep, op.Width())
    ensures op.Output? || op.Other? || r.Width() == |keep|
  {
    match op
    case Scan(t, cols) => Scan(t, PickSchema(cols, keep))
    case Select(schema, child, filter) => Select(PickSchema(schema, keep), child, filter)
    case Join(schema, children, conditions) => Join(PickSchema(schema, keep), children, conditions)
    case Group(schema, child, aggs) => Group(PickSchema(schema, keep), child, aggs)
    case _ => op
  }

  function PruneChild(op: Op, refs: set<(nat, nat)>, child: nat): (r: Op)
  {
    Prune(op, KeptCols(refs, child, op.Width()))
  }

  /** Where the referenced columns of the children go. */
  function Moves(refs: set<(nat, nat)>, widths: seq<nat>): (m: map<(nat, nat), (nat, nat)>)
  {
    map p | p in refs && p.0 < |widths| && p.1 < widths[p.0] :: (p.0, |KeptCols(refs, p.0, p.1)|)
  }

  // ----- depth of a plan -----

  function Depth(op: Op): (d: nat)
    decreases op, 1, 0
  {
    match op
    case Select(_, child, _) => 1 + Depth(child)
    case Join(_, _, _) => 1 + ChildrenDepth(op, |op.children|)
    case Group(_, child, _) => 1 + Depth(child)
    case Output(child) => 1 + Depth(child)
    case _ => 0
  }

  function ChildrenDepth(op: Op, n: nat): (d: nat)
    requires op.Join? && n <= |op.children|
    ensures forall i :: 0 <= i < n ==> Depth(op.children[i]) <= d
    decreases op, 0, n
  {
    if n == 0 then 0
    else
      var d := ChildrenDepth(op, n - 1);
      if Depth(op.children[n - 1]) > d then Depth(op.children[n - 1]) else d
  }

  lemma {:induction false} SameChildrenDepth(op: Op, op': Op, n: nat)
    requires op.Join? && op'.Join? && op.children == op'.children && n <= |op.children|
    ensures ChildrenDepth(op, n) == ChildrenDepth(op', n)
  {
    if n > 0 { SameChildrenDepth(op, op', n - 1); }
  }

  lemma PruneDepth(op: Op, keep: seq<nat>)
    requires Fits(keep, op.Width())
    ensures Depth(Prune(op, keep)) == Depth(op)
  {
    if op.Join? { SameChildrenDepth(op, Prune(op, keep), |op.children|); }
  }

  // ----- the transformation -----

  function ArgsOf(aggs: seq<Aggregate>): (r: seq<Expr>)
    ensures |r| == |aggs| && forall i :: 0 <= i < |aggs| ==> r[i] == aggs[i].arg
  {
    seq(|aggs|, i requires 0 <= i < |aggs| => aggs[i].arg)
  }

  function RewriteAggs(aggs: seq<Aggregate>, m: map<(nat, nat), (nat, nat)>): (r: seq<Aggregate>)
    ensures |r| == |aggs| && forall i :: 0 <= i < |aggs| ==> r[i] == Aggregate(aggs[i].kind, Rewrite(aggs[i].arg, m))
  {
    seq(|aggs|, i requires 0 <= i < |aggs| => Aggregate(aggs[i].kind, Rewrite(aggs[i].arg, m)))
  }

  function Widths(ops: seq<Op>): (r: seq<nat>)
    ensures |r| == |ops| && forall i :: 0 <= i < |ops| ==> r[i] == ops[i].Width()
  {
    seq(|ops|, i requires 0 <= i < |ops| => ops[i].Width())
  }

  function PruneChildren(ops: seq<Op>, refs: set<(nat, nat)>): (r: seq<Op>)
    ensures |r| == |ops| && forall i :: 0 <= i < |ops| ==> r[i] == PruneChild(ops[i], refs, i)
  {
    seq(|ops|, i requires 0 <= i < |ops| => PruneChild(ops[i], refs, i))
  }

  /** The columns an operator reads from its children. */
  function ReadBy(op: Op): (refs: set<(nat, nat)>)
  {
    match op
    case Select(schema, _, filter) => RefsAll(schema) + Refs(filter)
    case Join(schema, _, conditions) => RefsAll(schema) + RefsAll(conditions)
    case Group(_, _, aggs) => RefsAll(ArgsOf(aggs))
    case _ => {}
  }

  function EarlyProjected(op: Op): (r: Op)
    decreases Depth(op)
  {
    var refs := ReadBy(op);
    match op
    case Select(schema, child, filter) =>
      var m := Moves(refs, [child.Width()]);
      PruneDepth(child, KeptCols(refs, 0, child.Width()));
      Select(RewriteAll(schema, m), EarlyProjected(PruneChild(child, refs, 0)), Rewrite(filter, m))
    case Join(schema, children, conditions) =>
      var m := Moves(refs, Widths(children));
      Join(RewriteAll(schema, m),
           seq(|children|, i requires 0 <= i < |children| =>
                 PruneDepth(children[i],
                     KeptCols(refs, i, children[i].Width())); EarlyProjected(PruneChild(children[i], refs, i))),
           RewriteAll(conditions, m))
    case Group(schema, child, aggs) =>
      var m := Moves(refs, [child.Width()]);
      PruneDepth(child, KeptCols(refs, 0, child.Width()));
      Group(schema, EarlyProjected(PruneChild(child, refs, 0)), RewriteAggs(aggs, m))
    case Output(child) => Output(EarlyProjected(child))
    case _ => op
  }

  // ----- well-formed plans -----

  predicate InBounds(refs: set<(nat, nat)>, widths: seq<nat>)
  {
    forall p :: p in refs ==> p.0 < |widths| && p.1 < widths[p.0]
  }

  /** Every column reference is in bounds; the output operator is only used at the root. */
  predicate WellFormed(op: Op)
  {
    match op
    case Select(_, child, _) => InBounds(ReadBy(op), [child.Width()]) && !child.Output? && WellFormed(child)
    case Join(_, children, _) =>
      InBounds(ReadBy(op), Widths(children)) && forall i :: 0 <= i < |children| ==>
          !children[i].Output? && WellFormed(children[i])
    case Group(schema, child, _) => InBounds(ReadBy(op), [child.Width()]) && !child.Output? && WellFormed(child)
    case Output(child) => !child.Output? && WellFormed(child)
    case _ => true
  }

  /** The columns each operator reads are all the columns its children have. */
  predicate Tight(op: Op)
  {
    match op
    case Select(_, child, _) => ReadsAll(op, [child.Width()]) && Tight(child)
    case Join(_, children, _) => ReadsAll(op, Widths(children)) && forall i :: 0 <= i < |children| ==>
        Tight(children[i])
    case Group(_, child, _) => ReadsAll(op, [child.Width()]) && Tight(child)
    case Output(child) => Tight(child)
    case _ => true
  }

  predicate ReadsAll(op: Op, widths: seq<nat>)
  {
    forall c: nat, k: nat :: c < |widths| && k < widths[c] ==> (c, k) in ReadBy(op)
  }

  lemma {:induction false} PruneWellFormed(op: Op, keep: seq<nat>)
    requires WellFormed(op) && Fits(keep, op.Width())
    ensures WellFormed(Prune(op, keep)) && (!op.Output? ==> !Prune(op, keep).Output?)
  {
    var r := Prune(op, keep);
    assert ReadBy(r) <= ReadBy(op);
  }

  /** Only the kept columns of an operator change. */
  lemma PruneRows<V>(s: Sem<V>, db: nat -> seq<Row<V>>, op: Op, keep: seq<nat>)
    requires Fits(keep, op.Width()) && !op.Output?
    ensures Rows(s, db, Prune(op, keep)) == PickAll(s, keep, Rows(s, db, op))
  {
    match op
    case Scan(t, cols) =>
      forall i | 0 <= i < |db(t)|
        ensures Pick(s, PickSchema(cols, keep), db(t)[i]) == Pick(s, keep, Pick(s, cols, db(t)[i]))
      {
      }
    case Select(schema, child, filter) =>
      FilterPick(s, schema, filter, keep, Rows(s, db, child));
    case Join(schema, children, conditions) =>
      JoinPick(s, schema, conditions, keep,
          Cross(seq(|children|, i requires 0 <= i < |children| => Rows(s, db, children[i]))));
    case Group(schema, child, aggs) =>
      var rows := Rows(s, db, child);
      if rows == [] {
        assert Nulls(s, |keep|) == Pick(s, keep, Nulls(s, |schema|));
      } else {
        PickEval(s, schema, keep, Aggregates(s, aggs, rows), []);
      }
    case Other =>
  }

  lemma PickEval<V>(s: Sem<V>, schema: seq<Expr>, keep: seq<nat>, virtuals: seq<V>, rows: seq<Row<V>>)
    requires Fits(keep, |schema|)
    ensures EvalAll(s, PickSchema(schema, keep), virtuals, rows) == Pick(s, keep, EvalAll(s, schema, virtuals, rows))
  {
  }

  lemma PickAllAppend<V>(s: Sem<V>, keep: seq<nat>, a: seq<Row<V>>, b: seq<Row<V>>)
    ensures PickAll(s, keep, a + b) == PickAll(s, keep, a) + PickAll(s, keep, b)
  {
  }

  lemma {:induction false} FilterPick<V>(s: Sem<V>, schema: seq<Expr>, filter: Expr, keep: seq<nat>, rows: seq<Row<V>>)
    requires Fits(keep, |schema|)
    ensures FilterProject(s, PickSchema(schema, keep), filter, rows) ==
            PickAll(s, keep, FilterProject(s, schema, filter, rows))
  {
    if rows != [] {
      FilterPick(s, schema, filter, keep, rows[1..]);
      PickEval(s, schema, keep, [], [rows[0]]);
      var first := if Holds(s, filter, [rows[0]]) then [EvalAll(s, schema, [], [rows[0]])] else [];
      PickAllAppend(s, keep, first, FilterProject(s, schema, filter, rows[1..]));
    }
  }

  lemma {:induction false} JoinPick<V>(s: Sem<V>, schema: seq<Expr>, conditions: seq<Expr>, keep: seq<nat>,
                                       combos: seq<seq<Row<V>>>)
    requires Fits(keep, |schema|)
    ensures JoinProject(s, PickSchema(schema, keep), conditions, combos) ==
            PickAll(s, keep, JoinProject(s, schema, conditions, combos))
  {
    if combos != [] {
      JoinPick(s, schema, conditions, keep, combos[1..]);
      PickEval(s, schema, keep, [], combos[0]);
      var first := if AllHold(s, conditions, combos[0]) then [EvalAll(s, schema, [], combos[0])] else [];
      PickAllAppend(s, keep, first, JoinProject(s, schema, conditions, combos[1..]));
    }
  }

  // ----- reading pruned rows -----

  function Keeps(refs: set<(nat, nat)>, widths: seq<nat>): (r: seq<seq<nat>>)
    ensures |r| == |widths| && forall i :: 0 <= i < |widths| ==> r[i] == KeptCols(refs, i, widths[i])
  {
    seq(|widths|, i requires 0 <= i < |widths| => KeptCols(refs, i, widths[i]))
  }

  /** A combination of rows with each row restricted. */
  function PickEach<V>(s: Sem<V>, keeps: seq<seq<nat>>, combo: seq<Row<V>>): (r: seq<Row<V>>)
    ensures |r| == |combo|
  {
    seq(|combo|, i requires 0 <= i < |combo| => if i < |keeps| then Pick(s, keeps[i], combo[i]) else combo[i])
  }

  lemma PickedAgrees<V>(s: Sem<V>, refs: set<(nat, nat)>, widths: seq<nat>, combo: seq<Row<V>>)
    requires InBounds(refs, widths) && |combo| == |widths|
    ensures Agrees(s, refs, Moves(refs, widths), combo, PickEach(s, Keeps(refs, widths), combo))
  {
    forall p | p in refs
      ensures var m := Moves(refs, widths);
              p in m && At(s, PickEach(s, Keeps(refs, widths), combo), m[p].0, m[p].1) == At(s, combo, p.0, p.1)
    {
      KeptAt(refs, p.0, widths[p.0], p.1);
    }
  }

  lemma AgreesSubset<V>(s: Sem<V>, refs: set<(nat, nat)>, refs': set<(nat, nat)>, m: map<(nat, nat), (nat, nat)>,
                        rows: seq<Row<V>>, rows': seq<Row<V>>)
    requires Agrees(s, refs, m, rows, rows') && refs' <= refs
    ensures Agrees(s, refs', m, rows, rows')
  {
  }

  lemma RewriteEvalAll<V>(s: Sem<V>, es: seq<Expr>, m: map<(nat, nat), (nat, nat)>, rows: seq<Row<V>>,
                          rows': seq<Row<V>>)
    requires Agrees(s, RefsAll(es), m, rows, rows')
    ensures EvalAll(s, RewriteAll(es, m), [], rows') == EvalAll(s, es, [], rows)
    ensures AllHold(s, RewriteAll(es, m), rows') <==> AllHold(s, es, rows)
  {
    forall i | 0 <= i < |es| ensures Eval(s, Rewrite(es[i], m), [], rows') == Eval(s, es[i], [], rows) {
      AgreesSubset(s, RefsAll(es), Refs(es[i]), m, rows, rows');
      RewriteEval(s, es[i], m, [], rows, rows');
    }
    forall i | 0 <= i < |es| ensures Holds(s, RewriteAll(es, m)[i], rows') <==> Holds(s, es[i], rows) {
    }
  }

  lemma {:induction false} SelectPicked<V>(s: Sem<V>, schema: seq<Expr>, filter: Expr, refs: set<(nat, nat)>, n: nat,
                                           rows: seq<Row<V>>)
    requires refs == RefsAll(schema) + Refs(filter) && InBounds(refs, [n])
    ensures var m := Moves(refs, [n]);
            FilterProject(s, RewriteAll(schema, m), Rewrite(filter, m), PickAll(s, KeptCols(refs, 0, n), rows)) ==
                FilterProject(s, schema, filter, rows)
  {
    var m, keep := Moves(refs, [n]), KeptCols(refs, 0, n);
    var picked := PickAll(s, keep, rows);
    if rows != [] {
      SelectPicked(s, schema, filter, refs, n, rows[1..]);
      assert picked[1..] == PickAll(s, keep, rows[1..]);
      PickedAgrees(s, refs, [n], [rows[0]]);
      assert PickEach(s, Keeps(refs, [n]), [rows[0]]) == [picked[0]];
      AgreesSubset(s, refs, Refs(filter), m, [rows[0]], [picked[0]]);
      AgreesSubset(s, refs, RefsAll(schema), m, [rows[0]], [picked[0]]);
      RewriteEval(s, filter, m, [], [rows[0]], [picked[0]]);
      RewriteEvalAll(s, schema, m, [rows[0]], [picked[0]]);
    }
  }

  lemma GroupPicked<V>(s: Sem<V>, aggs: seq<Aggregate>, refs: set<(nat, nat)>, n: nat, rows: seq<Row<V>>)
    requires refs == RefsAll(ArgsOf(aggs)) && InBounds(refs, [n])
    ensures Aggregates(s, RewriteAggs(aggs, Moves(refs, [n])), PickAll(s, KeptCols(refs, 0, n), rows)) ==
            Aggregates(s, aggs, rows)
  {
    var m, picked := Moves(refs, [n]), PickAll(s, KeptCols(refs, 0, n), rows);
    forall i | 0 <= i < |aggs| ensures Values(s, Rewrite(aggs[i].arg, m), picked) == Values(s, aggs[i].arg, rows) {
      forall k | 0 <= k < |rows|
        ensures Eval(s, Rewrite(aggs[i].arg, m), [], [picked[k]]) == Eval(s, aggs[i].arg, [], [rows[k]])
      {
        PickedAgrees(s, refs, [n], [rows[k]]);
        assert PickEach(s, Keeps(refs, [n]), [rows[k]]) == [picked[k]];
        assert Refs(aggs[i].arg) <= refs by { assert ArgsOf(aggs)[i] == aggs[i].arg; }
        AgreesSubset(s, refs, Refs(aggs[i].arg), m, [rows[k]], [picked[k]]);
        RewriteEval(s, aggs[i].arg, m, [], [rows[k]], [picked[k]]);
      }
    }
  }

  // ----- joins -----

  predicate AllOfSize<V>(combos: seq<seq<Row<V>>>, n: nat)
  {
    forall i :: 0 <= i < |combos| ==> |combos[i]| == n
  }

  lemma {:induction false} PrependSize<V>(row: Row<V>, combos: seq<seq<Row<V>>>, n: nat)
    requires AllOfSize(combos, n)
    ensures AllOfSize(Prepend(row, combos), n + 1)
  {
    if combos != [] { PrependSize(row, combos[1..], n); }
  }

  lemma {:induction false} ExtendSize<V>(rows: seq<Row<V>>, combos: seq<seq<Row<V>>>, n: nat)
    requires AllOfSize(combos, n)
    ensures AllOfSize(Extend(rows, combos), n + 1)
  {
    if rows != [] {
      ExtendSize(rows[1..], combos, n);
      PrependSize(rows[0], combos, n);
    }
  }

  lemma {:induction false} CrossSize<V>(lists: seq<seq<Row<V>>>)
    ensures AllOfSize(Cross(lists), |lists|)
  {
    if lists != [] {
      CrossSize(lists[1..]);
      ExtendSize(lists[0], Cross(lists[1..]), |lists| - 1);
    }
  }

  function PickCombos<V>(s: Sem<V>, keeps: seq<seq<nat>>, combos: seq<seq<Row<V>>>): (r: seq<seq<Row<V>>>)
    ensures |r| == |combos|
  {
    seq(|combos|, i requires 0 <= i < |combos| => PickEach(s, keeps, combos[i]))
  }

  lemma {:induction false} PrependPicked<V>(s: Sem<V>, keep: seq<nat>, keeps: seq<seq<nat>>, row: Row<V>,
                                            combos: seq<seq<Row<V>>>)
    ensures Prepend(Pick(s, keep, row), PickCombos(s, keeps, combos)) ==
            PickCombos(s, [keep] + keeps, Prepend(row, combos))
  {
    if combos != [] {
      PrependPicked(s, keep, keeps, row, combos[1..]);
      assert PickCombos(s, keeps, combos)[1..] == PickCombos(s, keeps, combos[1..]);
      var c := [row] + combos[0];
      assert PickEach(s, [keep] + keeps, c) == [Pick(s, keep, row)] + PickEach(s, keeps, combos[0]);
      assert Prepend(row, combos) == [c] + Prepend(row, combos[1..]);
    }
  }

  lemma {:induction false} ExtendPicked<V>(s: Sem<V>, keep: seq<nat>, keeps: seq<seq<nat>>, rows: seq<Row<V>>,
                                           combos: seq<seq<Row<V>>>)
    ensures Extend(PickAll(s, keep, rows), PickCombos(s, keeps, combos)) ==
            PickCombos(s, [keep] + keeps, Extend(rows, combos))
  {
    if rows == [] {
      assert PickAll(s, keep, rows) == [];
    } else {
      ExtendPicked(s, keep, keeps, rows[1..], combos);
      assert PickAll(s, keep, rows)[1..] == PickAll(s, keep, rows[1..]);
      PrependPicked(s, keep, keeps, rows[0], combos);
      var a, b := Prepend(rows[0], combos), Extend(rows[1..], combos);
      assert PickCombos(s, [keep] + keeps, a + b) == PickCombos(s, [keep] + keeps, a) +
          PickCombos(s, [keep] + keeps, b);
    }
  }

  /** Restricting the inputs of a cross product restricts its combinations. */
  lemma {:induction false} CrossPicked<V>(s: Sem<V>, keeps: seq<seq<nat>>, lists: seq<seq<Row<V>>>)
    requires |keeps| == |lists|
    ensures Cross(seq(|lists|, i requires 0 <= i < |lists| => PickAll(s, keeps[i], lists[i]))) ==
            PickCombos(s, keeps, Cross(lists))
    decreases |lists|
  {
    var picked := seq(|lists|, i requires 0 <= i < |lists| => PickAll(s, keeps[i], lists[i]));
    if lists != [] {
      var l, k := lists[1..], keeps[1..];
      CrossPicked(s, k, l);
      assert picked[1..] == seq(|l|, i requires 0 <= i < |l| => PickAll(s, k[i], l[i]));
      ExtendPicked(s, keeps[0], k, lists[0], Cross(l));
      assert keeps == [keeps[0]] + k;
    }
  }

  lemma {:induction false} JoinPicked<V>(s: Sem<V>, schema: seq<Expr>, conditions: seq<Expr>, refs: set<(nat, nat)>,
                                         widths: seq<nat>, combos: seq<seq<Row<V>>>)
    requires refs == RefsAll(schema) + RefsAll(conditions) && InBounds(refs, widths) && AllOfSize(combos, |widths|)
    ensures var m := Moves(refs, widths);
            JoinProject(s, RewriteAll(schema, m), RewriteAll(conditions, m),
                PickCombos(s, Keeps(refs, widths), combos)) == JoinProject(s, schema, conditions, combos)
  {
    var m, keeps := Moves(refs, widths), Keeps(refs, widths);
    var picked := PickCombos(s, keeps, combos);
    if combos != [] {
      JoinPicked(s, schema, conditions, refs, widths, combos[1..]);
      assert picked[1..] == PickCombos(s, keeps, combos[1..]);
      PickedAgrees(s, refs, widths, combos[0]);
      AgreesSubset(s, refs, RefsAll(conditions), m, combos[0], picked[0]);
      AgreesSubset(s, refs, RefsAll(schema), m, combos[0], picked[0]);
      RewriteEvalAll(s, conditions, m, combos[0], picked[0]);
      RewriteEvalAll(s, schema, m, combos[0], picked[0]);
    }
  }

  // ----- the result of the transformation -----

  lemma EarlyWidth(op: Op)
    ensures EarlyProjected(op).Width() == op.Width() && EarlyProjected(op).Output? == op.Output?
  {
  }

  function AllRows<V>(s: Sem<V>, db: nat -> seq<Row<V>>, ops: seq<Op>): (r: seq<seq<Row<V>>>)
    ensures |r| == |ops| && forall i :: 0 <= i < |ops| ==> r[i] == Rows(s, db, ops[i])
  {
    seq(|ops|, i requires 0 <= i < |ops| => Rows(s, db, ops[i]))
  }

  lemma JoinRows<V>(s: Sem<V>, db: nat -> seq<Row<V>>, op: Op)
    requires op.Join?
    ensures Rows(s, db, op) == JoinProject(s, op.schema, op.conditions, Cross(AllRows(s, db, op.children)))
  {
    assert AllRows(s, db, op.children) ==
        seq(|op.children|, i requires 0 <= i < |op.children| => Rows(s, db, op.children[i]));
  }

  /** Early projection preserves the result of every plan, on every database. */
  lemma {:induction false} EarlyProjectionPreserves<V>(s: Sem<V>, db: nat -> seq<Row<V>>, op: Op)
    requires WellFormed(op)
    ensures Rows(s, db, EarlyProjected(op)) == Rows(s, db, op)
    decreases Depth(op)
  {
    var refs := ReadBy(op);
    match op
    case Select(schema, child, filter) =>
      PrunedChild(s, db, op, child, 0);
      SelectPicked(s, schema, filter, refs, child.Width(), Rows(s, db, child));
    case Join(schema, children, conditions) =>
      var widths, lists := Widths(children), AllRows(s, db, children);
      var r := EarlyProjected(op);
      forall i | 0 <= i < |children|
        ensures Rows(s, db, r.children[i]) == PickAll(s, Keeps(refs, widths)[i], lists[i])
      {
        PrunedChild(s, db, op, children[i], i);
      }
      JoinRows(s, db, op);
      JoinRows(s, db, r);
      assert AllRows(s, db, r.children) ==
          seq(|lists|, i requires 0 <= i < |lists| => PickAll(s, Keeps(refs, widths)[i], lists[i]));
      CrossPicked(s, Keeps(refs, widths), lists);
      CrossSize(lists);
      JoinPicked(s, schema, conditions, refs, widths, Cross(lists));
    case Group(schema, child, aggs) =>
      PrunedChild(s, db, op, child, 0);
      GroupPicked(s, aggs, refs, child.Width(), Rows(s, db, child));
    case Output(child) =>
      EarlyProjectionPreserves(s, db, child);
    case _ =>
  }

  lemma {:induction false} PrunedChild<V>(s: Sem<V>, db: nat -> seq<Row<V>>, op: Op, child: Op, c: nat)
    requires WellFormed(child) && !child.Output? && Depth(child) < Depth(op)
    ensures Rows(s, db, EarlyProjected(PruneChild(child, ReadBy(op), c))) ==
            PickAll(s, KeptCols(ReadBy(op), c, child.Width()), Rows(s, db, child))
    decreases Depth(op), 0
  {
    var keep := KeptCols(ReadBy(op), c, child.Width());
    PruneDepth(child, keep);
    PruneWellFormed(child, keep);
    PruneRows(s, db, child, keep);
    EarlyProjectionPreserves(s, db, Prune(child, keep));
  }

  lemma RewriteAllRefs(es: seq<Expr>, m: map<(nat, nat), (nat, nat)>, p: (nat, nat))
    requires forall q :: q in RefsAll(es) ==> q in m
    ensures p in RefsAll(RewriteAll(es, m)) <==> exists q :: q in RefsAll(es) && m[q] == p
  {
    forall i | 0 <= i < |es| ensures p in Refs(RewriteAll(es, m)[i]) <==> exists q :: q in Refs(es[i]) && m[q] == p {
      RewriteRefs(es[i], m, p);
    }
    if p in RefsAll(RewriteAll(es, m)) {
      var i :| 0 <= i < |es| && p in Refs(RewriteAll(es, m)[i]);
      var q :| q in Refs(es[i]) && m[q] == p;
      assert q in RefsAll(es);
    }
    if q :| q in RefsAll(es) && m[q] == p {
      var i :| 0 <= i < |es| && q in Refs(es[i]);
    }
  }

  /** The references of the projected operator are the moved references. */
  lemma MovedRefs(op: Op, widths: seq<nat>, p: (nat, nat))
    requires op.Select? || op.Join? || op.Group?
    requires InBounds(ReadBy(op), widths) && widths == if op.Join? then Widths(op.children) else [op.child.Width()]
    ensures p in ReadBy(EarlyProjected(op)) <==> exists q :: q in ReadBy(op) && Moves(ReadBy(op), widths)[q] == p
  {
    var refs, r := ReadBy(op), EarlyProjected(op);
    var m := Moves(refs, widths);
    match op
    case Select(schema, child, filter) =>
      RewriteAllRefs(schema, m, p);
      RewriteRefs(filter, m, p);
    case Join(schema, children, conditions) =>
      RewriteAllRefs(schema, m, p);
      RewriteAllRefs(conditions, m, p);
    case Group(schema, child, aggs) =>
      assert ArgsOf(r.aggs) == RewriteAll(ArgsOf(aggs), m);
      RewriteAllRefs(ArgsOf(aggs), m, p);
  }

  lemma {:induction false} KeptPosition(refs: set<(nat, nat)>, child: nat, n: nat, i: nat)
    requires i < |KeptCols(refs, child, n)|
    ensures |KeptCols(refs, child, KeptCols(refs, child, n)[i])| == i
  {
    if i < |KeptCols(refs, child, n - 1)| { KeptPosition(refs, child, n - 1, i); }
  }

  /** Moved references fill exactly the kept columns. */
  lemma MovesOnto(refs: set<(nat, nat)>, widths: seq<nat>, c: nat, k: nat)
    requires InBounds(refs, widths)
    ensures (c < |widths| && k < |KeptCols(refs, c, widths[c])|) <==>
            exists q :: q in refs && Moves(refs, widths)[q] == (c, k)
  {
    if c < |widths| && k < |KeptCols(refs, c, widths[c])| {
      KeptPosition(refs, c, widths[c], k);
      var q := (c, KeptCols(refs, c, widths[c])[k]);
      assert q in refs && Moves(refs, widths)[q] == (c, k);
    }
    if q :| q in refs && Moves(refs, widths)[q] == (c, k) {
      KeptAt(refs, q.0, widths[q.0], q.1);
    }
  }

  /** An operator over pruned children reads all of what they have and nothing else. */
  lemma ReadsExactly(op: Op, widths: seq<nat>, widths': seq<nat>)
    requires op.Select? || op.Join? || op.Group?
    requires InBounds(ReadBy(op), widths) && widths == if op.Join? then Widths(op.children) else [op.child.Width()]
    requires |widths'| == |widths| && forall c :: 0 <= c < |widths| ==>
             widths'[c] == |KeptCols(ReadBy(op), c, widths[c])|
    ensures InBounds(ReadBy(EarlyProjected(op)), widths') && ReadsAll(EarlyProjected(op), widths')
  {
    var r := EarlyProjected(op);
    forall c: nat, k: nat ensures (c, k) in ReadBy(r) <==> c < |widths'| && k < widths'[c] {
      MovedRefs(op, widths, (c, k));
      MovesOnto(ReadBy(op), widths, c, k);
    }
    forall p | p in ReadBy(r) ensures p.0 < |widths'| && p.1 < widths'[p.0] {
      assert p == (p.0, p.1);
    }
  }

  lemma PrunedWidth(child: Op, refs: set<(nat, nat)>, c: nat)
    requires !child.Output?
    ensures EarlyProjected(PruneChild(child, refs, c)).Width() == |KeptCols(refs, c, child.Width())|
    ensures !EarlyProjected(PruneChild(child, refs, c)).Output?
  {
    EarlyWidth(PruneChild(child, refs, c));
  }

  /** The projected plan is well formed, and every column that is left is read. */
  lemma {:induction false} EarlyProjectionIsTight(op: Op)
    requires WellFormed(op)
    ensures WellFormed(EarlyProjected(op)) && Tight(EarlyProjected(op))
    decreases Depth(op)
  {
    var refs, r := ReadBy(op), EarlyProjected(op);
    match op
    case Select(schema, child, filter) =>
      TightChild(op, child, 0);
      ReadsExactly(op, [child.Width()], [r.child.Width()]);
    case Join(schema, children, conditions) =>
      forall i | 0 <= i < |children|
        ensures WellFormed(r.children[i]) && Tight(r.children[i]) && !r.children[i].Output? &&
                r.children[i].Width() == |KeptCols(refs, i, children[i].Width())|
      {
        TightChild(op, children[i], i);
      }
      ReadsExactly(op, Widths(children), Widths(r.children));
    case Group(schema, child, aggs) =>
      TightChild(op, child, 0);
      ReadsExactly(op, [child.Width()], [r.child.Width()]);
    case Output(child) =>
      EarlyProjectionIsTight(child);
      EarlyWidth(child);
    case _ =>
  }

  lemma {:induction false} TightChild(op: Op, child: Op, c: nat)
    requires WellFormed(child) && !child.Output? && Depth(child) < Depth(op)
    ensures var r := EarlyProjected(PruneChild(child, ReadBy(op), c));
            WellFormed(r) && Tight(r) && !r.Output? && r.Width() == |KeptCols(ReadBy(op), c, child.Width())|
    decreases Depth(op), 0
  {
    var keep := KeptCols(ReadBy(op), c, child.Width());
    PruneDepth(child, keep);
    PruneWellFormed(child, keep);
    PrunedWidth(child, ReadBy(op), c);
    EarlyProjectionIsTight(Prune(child, keep));
  }
}
