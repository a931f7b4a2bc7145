/**
 Planning a whole SELECT: filters, join, aggregates, then early projection.
 */
module SelectPlanner {
  import opened PlanModel
  import opened EarlyProjection
  import opened Pushdown

  // ----- conjuncts that read no column -----

  lemma {:induction false} ConstantProject<V>(s: Sem<V>, schema: seq<Expr>, conditions: seq<Expr>,
                                              combos: seq<seq<Row<V>>>)
    requires forall i, combo :: 0 <= i < |conditions| ==>
             (Holds(s, conditions[i], combo) <==> Holds(s, conditions[i], []))
    ensures JoinProject(s, schema, conditions, combos) == if AllHold(s, conditions, [])
            then JoinProject(s, schema, [], combos) else []
  {
    if combos != [] {
      ConstantProject(s, schema, conditions, combos[1..]);
      assert AllHold(s, conditions, combos[0]) <==> AllHold(s, conditions, []);
    }
  }

  /** With one table, the join conditions read no column. */
  lemma DroppedAreConstant<V>(s: Sem<V>, tables: seq<Op>, where: Expr, i: nat, combo: seq<Row<V>>)
    requires |tables| == 1 && InBounds(Refs(where), Widths(tables)) && i < |Joining(Decompose(where))|
    ensures var e := Joining(Decompose(where))[i]; Holds(s, e, combo) <==> Holds(s, e, [])
  {
    var e := Joining(Decompose(where))[i];
    DecomposeRefs(where);
    assert Refs(e) <= RefsAll(Decompose(where));
    hide Decompose, Joining, RefsAll, Refs;
    NoColumns(e);
    EvalLocal(s, e, [], [], combo);
  }

  lemma NoColumns(e: Expr)
    requires |Tables(e)| != 1 && forall q :: q in Refs(e) ==> q.0 == 0
    ensures Refs(e) == {}
  {
    hide Refs;
    assert forall q :: q in Refs(e) ==> q.0 in Tables(e);
    assert Tables(e) <= {0};
    assert Tables(e) == {} || Tables(e) == {0};
  }

  lemma {:induction false} NonePassing<V>(s: Sem<V>, preds: seq<Expr>, t: nat, rows: seq<Row<V>>)
    ensures Passing(s, preds, t, rows) == [] <==> forall row :: row in rows ==> !PassesAt(s, preds, t, row)
  {
    hide PassesAt;
    if rows != [] {
      NonePassing(s, preds, t, rows[1..]);
      assert rows == [rows[0]] + rows[1..];
    }
  }

  /** Exactly when the plan for one table is right: the dropped conjuncts are true, or no row
      of the table passes the others. */
  lemma SingleTableExactly<V(!new)>(s: Sem<V>, db: nat -> seq<Row<V>>, tables: seq<Op>, where: Expr)
    requires SemOk(s) && AreScans(tables) && |tables| == 1 && InBounds(Refs(where), Widths(tables))
    ensures Rows(s, db, FromPlan(tables, where)) == Reference(s, db, tables, where)
       <==> || AllHold(s, Joining(Decompose(where)), [])
            || forall row :: row in Rows(s, db, tables[0]) ==> !PassesAt(s, Unary(Decompose(where), 0), 0, row)
  {
    hide Joining, Decompose, SemOk, Flattened, Cross, Refs, Unary, PassesAt, Passing;
    InputRows(s, db, tables[0], Decompose(where), 0);
    NonePassing(s, Unary(Decompose(where), 0), 0, Rows(s, db, tables[0]));
    var es := Decompose(where);
    FilteredCross(s, db, tables, where);
    OneTableRows(s, db, tables, es);
    forall i: nat, combo | i < |Joining(es)| ensures Holds(s, Joining(es)[i], combo) <==> Holds(s, Joining(es)[i], []) {
      DroppedAreConstant(s, tables, where, i, combo);
    }
    ConstantProject(s, Flattened(Widths(tables)), Joining(es), Cross(AllRows(s, db, Inputs(tables, es))));
  }

  /** SELECT ... FROM t WHERE false returns the rows of t. */
  lemma ConstantConjunctIsDropped()
    ensures exists s: Sem<bool>, db: nat -> seq<Row<bool>> ::
              SemOk(s) && Rows(s, db, FromPlan([Scan(0, [])], Literal(0))) == [[]] &&
                  Reference(s, db, [Scan(0, [])], Literal(0)) == []
  {
    var s := Sem((i: nat) => false, (o: nat, a: seq<bool>) => false, (a: bool, b: bool) => a && b, (b: bool) => b,
                 (k: nat, a: seq<bool>) => false, false);
    var db: nat -> seq<Row<bool>> := (t: nat) => [[]];
    LiteralPlan();
    assert Rows(s, db, Scan(0, [])) == [[]];
    ConstantReference(s, db, [Scan(0, [])], Literal(0));
    assert SemOk(s);
  }

  /** A constant conjunct leaves no trace in the plan of a single table. */
  lemma LiteralPlan()
    ensures FromPlan([Scan(0, [])], Literal(0)) == Scan(0, [])
  {
    var es := Decompose(Literal(0));
    assert es == [Literal(0)] && es[..0] == [];
    assert Tables(Literal(0)) == {};
    assert Unary(es, 0) == Unary([], 0) == [];
  }

  lemma ConstantReference<V>(s: Sem<V>, db: nat -> seq<Row<V>>, tables: seq<Op>, where: Expr)
    requires where.Literal? && !s.truth(s.literal(where.id))
    ensures Reference(s, db, tables, where) == []
  {
    ConstantProject(s, Flattened(Widths(tables)), [where], Cross(AllRows(s, db, tables)));
    HoldsAlone(s, where, []);
  }

  // ----- flattened columns -----

  function Offset(widths: seq<nat>, i: nat): (n: nat)
    requires i <= |widths|
  {
    |Flattened(widths[..i])|
  }

  lemma {:induction false} FlattenedAt(widths: seq<nat>, i: nat, j: nat)
    requires i < |widths| && j < widths[i]
    ensures Offset(widths, i) + j < |Flattened(widths)| && Flattened(widths)[Offset(widths, i) + j] == Column(i, j)
    decreases |widths|
  {
    var n := |widths| - 1;
    if i < n {
      FlattenedAt(widths[..n], i, j);
      assert widths[..n][..i] == widths[..i];
    }
  }

  /** Where the columns of the tables are in the joined rows. */
  function Flat(widths: seq<nat>): (m: map<(nat, nat), (nat, nat)>)
  {
    if widths == [] then map[]
    else
      var n := |widths| - 1;
      Flat(widths[..n]) + FlatColumns(n, |Flattened(widths[..n])|, widths[n])
  }

  /** The columns of table `t`, starting at position `base`. */
  function FlatColumns(t: nat, base: nat, n: nat): (m: map<(nat, nat), (nat, nat)>)
  {
    if n == 0 then map[] else FlatColumns(t, base, n - 1)[(t, n - 1) := (0, base + n - 1)]
  }

  lemma {:induction false} FlatColumnsAt(t: nat, base: nat, n: nat, i: nat, j: nat)
    ensures var m := FlatColumns(t, base, n);
            ((i, j) in m <==> i == t && j < n) && ((i, j) in m ==> m[(i, j)] == (0, base + j))
  {
    if n > 0 { FlatColumnsAt(t, base, n - 1, i, j); }
  }

  lemma {:induction false} FlatAt(widths: seq<nat>, i: nat, j: nat)
    ensures (i, j) in Flat(widths) <==> i < |widths| && j < widths[i]
    ensures (i, j) in Flat(widths) ==> Flat(widths)[(i, j)] == (0, Offset(widths, i) + j)
    decreases |widths|
  {
    hide Flattened, FlatColumns;
    if widths != [] {
      var n := |widths| - 1;
      var front, cols := Flat(widths[..n]), FlatColumns(n, |Flattened(widths[..n])|, widths[n]);
      FlatAt(widths[..n], i, j);
      FlatColumnsAt(n, |Flattened(widths[..n])|, widths[n], i, j);
      assert Flat(widths) == front + cols;
      if i < n {
        assert widths[..n][..i] == widths[..i];
      }
    }
  }

  lemma FlatAgrees<V>(s: Sem<V>, widths: seq<nat>, refs: set<(nat, nat)>, combo: seq<Row<V>>)
    requires InBounds(refs, widths)
    ensures Agrees(s, refs, Flat(widths), combo, [EvalAll(s, Flattened(widths), [], combo)])
  {
    hide Flat, Flattened, Offset, EvalAll;
    forall p | p in refs
      ensures p in Flat(widths) &&
              At(s, [EvalAll(s, Flattened(widths), [], combo)], Flat(widths)[p].0, Flat(widths)[p].1) ==
              At(s, combo, p.0, p.1)
    {
      assert p == (p.0, p.1);
      FlatAt(widths, p.0, p.1);
      FlattenedAt(widths, p.0, p.1);
    }
  }

  // ----- the whole query -----

  function Virtuals(n: nat): (r: seq<Expr>)
    ensures |r| == n && forall i :: 0 <= i < n ==> r[i] == Virtual(i)
  {
    seq(n, i requires 0 <= i < n => Virtual(i))
  }

  function QueryPlan(tables: seq<Op>, where: Expr, aggs: seq<Aggregate>): (r: Op)
  {
    Output(Group(Virtuals(|aggs|), FromPlan(tables, where), RewriteAggs(aggs, Flat(Widths(tables)))))
  }

  function Matching<V>(s: Sem<V>, where: Expr, combos: seq<seq<Row<V>>>): (r: seq<seq<Row<V>>>)
  {
    if combos == [] then []
    else (if Holds(s, where, combos[0]) then [combos[0]] else []) + Matching(s, where, combos[1..])
  }

  function ComboValues<V>(s: Sem<V>, e: Expr, combos: seq<seq<Row<V>>>): (r: seq<V>)
    ensures |r| == |combos|
  {
    seq(|combos|, i requires 0 <= i < |combos| => Eval(s, e, [], combos[i]))
  }

  /** What the query means: aggregates over the combinations that satisfy WHERE. */
  function QueryReference<V>(s: Sem<V>, db: nat -> seq<Row<V>>, tables: seq<Op>, where: Expr,
                             aggs: seq<Aggregate>): (r: seq<Row<V>>)
  {
    var combos := Matching(s, where, Cross(AllRows(s, db, tables)));
    if combos == [] then [Nulls(s, |aggs|)]
    else [seq(|aggs|, i requires 0 <= i < |aggs| => s.fold(aggs[i].kind, ComboValues(s, aggs[i].arg, combos)))]
  }

  lemma {:induction false} ProjectMatching<V>(s: Sem<V>, schema: seq<Expr>, where: Expr, combos: seq<seq<Row<V>>>)
    ensures var r, m := JoinProject(s, schema, [where], combos), Matching(s, where, combos);
            |r| == |m| && forall i :: 0 <= i < |m| ==> r[i] == EvalAll(s, schema, [], m[i])
  {
    hide EvalAll;
    if combos != [] {
      ProjectMatching(s, schema, where, combos[1..]);
      HoldsAlone(s, where, combos[0]);
    }
  }

  lemma FlatValues<V>(s: Sem<V>, widths: seq<nat>, e: Expr, rows: seq<Row<V>>, combos: seq<seq<Row<V>>>)
    requires InBounds(Refs(e), widths) && |rows| == |combos|
    requires forall i :: 0 <= i < |rows| ==> rows[i] == EvalAll(s, Flattened(widths), [], combos[i])
    ensures Values(s, Rewrite(e, Flat(widths)), rows) == ComboValues(s, e, combos)
  {
    forall i | 0 <= i < |rows| ensures Eval(s, Rewrite(e, Flat(widths)), [], [rows[i]]) == Eval(s, e, [], combos[i]) {
      FlatAgrees(s, widths, Refs(e), combos[i]);
      RewriteEval(s, e, Flat(widths), [], combos[i], [rows[i]]);
    }
  }

  /** The planned query computes what the query means. */
  lemma QueryPlanIsCorrect<V(!new)>(s: Sem<V>, db: nat -> seq<Row<V>>, tables: seq<Op>, where: Expr,
                             aggs: seq<Aggregate>)
    requires SemOk(s) && AreScans(tables) && InBounds(Refs(where), Widths(tables)) && KeepsConjuncts(tables, where)
    requires InBounds(RefsAll(ArgsOf(aggs)), Widths(tables))
    ensures Rows(s, db, QueryPlan(tables, where, aggs)) == QueryReference(s, db, tables, where, aggs)
  {
    hide SemOk, KeepsConjuncts, Refs, Cross, Flattened, FromPlan, Reference, Flat;
    var widths := Widths(tables);
    PushdownIsSound(s, db, tables, where);
    ReferenceRows(s, db, tables, where);
    var rows, combos := Rows(s, db, FromPlan(tables, where)), Matching(s, where, Cross(AllRows(s, db, tables)));
    var planned := RewriteAggs(aggs, Flat(widths));
    forall i | 0 <= i < |aggs| ensures Values(s, planned[i].arg, rows) == ComboValues(s, aggs[i].arg, combos) {
      assert ArgsOf(aggs)[i] == aggs[i].arg;
      FlatValues(s, widths, aggs[i].arg, rows, combos);
    }
    if combos != [] {
      var row := seq(|aggs|, i requires 0 <= i < |aggs| => s.fold(aggs[i].kind, ComboValues(s, aggs[i].arg, combos)));
      assert Aggregates(s, planned, rows) == row;
      assert EvalAll(s, Virtuals(|aggs|), row, []) == row;
    }
  }

  lemma ReferenceRows<V>(s: Sem<V>, db: nat -> seq<Row<V>>, tables: seq<Op>, where: Expr)
    ensures var r, m := Reference(s, db, tables, where), Matching(s, where, Cross(AllRows(s, db, tables)));
            |r| == |m| && forall i :: 0 <= i < |m| ==> r[i] == EvalAll(s, Flattened(Widths(tables)), [], m[i])
  {
    ProjectMatching(s, Flattened(Widths(tables)), where, Cross(AllRows(s, db, tables)));
  }

  // ----- well-formedness -----

  lemma {:induction false} FlattenedRefs(widths: seq<nat>)
    ensures InBounds(RefsAll(Flattened(widths)), widths)
    decreases |widths|
  {
    if widths != [] {
      var n := |widths| - 1;
      FlattenedRefs(widths[..n]);
      RefsAppend(Flattened(widths[..n]), Passthrough(n, widths[n]));
    }
  }

  lemma InputWellFormed(table: Op, es: seq<Expr>, t: nat)
    requires table.Scan? && forall p :: p in RefsAll(es) && p.0 == t ==> p.1 < table.Width()
    ensures WellFormed(Input(table, Unary(es, t))) && !Input(table, Unary(es, t)).Output?
  {
    var preds := Unary(es, t);
    if preds != [] {
      var f := Conjoin(preds);
      var m := ToFirst(Refs(f));
      ConjoinRefs(preds);
      forall q | q in Refs(f) ensures q.0 == t && q.1 < table.Width() {
        var i :| 0 <= i < |preds| && q in Refs(preds[i]);
        assert q.0 in Tables(preds[i]);
        assert preds[i] in es;
      }
      forall p | p in Refs(Rewrite(f, m)) ensures p.0 == 0 && p.1 < table.Width() {
        RewriteRefs(f, m, p);
      }
      var op := Input(table, preds);
      assert ReadBy(op) == RefsAll(op.schema) + Refs(op.filter);
    }
  }

  lemma QueryPlanWellFormed(tables: seq<Op>, where: Expr, aggs: seq<Aggregate>)
    requires AreScans(tables) && InBounds(Refs(where), Widths(tables)) &&
             InBounds(RefsAll(ArgsOf(aggs)), Widths(tables))
    ensures WellFormed(QueryPlan(tables, where, aggs))
  {
    hide Flat, Flattened, Offset, FromPlan, Inputs;
    var widths, from := Widths(tables), FromPlan(tables, where);
    FromPlanWellFormed(tables, where);
    var group := QueryPlan(tables, where, aggs).child;
    forall p | p in ReadBy(group) ensures p.0 == 0 && p.1 < from.Width() {
      var i :| 0 <= i < |ArgsOf(group.aggs)| && p in Refs(ArgsOf(group.aggs)[i]);
      assert ArgsOf(aggs)[i] == aggs[i].arg && Refs(aggs[i].arg) <= RefsAll(ArgsOf(aggs));
      forall q | q in Refs(aggs[i].arg)
        ensures q in Flat(widths) && Flat(widths)[q].0 == 0 && Flat(widths)[q].1 < |Flattened(widths)|
      {
        assert q == (q.0, q.1);
        FlatAt(widths, q.0, q.1);
        FlattenedAt(widths, q.0, q.1);
      }
      RewriteRefs(aggs[i].arg, Flat(widths), p);
    }
  }

  lemma InputsWellFormed(tables: seq<Op>, es: seq<Expr>, i: nat)
    requires AreScans(tables) && i < |tables|
    requires InBounds(RefsAll(es), Widths(tables))
    ensures WellFormed(Inputs(tables, es)[i]) && !Inputs(tables, es)[i].Output?
    ensures Inputs(tables, es)[i].Width() == Widths(tables)[i]
  {
    InputWellFormed(tables[i], es, i);
  }

  lemma JoinWellFormed(tables: seq<Op>, es: seq<Expr>)
    requires AreScans(tables) && InBounds(RefsAll(es), Widths(tables))
    ensures WellFormed(Join(Flattened(Widths(tables)), Inputs(tables, es), Joining(es)))
  {
    hide Flattened, Joining, AreScans, Inputs;
    FlattenedRefs(Widths(tables));
    assert RefsAll(Joining(es)) <= RefsAll(es);
    forall i: nat | i < |tables|
      ensures WellFormed(Inputs(tables, es)[i]) && !Inputs(tables, es)[i].Output?
      ensures Inputs(tables, es)[i].Width() == Widths(tables)[i]
    {
      hide WellFormed;
      InputsWellFormed(tables, es, i);
    }
    assert Widths(Inputs(tables, es)) == Widths(tables);
  }

  lemma FromPlanWellFormed(tables: seq<Op>, where: Expr)
    requires AreScans(tables) && InBounds(Refs(where), Widths(tables))
    ensures WellFormed(FromPlan(tables, where)) && !FromPlan(tables, where).Output?
    ensures FromPlan(tables, where).Width() == |Flattened(Widths(tables))|
  {
    hide WellFormed, Joining, Decompose, AreScans;
    var es, widths := Decompose(where), Widths(tables);
    DecomposeRefs(where);
    if |tables| == 1 {
      InputsWellFormed(tables, es, 0);
      assert widths[..0] == [] && Flattened(widths[..0]) == [];
    } else {
      JoinWellFormed(tables, es);
    }
  }

  /** Planning and early projection together still compute what the query means. */
  lemma ProjectedQueryIsCorrect<V(!new)>(s: Sem<V>, db: nat -> seq<Row<V>>, tables: seq<Op>, where: Expr,
                                  aggs: seq<Aggregate>)
    requires SemOk(s) && AreScans(tables) && InBounds(Refs(where), Widths(tables)) && KeepsConjuncts(tables, where)
    requires InBounds(RefsAll(ArgsOf(aggs)), Widths(tables))
    ensures var plan := EarlyProjected(QueryPlan(tables, where, aggs));
            Rows(s, db, plan) == QueryReference(s, db, tables, where, aggs) && WellFormed(plan) && Tight(plan)
  {
    hide WellFormed, EarlyProjected, QueryPlan, QueryReference, Tight;
    var plan := QueryPlan(tables, where, aggs);
    QueryPlanWellFormed(tables, where, aggs);
    QueryPlanIsCorrect(s, db, tables, where, aggs);
    EarlyProjectionPreserves(s, db, plan);
    EarlyProjectionIsTight(plan);
  }

  // ----- the planner's loops -----

  /** Hands every conjunct to its table or to the join. */
  method Distribute(es: seq<Expr>, n: nat) returns (unary: seq<seq<Expr>>, joining: seq<Expr>)
    requires forall p :: p in RefsAll(es) ==> p.0 < n
    ensures |unary| == n && forall t: nat :: t < n ==> unary[t] == Unary(es, t)
    ensures joining == Joining(es)
  {
    hide Tables, Refs;
    unary, joining := seq(n, i => []), [];
    for k := 0 to |es|
      invariant |unary| == n && forall t: nat :: t < n ==> unary[t] == Unary(es[..k], t)
      invariant joining == Joining(es[..k])
    {
      var e := es[k];
      assert es[..k + 1][..k] == es[..k];
      if |Tables(e)| == 1 {
        ghost var u := OneTable(e);
        var t :| t in Tables(e);
        assert t == u && Refs(e) <= RefsAll(es);
        unary := unary[t := unary[t] + [e]];
      } else {
        joining := joining + [e];
      }
    }
    assert es[..|es|] == es;
  }

  /** Joins the filters of a table, from the last one back. */
  method BuildFilter(preds: seq<Expr>) returns (filter: Expr)
    requires preds != []
    ensures filter == Conjoin(preds)
  {
    var i := |preds| - 1;
    filter := preds[i];
    assert preds[i..] == [preds[i]];
    while i > 0
      invariant 0 <= i < |preds| && filter == Conjoin(preds[i..])
    {
      i := i - 1;
      filter := And(preds[i], filter);
      assert preds[i..][1..] == preds[i + 1..];
    }
    assert preds[0..] == preds;
  }

  /** Numbers the columns of all inputs. */
  method FlattenColumns(inputs: seq<Op>) returns (m: map<(nat, nat), (nat, nat)>)
    ensures m == Flat(Widths(inputs))
  {
    m := map[];
    var next := 0;
    for i := 0 to |inputs|
      invariant m == Flat(Widths(inputs[..i])) && next == |Flattened(Widths(inputs[..i]))|
    {
      ghost var front, base := m, next;
      for j := 0 to inputs[i].Width()
        invariant next == base + j && m == front + FlatColumns(i, base, j)
      {
        m := m[(i, j) := (0, next)];
        next := next + 1;
      }
      ghost var widths := Widths(inputs[..i + 1]);
      assert widths[..i] == Widths(inputs[..i]);
    }
    assert inputs[..|inputs|] == inputs;
  }

  /** The planner's treatment of FROM, WHERE and the select list. */
  method PlanSelect(tables: seq<Op>, where: Expr, aggs: seq<Aggregate>) returns (r: Op)
    requires InBounds(Refs(where), Widths(tables))
    ensures r == QueryPlan(tables, where, aggs)
  {
    hide Unary, Joining, Conjoin, Flat, Flattened, Refs, Decompose;
    var es := Decompose(where);
    DecomposeRefs(where);
    var unary, joining := Distribute(es, |tables|);
    var inputs := [];
    for i := 0 to |tables|
      invariant |inputs| == i && forall k :: 0 <= k < i ==> inputs[k] == Input(tables[k], Unary(es, k))
    {
      if unary[i] == [] {
        inputs := inputs + [tables[i]];
        continue;
      }
      var filter := BuildFilter(unary[i]);
      inputs := inputs + [Select(Passthrough(0, tables[i].Width()), tables[i], Rewrite(filter, ToFirst(Refs(filter))))];
    }
    assert inputs == Inputs(tables, es);
    assert Widths(inputs) == Widths(tables);
    var flat := FlattenColumns(inputs);
    var from;
    if |inputs| == 1 {
      from := inputs[0];
    } else {
      from := Join(Flattened(Widths(inputs)), inputs, joining);
    }
    r := Output(Group(Virtuals(|aggs|), from, RewriteAggs(aggs, flat)));
  }
}
