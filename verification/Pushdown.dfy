/**
 Predicate pushdown: splitting WHERE into filters per table and join conditions.
 */
module Pushdown {
  import opened PlanModel
  import opened EarlyProjection

  // ----- conjuncts -----

  function Decompose(e: Expr): (r: seq<Expr>)
  {
    if e.And? then Decompose(e.left) + Decompose(e.right) else [e]
  }

  lemma AllHoldAppend<V>(s: Sem<V>, a: seq<Expr>, b: seq<Expr>, rows: seq<Row<V>>)
    ensures AllHold(s, a + b, rows) <==> AllHold(s, a, rows) && AllHold(s, b, rows)
  {
    if AllHold(s, a + b, rows) {
      forall i | 0 <= i < |a| ensures Holds(s, a[i], rows) { assert (a + b)[i] == a[i]; }
      forall i | 0 <= i < |b| ensures Holds(s, b[i], rows) { assert (a + b)[|a| + i] == b[i]; }
    }
  }

  /** The conjuncts hold together exactly if the expression does. */
  lemma {:induction false} DecomposeHolds<V(!new)>(s: Sem<V>, e: Expr, rows: seq<Row<V>>)
    requires SemOk(s)
    ensures Holds(s, e, rows) <==> AllHold(s, Decompose(e), rows)
  {
    if e.And? {
      DecomposeHolds(s, e.left, rows);
      DecomposeHolds(s, e.right, rows);
      AllHoldAppend(s, Decompose(e.left), Decompose(e.right), rows);
    } else {
      assert Decompose(e)[0] == e;
    }
  }

  lemma {:induction false} DecomposeRefs(e: Expr)
    ensures RefsAll(Decompose(e)) == Refs(e)
  {
    if e.And? {
      DecomposeRefs(e.left);
      DecomposeRefs(e.right);
      RefsAppend(Decompose(e.left), Decompose(e.right));
    } else {
      assert Decompose(e)[0] == e;
    }
  }

  lemma RefsAppend(a: seq<Expr>, b: seq<Expr>)
    ensures RefsAll(a + b) == RefsAll(a) + RefsAll(b)
  {
    forall i | 0 <= i < |a| ensures Refs(a[i]) <= RefsAll(a + b) { assert (a + b)[i] == a[i]; }
    forall i | 0 <= i < |b| ensures Refs(b[i]) <= RefsAll(a + b) { assert (a + b)[|a| + i] == b[i]; }
  }

  /** The tables an expression reads. */
  function Tables(e: Expr): (r: set<nat>)
  {
    set p | p in Refs(e) :: p.0
  }

  /** The conjuncts about table `t` alone, in order. */
  function Unary(es: seq<Expr>, t: nat): (r: seq<Expr>)
    ensures forall i :: 0 <= i < |r| ==> Tables(r[i]) == {t} && r[i] in es
  {
    if es == [] then [] else Unary(es[..|es| - 1], t) + if Tables(es[|es| - 1]) == {t} then [es[|es| - 1]] else []
  }

  /** The conjuncts that do not read exactly one table. */
  function Joining(es: seq<Expr>): (r: seq<Expr>)
    ensures forall i :: 0 <= i < |r| ==> |Tables(r[i])| != 1 && r[i] in es
  {
    if es == [] then [] else Joining(es[..|es| - 1]) + if |Tables(es[|es| - 1])| == 1 then [] else [es[|es| - 1]]
  }

  lemma {:induction false} InUnary(es: seq<Expr>, t: nat, e: Expr)
    requires e in es && Tables(e) == {t}
    ensures e in Unary(es, t)
  {
    if e != es[|es| - 1] {
      assert es == es[..|es| - 1] + [es[|es| - 1]];
      InUnary(es[..|es| - 1], t, e);
    }
  }

  lemma {:induction false} InJoining(es: seq<Expr>, e: Expr)
    requires e in es && |Tables(e)| != 1
    ensures e in Joining(es)
  {
    if e != es[|es| - 1] {
      assert es == es[..|es| - 1] + [es[|es| - 1]];
      InJoining(es[..|es| - 1], e);
    }
  }

  lemma OneTable(e: Expr) returns (t: nat)
    requires |Tables(e)| == 1
    ensures Tables(e) == {t} && exists p :: p in Refs(e) && p.0 == t
  {
    t :| t in Tables(e);
    SingletonSet(Tables(e), t);
  }

  lemma SingletonSet(a: set<nat>, t: nat)
    requires |a| == 1 && t in a
    ensures a == {t}
  {
    assert |a - {t}| == 0;
  }

  /** The filters of the tables from `t` on hold. */
  predicate AllUnaryHold<V>(s: Sem<V>, es: seq<Expr>, t: nat, combo: seq<Row<V>>)
  {
    forall k: nat :: t <= k < |combo| ==> AllHold(s, Unary(es, k), combo)
  }

  /** Every conjunct is either a filter of one table or a join condition. */
  lemma Split<V>(s: Sem<V>, es: seq<Expr>, combo: seq<Row<V>>)
    requires forall p :: p in RefsAll(es) ==> p.0 < |combo|
    ensures AllHold(s, es, combo) <==> AllUnaryHold(s, es, 0, combo) && AllHold(s, Joining(es), combo)
  {
    if AllUnaryHold(s, es, 0, combo) && AllHold(s, Joining(es), combo) {
      forall i | 0 <= i < |es| ensures Holds(s, es[i], combo) {
        if |Tables(es[i])| == 1 {
          var t := OneTable(es[i]);
          InUnary(es, t, es[i]);
          var k :| 0 <= k < |Unary(es, t)| && Unary(es, t)[k] == es[i];
          assert AllHold(s, Unary(es, t), combo);
        } else {
          InJoining(es, es[i]);
        }
      }
    }
    if AllHold(s, es, combo) {
      forall t: nat | t < |combo| ensures AllHold(s, Unary(es, t), combo) {
      }
    }
  }

  // ----- the plan -----

  /** A right-nested conjunction. */
  function Conjoin(preds: seq<Expr>): (r: Expr)
    requires preds != []
  {
    if |preds| == 1 then preds[0] else And(preds[0], Conjoin(preds[1..]))
  }

  lemma {:induction false} ConjoinHolds<V(!new)>(s: Sem<V>, preds: seq<Expr>, rows: seq<Row<V>>)
    requires SemOk(s) && preds != []
    ensures Holds(s, Conjoin(preds), rows) <==> AllHold(s, preds, rows)
  {
    assert preds == [preds[0]] + preds[1..];
    AllHoldAppend(s, [preds[0]], preds[1..], rows);
    assert AllHold(s, [preds[0]], rows) <==> Holds(s, preds[0], rows) by { assert [preds[0]][0] == preds[0]; }
    if |preds| > 1 { ConjoinHolds(s, preds[1..], rows); }
  }

  lemma {:induction false} ConjoinRefs(preds: seq<Expr>)
    requires preds != []
    ensures Refs(Conjoin(preds)) == RefsAll(preds)
  {
    assert preds == [preds[0]] + preds[1..];
    RefsAppend([preds[0]], preds[1..]);
    assert RefsAll([preds[0]]) == Refs(preds[0]) by { assert [preds[0]][0] == preds[0]; }
    if |preds| > 1 { ConjoinRefs(preds[1..]); }
  }

  /** Moves every reference to child 0. */
  function ToFirst(refs: set<(nat, nat)>): (m: map<(nat, nat), (nat, nat)>)
  {
    map p | p in refs :: (0, p.1)
  }

  function Passthrough(child: nat, width: nat): (r: seq<Expr>)
    ensures |r| == width && forall j :: 0 <= j < width ==> r[j] == Column(child, j)
  {
    seq(width, j requires 0 <= j < width => Column(child, j))
  }

  /** A base table, filtered by its own conjuncts. */
  function Input(table: Op, preds: seq<Expr>): (r: Op)
    ensures r.Width() == table.Width()
  {
    if preds == [] then table
    else Select(Passthrough(0, table.Width()), table, Rewrite(Conjoin(preds), ToFirst(Refs(Conjoin(preds)))))
  }

  function Inputs(tables: seq<Op>, es: seq<Expr>): (r: seq<Op>)
    ensures |r| == |tables| && forall i :: 0 <= i < |tables| ==> r[i] == Input(tables[i], Unary(es, i))
  {
    seq(|tables|, i requires 0 <= i < |tables| => Input(tables[i], Unary(es, i)))
  }

  /** All columns of all tables, one table after the other. */
  function Flattened(widths: seq<nat>): (r: seq<Expr>)
  {
    if widths == [] then [] else Flattened(widths[..|widths| - 1]) + Passthrough(|widths| - 1, widths[|widths| - 1])
  }

  function FromPlan(tables: seq<Op>, where: Expr): (r: Op)
  {
    var es := Decompose(where);
    if |tables| == 1 then Inputs(tables, es)[0]
    else Join(Flattened(Widths(tables)), Inputs(tables, es), Joining(es))
  }

  /** What FROM and WHERE mean: the cross product, filtered as a whole. */
  function Reference<V>(s: Sem<V>, db: nat -> seq<Row<V>>, tables: seq<Op>, where: Expr): (r: seq<Row<V>>)
  {
    JoinProject(s, Flattened(Widths(tables)), [where], Cross(AllRows(s, db, tables)))
  }

  // ----- filtering before and after the cross product -----

  /** The rows of one table that pass its own conjuncts. */
  function Passing<V>(s: Sem<V>, preds: seq<Expr>, t: nat, rows: seq<Row<V>>): (r: seq<Row<V>>)
  {
    if rows == [] then []
    else (if PassesAt(s, preds, t, rows[0]) then [rows[0]] else []) + Passing(s, preds, t, rows[1..])
  }

  /** The row passes as row of table `t`. */
  predicate PassesAt<V>(s: Sem<V>, preds: seq<Expr>, t: nat, row: Row<V>)
  {
    AllHold(s, preds, Only(t, row))
  }

  /** A combination in which only table `t` has a row. */
  function Only<V>(t: nat, row: Row<V>): (r: seq<Row<V>>)
    ensures |r| == t + 1 && r[t] == row
  {
    seq(t + 1, i => if i == t then row else [])
  }

  lemma UnaryLocal<V>(s: Sem<V>, es: seq<Expr>, t: nat, combo: seq<Row<V>>)
    requires t < |combo|
    ensures AllHold(s, Unary(es, t), combo) <==> PassesAt(s, Unary(es, t), t, combo[t])
  {
    var preds := Unary(es, t);
    forall i | 0 <= i < |preds| ensures Holds(s, preds[i], combo) <==> Holds(s, preds[i], Only(t, combo[t])) {
      forall p | p in Refs(preds[i]) ensures At(s, combo, p.0, p.1) == At(s, Only(t, combo[t]), p.0, p.1) {
        assert p.0 in Tables(preds[i]);
      }
      EvalLocal(s, preds[i], [], combo, Only(t, combo[t]));
    }
  }

  /** The combinations whose rows pass, row by row, from table `t` on. */
  function PassingCombos<V>(s: Sem<V>, es: seq<Expr>, t: nat, combos: seq<seq<Row<V>>>): (r: seq<seq<Row<V>>>)
  {
    if combos == [] then []
    else (if RowsPass(s, es, t, combos[0]) then [combos[0]] else []) + PassingCombos(s, es, t, combos[1..])
  }

  predicate RowsPass<V>(s: Sem<V>, es: seq<Expr>, t: nat, combo: seq<Row<V>>)
    decreases |combo|
  {
    combo == [] || (PassesAt(s, Unary(es, t), t, combo[0]) && RowsPass(s, es, t + 1, combo[1..]))
  }

  lemma {:induction false} PassingAppend<V>(s: Sem<V>, es: seq<Expr>, t: nat, a: seq<seq<Row<V>>>, b: seq<seq<Row<V>>>)
    ensures PassingCombos(s, es, t, a + b) == PassingCombos(s, es, t, a) + PassingCombos(s, es, t, b)
  {
    hide RowsPass;
    if a == [] {
      assert a + b == b;
    } else {
      assert (a + b)[1..] == a[1..] + b;
      PassingAppend(s, es, t, a[1..], b);
      var first := if RowsPass(s, es, t, a[0]) then [a[0]] else [];
      assert PassingCombos(s, es, t, a) == first + PassingCombos(s, es, t, a[1..]);
      assert PassingCombos(s, es, t, a + b) == first + PassingCombos(s, es, t, a[1..] + b);
    }
  }

  lemma RowsPassCons<V>(s: Sem<V>, es: seq<Expr>, t: nat, row: Row<V>, combo: seq<Row<V>>)
    ensures RowsPass(s, es, t, [row] + combo) <==> PassesAt(s, Unary(es, t), t, row) && RowsPass(s, es, t + 1, combo)
  {
    assert ([row] + combo)[1..] == combo;
  }

  lemma {:induction false} RowsPassEach<V>(s: Sem<V>, es: seq<Expr>, t: nat, combo: seq<Row<V>>)
    requires t <= |combo|
    ensures RowsPass(s, es, t, combo[t..]) <==> AllUnaryHold(s, es, t, combo)
    decreases |combo| - t
  {
    hide PassesAt, AllHold;
    if t < |combo| {
      RowsPassEach(s, es, t + 1, combo);
      UnaryLocal(s, es, t, combo);
      assert combo[t..][1..] == combo[t + 1..];
    }
  }

  lemma {:induction false} PrependPassing<V>(s: Sem<V>, es: seq<Expr>, t: nat, row: Row<V>, combos: seq<seq<Row<V>>>)
    ensures PassingCombos(s, es, t, Prepend(row, combos))
         == if PassesAt(s, Unary(es, t), t, row) then Prepend(row, PassingCombos(s, es, t + 1, combos)) else []
  {
    hide PassesAt, RowsPass;
    if combos != [] {
      PrependPassing(s, es, t, row, combos[1..]);
      RowsPassCons(s, es, t, row, combos[0]);
      var c := [row] + combos[0];
      assert Prepend(row, combos) == [c] + Prepend(row, combos[1..]);
      PassingAppend(s, es, t, [c], Prepend(row, combos[1..]));
      assert PassingCombos(s, es, t, [c]) == if RowsPass(s, es, t, c) then [c] else [];
      var first := if RowsPass(s, es, t + 1, combos[0]) then [combos[0]] else [];
      PrependAppend(row, first, PassingCombos(s, es, t + 1, combos[1..]));
    }
  }

  lemma {:induction false} PrependAppend<V>(row: Row<V>, a: seq<seq<Row<V>>>, b: seq<seq<Row<V>>>)
    ensures Prepend(row, a + b) == Prepend(row, a) + Prepend(row, b)
  {
    if a == [] {
      assert a + b == b;
    } else {
      assert (a + b)[1..] == a[1..] + b;
      PrependAppend(row, a[1..], b);
    }
  }

  lemma {:induction false} ExtendPassing<V>(s: Sem<V>, es: seq<Expr>, t: nat, rows: seq<Row<V>>,
                                            combos: seq<seq<Row<V>>>)
    ensures PassingCombos(s, es, t, Extend(rows, combos)) ==
            Extend(Passing(s, Unary(es, t), t, rows), PassingCombos(s, es, t + 1, combos))
  {
    hide PassesAt, RowsPass;
    if rows != [] {
      ExtendPassing(s, es, t, rows[1..], combos);
      PassingAppend(s, es, t, Prepend(rows[0], combos), Extend(rows[1..], combos));
      PrependPassing(s, es, t, rows[0], combos);
      var rest := Passing(s, Unary(es, t), t, rows[1..]);
      if PassesAt(s, Unary(es, t), t, rows[0]) {
        assert Passing(s, Unary(es, t), t, rows) == [rows[0]] + rest;
        assert ([rows[0]] + rest)[1..] == rest;
      } else {
        assert Passing(s, Unary(es, t), t, rows) == [] + rest == rest;
      }
    }
  }

  function PassingLists<V>(s: Sem<V>, es: seq<Expr>, t: nat, lists: seq<seq<Row<V>>>): (r: seq<seq<Row<V>>>)
    ensures |r| == |lists| && forall i :: 0 <= i < |lists| ==> r[i] == Passing(s, Unary(es, t + i), t + i, lists[i])
  {
    seq(|lists|, i requires 0 <= i < |lists| => Passing(s, Unary(es, t + i), t + i, lists[i]))
  }

  /** Filtering each table first gives the passing combinations, in the same order. */
  lemma {:induction false} CrossPassing<V>(s: Sem<V>, es: seq<Expr>, t: nat, lists: seq<seq<Row<V>>>)
    ensures Cross(PassingLists(s, es, t, lists)) == PassingCombos(s, es, t, Cross(lists))
    decreases |lists|
  {
    if lists == [] {
      assert PassingCombos<V>(s, es, t, [[]]) == [[]] + PassingCombos<V>(s, es, t, [[]][1..]);
    } else {
      CrossPassing(s, es, t + 1, lists[1..]);
      assert PassingLists(s, es, t, lists)[1..] == PassingLists(s, es, t + 1, lists[1..]);
      ExtendPassing(s, es, t, lists[0], Cross(lists[1..]));
    }
  }

  /** Joining the passing combinations on the remaining conjuncts is filtering all of them. */
  lemma {:induction false} JoinPassing<V(!new)>(s: Sem<V>, schema: seq<Expr>, where: Expr, n: nat,
                                         combos: seq<seq<Row<V>>>)
    requires SemOk(s) && (forall p :: p in Refs(where) ==> p.0 < n) && AllOfSize(combos, n)
    ensures JoinProject(s, schema, Joining(Decompose(where)), PassingCombos(s, Decompose(where), 0, combos)) ==
            JoinProject(s, schema, [where], combos)
  {
    hide RowsPass, Joining, Decompose, AllHold, EvalAll;
    var es := Decompose(where);
    if combos != [] {
      JoinPassing(s, schema, where, n, combos[1..]);
      WhereSplits(s, where, n, combos[0]);
      var rest := PassingCombos(s, es, 0, combos[1..]);
      if RowsPass(s, es, 0, combos[0]) {
        assert PassingCombos(s, es, 0, combos) == [combos[0]] + rest;
        assert ([combos[0]] + rest)[1..] == rest;
      } else {
        assert PassingCombos(s, es, 0, combos) == [] + rest == rest;
        assert JoinProject(s, schema, [where], combos) == [] + JoinProject(s, schema, [where], combos[1..]);
      }
    }
  }

  lemma WhereSplits<V(!new)>(s: Sem<V>, where: Expr, n: nat, combo: seq<Row<V>>)
    requires SemOk(s) && (forall p :: p in Refs(where) ==> p.0 < n) && |combo| == n
    ensures AllHold(s, [where], combo) <==>
            RowsPass(s, Decompose(where), 0, combo) && AllHold(s, Joining(Decompose(where)), combo)
  {
    hide Joining, AllHold, Decompose, Refs, Holds, RefsAll, PassesAt;
    var es := Decompose(where);
    DecomposeHolds(s, where, combo);
    DecomposeRefs(where);
    Split(s, es, combo);
    HoldsAlone(s, where, combo);
    RowsPassEach(s, es, 0, combo);
    assert combo[0..] == combo;
  }

  lemma HoldsAlone<V>(s: Sem<V>, e: Expr, rows: seq<Row<V>>)
    ensures AllHold(s, [e], rows) <==> Holds(s, e, rows)
  {
    assert [e][0] == e;
  }

  // ----- soundness -----

  lemma FilterMeansPassing<V(!new)>(s: Sem<V>, es: seq<Expr>, t: nat, row: Row<V>)
    requires SemOk(s) && Unary(es, t) != []
    ensures var f := Conjoin(Unary(es, t));
            Holds(s, Rewrite(f, ToFirst(Refs(f))), [row]) <==> PassesAt(s, Unary(es, t), t, row)
  {
    var preds := Unary(es, t);
    var f := Conjoin(preds);
    ConjoinRefs(preds);
    ConjoinHolds(s, preds, Only(t, row));
    forall p | p in Refs(f) ensures p.0 == t {
      var i :| 0 <= i < |preds| && p in Refs(preds[i]);
      assert p.0 in Tables(preds[i]);
    }
    RewriteEval(s, f, ToFirst(Refs(f)), [], Only(t, row), [row]);
  }

  predicate RowsOfWidth<V>(rows: seq<Row<V>>, w: nat)
  {
    forall i :: 0 <= i < |rows| ==> |rows[i]| == w
  }

  lemma {:induction false} FilterIsPassing<V(!new)>(s: Sem<V>, es: seq<Expr>, t: nat, w: nat, rows: seq<Row<V>>)
    requires SemOk(s) && Unary(es, t) != [] && RowsOfWidth(rows, w)
    ensures var f := Conjoin(Unary(es, t));
            FilterProject(s, Passthrough(0, w), Rewrite(f, ToFirst(Refs(f))), rows) == Passing(s, Unary(es, t), t, rows)
  {
    hide Unary, PassesAt, Holds, Refs, Conjoin;
    if rows != [] {
      FilterIsPassing(s, es, t, w, rows[1..]);
      FilterMeansPassing(s, es, t, rows[0]);
      assert EvalAll(s, Passthrough(0, w), [], [rows[0]]) == rows[0];
    }
  }

  lemma {:induction false} AllPass<V>(s: Sem<V>, t: nat, rows: seq<Row<V>>)
    ensures Passing(s, [], t, rows) == rows
  {
    if rows != [] { AllPass(s, t, rows[1..]); }
  }

  predicate AreScans(tables: seq<Op>)
  {
    forall i :: 0 <= i < |tables| ==> tables[i].Scan?
  }

  lemma InputRows<V(!new)>(s: Sem<V>, db: nat -> seq<Row<V>>, table: Op, es: seq<Expr>, t: nat)
    requires SemOk(s) && table.Scan?
    ensures Rows(s, db, Input(table, Unary(es, t))) == Passing(s, Unary(es, t), t, Rows(s, db, table))
  {
    hide Unary, PassesAt, Holds, Refs, Conjoin;
    if Unary(es, t) == [] {
      AllPass(s, t, Rows(s, db, table));
    } else {
      FilterIsPassing(s, es, t, table.Width(), Rows(s, db, table));
    }
  }

  lemma InputsRows<V(!new)>(s: Sem<V>, db: nat -> seq<Row<V>>, tables: seq<Op>, es: seq<Expr>)
    requires SemOk(s) && AreScans(tables)
    ensures AllRows(s, db, Inputs(tables, es)) == PassingLists(s, es, 0, AllRows(s, db, tables))
  {
    hide Unary, Passing, Input, Rows;
    forall i: nat | i < |tables|
      ensures Rows(s, db, Inputs(tables, es)[i]) == Passing(s, Unary(es, 0 + i), 0 + i, Rows(s, db, tables[i]))
    {
      InputRows(s, db, tables[i], es, i);
    }
  }

  /** The plan loses no conjunct: with one table, conjuncts that read no column are dropped. */
  predicate KeepsConjuncts(tables: seq<Op>, where: Expr)
  {
    |tables| == 1 ==> Joining(Decompose(where)) == []
  }

  /** Filtering below the join gives the rows of the filtered cross product. */
  lemma PushdownIsSound<V(!new)>(s: Sem<V>, db: nat -> seq<Row<V>>, tables: seq<Op>, where: Expr)
    requires SemOk(s) && AreScans(tables) && InBounds(Refs(where), Widths(tables)) && KeepsConjuncts(tables, where)
    ensures Rows(s, db, FromPlan(tables, where)) == Reference(s, db, tables, where)
  {
    hide Joining, Decompose, PassingCombos, Flattened, SemOk, Refs;
    var es := Decompose(where);
    FilteredCross(s, db, tables, where);
    if |tables| == 1 {
      OneTableRows(s, db, tables, es);
    } else {
      JoinRows(s, db, FromPlan(tables, where));
    }
  }

  /** The join of the filtered tables, whatever the number of tables. */
  lemma FilteredCross<V(!new)>(s: Sem<V>, db: nat -> seq<Row<V>>, tables: seq<Op>, where: Expr)
    requires SemOk(s) && AreScans(tables) && InBounds(Refs(where), Widths(tables))
    ensures var es := Decompose(where);
            JoinProject(s, Flattened(Widths(tables)), Joining(es), Cross(AllRows(s, db, Inputs(tables, es)))) ==
                Reference(s, db, tables, where)
  {
    hide Joining, Decompose, PassingCombos, Flattened, SemOk, Refs, Cross, JoinProject, PassingLists;
    var es, lists := Decompose(where), AllRows(s, db, tables);
    InputsRows(s, db, tables, es);
    CrossPassing(s, es, 0, lists);
    CrossSize(lists);
    JoinPassing(s, Flattened(Widths(tables)), where, |tables|, Cross(lists));
  }

  lemma {:induction false} SingleCross<V>(rows: seq<Row<V>>)
    ensures |Cross([rows])| == |rows| && forall i :: 0 <= i < |rows| ==> Cross([rows])[i] == [rows[i]]
  {
    assert [rows][1..] == [];
    assert Cross<V>([]) == [[]];
    SingleExtend(rows);
  }

  lemma {:induction false} SingleExtend<V>(rows: seq<Row<V>>)
    ensures |Extend(rows, [[]])| == |rows| && forall i :: 0 <= i < |rows| ==> Extend(rows, [[]])[i] == [rows[i]]
  {
    if rows != [] {
      SingleExtend(rows[1..]);
      assert Prepend<V>(rows[0], [[]]) == [[rows[0]] + []] + Prepend<V>(rows[0], [[]][1..]);
    }
  }

  lemma {:induction false} ProjectSingles<V>(s: Sem<V>, w: nat, conditions: seq<Expr>, rows: seq<Row<V>>,
                                             combos: seq<seq<Row<V>>>)
    requires |combos| == |rows| && (forall i :: 0 <= i < |rows| ==> combos[i] == [rows[i]]) && RowsOfWidth(rows, w) &&
             conditions == []
    ensures JoinProject(s, Passthrough(0, w), conditions, combos) == rows
  {
    if rows != [] {
      ProjectSingles(s, w, conditions, rows[1..], combos[1..]);
      assert EvalAll(s, Passthrough(0, w), [], combos[0]) == rows[0];
    }
  }

  lemma {:induction false} PassingWidth<V>(s: Sem<V>, preds: seq<Expr>, t: nat, w: nat, rows: seq<Row<V>>)
    requires RowsOfWidth(rows, w)
    ensures RowsOfWidth(Passing(s, preds, t, rows), w)
  {
    if rows != [] { PassingWidth(s, preds, t, w, rows[1..]); }
  }

  lemma OneTableRows<V(!new)>(s: Sem<V>, db: nat -> seq<Row<V>>, tables: seq<Op>, es: seq<Expr>)
    requires SemOk(s) && AreScans(tables) && |tables| == 1
    ensures Rows(s, db, Inputs(tables, es)[0]) ==
            JoinProject(s, Flattened(Widths(tables)), [], Cross(AllRows(s, db, Inputs(tables, es))))
  {
    hide Unary, Passing, Input, Cross;
    var rows := Rows(s, db, Inputs(tables, es)[0]);
    InputRows(s, db, tables[0], es, 0);
    PassingWidth(s, Unary(es, 0), 0, tables[0].Width(), Rows(s, db, tables[0]));
    assert AllRows(s, db, Inputs(tables, es)) == [rows];
    SingleCross(rows);
    assert Flattened(Widths(tables)) == Passthrough(0, tables[0].Width()) by {
      var w := Widths(tables);
      assert w[..0] == [] && Flattened(w[..0]) == [];
    }
    ProjectSingles(s, tables[0].Width(), [], rows, Cross([rows]));
  }
}
