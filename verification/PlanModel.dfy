/**
 Logical plans and what they compute.
 */
module PlanModel {

  /** Expressions over the rows of an operator's children. */
  datatype Expr =
    | Column(child: nat, col: nat)
    | Virtual(idx: nat)                  // a finished aggregate
    | Literal(id: nat)
    | Apply(op: nat, args: seq<Expr>)
    | And(left: Expr, right: Expr)

  datatype Aggregate = Aggregate(kind: nat, arg: Expr)

  datatype Op =
    | Scan(table: nat, cols: seq<nat>)
    | Select(schema: seq<Expr>, child: Op, filter: Expr)
    | Join(schema: seq<Expr>, children: seq<Op>, conditions: seq<Expr>)
    | Group(schema: seq<Expr>, child: Op, aggs: seq<Aggregate>)
    | Output(child: Op)
    | Other                              // operators the planner does not produce
  {
    /** The number of columns the operator hands to its parent. */
    function Width(): (n: nat)
    {
      match this
      case Scan(_, cols) => |cols|
      case Select(schema, _, _) => |schema|
      case Join(schema, _, _) => |schema|
      case Group(schema, _, _) => |schema|
      case _ => 0
    }
  }

  type Row<V> = seq<V>

  /** How values are computed.  A filter passes what `truth` accepts; null is not accepted. */
  datatype Sem<!V> = Sem(
    literal: nat -> V,
    apply: (nat, seq<V>) -> V,
    conj: (V, V) -> V,
    truth: V -> bool,
    fold: (nat, seq<V>) -> V,
    none: V)

  /** A conjunction is true if both sides are; the code short-circuits otherwise. */
  ghost predicate SemOk<V(!new)>(s: Sem<V>)
  {
    forall a, b :: s.truth(s.conj(a, b)) <==> s.truth(a) && s.truth(b)
  }

  function At<V>(s: Sem<V>, rows: seq<Row<V>>, child: nat, col: nat): (v: V)
  {
    if child < |rows| && col < |rows[child]| then rows[child][col] else s.none
  }

  function Eval<V>(s: Sem<V>, e: Expr, virtuals: seq<V>, rows: seq<Row<V>>): (v: V)
  {
    match e
    case Column(c, k) => At(s, rows, c, k)
    case Virtual(i) => if i < |virtuals| then virtuals[i] else s.none
    case Literal(id) => s.literal(id)
    case Apply(op, args) => s.apply(op, seq(|args|, i requires 0 <= i < |args| => Eval(s, args[i], virtuals, rows)))
    case And(l, r) => s.conj(Eval(s, l, virtuals, rows), Eval(s, r, virtuals, rows))
  }

  function EvalAll<V>(s: Sem<V>, es: seq<Expr>, virtuals: seq<V>, rows: seq<Row<V>>): (row: Row<V>)
    ensures |row| == |es| && forall i :: 0 <= i < |es| ==> row[i] == Eval(s, es[i], virtuals, rows)
  {
    seq(|es|, i requires 0 <= i < |es| => Eval(s, es[i], virtuals, rows))
  }

  predicate Holds<V>(s: Sem<V>, e: Expr, rows: seq<Row<V>>)
  {
    s.truth(Eval(s, e, [], rows))
  }

  predicate AllHold<V>(s: Sem<V>, es: seq<Expr>, rows: seq<Row<V>>)
  {
    forall i :: 0 <= i < |es| ==> Holds(s, es[i], rows)
  }

  // ----- relational building blocks -----

  /** Each row of the list that passes, projected. */
  function FilterProject<V>(s: Sem<V>, schema: seq<Expr>, filter: Expr, rows: seq<Row<V>>): (r: seq<Row<V>>)
  {
    if rows == [] then []
    else
      (if Holds(s, filter, [rows[0]]) then [EvalAll(s, schema, [], [rows[0]])] else []) +
      FilterProject(s, schema, filter, rows[1..])
  }

  /** All combinations of one row from each list, the first list varying slowest. */
  function Cross<V>(lists: seq<seq<Row<V>>>): (r: seq<seq<Row<V>>>)
  {
    if lists == [] then [[]] else Extend(lists[0], Cross(lists[1..]))
  }

  function Extend<V>(rows: seq<Row<V>>, combos: seq<seq<Row<V>>>): (r: seq<seq<Row<V>>>)
  {
    if rows == [] then [] else Prepend(rows[0], combos) + Extend(rows[1..], combos)
  }

  function Prepend<V>(row: Row<V>, combos: seq<seq<Row<V>>>): (r: seq<seq<Row<V>>>)
  {
    if combos == [] then [] else [[row] + combos[0]] + Prepend(row, combos[1..])
  }

  function JoinProject<V>(s: Sem<V>, schema: seq<Expr>, conditions: seq<Expr>,
                          combos: seq<seq<Row<V>>>): (r: seq<Row<V>>)
  {
    if combos == [] then []
    else
      (if AllHold(s, conditions, combos[0]) then [EvalAll(s, schema, [], combos[0])] else []) +
      JoinProject(s, schema, conditions, combos[1..])
  }

  /** The values of an expression over a list of rows. */
  function Values<V>(s: Sem<V>, e: Expr, rows: seq<Row<V>>): (r: seq<V>)
    ensures |r| == |rows|
  {
    seq(|rows|, i requires 0 <= i < |rows| => Eval(s, e, [], [rows[i]]))
  }

  function Aggregates<V>(s: Sem<V>, aggs: seq<Aggregate>, rows: seq<Row<V>>): (r: seq<V>)
  {
    seq(|aggs|, i requires 0 <= i < |aggs| => s.fold(aggs[i].kind, Values(s, aggs[i].arg, rows)))
  }

  function Pick<V>(s: Sem<V>, cols: seq<nat>, row: Row<V>): (r: Row<V>)
    ensures |r| == |cols|
  {
    seq(|cols|, i requires 0 <= i < |cols| => At(s, [row], 0, cols[i]))
  }

  function PickAll<V>(s: Sem<V>, cols: seq<nat>, rows: seq<Row<V>>): (r: seq<Row<V>>)
    ensures |r| == |rows|
  {
    seq(|rows|, i requires 0 <= i < |rows| => Pick(s, cols, rows[i]))
  }

  function Nulls<V>(s: Sem<V>, n: nat): (r: Row<V>)
    ensures |r| == n
  {
    seq(n, i => s.none)
  }

  /** The rows an operator produces. */
  function Rows<V>(s: Sem<V>, db: nat -> seq<Row<V>>, op: Op): (r: seq<Row<V>>)
  {
    match op
    case Scan(t, cols) => PickAll(s, cols, db(t))
    case Select(schema, child, filter) => FilterProject(s, schema, filter, Rows(s, db, child))
    case Join(schema, children, conditions) =>
      JoinProject(s, schema, conditions,
          Cross(seq(|children|, i requires 0 <= i < |children| => Rows(s, db, children[i]))))
    case Group(schema, child, aggs) =>
      var rows := Rows(s, db, child);
      if rows == [] then [Nulls(s, |schema|)] else [EvalAll(s, schema, Aggregates(s, aggs, rows), [])]
    case Output(child) => Rows(s, db, child)
    case Other => []
  }

  // ----- references -----

  /** The columns an expression reads. */
  function Refs(e: Expr): (r: set<(nat, nat)>)
  {
    match e
    case Column(c, k) => {(c, k)}
    case Apply(_, args) => set i, p | 0 <= i < |args| && p in Refs(args[i]) :: p
    case And(l, r) => Refs(l) + Refs(r)
    case _ => {}
  }

  function RefsAll(es: seq<Expr>): (r: set<(nat, nat)>)
    ensures forall i, p :: 0 <= i < |es| && p in Refs(es[i]) ==> p in r
  {
    set i, p | 0 <= i < |es| && p in Refs(es[i]) :: p
  }

  /** Replaces the column references that the map mentions. */
  function Rewrite(e: Expr, m: map<(nat, nat), (nat, nat)>): (r: Expr)
  {
    match e
    case Column(c, k) => if (c, k) in m then Column(m[(c, k)].0, m[(c, k)].1) else e
    case Apply(op, args) => Apply(op, seq(|args|, i requires 0 <= i < |args| => Rewrite(args[i], m)))
    case And(l, r) => And(Rewrite(l, m), Rewrite(r, m))
    case _ => e
  }

  function RewriteAll(es: seq<Expr>, m: map<(nat, nat), (nat, nat)>): (r: seq<Expr>)
    ensures |r| == |es| && forall i :: 0 <= i < |es| ==> r[i] == Rewrite(es[i], m)
  {
    seq(|es|, i requires 0 <= i < |es| => Rewrite(es[i], m))
  }

  /** The rewritten references find the old values in the new rows. */
  ghost predicate Agrees<V>(s: Sem<V>, refs: set<(nat, nat)>, m: map<(nat, nat), (nat, nat)>, rows: seq<Row<V>>,
                            rows': seq<Row<V>>)
  {
    forall p :: p in refs ==> p in m && At(s, rows', m[p].0, m[p].1) == At(s, rows, p.0, p.1)
  }

  lemma {:induction false} RewriteEval<V>(s: Sem<V>, e: Expr, m: map<(nat, nat), (nat, nat)>, virtuals: seq<V>,
                                          rows: seq<Row<V>>, rows': seq<Row<V>>)
    requires Agrees(s, Refs(e), m, rows, rows')
    ensures Eval(s, Rewrite(e, m), virtuals, rows') == Eval(s, e, virtuals, rows)
  {
    match e
    case Apply(op, args) =>
      forall i | 0 <= i < |args|
        ensures Eval(s, Rewrite(args[i], m), virtuals, rows') == Eval(s, args[i], virtuals, rows)
      {
        RewriteEval(s, args[i], m, virtuals, rows, rows');
      }
      var r := Rewrite(e, m);
      assert seq(|r.args|, i requires 0 <= i < |r.args| => Eval(s, r.args[i], virtuals, rows'))
          == seq(|args|, i requires 0 <= i < |args| => Eval(s, args[i], virtuals, rows));
    case And(l, r) =>
      RewriteEval(s, l, m, virtuals, rows, rows');
      RewriteEval(s, r, m, virtuals, rows, rows');
    case _ =>
  }

  /** The value of an expression depends only on the columns it reads. */
  lemma {:induction false} EvalLocal<V>(s: Sem<V>, e: Expr, virtuals: seq<V>, rows: seq<Row<V>>, rows': seq<Row<V>>)
    requires forall p :: p in Refs(e) ==> At(s, rows', p.0, p.1) == At(s, rows, p.0, p.1)
    ensures Eval(s, e, virtuals, rows') == Eval(s, e, virtuals, rows)
  {
    match e
    case Column(c, k) =>
      assert (c, k) in Refs(e);
    case Apply(op, args) =>
      forall i | 0 <= i < |args| ensures Eval(s, args[i], virtuals, rows') == Eval(s, args[i], virtuals, rows) {
        EvalLocal(s, args[i], virtuals, rows, rows');
      }
      assert seq(|args|, i requires 0 <= i < |args| => Eval(s, args[i], virtuals, rows'))
          == seq(|args|, i requires 0 <= i < |args| => Eval(s, args[i], virtuals, rows));
    case And(l, r) =>
      EvalLocal(s, l, virtuals, rows, rows');
      EvalLocal(s, r, virtuals, rows, rows');
    case _ =>
  }

  /** Rewriting maps the references one by one. */
  lemma {:induction false} RewriteRefs(e: Expr, m: map<(nat, nat), (nat, nat)>, p: (nat, nat))
    requires forall q :: q in Refs(e) ==> q in m
    ensures p in Refs(Rewrite(e, m)) <==> exists q :: q in Refs(e) && m[q] == p
  {
    match e
    case Column(c, k) =>
      assert (c, k) in Refs(e);
    case Apply(op, args) =>
      var r := Rewrite(e, m);
      forall i | 0 <= i < |args| ensures p in Refs(r.args[i]) <==> exists q :: q in Refs(args[i]) && m[q] == p {
        RewriteRefs(args[i], m, p);
      }
      if p in Refs(r) {
        var i :| 0 <= i < |args| && p in Refs(r.args[i]);
        var q :| q in Refs(args[i]) && m[q] == p;
      }
      if q :| q in Refs(e) && m[q] == p {
        var i :| 0 <= i < |args| && q in Refs(args[i]);
      }
    case And(l, r) =>
      RewriteRefs(l, m, p);
      RewriteRefs(r, m, p);
    case _ =>
  }
}
