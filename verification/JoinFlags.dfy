/**
 From the planner's join conditions to predicate flags: which planned queries can run their join.
 */
module JoinFlags {
  import opened Vectors
  import opened PredicateFlags
  import PlanModel
  import Pushdown

  /** Predicate `p` gets a flag at table `t`. */
  predicate GetsFlag(tables: seq<set<nat>>, prefix: seq<nat>, p: nat, t: nat)
  {
    p < |tables| && t in tables[p] && !(prefix != [] && prefix[0] == t)
  }

  ghost predicate NumbersFlags(flagOf: map<(nat, nat), nat>, n: nat)
  {
    && (forall k :: k in flagOf ==> flagOf[k] < n)
    && (forall k, l :: k in flagOf && l in flagOf && flagOf[k] == flagOf[l] ==> k == l)
  }

  /** The flags handed out before predicate `pred`, and for `pred` at the tables not in `rest`. */
  ghost predicate Allocated(flagOf: map<(nat, nat), nat>, tables: seq<set<nat>>, prefix: seq<nat>, pred: nat,
                            rest: set<nat>)
  {
    forall p: nat, t: nat :: (p, t) in flagOf <==>
      GetsFlag(tables, prefix, p, t) && (p < pred || (p == pred && t !in rest))
  }

  /** One flag for each predicate and table it reads, except at the first table of a fixed prefix. */
  method AllocateFlags(tables: seq<set<nat>>, prefix: seq<nat>) returns (flagOf: map<(nat, nat), nat>, n: nat)
    ensures forall p: nat, t: nat :: (p, t) in flagOf <==> GetsFlag(tables, prefix, p, t)
    ensures NumbersFlags(flagOf, n) && n == |flagOf|
  {
    flagOf, n := map[], 0;
    NothingAllocated(flagOf, tables, prefix);
    for pred := 0 to |tables|
      invariant Allocated(flagOf, tables, prefix, pred, if pred < |tables| then tables[pred] else {})
      invariant NumbersFlags(flagOf, n) && n == |flagOf|
    {
      hide Allocated, NumbersFlags;
      var rest := tables[pred];
      while rest != {}
        invariant rest <= tables[pred] && Allocated(flagOf, tables, prefix, pred, rest)
        invariant NumbersFlags(flagOf, n) && n == |flagOf|
        decreases |rest|
      {
        var t :| t in rest;
        OneMoreFlag(flagOf, n, tables, prefix, pred, rest, t);
        rest := rest - {t};
        if prefix != [] && prefix[0] == t {
          continue;
        }
        flagOf, n := flagOf[(pred, t) := n], n + 1;
      }
      AllTablesDone(flagOf, tables, prefix, pred);
    }
  }

  lemma NothingAllocated(flagOf: map<(nat, nat), nat>, tables: seq<set<nat>>, prefix: seq<nat>)
    requires flagOf == map[]
    ensures Allocated(flagOf, tables, prefix, 0, if 0 < |tables| then tables[0] else {})
  {
  }

  lemma AllTablesDone(flagOf: map<(nat, nat), nat>, tables: seq<set<nat>>, prefix: seq<nat>, pred: nat)
    requires Allocated(flagOf, tables, prefix, pred, {}) && pred < |tables|
    ensures Allocated(flagOf, tables, prefix, pred + 1, if pred + 1 < |tables| then tables[pred + 1] else {})
  {
  }

  lemma OneMoreFlag(flagOf: map<(nat, nat), nat>, n: nat, tables: seq<set<nat>>, prefix: seq<nat>, pred: nat,
                    rest: set<nat>, t: nat)
    requires Allocated(flagOf, tables, prefix, pred, rest) && NumbersFlags(flagOf, n) && n == |flagOf|
    requires pred < |tables| && t in rest && rest <= tables[pred]
    ensures if prefix != [] && prefix[0] == t then Allocated(flagOf, tables, prefix, pred, rest - {t})
            else var flagOf' := flagOf[(pred, t) := n];
              && Allocated(flagOf', tables, prefix, pred, rest - {t}) && NumbersFlags(flagOf', n + 1)
              && |flagOf'| == n + 1
  {
    assert (pred, t) !in flagOf;
  }

  /** The tables that the join conditions of a planned query read. */
  function ConditionTables(where: PlanModel.Expr): (tables: seq<set<nat>>)
  {
    var es := Pushdown.Joining(Pushdown.Decompose(where));
    seq(|es|, i requires 0 <= i < |es| => Pushdown.Tables(es[i]))
  }

  /** The query is the join of a planned query, with the flags that the translator allocates. */
  ghost predicate IsPlannedJoin(q: Query, where: PlanModel.Expr, prefix: seq<nat>)
  {
    var tables := ConditionTables(where);
    && |q.preds| == |tables| && (forall p :: 0 <= p < |tables| ==> q.preds[p].tables == tables[p])
    && (forall p: nat, t: nat :: (p, t) in q.flagOf <==> GetsFlag(tables, prefix, p, t))
  }

  /** Some conjunct reads no column. */
  ghost predicate HasConstantConjunct(where: PlanModel.Expr)
  {
    exists e :: e in Pushdown.Decompose(where) && Pushdown.Tables(e) == {}
  }

  lemma {:induction false} JoiningHas(es: seq<PlanModel.Expr>, e: PlanModel.Expr)
    ensures e in Pushdown.Joining(es) <==> e in es && |Pushdown.Tables(e)| != 1
  {
    if es != [] {
      JoiningHas(es[..|es| - 1], e);
      assert es == es[..|es| - 1] + [es[|es| - 1]];
    }
  }

  /** A condition that reads a column and is not about one table reads two. */
  lemma TwoTables(s: set<nat>) returns (t: nat, u: nat)
    requires s != {} && |s| != 1
    ensures t in s && u in s && t != u
  {
    t :| t in s;
    assert s == {t} + (s - {t});
    u :| u in s - {t};
  }

  lemma FlagOf(q: Query, where: PlanModel.Expr, prefix: seq<nat>, p: nat)
    requires IsPlannedJoin(q, where, prefix) && p < |q.preds|
    ensures HasFlag(q, p) <==> ConditionTables(where)[p] != {}
    ensures ConditionTables(where)[p] != {} ==> PredicateFlagsFor(q, prefix, p)
  {
    var tables := ConditionTables(where);
    forall t: nat ensures Flagged(q, p, t) <==> GetsFlag(tables, prefix, p, t) { }
    var es := Pushdown.Joining(Pushdown.Decompose(where));
    assert |Pushdown.Tables(es[p])| != 1;
    if tables[p] != {} {
      var t, u := TwoTables(tables[p]);
      assert Flagged(q, p, t) || Flagged(q, p, u);
      assert prefix == [] ==> Flagged(q, p, t) && Flagged(q, p, u);
    }
  }

  /** A planned query can run its join, in any table order, exactly if each of its conjuncts reads a column;
      then its flags are those that the join relies on. */
  lemma PlannedJoinRuns(q: Query, where: PlanModel.Expr, prefix: seq<nat>)
    requires IsPlannedJoin(q, where, prefix)
    ensures (forall p :: 0 <= p < |q.preds| ==> HasFlag(q, p)) <==> !HasConstantConjunct(where)
    ensures !HasConstantConjunct(where) ==> FlagsFor(q, prefix)
  {
    var tables := ConditionTables(where);
    var es := Pushdown.Joining(Pushdown.Decompose(where));
    forall p: nat | p < |q.preds|
      ensures HasFlag(q, p) <==> tables[p] != {}
      ensures tables[p] != {} ==> PredicateFlagsFor(q, prefix, p)
    {
      FlagOf(q, where, prefix, p);
    }
    if HasConstantConjunct(where) {
      var e :| e in Pushdown.Decompose(where) && Pushdown.Tables(e) == {};
      JoiningHas(Pushdown.Decompose(where), e);
      var p :| 0 <= p < |es| && es[p] == e;
      assert tables[p] == {};
    } else {
      forall p: nat | p < |q.preds| ensures tables[p] != {} {
        JoiningHas(Pushdown.Decompose(where), es[p]);
        assert es[p] in es;
      }
    }
  }

  /** Setting the flags for an order fails exactly if some conjunct reads no column. */
  method PrepareJoin(q: Query, where: PlanModel.Expr, prefix: seq<nat>, order: seq<nat>)
    returns (ok: bool, flags: seq<int>)
    requires WellFormed(q) && IsPlannedJoin(q, where, prefix) && IsOrder(order, |q.card|)
    ensures ok <==> !HasConstantConjunct(where)
    ensures ok ==> FlagsFor(q, prefix) && FlagsMatch(q, order, flags)
  {
    PlannedJoinRuns(q, where, prefix);
    ok, flags := TogglePredicateFlags(q, order);
  }
}
