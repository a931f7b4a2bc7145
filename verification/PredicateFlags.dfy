/**
 Join predicates and the flags that decide at which table each of them is evaluated.

 A predicate owns one flag per table it is compiled into.  Before an episode the executor
 sets, for each predicate, the flag of the table at which all of its tables are available.
 */
module PredicateFlags {
  import opened Vectors

  /** A predicate reads only the rows of `tables`; NULL counts as not holding.  If it equates two columns, an
      index lists the rows for which it holds. */
  datatype Predicate = Predicate(tables: set<nat>, holds: seq<int> -> bool, equality: bool)

  /** `flagOf` maps a predicate and a table to the predicate's flag at that table. */
  datatype Query = Query(card: seq<int>, preds: seq<Predicate>, flagOf: map<(nat, nat), nat>, numFlags: nat)

  ghost predicate Agree(tables: set<nat>, u: seq<int>, v: seq<int>)
  {
    |u| == |v| && forall t :: t in tables && t < |u| ==> u[t] == v[t]
  }

  ghost predicate ReadsOnly(p: Predicate)
  {
    forall u, v :: Agree(p.tables, u, v) ==> p.holds(u) == p.holds(v)
  }

  /** The tables of the join are not empty. */
  ghost predicate WellFormed(q: Query)
  {
    0 < |q.card| && (forall t :: 0 <= t < |q.card| ==> 0 < q.card[t]) && WellShaped(q)
  }

  /** Flags belong to predicates and tables of the join, and no two share a flag. */
  ghost predicate WellShaped(q: Query)
  {
    && (forall p :: 0 <= p < |q.preds| ==> ReadsOnly(q.preds[p]))
    && (forall k :: k in q.flagOf ==> k.0 < |q.preds| && k.1 < |q.card| && q.flagOf[k] < q.numFlags)
    && (forall k, l :: k in q.flagOf && l in q.flagOf && q.flagOf[k] == q.flagOf[l] ==> k == l)
  }

  predicate Flagged(q: Query, p: nat, t: nat)
  {
    (p, t) in q.flagOf
  }

  /** The predicate has a flag at some table. */
  ghost predicate HasFlag(q: Query, p: nat)
  {
    exists t: nat :: Flagged(q, p, t)
  }

  /** All tables at which the predicate has a flag are in `available`. */
  predicate Available(q: Query, available: set<nat>, p: nat)
  {
    forall k :: k in q.flagOf && k.0 == p ==> k.1 in available
  }

  function Tables(path: seq<nat>): (s: set<nat>)
  {
    set t | t in path
  }

  /** Position `i` of the order is where predicate `p` is evaluated: the last of its tables. */
  ghost predicate EvaluatedAt(q: Query, order: seq<nat>, i: nat, p: nat)
    requires i < |order|
  {
    Flagged(q, p, order[i]) && Available(q, Tables(order[..i + 1]), p)
  }

  /** The flags are set exactly where the predicates are evaluated. */
  ghost predicate FlagsMatch(q: Query, order: seq<nat>, flags: seq<int>)
  {
    && |flags| == q.numFlags
    && (forall i, p ::
          && 0 <= i < |order| && 0 <= p < |q.preds| && Flagged(q, p, order[i]) && q.flagOf[(p, order[i])] < |flags|
          ==> (flags[q.flagOf[(p, order[i])]] != 0 <==> EvaluatedAt(q, order, i, p)))
  }

  lemma TablesOfPrefix(order: seq<nat>, i: nat)
    requires i < |order|
    ensures Tables(order[..i + 1]) == Tables(order[..i]) + {order[i]}
  {
    assert order[..i + 1] == order[..i] + [order[i]];
  }

  /** A flagged predicate is evaluated at one position of the order and no other. */
  lemma EvaluatedOnce(q: Query, order: seq<nat>, p: nat)
    requires WellFormed(q) && IsOrder(order, |q.card|) && HasFlag(q, p)
    ensures exists i :: 0 <= i < |order| && EvaluatedAt(q, order, i, p)
    ensures forall i, j ::
            0 <= i < |order| && 0 <= j < |order| && EvaluatedAt(q, order, i, p) && EvaluatedAt(q, order, j, p) ==>
            i == j
  {
    assert Available(q, Tables(order[..|order|]), p) by {
      forall k | k in q.flagOf && k.0 == p ensures k.1 in Tables(order[..|order|]) {
        assert k.1 in order;
      }
    }
    FirstAvailable(q, order, p, |order|);
    forall i, j | 0 <= i < j < |order| && EvaluatedAt(q, order, i, p)
      ensures !EvaluatedAt(q, order, j, p)
    {
    }
  }

  lemma {:induction false} FirstAvailable(q: Query, order: seq<nat>, p: nat, n: nat)
    requires HasFlag(q, p) && n <= |order| && Available(q, Tables(order[..n]), p)
    ensures exists i :: 0 <= i < n && EvaluatedAt(q, order, i, p)
  {
    var t: nat :| Flagged(q, p, t);
    assert t in Tables(order[..n]);
    TablesOfPrefix(order, n - 1);
    if Available(q, Tables(order[..n - 1]), p) {
      FirstAvailable(q, order, p, n - 1);
    } else {
      var k :| k in q.flagOf && k.0 == p && k.1 !in Tables(order[..n - 1]);
      assert k == (p, order[n - 1]);
      assert EvaluatedAt(q, order, n - 1, p);
    }
  }

  /** The vectors the join must produce. */
  ghost predicate Matches(q: Query, v: seq<int>)
  {
    forall p :: 0 <= p < |q.preds| ==> q.preds[p].holds(v)
  }

  /** All predicates evaluated at position `i` of the order hold. */
  ghost predicate PassesAt(q: Query, order: seq<nat>, i: nat, v: seq<int>)
    requires i < |order|
  {
    forall p :: 0 <= p < |q.preds| && EvaluatedAt(q, order, i, p) ==> q.preds[p].holds(v)
  }

  /** The order makes every predicate's tables available where it is evaluated: a table
      without a flag may only be the first one, and nothing is evaluated at the first one. */
  ghost predicate Suits(q: Query, order: seq<nat>)
  {
    && IsOrder(order, |q.card|)
    && (forall p :: 0 <= p < |q.preds| && 0 < |order| ==> !EvaluatedAt(q, order, 0, p))
    && (forall p :: 0 <= p < |q.preds| ==> HasFlag(q, p))
    && (forall p, t :: 0 <= p < |q.preds| && t in q.preds[p].tables && t < |q.card| ==>
                         Flagged(q, p, t) || t == order[0])
  }

  /** The flags the compiler hands out: one per predicate and table it reads, except at the
      first table of a fixed prefix; join predicates read at least two tables. */
  ghost predicate FlagsFor(q: Query, prefix: seq<nat>)
  {
    forall p: nat :: p < |q.preds| ==> PredicateFlagsFor(q, prefix, p)
  }

  ghost predicate PredicateFlagsFor(q: Query, prefix: seq<nat>, p: nat)
    requires p < |q.preds|
  {
    && HasFlag(q, p)
    && (forall t :: t in q.preds[p].tables && t < |q.card| ==> Flagged(q, p, t) || (prefix != [] && t == prefix[0]))
    && (if prefix == [] then exists t: nat, u: nat :: t != u && Flagged(q, p, t) && Flagged(q, p, u)
        else !Flagged(q, p, prefix[0]))
  }

  /** With such flags every order that extends the prefix suits the query. */
  lemma FlagsSuit(q: Query, prefix: seq<nat>, order: seq<nat>)
    requires WellFormed(q) && FlagsFor(q, prefix) && IsOrder(order, |q.card|) && prefix <= order
    ensures Suits(q, order)
  {
    assert prefix != [] ==> prefix[0] == order[0];
    forall p | 0 <= p < |q.preds| ensures HasFlag(q, p) {
      assert PredicateFlagsFor(q, prefix, p);
    }
    forall p, t | 0 <= p < |q.preds| && t in q.preds[p].tables && t < |q.card|
      ensures Flagged(q, p, t) || t == order[0]
    {
      assert PredicateFlagsFor(q, prefix, p);
    }
    forall p: nat | p < |q.preds|
      ensures PredicateFlagsFor(q, prefix, p) && !EvaluatedAt(q, order, 0, p)
    {
      assert PredicateFlagsFor(q, prefix, p);
      if prefix == [] {
        var t: nat, u: nat :| t != u && Flagged(q, p, t) && Flagged(q, p, u);
        assert (p, t) in q.flagOf && (p, u) in q.flagOf;
        assert Tables(order[..1]) == {order[0]};
      }
    }
  }

  /** Checking every predicate at its own position is checking them all. */
  lemma MatchesByPosition(q: Query, order: seq<nat>, v: seq<int>)
    requires WellFormed(q) && Suits(q, order)
    ensures Matches(q, v) <==> forall i :: 0 <= i < |order| ==> PassesAt(q, order, i, v)
  {
    if forall i :: 0 <= i < |order| ==> PassesAt(q, order, i, v) {
      forall p | 0 <= p < |q.preds| ensures q.preds[p].holds(v) {
        EvaluatedOnce(q, order, p);
        var i :| 0 <= i < |order| && EvaluatedAt(q, order, i, p);
        assert PassesAt(q, order, i, v);
      }
    }
  }

  /** What is checked at position `i` depends only on the rows up to position `i`. */
  lemma PassesAtIsLocal(q: Query, order: seq<nat>, i: nat, u: seq<int>, v: seq<int>)
    requires WellFormed(q) && Suits(q, order) && i < |order| && |u| == |v| == |q.card|
    requires forall j :: 0 <= j <= i ==> u[order[j]] == v[order[j]]
    ensures PassesAt(q, order, i, u) == PassesAt(q, order, i, v)
  {
    forall p | 0 <= p < |q.preds| && EvaluatedAt(q, order, i, p)
      ensures q.preds[p].holds(u) == q.preds[p].holds(v)
    {
      forall t | t in q.preds[p].tables && t < |u| ensures u[t] == v[t] {
        assert Flagged(q, p, t) || t == order[0];
        assert t in order[..i + 1];
      }
      assert Agree(q.preds[p].tables, u, v);
      assert ReadsOnly(q.preds[p]);
    }
  }

  /** Sets the flags for an order.  Fails, as the map lookup of the original throws, exactly
      when some predicate has no flag at any table. */
  method TogglePredicateFlags(q: Query, order: seq<nat>) returns (ok: bool, flags: seq<int>)
    requires WellFormed(q) && IsOrder(order, |q.card|)
    ensures ok <==> forall p :: 0 <= p < |q.preds| ==> HasFlag(q, p)
    ensures ok ==> FlagsMatch(q, order, flags)
    ensures ok ==> forall f :: 0 <= f < |flags| && flags[f] != 0 ==> FlagChosen(q, order, |order|, 0, f)
  {
    flags := seq(q.numFlags, _ => 0);
    var available: set<nat>, executed: set<nat> := {}, {};
    for i := 0 to |order|
      invariant |flags| == q.numFlags && available == Tables(order[..i])
      invariant forall p: nat :: p in executed <==> p < |q.preds| && i > 0 && Available(q, Tables(order[..i]), p)
      invariant i > 0 ==> forall p: nat :: p < |q.preds| ==> HasFlag(q, p)
      invariant Toggled(q, order, i, 0, flags)
    {
      var table := order[i];
      available := available + {table};
      TablesOfPrefix(order, i);
      ok, executed, flags := ToggleTable(q, order, i, available, executed, flags);
      if !ok {
        return;
      }
      ToggleNext(q, order, i, flags);
    }
    ok := true;
    ToggledMatches(q, order, flags);
  }

  /** Evaluates at `order[i]` every predicate that has just become available. */
  method ToggleTable(q: Query, order: seq<nat>, i: nat, available: set<nat>, executed0: set<nat>, flags0: seq<int>)
    returns (ok: bool, executed: set<nat>, flags: seq<int>)
    requires WellFormed(q) && IsOrder(order, |q.card|) && i < |order| && available == Tables(order[..i + 1])
    requires forall p: nat :: p in executed0 <==> p < |q.preds| && i > 0 && Available(q, Tables(order[..i]), p)
    requires |flags0| == q.numFlags && Toggled(q, order, i, 0, flags0)
    requires i > 0 ==> forall p: nat :: p < |q.preds| ==> HasFlag(q, p)
    ensures ok <==> forall p: nat :: p < |q.preds| ==> HasFlag(q, p)
    ensures ok ==> forall p: nat :: p in executed <==> p < |q.preds| && Available(q, available, p)
    ensures ok ==> |flags| == q.numFlags && Toggled(q, order, i, |q.preds|, flags)
  {
    hide Toggled;
    TablesOfPrefix(order, i);
    executed, flags := executed0, flags0;
    for pred := 0 to |q.preds|
      invariant |flags| == q.numFlags
      invariant forall p: nat :: p in executed <==> p in executed0 || (p < pred && Available(q, available, p))
      invariant forall p: nat :: p < pred ==> HasFlag(q, p)
      invariant Toggled(q, order, i, pred, flags)
    {
      if pred in executed {
        NotAgain(q, order, i, pred);
        ToggleNone(q, order, i, pred, flags);
      } else if !Available(q, available, pred) {
        ToggleNone(q, order, i, pred, flags);
        MissingIsFlagged(q, available, pred);
      } else {
        executed := executed + {pred};
        BecomesAvailable(q, order, i, pred);
        if (pred, order[i]) !in q.flagOf {
          return false, executed, flags;
        }
        ToggleOne(q, order, i, pred, flags);
        flags := flags[q.flagOf[(pred, order[i])] := 1];
      }
    }
    ok := true;
  }

  lemma MissingIsFlagged(q: Query, available: set<nat>, p: nat)
    requires !Available(q, available, p)
    ensures HasFlag(q, p)
  {
    var k :| k in q.flagOf && k.0 == p;
    assert Flagged(q, p, k.1);
  }

  /** Flags set by the first `i` tables and by the first `n` predicates of table `i`. */
  ghost predicate Toggled(q: Query, order: seq<nat>, i: nat, n: nat, flags: seq<int>)
    requires i <= |order|
  {
    forall f :: 0 <= f < |flags| ==>
                  (flags[f] != 0 <==> FlagChosen(q, order, i, n, f))
  }

  ghost predicate FlagChosen(q: Query, order: seq<nat>, i: nat, n: nat, f: nat)
    requires i <= |order|
  {
    exists p: nat, j: nat :: SetBy(q, order, i, n, f, p, j)
  }

  ghost predicate SetBy(q: Query, order: seq<nat>, i: nat, n: nat, f: nat, p: nat, j: nat)
    requires i <= |order|
  {
    && p < |q.preds| && (j < i || (j == i && i < |order| && p < n))
    && EvaluatedAt(q, order, j, p) && q.flagOf[(p, order[j])] == f
  }

  lemma NotAgain(q: Query, order: seq<nat>, i: nat, p: nat)
    requires IsOrder(order, |q.card|) && i < |order| && Available(q, Tables(order[..i]), p)
    ensures !EvaluatedAt(q, order, i, p)
  {
  }

  /** A predicate that first becomes available at position `i` is flagged there, unless it
      has no flag at all. */
  lemma BecomesAvailable(q: Query, order: seq<nat>, i: nat, p: nat)
    requires IsOrder(order, |q.card|) && i < |order| && p < |q.preds|
    requires Available(q, Tables(order[..i + 1]), p)
    requires i == 0 || !Available(q, Tables(order[..i]), p)
    ensures Flagged(q, p, order[i]) <==> HasFlag(q, p)
    ensures i > 0 ==> Flagged(q, p, order[i])
    ensures Flagged(q, p, order[i]) ==> EvaluatedAt(q, order, i, p)
  {
    TablesOfPrefix(order, i);
    if i == 0 {
      assert Tables(order[..0]) == {};
    }
  }

  lemma SameChoice(q: Query, order: seq<nat>, i: nat, n: nat, i': nat, n': nat, f: nat)
    requires i <= |order| && i' <= |order|
    requires forall p: nat, j: nat :: SetBy(q, order, i, n, f, p, j) <==> SetBy(q, order, i', n', f, p, j)
    ensures FlagChosen(q, order, i, n, f) <==> FlagChosen(q, order, i', n', f)
  {
  }

  lemma ToggleNone(q: Query, order: seq<nat>, i: nat, n: nat, flags: seq<int>)
    requires i < |order| && Toggled(q, order, i, n, flags) && !EvaluatedAt(q, order, i, n)
    ensures Toggled(q, order, i, n + 1, flags)
  {
    forall f | 0 <= f < |flags|
      ensures flags[f] != 0 <==> FlagChosen(q, order, i, n + 1, f)
    {
      SameChoice(q, order, i, n, i, n + 1, f);
    }
  }

  lemma ToggleOne(q: Query, order: seq<nat>, i: nat, n: nat, flags: seq<int>)
    requires i < |order| && n < |q.preds| && Toggled(q, order, i, n, flags) && EvaluatedAt(q, order, i, n)
    requires q.flagOf[(n, order[i])] < |flags|
    ensures Toggled(q, order, i, n + 1, flags[q.flagOf[(n, order[i])] := 1])
  {
    var g := q.flagOf[(n, order[i])];
    var flags' := flags[g := 1];
    assert SetBy(q, order, i, n + 1, g, n, i);
    forall f | 0 <= f < |flags'|
      ensures flags'[f] != 0 <==> FlagChosen(q, order, i, n + 1, f)
    {
      if f != g {
        SameChoice(q, order, i, n, i, n + 1, f);
      }
    }
  }

  lemma ToggleNext(q: Query, order: seq<nat>, i: nat, flags: seq<int>)
    requires i < |order| && Toggled(q, order, i, |q.preds|, flags)
    ensures Toggled(q, order, i + 1, 0, flags)
  {
    forall f | 0 <= f < |flags|
      ensures flags[f] != 0 <==> FlagChosen(q, order, i + 1, 0, f)
    {
      SameChoice(q, order, i, |q.preds|, i + 1, 0, f);
    }
  }

  lemma ToggledMatches(q: Query, order: seq<nat>, flags: seq<int>)
    requires WellFormed(q) && |flags| == q.numFlags && Toggled(q, order, |order|, 0, flags) && IsOrder(order, |q.card|)
    ensures FlagsMatch(q, order, flags)
  {
    forall i, p | 0 <= i < |order| && 0 <= p < |q.preds| && Flagged(q, p, order[i])
      ensures flags[q.flagOf[(p, order[i])]] != 0 <==> EvaluatedAt(q, order, i, p)
    {
      var f := q.flagOf[(p, order[i])];
      if EvaluatedAt(q, order, i, p) {
        assert SetBy(q, order, |order|, 0, f, p, i);
      }
      if flags[f] != 0 {
        var r: nat, j: nat :| SetBy(q, order, |order|, 0, f, r, j);
        assert (r, order[j]) == (p, order[i]);
      }
    }
  }
}
