/**
 Following the value map, one replacement after the other.
 */
module Lookups {
  import opened Wrappers
  import opened Khir

  /** The value after `n` turns of the lookup loop. */
  ghost function After(vm: map<Value, Value>, v: Value, n: nat): (u: Value)
    decreases n
  {
    if n == 0 || v !in vm then v else After(vm, vm[v], n - 1)
  }

  ghost predicate EndsIn(vm: map<Value, Value>, v: Value, n: nat)
  {
    After(vm, v, n) !in vm
  }

  ghost predicate Ends(vm: map<Value, Value>, v: Value)
  {
    exists n: nat :: EndsIn(vm, v, n)
  }

  /** The value that finally stands for `v`; a value that is looked up forever is left alone. */
  ghost function Resolve(vm: map<Value, Value>, v: Value): (u: Value)
    ensures Ends(vm, v) ==> u !in vm
  {
    if n: nat :| EndsIn(vm, v, n) then After(vm, v, n) else v
  }

  lemma {:induction false} AfterAdd(vm: map<Value, Value>, v: Value, n: nat, m: nat)
    ensures After(vm, v, n + m) == After(vm, After(vm, v, n), m)
    decreases n
  {
    if n > 0 && v in vm { AfterAdd(vm, vm[v], n - 1, m); }
  }

  lemma ResolveIs(vm: map<Value, Value>, v: Value, n: nat)
    requires EndsIn(vm, v, n)
    ensures Resolve(vm, v) == After(vm, v, n)
  {
    forall m: nat | EndsIn(vm, v, m) ensures After(vm, v, m) == After(vm, v, n) {
      if m <= n { AfterAdd(vm, v, m, n - m); } else { AfterAdd(vm, v, n, m - n); }
    }
  }

  lemma ResolveDone(vm: map<Value, Value>, v: Value)
    requires v !in vm
    ensures Ends(vm, v) && Resolve(vm, v) == v
  {
    assert EndsIn(vm, v, 0);
  }

  lemma ResolveStep(vm: map<Value, Value>, v: Value)
    requires v in vm
    ensures Ends(vm, v) <==> Ends(vm, vm[v])
    ensures Ends(vm, v) ==> Resolve(vm, v) == Resolve(vm, vm[v])
  {
    if n: nat :| EndsIn(vm, v, n) {
      assert EndsIn(vm, vm[v], n - 1);
      ResolveIs(vm, v, n);
      ResolveIs(vm, vm[v], n - 1);
    }
    if n: nat :| EndsIn(vm, vm[v], n) {
      assert EndsIn(vm, v, n + 1);
    }
  }

  /** Resolving is done once. */
  lemma ResolveTwice(vm: map<Value, Value>, v: Value)
    ensures Resolve(vm, Resolve(vm, v)) == Resolve(vm, v)
    ensures Ends(vm, v) ==> Ends(vm, Resolve(vm, v))
  {
    if Ends(vm, v) { ResolveDone(vm, Resolve(vm, v)); }
  }

  /** A value that comes back to itself is looked up forever. */
  lemma {:induction false} NeverEnds(vm: map<Value, Value>, v: Value, period: nat, n: nat)
    requires v in vm && 0 < period && After(vm, v, period) == v
    ensures !EndsIn(vm, v, n)
    decreases n
  {
    if n >= period {
      AfterAdd(vm, v, period, n - period);
      NeverEnds(vm, v, period, n - period);
    } else {
      AfterAdd(vm, v, n, period - n);
    }
  }

  /** A trail that does not meet `v` needs no entry for it. */
  lemma {:induction false} AfterWithout(vm: map<Value, Value>, v: Value, u: Value, n: nat)
    requires forall j: nat :: After(vm, u, j) != v
    ensures After(vm - {v}, u, n) == After(vm, u, n)
    decreases n
  {
    assert After(vm, u, 0) == u;
    if n > 0 && u in vm {
      forall j: nat ensures After(vm, vm[u], j) != v {
        assert After(vm, u, j + 1) == After(vm, vm[u], j);
      }
      AfterWithout(vm, v, vm[u], n - 1);
    }
  }

  /** A lookup that ends takes no more turns than the map has entries. */
  lemma {:induction false} EndsWithin(vm: map<Value, Value>, v: Value, n: nat)
    requires EndsIn(vm, v, n)
    ensures EndsIn(vm, v, |vm|)
    decreases |vm|
  {
    if v in vm {
      forall j: nat ensures After(vm, vm[v], j) != v {
        if After(vm, vm[v], j) == v { NeverEnds(vm, v, j + 1, n); }
      }
      var rest := vm - {v};
      assert |rest| == |vm| - 1 by { assert rest.Keys == vm.Keys - {v}; MapSize(vm); MapSize(rest); }
      AfterWithout(vm, v, vm[v], n - 1);
      EndsWithin(rest, vm[v], n - 1);
      AfterWithout(vm, v, vm[v], |rest|);
      assert After(vm, v, |vm|) == After(vm, vm[v], |rest|);
    } else {
      assert After(vm, v, |vm|) == v;
    }
  }

  lemma MapSize(vm: map<Value, Value>)
    ensures |vm| == |vm.Keys|
  {
  }

  /** Follows the value map to a value that is not replaced.  The original has no counter: it goes round
      forever where more turns than entries show that there is no such value. */
  method ResolveValue(vm: map<Value, Value>, v: Value) returns (r: Option<Value>)
    ensures r.Some? <==> Ends(vm, v)
    ensures r.Some? ==> r.value == Resolve(vm, v)
  {
    var u, turns := v, 0;
    while u in vm
      invariant turns <= |vm| && u == After(vm, v, turns)
      decreases |vm| - turns
    {
      if turns == |vm| {
        if n: nat :| EndsIn(vm, v, n) { EndsWithin(vm, v, n); }
        return None;
      }
      AfterAdd(vm, v, turns, 1);
      assert After(vm, u, 1) == vm[u];
      u, turns := vm[u], turns + 1;
    }
    assert EndsIn(vm, v, turns);
    ResolveIs(vm, v, turns);
    r := Some(u);
  }
}
