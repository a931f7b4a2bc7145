/**
 Counting index vectors: boxes of vectors, and how many of them lie before a given one.
 */
module Boxes {
  import opened Vectors

  /** The number of vectors in a box with these side lengths. */
  function Volume(sides: seq<int>): (n: int)
  {
    if sides == [] then 1 else sides[0] * Volume(sides[1..])
  }

  /** All vectors `v` with `lo[i] <= v[i] < hi[i]`. */
  ghost function Box(lo: seq<int>, hi: seq<int>): (s: set<seq<int>>)
    requires |lo| == |hi|
  {
    if lo == [] then {[]} else Slab(lo[0], hi[0], Box(lo[1..], hi[1..]))
  }

  /** The vectors of `rest`, each behind every number from `first` below `end`. */
  ghost function Slab(first: int, end: int, rest: set<seq<int>>): (s: set<seq<int>>)
  {
    set x, u | first <= x < end && u in rest :: [x] + u
  }

  lemma {:induction false} InBox(lo: seq<int>, hi: seq<int>, v: seq<int>)
    requires |lo| == |hi|
    ensures v in Box(lo, hi) <==> |v| == |lo| && forall i :: 0 <= i < |v| ==> lo[i] <= v[i] < hi[i]
  {
    if lo != [] {
      if |v| > 0 {
        InBox(lo[1..], hi[1..], v[1..]);
        assert v == [v[0]] + v[1..];
        InSlab(lo[0], hi[0], Box(lo[1..], hi[1..]), v);
      }
    }
  }

  lemma InSlab(first: int, end: int, rest: set<seq<int>>, v: seq<int>)
    ensures v in Slab(first, end, rest) <==> 0 < |v| && first <= v[0] < end && v[1..] in rest
  {
    if 0 < |v| && first <= v[0] < end && v[1..] in rest {
      assert v == [v[0]] + v[1..];
    }
    if v in Slab(first, end, rest) {
      var x, u :| first <= x < end && u in rest && v == [x] + u;
      assert v[1..] == u;
    }
  }

  lemma {:induction false} LayerSize(x: int, rest: set<seq<int>>)
    ensures |Slab(x, x + 1, rest)| == |rest|
    decreases |rest|
  {
    var end := x + 1;
    if rest == {} {
      assert Slab(x, end, rest) == {};
    } else {
      var u :| u in rest;
      LayerSize(x, rest - {u});
      var all, others, w := Slab(x, end, rest), Slab(x, end, rest - {u}), [x] + u;
      forall v ensures v in all <==> v in others || v == w {
        InSlab(x, end, rest, v);
        InSlab(x, end, rest - {u}, v);
        assert 0 < |v| && v[0] == x ==> v == [x] + v[1..];
      }
      assert w[1..] == u;
      InSlab(x, end, rest - {u}, w);
      assert all == others + {w};
    }
  }

  lemma SlabSplit(first: int, mid: int, end: int, rest: set<seq<int>>)
    requires first <= mid <= end
    ensures Slab(first, end, rest) == Slab(first, mid, rest) + Slab(mid, end, rest)
    ensures Slab(first, mid, rest) !! Slab(mid, end, rest)
  {
    hide Slab;
    forall v ensures v in Slab(first, end, rest) <==> v in Slab(first, mid, rest) || v in Slab(mid, end, rest) {
      InSlab(first, end, rest, v);
      InSlab(first, mid, rest, v);
      InSlab(mid, end, rest, v);
    }
    forall v ensures !(v in Slab(first, mid, rest) && v in Slab(mid, end, rest)) {
      InSlab(first, mid, rest, v);
      InSlab(mid, end, rest, v);
    }
  }

  lemma {:induction false} SlabSize(first: int, end: int, rest: set<seq<int>>)
    requires first <= end
    ensures |Slab(first, end, rest)| == (end - first) * |rest|
    decreases end - first
  {
    hide Slab;
    if first == end {
      forall v ensures v !in Slab(first, end, rest) { InSlab(first, end, rest, v); }
      assert Slab(first, end, rest) == {};
    } else {
      SlabSplit(first, end - 1, end, rest);
      SlabSize(first, end - 1, rest);
      LayerSize(end - 1, rest);
    }
  }

  function Sides(lo: seq<int>, hi: seq<int>): (r: seq<int>)
    requires |lo| == |hi|
  {
    seq(|lo|, i requires 0 <= i < |lo| => hi[i] - lo[i])
  }

  predicate IsBox(lo: seq<int>, hi: seq<int>)
  {
    |lo| == |hi| && forall i :: 0 <= i < |lo| ==> lo[i] < hi[i]
  }

  lemma {:induction false} BoxSize(lo: seq<int>, hi: seq<int>)
    requires IsBox(lo, hi)
    ensures |Box(lo, hi)| == Volume(Sides(lo, hi)) > 0
  {
    hide Slab;
    if lo != [] {
      BoxSize(lo[1..], hi[1..]);
      SlabSize(lo[0], hi[0], Box(lo[1..], hi[1..]));
      assert Sides(lo, hi)[1..] == Sides(lo[1..], hi[1..]);
    }
  }

  /** The vectors of the box that come before `w`. */
  ghost function Before(lo: seq<int>, hi: seq<int>, w: seq<int>): (s: set<seq<int>>)
    requires |lo| == |hi| == |w|
  {
    set v | v in Box(lo, hi) && |v| == |w| && LexLt(v, w)
  }

  /** A number in mixed radix. */
  function Value(d: seq<int>, sides: seq<int>): (n: int)
    requires |d| == |sides|
  {
    if d == [] then 0 else d[0] * Volume(sides[1..]) + Value(d[1..], sides[1..])
  }

  lemma LexHead(v: seq<int>, w: seq<int>)
    requires |v| == |w| > 0
    ensures LexLt(v, w) <==> v[0] < w[0] || (v[0] == w[0] && LexLt(v[1..], w[1..]))
  {
    if v[0] == w[0] { assert FirstDiff(v, w) == 1 + FirstDiff(v[1..], w[1..]); }
  }

  lemma BeforeSplit(lo: seq<int>, hi: seq<int>, w: seq<int>)
    requires IsBox(lo, hi) && |w| == |lo| > 0 && lo[0] <= w[0] < hi[0]
    ensures Before(lo, hi, w) == Slab(lo[0], w[0], Box(lo[1..], hi[1..])) +
                                 Slab(w[0], w[0] + 1, Before(lo[1..], hi[1..], w[1..]))
    ensures Slab(lo[0], w[0], Box(lo[1..], hi[1..])) !! Slab(w[0], w[0] + 1, Before(lo[1..], hi[1..], w[1..]))
  {
    hide Slab, Box;
    var rest, less := Box(lo[1..], hi[1..]), Before(lo[1..], hi[1..], w[1..]);
    forall v
      ensures v in Before(lo, hi, w) <==> v in Slab(lo[0], w[0], rest) || v in Slab(w[0], w[0] + 1, less)
      ensures !(v in Slab(lo[0], w[0], rest) && v in Slab(w[0], w[0] + 1, less))
    {
      InSlab(lo[0], w[0], rest, v);
      InSlab(w[0], w[0] + 1, less, v);
      InBox(lo, hi, v);
      if |v| == |w| {
        InBox(lo[1..], hi[1..], v[1..]);
        LexHead(v, w);
      } else if |v| > 0 {
        InBox(lo[1..], hi[1..], v[1..]);
      }
    }
  }

  /** How many vectors of a box come before `w` is `w` read as a number, digits from `lo`. */
  lemma {:induction false} BeforeSize(lo: seq<int>, hi: seq<int>, w: seq<int>)
    requires IsBox(lo, hi) && |w| == |lo| && forall i :: 0 <= i < |w| ==> lo[i] <= w[i] < hi[i]
    ensures |Before(lo, hi, w)| == Value(Sides(lo, w), Sides(lo, hi))
  {
    hide Slab, Box, Before;
    if w == [] {
      assert Before(lo, hi, w) == {} by { NothingBefore(lo, hi, w); }
    } else {
      var rest, less := Box(lo[1..], hi[1..]), Before(lo[1..], hi[1..], w[1..]);
      BeforeSize(lo[1..], hi[1..], w[1..]);
      BeforeSplit(lo, hi, w);
      SlabSize(lo[0], w[0], rest);
      LayerSize(w[0], less);
      BoxSize(lo[1..], hi[1..]);
      assert Sides(lo, hi)[1..] == Sides(lo[1..], hi[1..]);
      assert Sides(lo, w)[1..] == Sides(lo[1..], w[1..]);
    }
  }

  lemma NothingBefore(lo: seq<int>, hi: seq<int>, w: seq<int>)
    requires w == [] && |lo| == |hi| == 0
    ensures Before(lo, hi, w) == {}
  {
  }

  /** The vectors of the box from `a` up to, and not including, `b`. */
  ghost function From(lo: seq<int>, hi: seq<int>, a: seq<int>, b: seq<int>): (s: set<seq<int>>)
    requires |lo| == |hi| == |a| == |b|
  {
    set v | v in Box(lo, hi) && |v| == |a| && LexLe(a, v) && LexLt(v, b)
  }

  lemma FromSize(lo: seq<int>, hi: seq<int>, a: seq<int>, b: seq<int>)
    requires |lo| == |hi| == |a| == |b| && LexLe(a, b)
    ensures |From(lo, hi, a, b)| == |Before(lo, hi, b)| - |Before(lo, hi, a)|
  {
    hide Box, LexLt, FirstDiff;
    forall v ensures v in Before(lo, hi, b) <==> v in Before(lo, hi, a) || v in From(lo, hi, a, b) {
      if v in Before(lo, hi, a) {
        LexTotal(v, a);
        LexTrans(v, a, b);
      }
    }
    assert Before(lo, hi, b) == Before(lo, hi, a) + From(lo, hi, a, b);
    assert Before(lo, hi, a) !! From(lo, hi, a, b);
  }

  lemma {:induction false} ValueMinus(a: seq<int>, b: seq<int>, d: seq<int>, sides: seq<int>)
    requires |a| == |b| == |d| == |sides| && forall i :: 0 <= i < |d| ==> d[i] == a[i] - b[i]
    ensures Value(d, sides) == Value(a, sides) - Value(b, sides)
  {
    if d != [] {
      ValueMinus(a[1..], b[1..], d[1..], sides[1..]);
      var v := Volume(sides[1..]);
      assert (a[0] - b[0]) * v == a[0] * v - b[0] * v;
    }
  }

  // ----- reading vectors along an order -----

  /** An injective map keeps the number of elements. */
  lemma {:induction false} ViewsCount(order: seq<nat>, n: nat, s: set<seq<int>>, t: set<seq<int>>)
    requires IsOrder(order, n) && forall v :: v in s ==> |v| == n
    requires forall v :: v in s ==> View(order, v) in t
    requires forall w :: w in t ==> exists v :: v in s && View(order, v) == w
    ensures |s| == |t|
    decreases |s|
  {
    if s == {} {
      assert t == {};
    } else {
      var v :| v in s;
      var w := View(order, v);
      forall x | x in s - {v} ensures View(order, x) in t - {w} {
        if View(order, x) == w { ViewInjective(order, x, v); }
      }
      forall y | y in t - {w} ensures exists x :: x in s - {v} && View(order, x) == y {
        var x :| x in s && View(order, x) == y;
        assert x in s - {v};
      }
      ViewsCount(order, n, s - {v}, t - {w});
    }
  }

  /** Every sequence of digits along an order belongs to a vector. */
  lemma Unview(order: seq<nat>, n: nat, w: seq<int>) returns (v: seq<int>)
    requires IsOrder(order, n) && |w| == n
    ensures |v| == n && View(order, v) == w
  {
    v := seq(n, t requires 0 <= t < n => w[PositionOf(order, n, t)]);
    forall i | 0 <= i < n ensures View(order, v)[i] == w[i] {
      assert PositionOf(order, n, order[i]) == i;
    }
  }

  ghost function PositionOf(order: seq<nat>, n: nat, t: nat): (i: nat)
    requires IsOrder(order, n) && t < n
    ensures i < n && order[i] == t
  {
    assert t in order;
    var i :| 0 <= i < |order| && order[i] == t;
    i
  }

  /** A vector is in the box exactly if its digits are in the box read along the order. */
  lemma ViewInBox(order: seq<nat>, lo: seq<int>, hi: seq<int>, v: seq<int>)
    requires |lo| == |hi| == |v| && IsOrder(order, |v|)
    ensures v in Box(lo, hi) <==> View(order, v) in Box(View(order, lo), View(order, hi))
  {
    hide Box;
    InBox(lo, hi, v);
    InBox(View(order, lo), View(order, hi), View(order, v));
    if View(order, v) in Box(View(order, lo), View(order, hi)) {
      forall t: nat | t < |v| ensures lo[t] <= v[t] < hi[t] {
        var i := PositionOf(order, |v|, t);
        assert View(order, v)[i] == v[t];
      }
    }
  }

  /** The vectors of the box from `a` up to, and not including, `b`, in the order of a join. */
  ghost function FromAlong(order: seq<nat>, lo: seq<int>, hi: seq<int>, a: seq<int>, b: seq<int>): (s: set<seq<int>>)
    requires |lo| == |hi| == |a| == |b| && IsOrder(order, |lo|)
  {
    set v | v in Box(lo, hi) && |v| == |lo| && LexLe(View(order, a), View(order, v)) &&
            LexLt(View(order, v), View(order, b))
  }

  lemma FromAlongSize(order: seq<nat>, lo: seq<int>, hi: seq<int>, a: seq<int>, b: seq<int>)
    requires |lo| == |hi| == |a| == |b| && IsOrder(order, |lo|)
    ensures |FromAlong(order, lo, hi, a, b)| ==
            |From(View(order, lo), View(order, hi), View(order, a), View(order, b))|
  {
    hide Box, LexLt, LexLe;
    var s, t := FromAlong(order, lo, hi, a, b), From(View(order, lo), View(order, hi), View(order, a), View(order, b));
    forall v | v in s ensures View(order, v) in t { ViewInBox(order, lo, hi, v); }
    forall w | w in t ensures exists v :: v in s && View(order, v) == w {
      var v := Unview(order, |lo|, w);
      ViewInBox(order, lo, hi, v);
      assert v in s;
    }
    ViewsCount(order, |lo|, s, t);
  }

  lemma BoxAlongSize(order: seq<nat>, lo: seq<int>, hi: seq<int>)
    requires |lo| == |hi| && IsOrder(order, |lo|)
    ensures |Box(lo, hi)| == |Box(View(order, lo), View(order, hi))|
  {
    hide Box;
    var s, t := Box(lo, hi), Box(View(order, lo), View(order, hi));
    forall v | v in s ensures |v| == |lo| && View(order, v) in t {
      InBox(lo, hi, v);
      ViewInBox(order, lo, hi, v);
    }
    forall w | w in t ensures exists v :: v in s && View(order, v) == w {
      InBox(View(order, lo), View(order, hi), w);
      var v := Unview(order, |lo|, w);
      ViewInBox(order, lo, hi, v);
      assert v in s;
    }
    ViewsCount(order, |lo|, s, t);
  }
}
