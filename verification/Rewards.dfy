/**
 The reward of an episode: the weighted distance between the resume vector and the final
 vector, both raised to the offsets, plus a share for the result tuples.
 */
module Rewards {
  import opened Vectors
  import opened Boxes

  function Max(a: int, b: int): (m: int)
  {
    if a > b then a else b
  }

  /** The vector raised componentwise to the offsets, read along the order. */
  function Clamped(order: seq<nat>, offset: seq<int>, v: seq<int>): (w: seq<int>)
    requires InBounds(order, |offset|) && |v| == |offset|
  {
    seq(|order|, i requires 0 <= i < |order| => Max(offset[order[i]], v[order[i]]))
  }

  /** The rows left per table, read along the order. */
  function Left(order: seq<nat>, offset: seq<int>, card: seq<int>): (r: seq<int>)
    requires InBounds(order, |offset|) && |card| == |offset|
  {
    seq(|order|, i requires 0 <= i < |order| => card[order[i]] - offset[order[i]])
  }

  function Minus(a: seq<int>, b: seq<int>): (d: seq<int>)
    requires |a| == |b|
  {
    seq(|a|, i requires 0 <= i < |a| => a[i] - b[i])
  }

  predicate Digits(d: seq<int>, radix: seq<int>)
  {
    |d| == |radix| && forall i :: 0 <= i < |d| ==> -radix[i] < d[i] < radix[i]
  }

  /** Mixed-radix fraction with (possibly negative) digits `d`. */
  ghost function Fraction(d: seq<int>, radix: seq<int>): (x: real)
    requires Digits(d, radix)
    decreases |d|
  {
    if d == [] then 0.0 else (d[0] as real + Fraction(d[1..], radix[1..])) / (radix[0] as real)
  }

  lemma DivideSign(x: real, r: real)
    requires r > 0.0
    ensures x / r > 0.0 <==> x > 0.0
    ensures x / r < 0.0 <==> x < 0.0
    ensures x < r ==> x / r < 1.0
    ensures -r < x ==> -1.0 < x / r
  {
    var q := x / r;
    Quotient(x, r, q);
  }

  lemma Quotient(x: real, r: real, q: real)
    requires r > 0.0 && q * r == x
    ensures q > 0.0 <==> x > 0.0
    ensures q < 0.0 <==> x < 0.0
    ensures x < r ==> q < 1.0
    ensures -r < x ==> -1.0 < q
  {
    if q >= 1.0 {
      assert (q - 1.0) * r >= 0.0;
      assert (q - 1.0) * r == q * r - r;
    }
    if q <= -1.0 {
      assert (q + 1.0) * r <= 0.0;
      assert (q + 1.0) * r == q * r + r;
    }
    if q < 0.0 { assert q * r < 0.0; }
    if q > 0.0 { assert q * r > 0.0; }
  }

  predicate LeadsPositive(d: seq<int>)
  {
    d != [] && (d[0] > 0 || (d[0] == 0 && LeadsPositive(d[1..])))
  }

  predicate LeadsNegative(d: seq<int>)
  {
    d != [] && (d[0] < 0 || (d[0] == 0 && LeadsNegative(d[1..])))
  }

  /** The first nonzero digit decides the sign of a mixed-radix fraction. */
  lemma {:induction false} FractionSign(d: seq<int>, radix: seq<int>)
    requires Digits(d, radix)
    ensures -1.0 < Fraction(d, radix) < 1.0
    ensures Fraction(d, radix) > 0.0 <==> LeadsPositive(d)
    ensures Fraction(d, radix) < 0.0 <==> LeadsNegative(d)
    decreases |d|
  {
    if d != [] {
      FractionSign(d[1..], radix[1..]);
      var rest := Fraction(d[1..], radix[1..]);
      assert -(radix[0] as real) + 1.0 <= d[0] as real <= radix[0] as real - 1.0;
      DivideSign(d[0] as real + rest, radix[0] as real);
    }
  }

  lemma {:induction false} LeadsNegativeIsLex(a: seq<int>, b: seq<int>)
    requires |a| == |b|
    ensures LeadsNegative(Minus(a, b)) <==> LexLt(a, b)
    decreases |a|
  {
    if a != [] {
      LeadsNegativeIsLex(a[1..], b[1..]);
      assert Minus(a, b)[1..] == Minus(a[1..], b[1..]);
      if a[0] == b[0] {
        assert FirstDiff(a, b) == 1 + FirstDiff(a[1..], b[1..]);
      }
    }
  }

  /** What a reward is computed from: offsets below the cardinalities, rows below them. */
  predicate RewardInput(order: seq<nat>, offset: seq<int>, initial: seq<int>, final: seq<int>, card: seq<int>)
  {
    && IsOrder(order, |card|) && |offset| == |initial| == |final| == |card|
    && forall t :: 0 <= t < |card| ==> offset[t] < card[t] && initial[t] < card[t] && final[t] < card[t]
  }

  ghost function Progress(order: seq<nat>, offset: seq<int>, initial: seq<int>, final: seq<int>,
                          card: seq<int>): (x: real)
    requires RewardInput(order, offset, initial, final, card)
  {
    Fraction(Minus(Clamped(order, offset, final), Clamped(order, offset, initial)), Left(order, offset, card))
  }

  /** The reward of the original, with exact reals for its doubles. */
  method Reward(order: seq<nat>, offset: seq<int>, initial: seq<int>, final: seq<int>, card: seq<int>,
                numResultTuples: int, budget: int) returns (reward: real)
    requires RewardInput(order, offset, initial, final, card) && budget > 0
    ensures reward == 0.5 * Progress(order, offset, initial, final, card) +
            0.5 * numResultTuples as real / budget as real
  {
    hide Accumulated, Fraction;
    ghost var d := Minus(Clamped(order, offset, final), Clamped(order, offset, initial));
    ghost var r := Left(order, offset, card);
    Accumulated0(d, r);
    var progress, weight := 0.0, 1.0;
    for i := 0 to |order|
      invariant Accumulated(d, r, i, progress, weight)
    {
      var table := order[i];
      var remaining := card[table] - offset[table];
      assert remaining == r[i] && remaining > 0;
      var start := Max(offset[table], initial[table]);
      var end := Max(offset[table], final[table]);
      assert end - start == d[i];
      ghost var progress0, weight0 := progress, weight;
      weight := weight * (1.0 / remaining as real);
      progress := progress + (end - start) as real * weight;
      Accumulate(d, r, i, progress0, weight0, end - start, remaining, progress, weight);
    }
    AccumulatedAll(d, r, progress, weight);
    reward := 0.5 * progress + 0.5 * numResultTuples as real / budget as real;
  }

  /** The digits before position `i` are summed up in `progress`; `weight` scales the rest. */
  ghost predicate Accumulated(d: seq<int>, r: seq<int>, i: nat, progress: real, weight: real)
    requires Digits(d, r) && i <= |d|
  {
    progress + weight * Fraction(d[i..], r[i..]) == Fraction(d, r)
  }

  lemma Accumulated0(d: seq<int>, r: seq<int>)
    requires Digits(d, r)
    ensures Accumulated(d, r, 0, 0.0, 1.0)
  {
    assert d[0..] == d && r[0..] == r;
  }

  lemma AccumulatedAll(d: seq<int>, r: seq<int>, progress: real, weight: real)
    requires Digits(d, r) && Accumulated(d, r, |d|, progress, weight)
    ensures progress == Fraction(d, r)
  {
    assert d[|d|..] == [];
    assert weight * 0.0 == 0.0;
  }

  lemma FractionStep(d: seq<int>, r: seq<int>, i: nat)
    requires Digits(d, r) && i < |d|
    ensures r[i] > 0
    ensures Fraction(d[i..], r[i..]) == (d[i] as real + Fraction(d[i + 1..], r[i + 1..])) / (r[i] as real)
  {
    assert d[i..][1..] == d[i + 1..] && r[i..][1..] == r[i + 1..];
  }

  lemma Accumulate(d: seq<int>, r: seq<int>, i: nat, progress: real, weight: real, delta: int, remaining: int,
                   progress': real, weight': real)
    requires Digits(d, r) && i < |d| && Accumulated(d, r, i, progress, weight)
    requires delta == d[i] && remaining == r[i] && remaining > 0
    requires weight' == weight * (1.0 / remaining as real)
    requires progress' == progress + delta as real * weight'
    ensures Accumulated(d, r, i + 1, progress', weight')
  {
    hide Fraction;
    FractionStep(d, r, i);
    Distribute(weight, d[i] as real, Fraction(d[i + 1..], r[i + 1..]), r[i] as real);
  }

  lemma Distribute(w: real, x: real, y: real, r: real)
    requires r > 0.0
    ensures w * ((x + y) / r) == x * (w * (1.0 / r)) + (w * (1.0 / r)) * y
  {
    var q := 1.0 / r;
    assert q * r == 1.0;
    assert ((x + y) / r) * r == x + y;
    assert (x + y) / r == (x + y) * q by {
      assert ((x + y) * q) * r == (x + y) * (q * r);
    }
    assert w * ((x + y) * q) == (w * q) * x + (w * q) * y;
  }

  /** The progress is negative exactly when raising both vectors to the offsets reverses them. */
  lemma ProgressSign(order: seq<nat>, offset: seq<int>, initial: seq<int>, final: seq<int>, card: seq<int>)
    requires RewardInput(order, offset, initial, final, card)
    ensures Progress(order, offset, initial, final, card) >= 0.0 <==>
            LexLe(Clamped(order, offset, initial), Clamped(order, offset, final))
  {
    var a, b := Clamped(order, offset, final), Clamped(order, offset, initial);
    FractionSign(Minus(a, b), Left(order, offset, card));
    LeadsNegativeIsLex(a, b);
  }

  // ----- the progress as a share of all vectors -----

  /** `w` is `v` raised to the offsets. */
  ghost predicate IsRaised(offset: seq<int>, v: seq<int>, w: seq<int>)
    requires |offset| == |v| == |w|
  {
    forall t :: 0 <= t < |w| ==> w[t] >= offset[t] && w[t] >= v[t] && (w[t] == offset[t] || w[t] == v[t])
  }

  /** As a share of all vectors that are not behind the offsets, `x` is what lies from `start`
      up to, and not including, `end` in the order of the join; going back counts negatively. */
  ghost predicate IsShare(order: seq<nat>, offset: seq<int>, card: seq<int>, start: seq<int>, end: seq<int>, x: real)
    requires IsOrder(order, |card|) && |offset| == |start| == |end| == |card|
  {
    var all := |Box(offset, card)| as real;
    && all > 0.0
    && (LexLe(View(order, start), View(order, end)) ==>
          x * all == |FromAlong(order, offset, card, start, end)| as real)
    && (LexLe(View(order, end), View(order, start)) ==>
          x * all == -(|FromAlong(order, offset, card, end, start)| as real))
  }

  lemma {:induction false} FractionScaled(d: seq<int>, r: seq<int>)
    requires Digits(d, r)
    ensures Volume(r) > 0 && Fraction(d, r) * Volume(r) as real == Value(d, r) as real
  {
    hide Fraction, Volume, Value;
    Heads(d, r);
    if d != [] {
      FractionScaled(d[1..], r[1..]);
      ScaleStep(d[0], r[0], Fraction(d[1..], r[1..]), Volume(r[1..]), Value(d[1..], r[1..]));
    }
  }

  lemma Heads(d: seq<int>, r: seq<int>)
    requires Digits(d, r)
    ensures d == [] ==> Fraction(d, r) == 0.0 && Volume(r) == 1 && Value(d, r) == 0
    ensures d != [] ==> r[0] > 0 && Fraction(d, r) == (d[0] as real + Fraction(d[1..], r[1..])) / r[0] as real
    ensures d != [] ==> Volume(r) == r[0] * Volume(r[1..])
    ensures d != [] ==> Value(d, r) == d[0] * Volume(r[1..]) + Value(d[1..], r[1..])
  {
    if d != [] { assert -r[0] < d[0] < r[0]; }
  }

  lemma ScaleStep(d: int, r: int, f: real, v: int, w: int)
    requires r > 0 && v > 0 && f * v as real == w as real
    ensures r * v > 0 && ((d as real + f) / r as real) * (r * v) as real == (d * v + w) as real
  {
    var q, y := (d as real + f) / r as real, v as real;
    Products(d, r, v);
    assert q * r as real == d as real + f;
    assert q * (r as real * y) == (q * r as real) * y;
    assert (d as real + f) * y == d as real * y + f * y;
  }

  lemma Products(d: int, r: int, v: int)
    requires r > 0 && v > 0
    ensures r * v > 0 && (r * v) as real == r as real * v as real && (d * v) as real == d as real * v as real
  {
  }

  /** Both vectors as numbers: their difference is what the progress is a share of. */
  lemma ProgressScaled(order: seq<nat>, offset: seq<int>, initial: seq<int>, final: seq<int>, card: seq<int>,
                       start: seq<int>, end: seq<int>)
    requires RewardInput(order, offset, initial, final, card) && |start| == |end| == |card|
    requires IsRaised(offset, initial, start) && IsRaised(offset, final, end)
    ensures var lo, hi := View(order, offset), View(order, card);
            Progress(order, offset, initial, final, card) * Volume(Sides(lo, hi)) as real ==
            (|Before(lo, hi, View(order, end))| - |Before(lo, hi, View(order, start))|) as real
  {
    hide Fraction, Before, Volume, Value, Digits, IsRaised;
    var lo, hi, s, e := View(order, offset), View(order, card), View(order, start), View(order, end);
    var d, r := Minus(Clamped(order, offset, final), Clamped(order, offset, initial)), Left(order, offset, card);
    LeftIsSides(order, offset, card);
    RaisedIsClamped(order, offset, initial, start, card);
    RaisedIsClamped(order, offset, final, end, card);
    ProgressDigits(order, offset, initial, final, card);
    FractionScaled(d, r);
    BeforeSize(lo, hi, e);
    BeforeSize(lo, hi, s);
    SidesMinus(lo, s, e, r);
  }

  lemma LeftIsSides(order: seq<nat>, offset: seq<int>, card: seq<int>)
    requires InBounds(order, |offset|) && |card| == |offset|
    ensures Left(order, offset, card) == Sides(View(order, offset), View(order, card))
  {
  }

  lemma RaisedIsClamped(order: seq<nat>, offset: seq<int>, v: seq<int>, w: seq<int>, card: seq<int>)
    requires InBounds(order, |offset|) && |v| == |offset| == |w| == |card| && IsRaised(offset, v, w)
    requires forall t :: 0 <= t < |card| ==> offset[t] < card[t] && v[t] < card[t]
    ensures Clamped(order, offset, v) == View(order, w) && IsBox(View(order, offset), View(order, card))
    ensures forall i :: 0 <= i < |order| ==>
              View(order, offset)[i] <= View(order, w)[i] < View(order, card)[i]
  {
  }

  lemma SidesMinus(lo: seq<int>, s: seq<int>, e: seq<int>, r: seq<int>)
    requires |lo| == |s| == |e| == |r|
    ensures Value(Minus(e, s), r) == Value(Sides(lo, e), r) - Value(Sides(lo, s), r)
  {
    ValueMinus(Sides(lo, e), Sides(lo, s), Minus(e, s), r);
  }

  lemma ProgressDigits(order: seq<nat>, offset: seq<int>, initial: seq<int>, final: seq<int>, card: seq<int>)
    requires RewardInput(order, offset, initial, final, card)
    ensures Digits(Minus(Clamped(order, offset, final), Clamped(order, offset, initial)), Left(order, offset, card))
  {
  }

  /** The progress is the share of the vectors that an episode has moved over. */
  lemma ProgressIsShare(order: seq<nat>, offset: seq<int>, initial: seq<int>, final: seq<int>, card: seq<int>,
                        start: seq<int>, end: seq<int>)
    requires RewardInput(order, offset, initial, final, card) && |start| == |end| == |card|
    requires IsRaised(offset, initial, start) && IsRaised(offset, final, end)
    ensures IsShare(order, offset, card, start, end, Progress(order, offset, initial, final, card))
  {
    hide Progress, Before, Box, From, FromAlong, LexLe, LexLt, IsRaised, Volume;
    var lo, hi, s, e := View(order, offset), View(order, card), View(order, start), View(order, end);
    ProgressScaled(order, offset, initial, final, card, start, end);
    BoxSize(lo, hi);
    BoxAlongSize(order, offset, card);
    if LexLe(s, e) {
      FromSize(lo, hi, s, e);
      FromAlongSize(order, offset, card, start, end);
    }
    if LexLe(e, s) {
      FromSize(lo, hi, e, s);
      FromAlongSize(order, offset, card, end, start);
    }
  }

  /** Digits above the offsets up to some position and maximal after it: the shape of every
      final vector an episode produces. */
  ghost predicate AboveOffsets(order: seq<nat>, offset: seq<int>, card: seq<int>, f: seq<int>, b: nat)
    requires InBounds(order, |card|) && |f| == |offset| == |card|
  {
    && (forall j :: 0 <= j < b && j < |order| ==> offset[order[j]] < f[order[j]])
    && (forall j :: b < j < |order| ==> f[order[j]] == card[order[j]] - 1)
  }

  /** Moving forward to such a vector is never punished, although the offset of the first
      table may have been raised in between to the last row that was finished. */
  lemma ForwardIsRewarded(order: seq<nat>, offset: seq<int>, offset': seq<int>, initial: seq<int>, final: seq<int>,
                          card: seq<int>, b: nat)
    requires RewardInput(order, offset', initial, final, card) && 0 < |card| && |offset| == |card|
    requires forall i :: 1 <= i < |order| ==> offset'[order[i]] == offset[order[i]]
    requires offset'[order[0]] == offset[order[0]]
             || offset'[order[0]] < final[order[0]]
             || forall j :: 0 < j < |order| ==> final[order[j]] == card[order[j]] - 1
    requires AboveOffsets(order, offset, card, final, b)
    requires forall t :: 0 <= t < |card| ==> offset[t] < card[t] - 1
    requires LexLe(View(order, initial), View(order, final))
    ensures Progress(order, offset', initial, final, card) >= 0.0
  {
    var p, f := View(order, initial), View(order, final);
    var s, e := Clamped(order, offset', initial), Clamped(order, offset', final);
    LexTotal(p, f);
    var i := FirstDiff(p, f);
    forall d | 0 <= d < |order| && (forall j :: 0 <= j < d ==> e[j] == s[j])
      ensures s[d] <= e[d]
    {
      if d < i {
        assert p[d] == f[d] && p[d] == initial[order[d]] && f[d] == final[order[d]];
      } else {
        assert p[i] == initial[order[i]] && f[i] == final[order[i]];
        if d > i {
          assert e[i] == s[i];
          assert final[order[i]] <= offset'[order[i]];
          assert final[order[d]] == card[order[d]] - 1;
        }
      }
    }
    ProgressSign(order, offset', initial, final, card);
  }

  lemma ThreeTables(order: seq<nat>)
    requires order == [0, 1, 2]
    ensures IsOrder(order, 3)
  {
    forall t: nat | t < 3 ensures t in order { assert order[t] == t; }
  }

  /** Without that shape, a vector that lies ahead can still be punished. */
  lemma ForwardCanBePunished(order: seq<nat>, offset: seq<int>, initial: seq<int>, final: seq<int>, card: seq<int>)
    requires order == [0, 1, 2] && offset == [-1, 5, -1] && card == [1, 7, 10]
    requires initial == [0, 1, 9] && final == [0, 2, 0]
    ensures RewardInput(order, offset, initial, final, card)
    ensures LexLt(View(order, initial), View(order, final))
    ensures Progress(order, offset, initial, final, card) < 0.0
  {
    hide IsOrder, LexLt, FirstDiff, Progress, Fraction;
    ThreeTables(order);
    var p, f := View(order, initial), View(order, final);
    assert p[0] == f[0] && p[1] < f[1];
    LexLtAt(p, f, 1);
    var s, e := Clamped(order, offset, initial), Clamped(order, offset, final);
    assert s[0] == e[0] && s[1] == e[1] && e[2] < s[2];
    LexLtAt(e, s, 2);
    ProgressSign(order, offset, initial, final, card);
  }
}
