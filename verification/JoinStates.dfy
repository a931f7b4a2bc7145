/**
 `JoinState`: what the adaptive join remembers between episodes.

 The class keeps the progress tree, the per-table offsets and the completion flag, and
 updates them in place.  The ghost set `done` handed to its methods holds the vectors
 the join has processed; the class itself never looks at it.
 */
module JoinStates {
  import opened Wrappers
  import opened Vectors
  import opened ProgressTrees

  /** How `Update` ended; the last two stand for its exceptions. */
  datatype UpdateStatus = Completed | Advanced | AlreadyDone | NegativeProgress

  predicate IsMaximal(card: seq<int>, v: seq<int>)
    requires |v| == |card|
  {
    forall t :: 0 <= t < |card| ==> v[t] == card[t] - 1
  }

  /** `v` lies at or before the resume point `r`; nothing lies before an absent one. */
  predicate AtOrBefore(order: seq<nat>, v: seq<int>, r: Option<seq<int>>)
    requires InBounds(order, |v|)
    requires r.Some? ==> InBounds(order, |r.value|)
  {
    r.Some? && LexLe(View(order, v), View(order, r.value))
  }

  /** `r` bounds exactly the vectors that the tree vouches for along `order`. */
  ghost predicate ResumesAt(card: seq<int>, nodes: Tree, order: seq<nat>, r: Option<seq<int>>)
    requires IsOrder(order, |card|)
    requires r.Some? ==> InRange(card, r.value)
  {
    forall v :: InRange(card, v) ==> (AtOrBefore(order, v, r) <==> Behind(nodes, order, v))
  }

  /** Everything at or before `f` along `order` has been processed. */
  ghost predicate DoneUpTo(card: seq<int>, order: seq<nat>, f: seq<int>, done: iset<seq<int>>)
    requires IsOrder(order, |card|) && InRange(card, f)
  {
    forall v :: InRange(card, v) && LexLe(View(order, v), View(order, f)) ==> v in done
  }

  /** No table is ever offset up to its last row: that would have completed the join. */
  predicate ValidOffset(card: seq<int>, offset: seq<int>)
  {
    |offset| == |card| && forall t :: 0 <= t < |card| ==> -1 <= offset[t] <= card[t] - 2
  }

  /** An offset `k` of table `t` vouches for every vector whose row of `t` is at most `k`. */
  ghost predicate OffsetsCover(card: seq<int>, offset: seq<int>, done: iset<seq<int>>)
    requires |offset| == |card|
  {
    forall t, v :: 0 <= t < |card| && InRange(card, v) && v[t] <= offset[t] ==> v in done
  }

  ghost predicate AllDone(card: seq<int>, done: iset<seq<int>>)
  {
    forall v :: InRange(card, v) ==> v in done
  }

  /** The whole block of vectors whose row of the first table is `f`'s ends at `f`. */
  predicate BlockCompleted(card: seq<int>, order: seq<nat>, f: seq<int>)
    requires InBounds(order, |card|) && |f| == |card|
  {
    forall i :: 1 <= i < |order| ==> f[order[i]] == card[order[i]] - 1
  }

  /** The last of the vectors whose row of table `t` is `k`, along any order that starts with `t`. */
  ghost function BlockEnd(card: seq<int>, t: nat, k: int): (v: seq<int>)
    requires t < |card|
    ensures |v| == |card|
  {
    seq(|card|, i requires 0 <= i < |card| => if i == t then k else card[i] - 1)
  }

  /** Once an order has passed all vectors with a given row of its first table, the offset of that
      table says so. */
  ghost predicate OffsetsLead(card: seq<int>, nodes: Tree, offset: seq<int>)
    requires |offset| == |card| && 0 < |card|
  {
    forall order, k :: IsOrder(order, |card|) && 0 <= k && Behind(nodes, order, BlockEnd(card, order[0], k)) ==>
                         k <= offset[order[0]]
  }

  /** The largest row of the first table all of whose vectors lie at or before `f`. */
  function FinishedRow(card: seq<int>, order: seq<nat>, f: seq<int>): (k: int)
    requires IsOrder(order, |card|) && 0 < |card| && |f| == |card|
  {
    if BlockCompleted(card, order, f) then f[order[0]] else f[order[0]] - 1
  }

  /** The offsets after `order` has been executed up to `f`. */
  function RaisedOffset(card: seq<int>, order: seq<nat>, f: seq<int>, offset: seq<int>): (r: seq<int>)
    requires IsOrder(order, |card|) && 0 < |card| && |f| == |card| == |offset|
  {
    var t, k := order[0], FinishedRow(card, order, f);
    offset[t := if k > offset[t] then k else offset[t]]
  }

  /** Only the first table's offset moves, never back, and at least to the finished row. */
  lemma OffsetRises(card: seq<int>, order: seq<nat>, f: seq<int>, offset: seq<int>, t: nat)
    requires IsOrder(order, |card|) && 0 < |card| && |f| == |card| == |offset| && t < |card|
    ensures var r := RaisedOffset(card, order, f, offset);
            && |r| == |card| && r[t] >= offset[t] && (t != order[0] ==> r[t] == offset[t])
            && FinishedRow(card, order, f) <= r[order[0]]
            && (r[order[0]] > offset[order[0]] ==> r[order[0]] == FinishedRow(card, order, f))
  {
  }

  /** The state before and after an update.  A rejected update has already raised the offset. */
  ghost predicate IsUpdate(card: seq<int>, finished: bool, nodes: Tree, offset: seq<int>,
                           order: seq<nat>, f: seq<int>, status: UpdateStatus,
                           finished': bool, nodes': Tree, offset': seq<int>)
    requires IsOrder(order, |card|) && 0 < |card| && InRange(card, f) && |offset| == |card|
  {
    && status == (if finished then AlreadyDone
                  else if IsMaximal(card, f) then Completed
                  else if Regresses(nodes, order, f) then NegativeProgress
                  else Advanced)
    && finished' == (finished || status.Completed?)
    && (if status.Advanced? then IsAdvance(nodes, order, f, nodes') else nodes' == nodes)
    && offset' == (if status.Completed? || status.AlreadyDone? then offset
                   else RaisedOffset(card, order, f, offset))
  }

  /** Rows of the first table up to `FinishedRow` are exactly those whose vectors all lie at
      or before `f`. */
  lemma FinishedRowIsExact(card: seq<int>, order: seq<nat>, f: seq<int>, k: int)
    requires IsOrder(order, |card|) && 0 < |card| && InRange(card, f) && 0 <= k < card[order[0]]
    ensures k <= FinishedRow(card, order, f) <==>
            forall v :: InRange(card, v) && v[order[0]] == k ==> LexLe(View(order, v), View(order, f))
  {
    var w := View(order, f);
    if k <= FinishedRow(card, order, f) {
      forall v | InRange(card, v) && v[order[0]] == k
        ensures LexLe(View(order, v), w)
      {
        var u := View(order, v);
        assert u[0] == k && w[0] == f[order[0]];
        var d := FirstDiff(w, u);
        if d < |w| && d > 0 {
          assert w[d] == f[order[d]] && u[d] == v[order[d]];
        }
      }
    } else {
      var v := seq(|card|, t requires 0 <= t < |card| => if t == order[0] then k else card[t] - 1);
      assert InRange(card, v);
      var u := View(order, v);
      assert u[0] == k && w[0] == f[order[0]];
      if k > f[order[0]] {
        LexLtAt(w, u, 0);
      } else {
        var d := FirstDiff(w, u);
        assert d > 0;
        if d == |w| {
          forall i | 1 <= i < |order| ensures f[order[i]] == card[order[i]] - 1 {
            assert w[i] == u[i];
          }
          assert false;
        }
        assert w[d] == f[order[d]] && u[d] == card[order[d]] - 1;
        LexLtAt(w, u, d);
      }
    }
  }

  ghost function AllOrders(n: nat): (s: set<seq<nat>>)
  {
    set o: seq<nat> | o in AllVectors(seq(n, _ => n)) && IsOrder(o, n)
  }

  lemma AllOrdersComplete(n: nat, order: seq<nat>)
    ensures order in AllOrders(n) <==> IsOrder(order, n)
  {
    AllVectorsComplete(seq(n, _ => n), order);
  }

  /** The pairs of a table order and a vector that the order has not reached yet. */
  ghost function Remaining(card: seq<int>, nodes: Tree): (s: set<(seq<nat>, seq<int>)>)
  {
    set o, v | o in AllOrders(|card|) && v in AllVectors(card) && InRange(card, v) && !Behind(nodes, o, v) :: (o, v)
  }

  /** An update shrinks what remains: no order falls back and its own order moves ahead. */
  lemma AdvanceShrinksRemaining(card: seq<int>, nodes: Tree, order: seq<nat>, f: seq<int>, nodes': Tree)
    requires IsTree(card, nodes) && IsOrder(order, |card|) && InRange(card, f)
    requires IsAdvance(nodes, order, f, nodes') && !Behind(nodes, order, f)
    ensures Remaining(card, nodes') < Remaining(card, nodes)
  {
    AheadNeverRegresses(nodes, order, f);
    forall o, v | (o, v) in Remaining(card, nodes')
      ensures (o, v) in Remaining(card, nodes)
    {
      if Behind(nodes, o, v) {
        AdvanceMonotone(card, nodes, order, f, nodes', o, v);
      }
    }
    AllOrdersComplete(|card|, order);
    AllVectorsComplete(card, f);
    AdvanceOwn(card, nodes, order, f, nodes', f);
    LexTotal(View(order, f), View(order, f));
    assert (order, f) in Remaining(card, nodes) && (order, f) !in Remaining(card, nodes');
  }

  /** Decrements `v` by one along `order`, or fails when every digit is zero. */
  method TryDecrement(card: seq<int>, order: seq<nat>, v: seq<int>) returns (r: Option<seq<int>>)
    requires IsOrder(order, |card|) && 0 < |card| && InRange(card, v)
    ensures r.None? <==> AllZero(View(order, v))
    ensures r.Some? ==> InRange(card, r.value)
    ensures r.Some? ==> exists b :: IsPredecessor(View(order, card), View(order, v), View(order, r.value), b)
  {
    var u := v;
    var i := |order| - 1;
    while i >= 0
      invariant -1 <= i < |order| && |u| == |card| && InRange(card, u)
      invariant forall j :: 0 <= j <= i ==> u[order[j]] == v[order[j]]
      invariant forall j :: i < j < |order| ==> v[order[j]] == 0 && u[order[j]] == card[order[j]] - 1
      invariant i >= 0
      decreases i
    {
      var table := order[i];
      if u[table] == 0 {
        if i == 0 {
          return None;
        }
        u := u[table := card[table] - 1];
      } else {
        u := u[table := u[table] - 1];
        assert IsPredecessor(View(order, card), View(order, v), View(order, u), i);
        return Some(u);
      }
      i := i - 1;
    }
  }

  /** Sets the digits of `v` from position `i` of the order on to zero. */
  method ZeroFrom(card: seq<int>, order: seq<nat>, i: nat, v: seq<int>) returns (u: seq<int>)
    requires IsOrder(order, |card|) && InRange(card, v) && i <= |order|
    ensures InRange(card, u)
    ensures forall k :: 0 <= k < i ==> u[order[k]] == v[order[k]]
    ensures forall k :: i <= k < |order| ==> u[order[k]] == 0
  {
    u := v;
    for j := i to |order|
      invariant InRange(card, u)
      invariant forall k :: 0 <= k < i ==> u[order[k]] == v[order[k]]
      invariant forall k :: i <= k < j ==> u[order[k]] == 0
    {
      u := u[order[j] := 0];
    }
  }

  /** `nodes'` is `nodes` with the nodes of `order` at depths `from`+1 to `to` set from `f`. */
  ghost predicate IsExtension(nodes: Tree, order: seq<nat>, f: seq<int>, from: nat, to: nat, nodes': Tree)
    requires InBounds(order, |f|)
  {
    && (forall p :: p in nodes' <==> p in nodes || (OnPath(order, p) && from < |p| <= to))
    && (forall p :: p in nodes' ==>
                      nodes'[p] == if OnPath(order, p) && from < |p| <= to then f[p[|p| - 1]] else nodes[p])
  }

  class JoinState {
    const card: seq<int>
    var finished: bool
    var nodes: Tree
    var offset: seq<int>

    ghost predicate Valid()
      reads this
    {
      && 0 < |card| && (forall t :: 0 <= t < |card| ==> 0 < card[t])
      && IsTree(card, nodes)
      && ValidOffset(card, offset)
      && OffsetsLead(card, nodes, offset)
    }

    /** Everything the state vouches for is in `done`. */
    ghost predicate Sound(done: iset<seq<int>>)
      requires Valid()
      reads this
    {
      && Covers(card, nodes, done)
      && OffsetsCover(card, offset, done)
      && (finished ==> AllDone(card, done))
    }

    constructor (cardinalities: seq<int>)
      requires 0 < |cardinalities| && forall t :: 0 <= t < |cardinalities| ==> 0 < cardinalities[t]
      ensures Valid() && card == cardinalities && !finished
      ensures nodes == map[] && offset == seq(|card|, _ => -1)
      ensures forall done :: Sound(done)
    {
      card := cardinalities;
      finished := false;
      nodes := map[];
      offset := seq(|cardinalities|, _ => -1);
    }

    /** The resume point bounds exactly the vectors that the tree vouches for. */
    method GetLastCompletedTupleIdx(order: seq<nat>) returns (r: Option<seq<int>>)
      requires Valid() && IsOrder(order, |card|)
      ensures r.Some? ==> InRange(card, r.value)
      ensures ResumesAt(card, nodes, order, r)
    {
      var last := seq(|order|, _ => 0);
      for i := 0 to |order|
        invariant |last| == |card| && InRange(card, last)
        invariant Stored(nodes, order, i)
        invariant forall k :: 0 <= k < i ==> last[order[k]] == nodes[order[..k + 1]]
      {
        var table := order[i];
        if order[..i + 1] !in nodes {
          StoredIsShallow(nodes, order, i);
          if i == 0 {
            return None;
          }
          last := ZeroFrom(card, order, i, last);
          r := TryDecrement(card, order, last);
          PaddedPrefix(card, nodes, order, i, last, r);
          return;
        }
        last := last[table := nodes[order[..i + 1]]];
      }
      r := Some(last);
      CompletePath(card, nodes, order, last);
    }

    /** Records that `order` has been executed up to and including `f`. */
    method Update(order: seq<nat>, f: seq<int>, ghost done: iset<seq<int>>) returns (status: UpdateStatus)
      requires Valid() && IsOrder(order, |card|) && InRange(card, f)
      modifies this
      ensures Valid()
      ensures IsUpdate(card, old(finished), old(nodes), old(offset), order, f, status, finished, nodes, offset)
      ensures old(Sound(done)) && DoneUpTo(card, order, f, done) ==> Sound(done)
    {
      if finished {
        return AlreadyDone;
      }
      if IsMaximal(card, f) {
        finished := true;
        CompletedIsAllDone(card, order, f, done);
        return Completed;
      }
      ghost var before := nodes;
      ghost var offset0 := offset;

      // update the offset of the first table
      RaisedOffsetInRange(card, order, f, offset);
      offset := RaisedOffset(card, order, f, offset);

      status := UpdateTree(order, f);
      UpdatedIsTree(card, before, order, f, nodes, status);
      UpdateKeepsLead(card, order, f, before, offset0, status, nodes);
      UpdateKeepsSound(card, order, f, before, offset0, status, nodes, done);
    }

    /** The walk along `order` that fast-forwards the first node `f` has passed. */
    method UpdateTree(order: seq<nat>, f: seq<int>) returns (status: UpdateStatus)
      requires IsTree(card, nodes) && IsOrder(order, |card|) && InRange(card, f)
      modifies this`nodes
      ensures status == if Regresses(old(nodes), order, f) then NegativeProgress else Advanced
      ensures if status.Advanced? then IsAdvance(old(nodes), order, f, nodes) else nodes == old(nodes)
    {
      for i := 0 to |order|
        invariant nodes == old(nodes) && Stored(nodes, order, i)
        invariant forall k :: 0 <= k < i ==> nodes[order[..k + 1]] == f[order[k]]
      {
        var table := order[i];
        var path := order[..i + 1];
        if path !in nodes {
          WalkEnd(nodes, order, f, i);
          ExtendPath(order, f, i);
          ExtendIsAdvance(old(nodes), order, f, i, nodes);
          return Advanced;
        }
        if f[table] < nodes[path] {
          ForkIs(nodes, order, f, i);
          return NegativeProgress;
        }
        if f[table] > nodes[path] {
          ForkIs(nodes, order, f, i);
          FastForward(order, f, i);
          return Advanced;
        }
      }
      WalkEnd(nodes, order, f, |order|);
      ExtendIsAdvance(nodes, order, f, |order|, nodes);
      status := Advanced;
    }

    /** Moves the node of `order` at depth `i` to its row of `f`, forgets the nodes below it
        and creates the rest of the path. */
    method FastForward(order: seq<nat>, f: seq<int>, i: nat)
      requires InBounds(order, |f|) && i == Fork(nodes, order, f) < Depth(nodes, order)
      requires forall k :: 0 <= k < i ==> nodes[order[..k + 1]] == f[order[k]]
      modifies this`nodes
      ensures IsAdvance(old(nodes), order, f, nodes)
    {
      var path := order[..i + 1];
      nodes := nodes[path := f[order[i]]];
      nodes := map p | p in nodes && !(path < p) :: nodes[p];
      ghost var forwarded := nodes;
      ExtendPath(order, f, i + 1);
      FastForwardIsAdvance(old(nodes), order, f, i, forwarded, nodes);
    }

    /** Creates the nodes of `order` from depth `from` on. */
    method ExtendPath(order: seq<nat>, f: seq<int>, from: nat)
      requires InBounds(order, |f|) && from <= |order|
      modifies this`nodes
      ensures IsExtension(old(nodes), order, f, from, |order|, nodes)
    {
      for j := from to |order|
        invariant IsExtension(old(nodes), order, f, from, j, nodes)
      {
        assert OnPath(order, order[..j + 1]);
        assert forall p :: OnPath(order, p) && |p| == j + 1 ==> p == order[..j + 1];
        nodes := nodes[order[..j + 1] := f[order[j]]];
      }
    }
  }

  // ----- facts used by the methods -----

  /** Padding the stored prefix with zeros and stepping back bounds what lies before it. */
  lemma PaddedPrefix(card: seq<int>, nodes: Tree, order: seq<nat>, i: nat, last: seq<int>, r: Option<seq<int>>)
    requires IsOrder(order, |card|) && InRange(card, last) && i < |order| && Depth(nodes, order) == i
    requires forall k :: 0 <= k < i ==> last[order[k]] == nodes[order[..k + 1]]
    requires forall k :: i <= k < |order| ==> last[order[k]] == 0
    requires r.None? <==> AllZero(View(order, last))
    requires r.Some? ==> InRange(card, r.value)
    requires r.Some? ==> exists b :: IsPredecessor(View(order, card), View(order, last), View(order, r.value), b)
    ensures ResumesAt(card, nodes, order, r)
  {
    var c, w := View(order, card), View(order, last);
    forall v | InRange(card, v)
      ensures AtOrBefore(order, v, r) <==> Behind(nodes, order, v)
    {
      var u := View(order, v);
      assert InRange(c, u);
      assert w[..i] == Vals(nodes, order, i);
      assert u[..i] == View(order[..i], v);
      if LexLt(u, w) {
        assert FirstDiff(u, w) < i;
        LexLtAt(u[..i], w[..i], FirstDiff(u, w));
      }
      LexPrefix(u, w, i);
      if r.Some? {
        var b :| IsPredecessor(c, w, View(order, r.value), b);
        PredecessorIsBefore(c, w, View(order, r.value), b, u);
      } else {
        NothingBeforeZero(w, c, u);
      }
    }
  }

  lemma MaximalIsLastInOrder(card: seq<int>, order: seq<nat>, f: seq<int>)
    requires IsOrder(order, |card|) && 0 < |card| && InRange(card, f)
    ensures IsMaximal(card, f) ==> forall v :: InRange(card, v) ==> LexLe(View(order, v), View(order, f))
    ensures IsMaximal(card, f) <==> FinishedRow(card, order, f) == card[order[0]] - 1
  {
    if IsMaximal(card, f) {
      forall v | InRange(card, v) ensures LexLe(View(order, v), View(order, f)) {
        MaximalIsLast(View(order, card), View(order, f), View(order, v));
      }
    }
    if FinishedRow(card, order, f) == card[order[0]] - 1 {
      forall t: nat | t < |card| ensures f[t] == card[t] - 1 {
        assert t in order;
        var i :| 0 <= i < |order| && order[i] == t;
      }
    }
  }

  lemma CompletedIsAllDone(card: seq<int>, order: seq<nat>, f: seq<int>, done: iset<seq<int>>)
    requires IsOrder(order, |card|) && 0 < |card| && InRange(card, f) && IsMaximal(card, f)
    ensures DoneUpTo(card, order, f, done) ==> AllDone(card, done)
  {
    MaximalIsLastInOrder(card, order, f);
  }

  lemma RaisedOffsetInRange(card: seq<int>, order: seq<nat>, f: seq<int>, offset: seq<int>)
    requires IsOrder(order, |card|) && 0 < |card| && InRange(card, f) && !IsMaximal(card, f)
    requires ValidOffset(card, offset)
    ensures ValidOffset(card, RaisedOffset(card, order, f, offset))
  {
    MaximalIsLastInOrder(card, order, f);
  }

  lemma RowsUpToFinished(card: seq<int>, order: seq<nat>, f: seq<int>)
    requires IsOrder(order, |card|) && 0 < |card| && InRange(card, f)
    ensures forall v :: InRange(card, v) && v[order[0]] <= FinishedRow(card, order, f)
                        ==> LexLe(View(order, v), View(order, f))
  {
    forall v | InRange(card, v) && v[order[0]] <= FinishedRow(card, order, f)
      ensures LexLe(View(order, v), View(order, f))
    {
      FinishedRowIsExact(card, order, f, v[order[0]]);
    }
  }

  lemma CompletePath(card: seq<int>, nodes: Tree, order: seq<nat>, last: seq<int>)
    requires IsOrder(order, |card|) && InRange(card, last) && Stored(nodes, order, |order|)
    requires forall k :: 0 <= k < |order| ==> last[order[k]] == nodes[order[..k + 1]]
    ensures ResumesAt(card, nodes, order, Some(last))
  {
    StoredIsShallow(nodes, order, |order|);
    assert order[..|order|] == order;
    assert View(order, last) == Vals(nodes, order, |order|);
  }

  lemma RaisedOffsetCovers(card: seq<int>, order: seq<nat>, f: seq<int>, offset: seq<int>, done: iset<seq<int>>)
    requires IsOrder(order, |card|) && 0 < |card| && InRange(card, f) && |offset| == |card|
    requires OffsetsCover(card, offset, done) && DoneUpTo(card, order, f, done)
    ensures OffsetsCover(card, RaisedOffset(card, order, f, offset), done)
  {
    RowsUpToFinished(card, order, f);
  }

  lemma UpdatedIsTree(card: seq<int>, nodes: Tree, order: seq<nat>, f: seq<int>, nodes': Tree, status: UpdateStatus)
    requires IsTree(card, nodes) && IsOrder(order, |card|) && InRange(card, f)
    requires if status.Advanced? then IsAdvance(nodes, order, f, nodes') else nodes' == nodes
    ensures IsTree(card, nodes')
  {
    if status.Advanced? {
      AdvanceIsTree(card, nodes, order, f, nodes');
    }
  }

  lemma UpdateKeepsSound(card: seq<int>, order: seq<nat>, f: seq<int>, nodes: Tree, offset: seq<int>,
                         status: UpdateStatus, nodes': Tree, done: iset<seq<int>>)
    requires IsOrder(order, |card|) && 0 < |card| && InRange(card, f) && |offset| == |card|
    requires IsTree(card, nodes) && IsTree(card, nodes')
    requires if status.Advanced? then IsAdvance(nodes, order, f, nodes') else nodes' == nodes
    ensures Covers(card, nodes, done) && OffsetsCover(card, offset, done) && DoneUpTo(card, order, f, done) ==>
              Covers(card, nodes', done) && OffsetsCover(card, RaisedOffset(card, order, f, offset), done)
  {
    if Covers(card, nodes, done) && OffsetsCover(card, offset, done) && DoneUpTo(card, order, f, done) {
      RaisedOffsetCovers(card, order, f, offset, done);
      if status.Advanced? {
        AdvanceCovers(card, nodes, order, f, nodes', done);
      }
    }
  }

  /** A resume point at the end of a block lies within the offset of the first table. */
  lemma ResumeWithinOffset(card: seq<int>, nodes: Tree, offset: seq<int>, order: seq<nat>, p: seq<int>)
    requires IsOrder(order, |card|) && 0 < |card| && |offset| == |card| && InRange(card, p)
    requires OffsetsLead(card, nodes, offset) && ResumesAt(card, nodes, order, Some(p))
    requires BlockCompleted(card, order, p)
    ensures p[order[0]] <= offset[order[0]]
  {
    var v := BlockEnd(card, order[0], p[order[0]]);
    assert View(order, v) == View(order, p);
    LexTotal(View(order, v), View(order, p));
    assert AtOrBefore(order, v, Some(p));
  }

  lemma UpdateKeepsLead(card: seq<int>, order: seq<nat>, f: seq<int>, nodes: Tree, offset: seq<int>,
                        status: UpdateStatus, nodes': Tree)
    requires IsOrder(order, |card|) && 0 < |card| && InRange(card, f) && |offset| == |card|
    requires IsTree(card, nodes) && IsTree(card, nodes') && OffsetsLead(card, nodes, offset)
    requires if status.Advanced? then IsAdvance(nodes, order, f, nodes') else nodes' == nodes
    ensures OffsetsLead(card, nodes', RaisedOffset(card, order, f, offset))
  {
    var offset' := RaisedOffset(card, order, f, offset);
    forall o, k | IsOrder(o, |card|) && 0 <= k && Behind(nodes', o, BlockEnd(card, o[0], k))
      ensures k <= offset'[o[0]]
    {
      if status.Advanced? {
        BlockPassed(card, order, f, nodes, nodes', o, k);
      }
    }
  }

  /** A block that an order has passed after an update it had passed before, or the update's final
      vector lies past it as well. */
  lemma BlockPassed(card: seq<int>, order: seq<nat>, f: seq<int>, nodes: Tree, nodes': Tree, o: seq<nat>, k: nat)
    requires IsOrder(order, |card|) && 0 < |card| && InRange(card, f) && IsOrder(o, |card|)
    requires IsTree(card, nodes) && IsTree(card, nodes') && IsAdvance(nodes, order, f, nodes')
    requires Behind(nodes', o, BlockEnd(card, o[0], k))
    ensures Behind(nodes, o, BlockEnd(card, o[0], k)) || (o[0] == order[0] && k <= FinishedRow(card, order, f))
  {
    hide IsTree, IsAdvance, Behind;
    PassedBlock(card, nodes', o, k);
    if o[0] == order[0] {
      FirstNode(order, f, nodes, nodes', o);
    }
    if k < nodes'[o[..1]] {
      if o[0] != order[0] {
        NodeElsewhere(card, order, f, nodes, nodes', o, 1);
        BlockIsPassed(card, nodes, o, k);
      }
    } else if o == order {
      AdvanceOnPath(nodes, order, f, nodes', |order|);
      forall i | 1 <= i < |order| ensures f[order[i]] == card[order[i]] - 1 {
        assert Vals(nodes', o, |o|)[i] == View(order[..|order|], f)[i];
      }
    } else {
      NodeElsewhere(card, order, f, nodes, nodes', o, |o|);
      BlockIsPassed(card, nodes, o, k);
    }
  }

  /** An order has passed a block when its first node is beyond it, or when it has stored the
      block's last vector. */
  ghost predicate PastBlock(card: seq<int>, nodes: Tree, o: seq<nat>, k: nat)
    requires 0 < |o| && InBounds(o, |card|)
  {
    && Stored(nodes, o, 1) && k <= nodes[o[..1]]
    && (k == nodes[o[..1]] ==>
          Stored(nodes, o, |o|) && forall i :: 1 <= i < |o| ==> Vals(nodes, o, |o|)[i] == card[o[i]] - 1)
  }

  lemma PassedBlock(card: seq<int>, nodes: Tree, o: seq<nat>, k: nat)
    requires IsOrder(o, |card|) && 0 < |card| && IsTree(card, nodes)
    requires Behind(nodes, o, BlockEnd(card, o[0], k))
    ensures PastBlock(card, nodes, o, k)
  {
    var v, d := BlockEnd(card, o[0], k), Depth(nodes, o);
    var x, y := View(o[..d], v), Vals(nodes, o, d);
    StoredIsBelow(card, nodes, o, d);
    LexTotal(x, y);
    var g := FirstDiff(x, y);
    assert 0 < d && x[0] == k && y[0] == nodes[o[..1]];
  }

  lemma StoredIsBelow(card: seq<int>, nodes: Tree, o: seq<nat>, d: nat)
    requires IsTree(card, nodes) && InBounds(o, |card|) && d <= |o| && Stored(nodes, o, d)
    ensures forall i :: 0 <= i < d ==> Vals(nodes, o, d)[i] < card[o[i]]
  {
  }

  lemma BlockIsPassed(card: seq<int>, nodes: Tree, o: seq<nat>, k: nat)
    requires IsOrder(o, |card|) && 0 < |card| && PastBlock(card, nodes, o, k)
    ensures Behind(nodes, o, BlockEnd(card, o[0], k))
  {
    var v := BlockEnd(card, o[0], k);
    if k < nodes[o[..1]] {
      LexLtAt(View(o[..1], v), Vals(nodes, o, 1), 0);
      StrictlyBehind(nodes, o, v, 1);
    } else {
      StoredIsShallow(nodes, o, |o|);
      assert View(o[..|o|], v) == Vals(nodes, o, |o|);
      LexTotal(View(o[..|o|], v), Vals(nodes, o, |o|));
    }
  }

  /** All orders with the same first table share its node. */
  lemma FirstNode(order: seq<nat>, f: seq<int>, nodes: Tree, nodes': Tree, o: seq<nat>)
    requires InBounds(order, |f|) && 0 < |order| && 0 < |o| && o[0] == order[0] && IsAdvance(nodes, order, f, nodes')
    ensures o[..1] in nodes' && nodes'[o[..1]] == f[order[0]]
  {
    AdvanceOnPath(nodes, order, f, nodes', 1);
    assert o[..1] == order[..1];
    assert Vals(nodes', order, 1)[0] == View(order[..1], f)[0];
  }

  /** A node off the updated order's path kept its path and rows. */
  lemma NodeElsewhere(card: seq<int>, order: seq<nat>, f: seq<int>, nodes: Tree, nodes': Tree, o: seq<nat>, d: nat)
    requires IsTree(card, nodes) && InBounds(order, |f|) && IsAdvance(nodes, order, f, nodes')
    requires 0 < d <= |o| && o[..d] in nodes' && !OnPath(order, o[..d])
    ensures Stored(nodes, o, d) && Stored(nodes', o, d) && Vals(nodes, o, d) == Vals(nodes', o, d)
    ensures nodes[o[..1]] == nodes'[o[..1]]
  {
    var p := o[..d];
    AdvanceOffPath(card, nodes, order, f, nodes', p);
    SharedPrefix(nodes, p, o, d);
    SharedPrefix(nodes', p, o, d);
    assert Vals(nodes, o, d)[0] == Vals(nodes', o, d)[0];
  }

  /** The walk met no difference before running out of stored nodes. */
  lemma WalkEnd(nodes: Tree, order: seq<nat>, f: seq<int>, i: nat)
    requires InBounds(order, |f|) && i <= |order| && Stored(nodes, order, i)
    requires i < |order| ==> order[..i + 1] !in nodes
    requires forall k :: 0 <= k < i ==> nodes[order[..k + 1]] == f[order[k]]
    ensures Depth(nodes, order) == i
    ensures Fork(nodes, order, f) == i && !Regresses(nodes, order, f)
  {
    StoredIsShallow(nodes, order, i);
    assert Vals(nodes, order, i) == View(order[..i], f);
    LexTotal(Vals(nodes, order, i), View(order[..i], f));
  }

  lemma ExtendIsAdvance(nodes: Tree, order: seq<nat>, f: seq<int>, i: nat, nodes': Tree)
    requires InBounds(order, |f|) && i == Depth(nodes, order) == Fork(nodes, order, f)
    requires forall k :: 0 <= k < i ==> nodes[order[..k + 1]] == f[order[k]]
    requires IsExtension(nodes, order, f, i, |order|, nodes')
    ensures IsAdvance(nodes, order, f, nodes')
  {
    forall p | OnPath(order, p) && |p| <= i ensures p in nodes && nodes[p] == f[p[|p| - 1]] {
      assert p == order[..|p| - 1 + 1];
    }
  }

  lemma FastForwardIsAdvance(nodes: Tree, order: seq<nat>, f: seq<int>, i: nat, forwarded: Tree, nodes': Tree)
    requires InBounds(order, |f|) && i == Fork(nodes, order, f) < Depth(nodes, order)
    requires forall k :: 0 <= k < i ==> nodes[order[..k + 1]] == f[order[k]]
    requires forall p :: p in forwarded <==> p in nodes && !(order[..i + 1] < p)
    requires forall p :: p in forwarded ==> forwarded[p] == if p == order[..i + 1] then f[order[i]] else nodes[p]
    requires IsExtension(forwarded, order, f, i + 1, |order|, nodes')
    ensures IsAdvance(nodes, order, f, nodes')
  {
    var q := order[..i + 1];
    forall p
      ensures p in nodes' <==> OnPath(order, p) || Survives(nodes, order, f, p)
      ensures p in nodes' ==> nodes'[p] == if OnPath(order, p) then f[p[|p| - 1]] else nodes[p]
    {
      FastForwardNode(nodes, order, f, i, p);
    }
  }

  /** Where a path stands relative to the fast-forwarded node. */
  lemma FastForwardNode(nodes: Tree, order: seq<nat>, f: seq<int>, i: nat, p: seq<nat>)
    requires InBounds(order, |f|) && i == Fork(nodes, order, f) < Depth(nodes, order)
    requires forall k :: 0 <= k < i ==> nodes[order[..k + 1]] == f[order[k]]
    ensures Survives(nodes, order, f, p) <==> p in nodes && p != order[..i + 1] && !(order[..i + 1] < p)
    ensures OnPath(order, p) && |p| <= i ==> p in nodes && nodes[p] == f[p[|p| - 1]] && !(order[..i + 1] < p)
    ensures OnPath(order, p) && |p| == i + 1 ==> p == order[..i + 1] && p in nodes
    ensures OnPath(order, order[..i + 1])
  {
    var q := order[..i + 1];
    assert Shares(order, p, i + 1) <==> p == q || q < p;
    if OnPath(order, p) && |p| <= i {
      assert p == order[..|p| - 1 + 1];
    }
  }

  /** The walk met its first difference at depth `i`. */
  lemma ForkIs(nodes: Tree, order: seq<nat>, f: seq<int>, i: nat)
    requires InBounds(order, |f|) && i < |order| && Stored(nodes, order, i + 1)
    requires forall k :: 0 <= k < i ==> nodes[order[..k + 1]] == f[order[k]]
    requires nodes[order[..i + 1]] != f[order[i]]
    ensures i < Depth(nodes, order)
    ensures Fork(nodes, order, f) == i
    ensures Regresses(nodes, order, f) <==> f[order[i]] < nodes[order[..i + 1]]
  {
    StoredIsShallow(nodes, order, i + 1);
    var d := Depth(nodes, order);
    var x, y := Vals(nodes, order, d), View(order[..d], f);
    if x[i] < y[i] { LexLtAt(x, y, i); } else { LexLtAt(y, x, i); }
  }
}
