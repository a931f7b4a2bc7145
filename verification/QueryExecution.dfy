/**
 Running the pipelines: chunks of input, and buffers that are reset after their last use.
 */
module QueryExecution {
  import opened Sequences
  import opened Pipelines

  const ChunkSize: nat := 8192

  datatype Event =
    | Init(p: nat)
    | Chunk(p: nat, start: int, end: int)   // the rows from start to end, inclusive
    | Whole(p: nat)
    | Reset(p: nat)

  // ----- chunks -----

  function ChunkEnd(start: int, n: int): (e: int)
  {
    if start + ChunkSize - 1 < n - 1 then start + ChunkSize - 1 else n - 1
  }

  function Chunks(p: nat, start: int, n: int): (r: seq<Event>)
    decreases n - start
  {
    if start >= n then [] else [Chunk(p, start, ChunkEnd(start, n))] + Chunks(p, ChunkEnd(start, n) + 1, n)
  }

  /** The rows that a list of chunks covers, in order. */
  function Covered(events: seq<Event>): (s: seq<int>)
  {
    if events == [] then []
    else (if events[0].Chunk? then Range(events[0].start, events[0].end) else []) + Covered(events[1..])
  }

  /** The chunks cover every input row exactly once, in order. */
  lemma {:induction false} ChunksPartition(p: nat, start: int, n: int)
    requires start <= n
    ensures Covered(Chunks(p, start, n)) == Range(start, n - 1)
    decreases n - start
  {
    if start < n {
      var next := ChunkEnd(start, n) + 1;
      ChunksPartition(p, next, n);
      RangeSplit(start, next, n - 1);
      assert Chunks(p, start, n)[1..] == Chunks(p, next, n);
    }
  }

  /** Chunks are as large as possible: only the last one can have fewer rows. */
  lemma {:induction false} ChunksAreFull(p: nat, start: int, n: int, t: nat)
    requires t < |Chunks(p, start, n)|
    ensures var chunk := Chunks(p, start, n)[t];
            && chunk.Chunk? && chunk.p == p && chunk.start <= chunk.end < n
            && chunk.end - chunk.start + 1 <= ChunkSize
            && (chunk.end - chunk.start + 1 == ChunkSize || chunk.end == n - 1)
    decreases n - start
  {
    if t > 0 { ChunksAreFull(p, ChunkEnd(start, n) + 1, n, t - 1); }
  }

  /** 32-bit arithmetic in the chunk loop: adding the chunk size first never overflows exactly
      for inputs up to this size. */
  lemma ChunkArithmeticFits(n: int)
    requires 0 <= n < 0x8000_0000
    ensures (forall k: nat :: ChunkSize * k < n ==> ChunkSize * k + ChunkSize < 0x8000_0000) <==>
            n <= 0x8000_0000 - ChunkSize
  {
    if n > 0x8000_0000 - ChunkSize {
      var k: nat := 0x8000_0000 / ChunkSize - 1;
      assert ChunkSize * k == 0x8000_0000 - ChunkSize;
      assert ChunkSize * k < n;
    }
  }

  /** The loop that hands out chunks, from row `first` on. */
  method RunChunks(p: nat, first: int, n: int) returns (events: seq<Event>)
    ensures events == Chunks(p, first, n)
  {
    events := [];
    var next := first;
    while next < n
      invariant events + Chunks(p, next, n) == Chunks(p, first, n)
      decreases n - next
    {
      var start := next;
      var end := if next + ChunkSize - 1 < n - 1 then next + ChunkSize - 1 else n - 1;
      events := events + [Chunk(p, start, end)];
      next := end + 1;
    }
  }

  /** Two chunks are timed; then the rest runs on whichever code seems faster. */
  method RunChunksAdaptive(p: nat, n: int, optimized: bool) returns (events: seq<Event>)
    ensures events == Chunks(p, 0, n)
  {
    events := [];
    var next, count := 0, 0;
    while next < n && count < 2
      invariant events + Chunks(p, next, n) == Chunks(p, 0, n)
      decreases n - next
    {
      var start := next;
      var end := if next + ChunkSize - 1 < n - 1 then next + ChunkSize - 1 else n - 1;
      next := end + 1;
      events := events + [Chunk(p, start, end)];
      count := count + 1;
    }
    if next < n {
      var rest := RunChunks(p, next, n);
      events := events + rest;
    }
  }

  // ----- resets -----

  function Done(order: seq<nat>, k: nat): (s: set<nat>)
    requires k <= |order|
  {
    set i | 0 <= i < k :: order[i]
  }

  predicate AllDone(g: Graph, p: nat, done: set<nat>)
    requires p < |g|
  {
    forall b :: b in g[p].succ ==> b in done
  }

  function UsesIn(list: seq<nat>, done: set<nat>): (n: nat)
    ensures n <= |list|
  {
    if list == [] then 0 else UsesIn(list[..|list| - 1], done) + if list[|list| - 1] in done then 1 else 0
  }

  lemma {:induction false} UsesAll(list: seq<nat>, done: set<nat>)
    ensures UsesIn(list, done) == |list| <==> forall b :: b in list ==> b in done
  {
    if list != [] {
      UsesAll(list[..|list| - 1], done);
      assert list == list[..|list| - 1] + [list[|list| - 1]];
    }
  }

  lemma {:induction false} UsesMore(list: seq<nat>, done: set<nat>, i: nat)
    requires i !in done
    ensures UsesIn(list, done + {i}) == UsesIn(list, done) + multiset(list)[i]
  {
    if list != [] {
      UsesMore(list[..|list| - 1], done, i);
      assert list == list[..|list| - 1] + [list[|list| - 1]];
    }
  }

  /** The buffers that go while the first `k` predecessors are released: those whose last
      reader has run, at their last mention. */
  function Resets(g: Graph, done: set<nat>, preds: seq<nat>, k: nat): (r: seq<Event>)
    requires k <= |preds| && forall p :: p in preds ==> p < |g|
  {
    if k == 0 then []
    else
      assert preds[k - 1] in preds;
      Resets(g, done, preds, k - 1) + if AllDone(g, preds[k - 1], done) &&
          preds[k - 1] !in preds[k..] then [Reset(preds[k - 1])] else []
  }

  lemma PrefixCount(s: seq<nat>, k: nat, x: nat)
    requires k <= |s|
    ensures multiset(s[..k])[x] + multiset(s[k..])[x] == multiset(s)[x]
    ensures multiset(s[..k])[x] == multiset(s)[x] <==> x !in s[k..]
  {
    assert s == s[..k] + s[k..];
    assert x in s[k..] <==> x in multiset(s[k..]);
  }

  /** The use count reaches the number of readers exactly at that point. */
  lemma LastUse(g: Graph, done: set<nat>, i: nat, p: nat, k: nat)
    requires Mirrored(g) && i < |g| && p < |g| && i !in done && k <= |g[i].pred|
    ensures UsesIn(g[p].succ, done) + multiset(g[i].pred[..k])[p] == |g[p].succ| <==>
            AllDone(g, p, done + {i}) && p !in g[i].pred[k..]
  {
    UsesMore(g[p].succ, done, i);
    UsesAll(g[p].succ, done + {i});
    PrefixCount(g[i].pred, k, p);
  }

  ghost predicate CountsUses(g: Graph, users: seq<nat>, done: set<nat>)
  {
    |users| == |g| && forall p: nat :: p < |g| ==> users[p] == UsesIn(g[p].succ, done)
  }

  /** The first `k` predecessors of the running pipeline have been counted too. */
  ghost predicate PartlyCounted(g: Graph, users: seq<nat>, done: set<nat>, preds: seq<nat>, k: nat)
    requires k <= |preds|
  {
    |users| == |g| && forall p: nat :: p < |g| ==> users[p] == UsesIn(g[p].succ, done) + multiset(preds[..k])[p]
  }

  lemma CountStep(g: Graph, users: seq<nat>, done: set<nat>, preds: seq<nat>, k: nat)
    requires k < |preds| && PartlyCounted(g, users, done, preds, k) && preds[k] < |g|
    ensures |users| == |g| && PartlyCounted(g, users[preds[k] := users[preds[k]] + 1], done, preds, k + 1)
    ensures users[preds[k]] + 1 == UsesIn(g[preds[k]].succ, done) + multiset(preds[..k + 1])[preds[k]]
  {
    hide UsesIn;
    var p0 := preds[k];
    var users' := users[p0 := users[p0] + 1];
    forall p: nat | p < |g| ensures users'[p] == UsesIn(g[p].succ, done) + multiset(preds[..k + 1])[p] {
      assert preds[..k + 1] == preds[..k] + [p0];
      CountAppend(preds[..k], [p0], p);
    }
  }

  lemma CountedAll(g: Graph, users: seq<nat>, done: set<nat>, i: nat)
    requires Mirrored(g) && i < |g| && i !in done && PartlyCounted(g, users, done, g[i].pred, |g[i].pred|)
    ensures CountsUses(g, users, done + {i})
  {
    hide UsesIn;
    var preds := g[i].pred;
    assert preds[..|preds|] == preds;
    forall p: nat | p < |g| ensures users[p] == UsesIn(g[p].succ, done + {i}) {
      UsesMore(g[p].succ, done, i);
    }
  }

  /** Counts one more reader for each predecessor and resets those that have no more. */
  method CleanUpPredecessors(g: Graph, i: nat, users0: seq<nat>, ghost done: set<nat>)
    returns (users: seq<nat>, events: seq<Event>)
    requires Mirrored(g) && i < |g| && i !in done && CountsUses(g, users0, done)
    ensures CountsUses(g, users, done + {i})
    ensures events == Resets(g, done + {i}, g[i].pred, |g[i].pred|)
  {
    hide UsesIn, AllDone, CountsUses, PartlyCounted, Mirrored;
    users, events := users0, [];
    PredsInGraph(g, i);
    StartCounting(g, users0, done, g[i].pred);
    for k := 0 to |g[i].pred|
      invariant PartlyCounted(g, users, done, g[i].pred, k)
      invariant events == Resets(g, done + {i}, g[i].pred, k)
    {
      var p := g[i].pred[k];
      assert p in g[i].pred;
      CountStep(g, users, done, g[i].pred, k);
      users := users[p := users[p] + 1];
      LastUse(g, done, i, p, k + 1);
      if users[p] == |g[p].succ| {
        events := events + [Reset(p)];
      }
    }
    CountedAll(g, users, done, i);
  }

  lemma PredsInGraph(g: Graph, i: nat)
    requires Mirrored(g) && i < |g|
    ensures forall p :: p in g[i].pred ==> p < |g|
  {
  }

  lemma StartCounting(g: Graph, users: seq<nat>, done: set<nat>, preds: seq<nat>)
    requires CountsUses(g, users, done)
    ensures PartlyCounted(g, users, done, preds, 0)
  {
    assert preds[..0] == [];
  }

  // ----- the run -----

  function InputSize(g: Graph, size: nat -> nat, i: nat): (n: nat)
    requires i < |g|
  {
    if g[i].driver.Some? then size(g[i].driver.value) else 0
  }

  function Body(g: Graph, size: nat -> nat, i: nat): (r: seq<Event>)
    requires i < |g|
  {
    if g[i].split then Chunks(i, 0, InputSize(g, size, i)) else [Whole(i)]
  }

  function Work(g: Graph, size: nat -> nat, i: nat): (r: seq<Event>)
    requires i < |g|
  {
    [Init(i)] + Body(g, size, i)
  }

  ghost predicate InGraph(g: Graph, order: seq<nat>)
  {
    Mirrored(g) && forall k :: 0 <= k < |order| ==> order[k] < |g|
  }

  ghost function ResetsAt(g: Graph, order: seq<nat>, k: nat): (r: seq<Event>)
    requires InGraph(g, order) && k < |order|
  {
    Resets(g, Done(order, k + 1), g[order[k]].pred, |g[order[k]].pred|)
  }

  /** What happens while the first `k` pipelines of the order run. */
  ghost function Trace(g: Graph, size: nat -> nat, order: seq<nat>, k: nat): (r: seq<Event>)
    requires InGraph(g, order) && k <= |order|
  {
    if k == 0 then [] else Trace(g, size, order, k - 1) + (Work(g, size, order[k - 1]) + ResetsAt(g, order, k - 1))
  }

  lemma DoneNext(order: seq<nat>, k: nat)
    requires k < |order| && Distinct(order)
    ensures Done(order, k + 1) == Done(order, k) + {order[k]} && order[k] !in Done(order, k)
  {
  }

  lemma {:induction false} NoUsesYet(list: seq<nat>)
    ensures UsesIn(list, {}) == 0
  {
    if list != [] { NoUsesYet(list[..|list| - 1]); }
  }

  lemma StartUsers(g: Graph, users: seq<nat>)
    requires |users| == |g| && forall p :: 0 <= p < |g| ==> users[p] == 0
    ensures CountsUses(g, users, {})
  {
    forall p: nat | p < |g| ensures users[p] == UsesIn(g[p].succ, {}) { NoUsesYet(g[p].succ); }
  }

  lemma NothingDone(order: seq<nat>)
    ensures Done(order, 0) == {}
  {
  }
}
