/**
 What every run of a query guarantees: inputs are complete before they are read, and every
 buffer is reset once, after its last reader.
 */
module RunOrder {
  import opened Sequences
  import opened Pipelines
  import opened TopologicalSort
  import opened QueryExecution

  function CountResets(events: seq<Event>, p: nat): (n: nat)
  {
    multiset(events)[Reset(p)]
  }

  lemma ResetsAppend(a: seq<Event>, b: seq<Event>, p: nat)
    ensures CountResets(a + b, p) == CountResets(a, p) + CountResets(b, p)
  {
  }

  lemma NoResets(p: nat)
    ensures CountResets([], p) == 0
  {
  }

  lemma {:induction false} ChunksNoReset(i: nat, start: int, n: int, p: nat)
    ensures CountResets(Chunks(i, start, n), p) == 0
    decreases n - start
  {
    if start < n {
      ChunksNoReset(i, ChunkEnd(start, n) + 1, n, p);
      ResetsAppend([Chunk(i, start, ChunkEnd(start, n))], Chunks(i, ChunkEnd(start, n) + 1, n), p);
    }
  }

  lemma WorkNoReset(g: Graph, size: nat -> nat, i: nat, p: nat)
    requires i < |g|
    ensures CountResets(Work(g, size, i), p) == 0
  {
    ChunksNoReset(i, 0, InputSize(g, size, i), p);
    ResetsAppend([Init(i)], Body(g, size, i), p);
  }

  /** While the predecessors of a pipeline are released, a finished buffer goes exactly once. */
  lemma {:induction false} CountReleased(g: Graph, done: set<nat>, preds: seq<nat>, k: nat, p: nat)
    requires k <= |preds| && (forall q :: q in preds ==> q < |g|) && p < |g|
    ensures CountResets(Resets(g, done, preds, k), p) == if AllDone(g, p, done) && p in preds[..k] &&
            p !in preds[k..] then 1 else 0
  {
    hide AllDone, CountResets;
    if k > 0 {
      var q := preds[k - 1];
      assert q in preds;
      CountReleased(g, done, preds, k - 1, p);
      PrefixStep(preds, k - 1, p);
      SingleReset(g, done, q, preds[k..], p);
      var last := if AllDone(g, q, done) && q !in preds[k..] then [Reset(q)] else [];
      ResetsAppend(Resets(g, done, preds, k - 1), last, p);
    } else {
      NoResets(p);
    }
  }

  lemma PrefixStep(s: seq<nat>, k: nat, x: nat)
    requires k < |s|
    ensures x in s[..k + 1] <==> x in s[..k] || x == s[k]
    ensures x in s[k..] <==> x == s[k] || x in s[k + 1..]
  {
    assert s[..k + 1] == s[..k] + [s[k]];
    assert s[k..] == [s[k]] + s[k + 1..];
  }

  lemma SingleReset(g: Graph, done: set<nat>, q: nat, rest: seq<nat>, p: nat)
    requires q < |g|
    ensures CountResets(if AllDone(g, q, done) && q !in rest then [Reset(q)] else [], p) == if p == q &&
            AllDone(g, q, done) && q !in rest then 1 else 0
  {
  }

  lemma InPreds(g: Graph, p: nat, i: nat)
    requires Mirrored(g) && p < |g| && i < |g|
    ensures p in g[i].pred <==> i in g[p].succ
  {
    assert p in multiset(g[i].pred) <==> p in g[i].pred;
    assert i in multiset(g[p].succ) <==> i in g[p].succ;
  }

  lemma ResetsInStep(g: Graph, order: seq<nat>, k: nat, p: nat)
    requires InGraph(g, order) && k < |order| && p < |g|
    ensures CountResets(ResetsAt(g, order, k), p) == if AllDone(g, p, Done(order, k + 1)) &&
            order[k] in g[p].succ then 1 else 0
  {
    hide Resets, AllDone, Done, Mirrored;
    var preds := g[order[k]].pred;
    PredsInGraph(g, order[k]);
    CountReleased(g, Done(order, k + 1), preds, |preds|, p);
    assert preds[..|preds|] == preds && preds[|preds|..] == [];
    InPreds(g, p, order[k]);
  }

  lemma NotDoneYet(g: Graph, order: seq<nat>, p: nat)
    requires p < |g|
    ensures AllDone(g, p, Done(order, 0)) ==> g[p].succ == []
  {
    if g[p].succ != [] { assert g[p].succ[0] in g[p].succ; }
  }

  /** A pipeline's readers are all done after step `k`: either they were before, and then the
      pipeline of step `k` is not one of them, or it is the last one. */
  lemma DoneStep(g: Graph, order: seq<nat>, k: nat, p: nat)
    requires p < |g| && k < |order| && Distinct(order)
    ensures AllDone(g, p, Done(order, k)) ==> AllDone(g, p, Done(order, k + 1)) && order[k] !in g[p].succ
    ensures AllDone(g, p, Done(order, k + 1)) && order[k] !in g[p].succ ==> AllDone(g, p, Done(order, k))
  {
    DoneNext(order, k);
  }

  /** After `k` pipelines, a buffer has been reset exactly if it has readers and all have run. */
  lemma {:induction false} ResetCount(g: Graph, size: nat -> nat, order: seq<nat>, k: nat, p: nat)
    requires InGraph(g, order) && Distinct(order) && k <= |order| && p < |g|
    ensures CountResets(Trace(g, size, order, k), p) == if g[p].succ != [] &&
            AllDone(g, p, Done(order, k)) then 1 else 0
  {
    hide Work, ResetsAt, CountResets, Mirrored, AllDone, Done;
    if k == 0 {
      NotDoneYet(g, order, p);
      NoResets(p);
    } else {
      var i := order[k - 1];
      ResetCount(g, size, order, k - 1, p);
      DoneStep(g, order, k - 1, p);
      WorkNoReset(g, size, i, p);
      ResetsInStep(g, order, k - 1, p);
      ResetsAppend(Trace(g, size, order, k - 1), Work(g, size, i) + ResetsAt(g, order, k - 1), p);
      ResetsAppend(Work(g, size, i), ResetsAt(g, order, k - 1), p);
      assert i in g[p].succ ==> g[p].succ != [];
    }
  }

  /** Every buffer with readers is reset once, the final one too, and no other. */
  lemma EveryBufferIsResetOnce(g: Graph, size: nat -> nat, order: seq<nat>, p: nat)
    requires Mirrored(g) && Topological(g, order) && 0 < |g| && p < |g|
    ensures InGraph(g, order)
    ensures var last := order[|order| - 1];
            CountResets(Trace(g, size, order, |order|) + [Reset(last)], p) == if g[p].succ != [] ||
                p == last then 1 else 0
  {
    var last := order[|order| - 1];
    LastHasNoSuccessors(g, order);
    ResetCount(g, size, order, |order|, p);
    ResetsAppend(Trace(g, size, order, |order|), [Reset(last)], p);
    forall b | b in g[p].succ ensures b in Done(order, |order|) {
      assert b in order;
    }
  }

  // ----- order of events -----

  /** The event is part of the work of a pipeline. */
  predicate Works(e: Event, i: nat)
  {
    !e.Reset? && e.p == i
  }

  lemma {:induction false} ChunksWork(i: nat, start: int, n: int)
    ensures forall t :: 0 <= t < |Chunks(i, start, n)| ==> Works(Chunks(i, start, n)[t], i)
    decreases n - start
  {
    if start < n { ChunksWork(i, ChunkEnd(start, n) + 1, n); }
  }

  lemma WorkWorks(g: Graph, size: nat -> nat, i: nat)
    requires i < |g|
    ensures forall t :: 0 <= t < |Work(g, size, i)| ==> Works(Work(g, size, i)[t], i)
  {
    ChunksWork(i, 0, InputSize(g, size, i));
  }

  lemma {:induction false} ResetsAreResets(g: Graph, done: set<nat>, preds: seq<nat>, k: nat)
    requires k <= |preds| && forall p :: p in preds ==> p < |g|
    ensures forall t :: 0 <= t < |Resets(g, done, preds, k)| ==> Resets(g, done, preds, k)[t].Reset?
  {
    if k > 0 { ResetsAreResets(g, done, preds, k - 1); }
  }

  /** The steps of a run: work of one pipeline, then resets. */
  lemma StepParts(g: Graph, size: nat -> nat, order: seq<nat>, k: nat)
    requires InGraph(g, order) && k < |order|
    ensures forall t :: 0 <= t < |Work(g, size, order[k])| ==> Works(Work(g, size, order[k])[t], order[k])
    ensures forall t :: 0 <= t < |ResetsAt(g, order, k)| ==> ResetsAt(g, order, k)[t].Reset?
  {
    WorkWorks(g, size, order[k]);
    PredsInGraph(g, order[k]);
    ResetsAreResets(g, Done(order, k + 1), g[order[k]].pred, |g[order[k]].pred|);
  }

  /** Whatever works in the first `k` steps belongs to the first `k` pipelines. */
  lemma {:induction false} WorkerIsDone(g: Graph, size: nat -> nat, order: seq<nat>, k: nat, u: nat, s: nat)
    requires InGraph(g, order) && k <= |order| && u < |Trace(g, size, order, k)| &&
             Works(Trace(g, size, order, k)[u], s)
    ensures s in order[..k]
  {
    hide Work, ResetsAt;
    var before := Trace(g, size, order, k - 1);
    if u < |before| {
      WorkerIsDone(g, size, order, k - 1, u, s);
    } else {
      StepParts(g, size, order, k - 1);
    }
  }

  /** Pipelines are complete before those that depend on them start. */
  lemma {:induction false} InputsAreReady(g: Graph, size: nat -> nat, order: seq<nat>, k: nat, t: nat, u: nat, p: nat,
                                          s: nat)
    requires InGraph(g, order) && Topological(g, order) && k <= |order| && Edge(g, p, s)
    requires t < |Trace(g, size, order, k)| && u < |Trace(g, size, order, k)|
    requires Works(Trace(g, size, order, k)[t], p) && Works(Trace(g, size, order, k)[u], s)
    ensures t < u
  {
    hide Work, ResetsAt, Topological, Mirrored, Edge;
    var before := Trace(g, size, order, k - 1);
    StepParts(g, size, order, k - 1);
    if t < |before| && u < |before| {
      InputsAreReady(g, size, order, k - 1, t, u, p, s);
    } else if t >= |before| {
      assert p == order[k - 1];
      if u < |before| { WorkerIsDone(g, size, order, k - 1, u, s); }
      NoEdgeBack(g, order, k - 1, s);
    }
  }

  lemma NoEdgeBack(g: Graph, order: seq<nat>, k: nat, s: nat)
    requires Topological(g, order) && k < |order| && s in order[..k + 1]
    ensures !Edge(g, order[k], s)
  {
    var j :| 0 <= j < k + 1 && order[j] == s;
    assert Edge(g, order[k], order[j]) ==> k < j;
  }

  lemma ResetMeansDone(g: Graph, size: nat -> nat, order: seq<nat>, k: nat, t: nat, p: nat)
    requires InGraph(g, order) && Distinct(order) && k <= |order| && p < |g|
    requires t < |Trace(g, size, order, k)| && Trace(g, size, order, k)[t] == Reset(p)
    ensures AllDone(g, p, Done(order, k))
  {
    ResetCount(g, size, order, k, p);
    assert Reset(p) in multiset(Trace(g, size, order, k));
  }

  /** A buffer is not read any more after it has been reset. */
  lemma {:induction false} NothingReadsAfterReset(g: Graph, size: nat -> nat, order: seq<nat>, k: nat, t: nat, u: nat,
                                                  p: nat, s: nat)
    requires InGraph(g, order) && Topological(g, order) && k <= |order| && Edge(g, p, s)
    requires t < |Trace(g, size, order, k)| && u < |Trace(g, size, order, k)|
    requires Trace(g, size, order, k)[t] == Reset(p) && Works(Trace(g, size, order, k)[u], s)
    ensures u < t
  {
    hide Work, ResetsAt, Mirrored;
    var before := Trace(g, size, order, k - 1);
    StepParts(g, size, order, k - 1);
    DoneNext(order, k - 1);
    if t < |before| {
      if u < |before| {
        NothingReadsAfterReset(g, size, order, k - 1, t, u, p, s);
      } else {
        ResetMeansDone(g, size, order, k - 1, t, p);
      }
    }
  }

  // ----- the calls of a pipeline -----

  /** The calls into the code of a pipeline, without the resets of its buffer. */
  ghost function CallsOf(trace: seq<Event>, p: nat): (s: seq<Event>)
  {
    if trace == [] then [] else (if Works(trace[0], p) then [trace[0]] else []) + CallsOf(trace[1..], p)
  }

  lemma {:induction false} CallsAppend(a: seq<Event>, b: seq<Event>, p: nat)
    ensures CallsOf(a + b, p) == CallsOf(a, p) + CallsOf(b, p)
  {
    if a == [] {
      assert a + b == b;
    } else {
      assert (a + b)[1..] == a[1..] + b;
      CallsAppend(a[1..], b, p);
    }
  }

  lemma {:induction false} CallsOfOne(events: seq<Event>, i: nat, p: nat)
    requires forall t :: 0 <= t < |events| ==> Works(events[t], i)
    ensures CallsOf(events, p) == if p == i then events else []
  {
    if events != [] { CallsOfOne(events[1..], i, p); }
  }

  lemma {:induction false} NoCalls(events: seq<Event>, p: nat)
    requires forall t :: 0 <= t < |events| ==> events[t].Reset?
    ensures CallsOf(events, p) == []
  {
    if events != [] { NoCalls(events[1..], p); }
  }

  lemma {:induction false} CallsSoFar(g: Graph, size: nat -> nat, order: seq<nat>, k: nat, p: nat)
    requires InGraph(g, order) && Distinct(order) && k <= |order| && p < |g|
    ensures CallsOf(Trace(g, size, order, k), p) == if p in order[..k] then Work(g, size, p) else []
  {
    hide Work, ResetsAt, Mirrored, CallsOf;
    if k == 0 {
      NoCalls([], p);
    } else {
      var i, before := order[k - 1], Trace(g, size, order, k - 1);
      CallsSoFar(g, size, order, k - 1, p);
      StepParts(g, size, order, k - 1);
      CallsOfOne(Work(g, size, i), i, p);
      NoCalls(ResetsAt(g, order, k - 1), p);
      CallsAppend(before, Work(g, size, i) + ResetsAt(g, order, k - 1), p);
      CallsAppend(Work(g, size, i), ResetsAt(g, order, k - 1), p);
      assert order[..k] == order[..k - 1] + [i];
    }
  }

  /** Initialisation, then the body: once, or on the rows of the driver in full chunks. */
  ghost predicate IsComplete(pipeline: Pipeline, size: nat -> nat, p: nat, calls: seq<Event>)
  {
    && 0 < |calls| && calls[0] == Init(p)
    && var body := calls[1..];
       if pipeline.split then
         var n := if pipeline.driver.Some? then size(pipeline.driver.value) else 0;
         && Covered(body) == Range(0, n - 1)
         && forall t :: 0 <= t < |body| ==>
                && body[t].Chunk? && body[t].start <= body[t].end && body[t].end - body[t].start + 1 <= 8192
                && (body[t].end - body[t].start + 1 == 8192 || body[t].end == n - 1)
       else body == [Whole(p)]
  }

  lemma WorkIsComplete(g: Graph, size: nat -> nat, p: nat)
    requires p < |g|
    ensures IsComplete(g[p], size, p, Work(g, size, p))
  {
    hide Range, Covered, Chunks;
    var n: int := InputSize(g, size, p);
    assert Work(g, size, p)[1..] == Body(g, size, p);
    ChunksPartition(p, 0, n);
    forall t: nat | t < |Chunks(p, 0, n)|
      ensures var chunk := Chunks(p, 0, n)[t];
              && chunk.Chunk? && chunk.start <= chunk.end && chunk.end - chunk.start + 1 <= 8192
              && (chunk.end - chunk.start + 1 == 8192 || chunk.end == n - 1)
    {
      ChunksAreFull(p, 0, n, t);
    }
  }

  lemma {:induction false} SomeCall(trace: seq<Event>, p: nat) returns (t: nat)
    requires CallsOf(trace, p) != []
    ensures t < |trace| && Works(trace[t], p)
  {
    if Works(trace[0], p) {
      t := 0;
    } else {
      t := SomeCall(trace[1..], p);
      t := t + 1;
    }
  }

  /** A buffer is reset after the pipeline that fills it has worked. */
  lemma ResetAfterFilling(g: Graph, size: nat -> nat, order: seq<nat>, t: nat, u: nat, p: nat)
    requires Mirrored(g) && Topological(g, order) && InGraph(g, order) && p < |g|
    requires var trace := Trace(g, size, order, |order|);
             t < |trace| && u < |trace| && trace[t] == Reset(p) && Works(trace[u], p)
    ensures u < t
  {
    hide Mirrored, Trace, CallsOf;
    var trace, n := Trace(g, size, order, |order|), |order|;
    ResetCount(g, size, order, n, p);
    assert Reset(p) in multiset(trace);
    var s := g[p].succ[0];
    assert s in g[p].succ;
    SuccessorInGraph(g, p, s);
    assert order[..n] == order;
    CallsSoFar(g, size, order, n, s);
    var w := SomeCall(trace, s);
    InputsAreReady(g, size, order, n, u, w, p, s);
    NothingReadsAfterReset(g, size, order, n, t, w, p, s);
  }

  lemma SuccessorInGraph(g: Graph, p: nat, s: nat)
    requires Mirrored(g) && p < |g| && s in g[p].succ
    ensures Edge(g, p, s)
  {
  }

  // ----- the whole run -----

  /** Every pipeline works before those that depend on it. */
  ghost predicate InputsFirst(g: Graph, trace: seq<Event>)
  {
    forall t, u, p, s | 0 <= t < |trace| && 0 <= u < |trace| && Works(trace[t], p) && Works(trace[u], s) ::
      Edge(g, p, s) ==> t < u
  }

  /** A buffer is reset after its pipeline and its readers have worked. */
  ghost predicate ResetsLast(g: Graph, trace: seq<Event>)
  {
    forall t, u, p, s | 0 <= t < |trace| && 0 <= u < |trace| && trace[t] == Reset(p) && Works(trace[u], s) ::
      Edge(g, p, s) || p == s ==> u < t
  }

  lemma InputsFirstInRun(g: Graph, size: nat -> nat, order: seq<nat>, last: nat)
    requires InGraph(g, order) && Topological(g, order)
    ensures InputsFirst(g, Trace(g, size, order, |order|) + [Reset(last)])
  {
    var run := Trace(g, size, order, |order|);
    var trace := run + [Reset(last)];
    forall t, u, p, s | 0 <= t < |trace| && 0 <= u < |trace| && Works(trace[t], p) && Works(trace[u], s) &&
                        Edge(g, p, s)
      ensures t < u
    {
      InputsAreReady(g, size, order, |order|, t, u, p, s);
    }
  }

  lemma ResetsLastInRun(g: Graph, size: nat -> nat, order: seq<nat>, last: nat)
    requires InGraph(g, order) && Topological(g, order)
    ensures ResetsLast(g, Trace(g, size, order, |order|) + [Reset(last)])
  {
    hide Trace, Mirrored, Topological;
    var run := Trace(g, size, order, |order|);
    var trace := run + [Reset(last)];
    forall t, u, p, s | 0 <= t < |trace| && 0 <= u < |trace| && trace[t] == Reset(p) && Works(trace[u], s) &&
                        (Edge(g, p, s) || p == s)
      ensures u < t
    {
      if t < |run| {
        if p == s {
          WorksInGraph(g, size, order, |order|, u);
          ResetAfterFilling(g, size, order, t, u, p);
        } else {
          NothingReadsAfterReset(g, size, order, |order|, t, u, p, s);
        }
      }
    }
  }

  lemma WorksInGraph(g: Graph, size: nat -> nat, order: seq<nat>, k: nat, u: nat)
    requires InGraph(g, order) && k <= |order| && u < |Trace(g, size, order, k)|
    requires !Trace(g, size, order, k)[u].Reset?
    ensures Trace(g, size, order, k)[u].p < |g|
  {
    WorkerIsDone(g, size, order, k, u, Trace(g, size, order, k)[u].p);
  }

  lemma CompleteInRun(g: Graph, size: nat -> nat, order: seq<nat>, last: nat, p: nat)
    requires InGraph(g, order) && Topological(g, order) && p < |g|
    ensures IsComplete(g[p], size, p, CallsOf(Trace(g, size, order, |order|) + [Reset(last)], p))
  {
    hide Work, Trace, Mirrored, IsComplete, CallsOf;
    assert order[..|order|] == order;
    CallsSoFar(g, size, order, |order|, p);
    CallsAppend(Trace(g, size, order, |order|), [Reset(last)], p);
    NoCalls([Reset(last)], p);
    assert Work(g, size, p) + [] == Work(g, size, p);
    WorkIsComplete(g, size, p);
  }

  /** Runs all pipelines of a query; the result is the sequence of calls into compiled code. */
  method Execute(g: Graph, size: nat -> nat, adaptive: bool) returns (trace: seq<Event>, order: seq<nat>)
    requires Mirrored(g) && Acyclic(g) && 0 < |g|
    ensures Topological(g, order) && InGraph(g, order)
    ensures trace == Trace(g, size, order, |order|) + [Reset(order[|order| - 1])]
    ensures forall p: nat :: p < |g| ==> IsComplete(g[p], size, p, CallsOf(trace, p))
    ensures forall p: nat :: p < |g| ==>
              CountResets(trace, p) == if g[p].succ != [] || p == order[|order| - 1] then 1 else 0
    ensures InputsFirst(g, trace) && ResetsLast(g, trace)
  {
    hide Mirrored, Acyclic, CountsUses, Resets, Chunks, Done, CallsOf, IsComplete, CountResets, InputsFirst, ResetsLast;
    order := ExecutionOrder(g);
    var users := seq(|g|, i => 0);
    assert CountsUses(g, users, {}) by { StartUsers(g, users); }
    assert Done(order, 0) == {} by { NothingDone(order); }
    trace := [];
    for k := 0 to |order|
      invariant CountsUses(g, users, Done(order, k)) && trace == Trace(g, size, order, k)
    {
      var i := order[k];
      DoneNext(order, k);
      trace := trace + [Init(i)];
      var body;
      if g[i].split {
        if adaptive {
          var optimized := *;
          body := RunChunksAdaptive(i, InputSize(g, size, i), optimized);
        } else {
          body := RunChunks(i, 0, InputSize(g, size, i));
        }
      } else {
        body := [Whole(i)];
      }
      trace := trace + body;
      var resets;
      users, resets := CleanUpPredecessors(g, i, users, Done(order, k));
      trace := trace + resets;
      assert trace == Trace(g, size, order, k) + (Work(g, size, i) + resets);
    }
    LastHasNoSuccessors(g, order);
    var final := order[|order| - 1];
    assert g[final].succ == [];  // "A pipeline references the output pipeline" is never raised
    trace := trace + [Reset(final)];
    InputsFirstInRun(g, size, order, final);
    ResetsLastInRun(g, size, order, final);
    forall p: nat | p < |g|
      ensures IsComplete(g[p], size, p, CallsOf(trace, p))
      ensures CountResets(trace, p) == if g[p].succ != [] || p == final then 1 else 0
    {
      CompleteInRun(g, size, order, final, p);
      EveryBufferIsResetOnce(g, size, order, p);
    }
  }
}
