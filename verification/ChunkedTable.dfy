/**
 Reading an aggregate table through the scheduler's chunks.
 */
module ChunkedTable {
  import opened Pipelines
  import opened PagedRows
  import opened QueryExecution
  import opened RunOrder
  import opened TopologicalSort
  import opened Wrappers

  /** The rows handed over when the chunks from `start` on are read one after the other. */
  function ChunkedRows<T>(ps: nat, rows: seq<T>, start: nat): (r: seq<T>)
    requires SizeOk(ps)
    decreases |rows| - start
  {
    if start >= |rows| then []
    else rows[PageStart(ps, start)..ChunkEnd(start, |rows|) + 1] + ChunkedRows(ps, rows, ChunkEnd(start, |rows|) + 1)
  }

  /** What one call of a pipeline's body hands over. */
  function HandedOver<T>(ps: nat, rows: seq<T>, e: Event): (r: seq<T>)
    requires SizeOk(ps)
  {
    if e.Chunk? && 0 <= e.start <= e.end < |rows| then rows[PageStart(ps, e.start)..e.end + 1] else []
  }

  function AllHandedOver<T>(ps: nat, rows: seq<T>, events: seq<Event>): (r: seq<T>)
    requires SizeOk(ps)
  {
    if events == [] then [] else HandedOver(ps, rows, events[0]) + AllHandedOver(ps, rows, events[1..])
  }

  /** These are the chunks that the scheduler hands out. */
  lemma {:induction false} ChunksHandOver<T>(p: nat, ps: nat, rows: seq<T>, start: nat)
    requires SizeOk(ps)
    ensures AllHandedOver(ps, rows, Chunks(p, start, |rows|)) == ChunkedRows(ps, rows, start)
    decreases |rows| - start
  {
    hide PageStart;
    if start < |rows| {
      var next := ChunkEnd(start, |rows|) + 1;
      ChunksHandOver(p, ps, rows, next);
      assert Chunks(p, start, |rows|)[1..] == Chunks(p, next, |rows|);
    }
  }

  /** Nothing is skipped, and a chunk that starts inside a page makes the result longer. */
  lemma {:induction false} ChunkedLength<T>(ps: nat, rows: seq<T>, start: nat)
    requires SizeOk(ps) && start <= |rows|
    ensures |ChunkedRows(ps, rows, start)| >= |rows| - start
    ensures start < |rows| && start % TuplesPerBlock(ps) != 0 ==> |ChunkedRows(ps, rows, start)| > |rows| - start
    decreases |rows| - start
  {
    hide TuplesPerBlock;
    if start < |rows| { ChunkedLength(ps, rows, ChunkEnd(start, |rows|) + 1); }
  }

  /** Multiples of the chunk size are page boundaries if the chunk size is one. */
  lemma MultiplesAligned(t: nat, k: nat)
    requires t > 0 && ChunkSize % t == 0
    ensures (ChunkSize * k) % t == 0
  {
    var c := ChunkSize / t;
    DivBounds(ChunkSize, t);
    assert ChunkSize * k == t * (c * k) by {
      assert ChunkSize == t * c;
      MulAssociates(t, c, k);
    }
    DivMul(t, c * k);
  }

  lemma MulAssociates(a: nat, b: nat, c: nat)
    ensures a * b * c == a * (b * c)
  {
  }

  lemma {:induction false} AlignedChunks<T>(ps: nat, rows: seq<T>, k: nat)
    requires SizeOk(ps) && ChunkSize % TuplesPerBlock(ps) == 0 && ChunkSize * k <= |rows|
    ensures ChunkedRows(ps, rows, ChunkSize * k) == rows[ChunkSize * k..]
    decreases |rows| - ChunkSize * k
  {
    hide TuplesPerBlock;
    var start := ChunkSize * k;
    MultiplesAligned(TuplesPerBlock(ps), k);
    if start < |rows| {
      var next := ChunkEnd(start, |rows|) + 1;
      if next < |rows| {
        assert next == ChunkSize * (k + 1);
        AlignedChunks(ps, rows, k + 1);
      } else {
        assert rows[next..] == [];
      }
      assert rows[start..next] + rows[next..] == rows[start..];
    }
  }

  /** Reading the table chunk by chunk hands over every row exactly once if and only if there is
      only one chunk or the rows of a page divide the chunk size. */
  lemma ChunkedReadIsExact<T>(ps: nat, rows: seq<T>)
    requires SizeOk(ps)
    ensures ChunkedRows(ps, rows, 0) == rows <==> |rows| <= ChunkSize || ChunkSize % TuplesPerBlock(ps) == 0
  {
    hide TuplesPerBlock;
    var t := TuplesPerBlock(ps);
    if ChunkSize % t == 0 {
      AlignedChunks(ps, rows, 0);
      assert rows[0..] == rows;
    } else if |rows| <= ChunkSize {
      if |rows| > 0 {
        assert ChunkEnd(0, |rows|) == |rows| - 1;
        assert rows[0..|rows|] == rows;
      }
    } else {
      assert ChunkEnd(0, |rows|) + 1 == ChunkSize;
      ChunkedLength(ps, rows, ChunkSize);
    }
  }

  /** The same, for the calls of a pipeline in a run of the scheduler. */
  lemma ScheduledReadIsExact<T>(g: Graph, size: nat -> nat, order: seq<nat>, i: nat, d: nat, ps: nat, rows: seq<T>)
    requires Mirrored(g) && Topological(g, order) && InGraph(g, order) && SizeOk(ps)
    requires i < |g| && g[i].split && g[i].driver == Some(d) && size(d) == |rows|
    ensures var calls := CallsOf(Trace(g, size, order, |order|), i);
            && 0 < |calls|
            && (AllHandedOver(ps, rows, calls[1..]) == rows <==>
                |rows| <= ChunkSize || ChunkSize % TuplesPerBlock(ps) == 0)
  {
    hide Mirrored, Trace, CallsOf, Chunks, AllHandedOver, ChunkedRows;
    assert order[..|order|] == order;
    CallsSoFar(g, size, order, |order|, i);
    assert CallsOf(Trace(g, size, order, |order|), i)[1..] == Chunks(i, 0, |rows|);
    ChunksHandOver(i, ps, rows, 0);
    ChunkedReadIsExact(ps, rows);
  }

  /** With rows of 24 bytes, 170 to a page, every table of more than one chunk repeats rows. */
  lemma RowsCanRepeat<T>(rows: seq<T>)
    requires |rows| > ChunkSize
    ensures ChunkedRows(24, rows, 0) != rows
  {
    assert TuplesPerBlock(24) == 170;
    ChunkedReadIsExact(24, rows);
  }
}
