/**
 Merging two chains of blocks: what happens to their instruction segments.
 */
module ChainMerge {
  import opened Sequences
  import opened Khir
  import opened Ssa
  import opened CfgSimulation

  // ----- the instructions of a longer chain -----

  lemma RangeTrim(lo: int, hi: int, n: nat)
    requires lo + n <= hi + 1
    ensures |Range(lo, hi)| == hi - lo + 1
    ensures Range(lo, hi)[n..] == Range(lo + n, hi)
    ensures Range(lo, hi)[..|Range(lo, hi)| - n] == Range(lo, hi - n)
  {
    hide Range;
    RangeElements(lo, hi);
    RangeElements(lo + n, hi);
    RangeElements(lo, hi - n);
  }

  /** From its second block on, an appended chain contributes the same pieces. */
  lemma {:induction false} ShiftedIndices(f: Function, a: seq<nat>, b: seq<nat>, m: nat)
    requires BlocksOk(f) && InFunction(f, a) && InFunction(f, b) && InFunction(f, a + b) && 0 < m <= |b|
    ensures ChainIndices(f, a + b, |a| + m) == ChainIndices(f, b, m)
    decreases |b| - m
  {
    hide BlocksOk, NumPhis, Range;
    if m < |b| {
      ShiftedIndices(f, a, b, m + 1);
      assert (a + b)[|a| + m] == b[m];
      assert PieceLo(f, a + b, |a| + m) == PieceLo(f, b, m);
      assert m + 1 < |b| ==> (a + b)[|a| + m + 1] == b[m + 1];
      assert PieceHi(f, a + b, |a| + m) == PieceHi(f, b, m);
    }
  }

  /** The phis, members and branch that disappear between two chains are there. */
  ghost predicate Joinable(f: Function, a: seq<nat>, b: seq<nat>, n: nat)
    requires BlocksOk(f)
  {
    && 0 < |a| && 0 < |b| && InFunction(f, a) && InFunction(f, b) && InFunction(f, a + b) && n == NumPhis(f, b[0])
    && PieceLo(f, a, |a| - 1) + n <= Last(f, a[|a| - 1])
    && First(f, b[0]) + n <= PieceHi(f, b, 0) + 1
  }

  lemma SecondChainIndices(f: Function, a: seq<nat>, b: seq<nat>, n: nat)
    requires BlocksOk(f) && Joinable(f, a, b, n)
    ensures n <= |ChainIndices(f, b, 0)| && ChainIndices(f, a + b, |a|) == ChainIndices(f, b, 0)[n..]
  {
    hide BlocksOk, NumPhis, Range;
    OneSegment(f, b[0]);
    ShiftedIndices(f, a, b, 1);
    SecondPiece(f, a, b, n);
    RangeTrim(First(f, b[0]), PieceHi(f, b, 0), n);
    hide PieceLo, PieceHi;
    DropFirst(Range(PieceLo(f, b, 0), PieceHi(f, b, 0)), ChainIndices(f, b, 1), n);
  }

  lemma SecondPiece(f: Function, a: seq<nat>, b: seq<nat>, n: nat)
    requires BlocksOk(f) && Joinable(f, a, b, n)
    ensures PieceLo(f, b, 0) == First(f, b[0]) && PieceLo(f, a + b, |a|) == PieceLo(f, b, 0) + n
    ensures PieceHi(f, a + b, |a|) == PieceHi(f, b, 0)
  {
    hide BlocksOk, NumPhis;
    assert (a + b)[|a|] == b[0];
    assert 1 < |b| ==> (a + b)[|a| + 1] == b[1];
  }

  lemma DropFirst<T>(a: seq<T>, b: seq<T>, n: nat)
    requires n <= |a|
    ensures (a + b)[n..] == a[n..] + b
  {
  }

  /** Joining two chains drops the trailing members and branch of the first and the leading
      phis of the second. */
  lemma {:induction false} JoinedIndices(f: Function, a: seq<nat>, b: seq<nat>, n: nat, k: nat)
    requires BlocksOk(f) && Joinable(f, a, b, n) && k < |a|
    ensures n + 1 <= |ChainIndices(f, a, k)| && n <= |ChainIndices(f, b, 0)|
    ensures ChainIndices(f, a + b, k) == ChainIndices(f, a, k)[..|ChainIndices(f, a, k)| - (n + 1)] +
            ChainIndices(f, b, 0)[n..]
    decreases |a| - k
  {
    hide BlocksOk, NumPhis, Range, PieceLo, PieceHi;
    SecondChainIndices(f, a, b, n);
    JoinedPiece(f, a, b, n, k);
    if k + 1 == |a| {
      RangeTrim(PieceLo(f, a, k), PieceHi(f, a, k), n + 1);
      assert ChainIndices(f, a, k + 1) == [];
    } else {
      JoinedIndices(f, a, b, n, k + 1);
      TakeLater(Range(PieceLo(f, a, k), PieceHi(f, a, k)), ChainIndices(f, a, k + 1), n + 1);
    }
  }

  lemma JoinedPiece(f: Function, a: seq<nat>, b: seq<nat>, n: nat, k: nat)
    requires BlocksOk(f) && Joinable(f, a, b, n) && k < |a|
    ensures PieceLo(f, a + b, k) == PieceLo(f, a, k)
    ensures PieceHi(f, a + b, k) == PieceHi(f, a, k) - if k + 1 == |a| then n + 1 else 0
    ensures k + 1 == |a| ==> PieceLo(f, a, k) + n <= PieceHi(f, a, k)
  {
    hide BlocksOk, NumPhis;
    OneSegment(f, a[k]);
    assert (a + b)[k] == a[k];
    assert (a + b)[k + 1] == if k + 1 < |a| then a[k + 1] else b[0];
  }

  lemma OneSegment(f: Function, b: nat)
    requires BlocksOk(f) && b < |f.blocks|
    ensures |f.blocks[b].segments| == 1
  {
  }

  lemma TakeLater<T>(a: seq<T>, b: seq<T>, n: nat)
    requires n <= |b|
    ensures (a + b)[..|a + b| - n] == a + b[..|b| - n]
  {
  }

  // ----- segments -----

  /** Removes the last `n` instructions, dropping a segment that becomes empty. */
  function TrimBack(segs: seq<(int, int)>, n: nat): (r: seq<(int, int)>)
    requires segs != []
  {
    var (lo, hi) := segs[|segs| - 1];
    if lo > hi - n then segs[..|segs| - 1] else segs[..|segs| - 1] + [(lo, hi - n)]
  }

  /** Removes the first `n` instructions, dropping a segment that becomes empty. */
  function TrimFront(segs: seq<(int, int)>, n: nat): (r: seq<(int, int)>)
    requires segs != []
  {
    var (lo, hi) := segs[0];
    if lo + n > hi then segs[1..] else [(lo + n, hi)] + segs[1..]
  }

  lemma TrimBackIndices(segs: seq<(int, int)>, n: nat)
    requires segs != [] && segs[|segs| - 1].0 + n <= segs[|segs| - 1].1 + 1
    ensures n <= |Indices(segs)| && Indices(TrimBack(segs, n)) == Indices(segs)[..|Indices(segs)| - n]
  {
    hide Range, Indices;
    var last := |segs| - 1;
    var (lo, hi) := segs[last];
    RangeTrim(lo, hi, n);
    assert segs == segs[..last] + [(lo, hi)];
    IndicesConcat(segs[..last], [(lo, hi)]);
    IndicesConcat(segs[..last], [(lo, hi - n)]);
    SingleSegment(lo, hi);
    SingleSegment(lo, hi - n);
    TakeLater(Indices(segs[..last]), Range(lo, hi), n);
    if lo > hi - n { EmptyRange(lo, hi - n); }
  }

  lemma EmptyRange(lo: int, hi: int)
    requires lo > hi
    ensures Range(lo, hi) == []
  {
  }

  lemma SingleSegment(lo: int, hi: int)
    ensures Indices([(lo, hi)]) == Range(lo, hi)
  {
    assert [(lo, hi)][1..] == [];
  }

  lemma TrimFrontIndices(segs: seq<(int, int)>, n: nat)
    requires segs != [] && segs[0].0 + n <= segs[0].1 + 1
    ensures n <= |Indices(segs)| && Indices(TrimFront(segs, n)) == Indices(segs)[n..]
  {
    hide Range, Indices;
    var (lo, hi) := segs[0];
    RangeTrim(lo, hi, n);
    IndicesOf(segs);
    DropFirst(Range(lo, hi), Indices(segs[1..]), n);
    if lo + n > hi {
      EmptyRange(lo + n, hi);
    } else {
      IndicesOf([(lo + n, hi)] + segs[1..]);
      assert ([(lo + n, hi)] + segs[1..])[1..] == segs[1..];
    }
  }

  lemma IndicesOf(segs: seq<(int, int)>)
    requires segs != []
    ensures Indices(segs) == Range(segs[0].0, segs[0].1) + Indices(segs[1..])
  {
  }

  /** Where a segment lies, and that it holds something. */
  predicate SegmentOk(instrs: seq<Instr>, s: (int, int))
  {
    0 <= s.0 <= s.1 < |instrs|
  }

  /** Only the first segment starts with phis, and it starts with that many. */
  ghost predicate WellSegmented(instrs: seq<Instr>, segs: seq<(int, int)>, phis: nat)
  {
    && 0 < |segs|
    && (forall k :: 0 <= k < |segs| ==> SegmentOk(instrs, segs[k]))
    && (forall k :: 0 < k < |segs| ==> !instrs[segs[k].0].Phi?)
    && CountPhis(instrs, segs[0].0, segs[0].1) == phis
  }

  lemma {:induction false} CountPhisTrim(instrs: seq<Instr>, lo: int, hi: int, hi': int)
    requires 0 <= lo && hi' <= hi < |instrs| && forall i :: hi' < i <= hi && lo <= i ==> !instrs[i].Phi?
    ensures CountPhis(instrs, lo, hi) == CountPhis(instrs, lo, hi')
    decreases hi - lo + 1
  {
    if lo <= hi' { CountPhisTrim(instrs, lo + 1, hi, hi'); }
  }

  /** The last `n` instructions are there and are not phis. */
  ghost predicate EndsWithoutPhis(instrs: seq<Instr>, s: (int, int), n: nat)
  {
    0 <= s.0 && s.0 + n <= s.1 + 1 <= |instrs| && forall i :: s.1 - n < i <= s.1 ==> !instrs[i].Phi?
  }

  lemma TrimmedBack(instrs: seq<Instr>, segs: seq<(int, int)>, phis: nat, n: nat)
    requires WellSegmented(instrs, segs, phis) && 0 < n && EndsWithoutPhis(instrs, segs[|segs| - 1], n)
    ensures var r := TrimBack(segs, n); if r == [] then phis == 0 else WellSegmented(instrs, r, phis)
  {
    var last := |segs| - 1;
    var (lo, hi) := segs[last];
    if last == 0 {
      CountPhisTrim(instrs, lo, hi, hi - n);
    }
  }

  lemma AfterPhis(instrs: seq<Instr>, lo: int, hi: int)
    requires 0 <= lo && hi < |instrs| && lo + CountPhis(instrs, lo, hi) <= hi
    ensures CountPhis(instrs, lo + CountPhis(instrs, lo, hi), hi) == 0
  {
  }

  lemma LaterSegments(instrs: seq<Instr>, segs: seq<(int, int)>, phis: nat)
    requires WellSegmented(instrs, segs, phis) && |segs| > 1
    ensures WellSegmented(instrs, segs[1..], 0)
  {
    assert forall k :: 0 <= k < |segs[1..]| ==> segs[1..][k] == segs[k + 1];
    assert !instrs[segs[1].0].Phi?;
  }

  lemma TrimmedFront(instrs: seq<Instr>, segs: seq<(int, int)>, phis: nat)
    requires WellSegmented(instrs, segs, phis)
    ensures var r := TrimFront(segs, phis); r == [] || WellSegmented(instrs, r, 0)
  {
    hide CountPhis;
    var (lo, hi) := segs[0];
    if lo + phis <= hi {
      AfterPhis(instrs, lo, hi);
      assert WellSegmented(instrs, [(lo + phis, hi)], 0);
      if |segs| > 1 {
        LaterSegments(instrs, segs, phis);
        JoinedSegments(instrs, [(lo + phis, hi)], segs[1..], 0);
      }
    } else if |segs| > 1 {
      LaterSegments(instrs, segs, phis);
    }
  }

  lemma JoinedSegments(instrs: seq<Instr>, a: seq<(int, int)>, b: seq<(int, int)>, phis: nat)
    requires a == [] ==> phis == 0
    requires a != [] ==> WellSegmented(instrs, a, phis)
    requires WellSegmented(instrs, b, 0)
    ensures WellSegmented(instrs, a + b, phis)
  {
    if a == [] { assert a + b == b; }
  }

  /** The segments of a chain list its instructions; the last one is what remains of the
      tail block. */
  ghost predicate SegmentsOk(f: Function, chain: seq<nat>, segs: seq<(int, int)>)
    requires BlocksOk(f)
  {
    && 0 < |chain| && InFunction(f, chain)
    && WellSegmented(f.instrs, segs, NumPhis(f, chain[0]))
    && segs[|segs| - 1] == (PieceLo(f, chain, |chain| - 1), Last(f, chain[|chain| - 1]))
    && Indices(segs) == ChainIndices(f, chain, 0)
  }

  lemma MergeIndices(f: Function, a: seq<nat>, b: seq<nat>, sa: seq<(int, int)>, sb: seq<(int, int)>, n: nat)
    requires BlocksOk(f) && Joinable(f, a, b, n) && SegmentsOk(f, a, sa) && SegmentsOk(f, b, sb)
    ensures Indices(TrimBack(sa, n + 1) + TrimFront(sb, n)) == ChainIndices(f, a + b, 0)
  {
    hide BlocksOk, NumPhis, Range, ChainIndices, Indices, PieceLo, PieceHi, TrimBack, TrimFront;
    OneSegment(f, a[|a| - 1]);
    TrimBackIndices(sa, n + 1);
    TrimFrontIndices(sb, n);
    IndicesConcat(TrimBack(sa, n + 1), TrimFront(sb, n));
    JoinedIndices(f, a, b, n, 0);
  }

  /** Merging the segments of two chains gives the segments of the joined chain. */
  lemma MergeSegments(f: Function, a: seq<nat>, b: seq<nat>, sa: seq<(int, int)>, sb: seq<(int, int)>, n: nat)
    requires BlocksOk(f) && Joinable(f, a, b, n) && SegmentsOk(f, a, sa) && SegmentsOk(f, b, sb)
    requires EndsWithoutPhis(f.instrs, sa[|sa| - 1], n + 1)
    ensures SegmentsOk(f, a + b, TrimBack(sa, n + 1) + TrimFront(sb, n))
  {
    hide BlocksOk, NumPhis, Range, ChainIndices, Indices, PieceLo, PieceHi, EndsWithoutPhis, WellSegmented, TrimBack;
    hide TrimFront;
    NonEmpty(f.instrs, sa, NumPhis(f, a[0]));
    NonEmpty(f.instrs, sb, n);
    var ta, tb := TrimBack(sa, n + 1), TrimFront(sb, n);
    MergeIndices(f, a, b, sa, sb, n);
    LastSurvives(f, a, b, sb, n);
    TrimmedBack(f.instrs, sa, NumPhis(f, a[0]), n + 1);
    TrimmedFront(f.instrs, sb, n);
    JoinedSegments(f.instrs, ta, tb, NumPhis(f, a[0]));
    assert (ta + tb)[|ta + tb| - 1] == tb[|tb| - 1];
    assert (a + b)[0] == a[0];
    assert (a + b)[|a + b| - 1] == b[|b| - 1];
  }

  lemma NonEmpty(instrs: seq<Instr>, segs: seq<(int, int)>, phis: nat)
    requires WellSegmented(instrs, segs, phis)
    ensures 0 < |segs|
  {
  }

  lemma LastSurvives(f: Function, a: seq<nat>, b: seq<nat>, sb: seq<(int, int)>, n: nat)
    requires BlocksOk(f) && Joinable(f, a, b, n) && SegmentsOk(f, b, sb)
    ensures TrimFront(sb, n) != []
    ensures TrimFront(sb, n)[|TrimFront(sb, n)| - 1] == (PieceLo(f, a + b, |a + b| - 1), Last(f, b[|b| - 1]))
  {
    hide BlocksOk, NumPhis, Range, ChainIndices, Indices, PieceHi;
    var tail, lo, hi := b[|b| - 1], sb[0].0, sb[0].1;
    LastIsTerminator(f, tail);
    assert (a + b)[|a + b| - 1] == tail;
    if |b| == 1 { OnlyOneSegment(f, b, sb); }
    if |sb| == 1 {
      assert CountPhis(f.instrs, lo, hi) == n;
    }
  }

  lemma LastIsTerminator(f: Function, b: nat)
    requires BlocksOk(f) && b < |f.blocks|
    ensures |f.blocks[b].segments| == 1 && 0 <= First(f, b) && First(f, b) + NumPhis(f, b) <= Last(f, b) < |f.instrs|
    ensures f.instrs[Last(f, b)].IsTerminator() && !f.instrs[First(f, b) + NumPhis(f, b)].Phi?
  {
  }

  /** A chain of one block has one segment. */
  lemma OnlyOneSegment(f: Function, b: seq<nat>, sb: seq<(int, int)>)
    requires BlocksOk(f) && SegmentsOk(f, b, sb) && |b| == 1
    ensures |sb| == 1
  {
    hide NumPhis, Range;
    var last := |sb| - 1;
    assert sb == sb[..last] + [sb[last]];
    IndicesConcat(sb[..last], [sb[last]]);
    SingleSegment(sb[last].0, sb[last].1);
    assert ChainIndices(f, b, 1) == [];
    assert PieceLo(f, b, 0) == sb[last].0 && PieceHi(f, b, 0) == sb[last].1;
    if last > 0 {
      assert sb[..last][0] == sb[0];
      RangeElements(sb[0].0, sb[0].1);
    }
  }
}
