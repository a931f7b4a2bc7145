/**
 Rows of fixed size in pages of 4096 bytes: where row number `i` is stored.
 Page 0 is never used; its number marks an empty slot of the hash table.
 */
module PagedRows {
  import opened Arithmetic

  const BlockSize: nat := 4096

  predicate SizeOk(ps: nat)
  {
    1 <= ps <= BlockSize
  }

  function TuplesPerBlock(ps: nat): (t: nat)
    requires SizeOk(ps)
    ensures t >= 1
  {
    PerBlockPositive(ps);
    BlockSize / ps
  }

  function ComputeBlockIdx(ps: nat, i: nat): (b: nat)
    requires SizeOk(ps)
    ensures b >= 1
  {
    i / TuplesPerBlock(ps) + 1
  }

  function ComputeBlockOffset(ps: nat, i: nat): (o: nat)
    requires SizeOk(ps)
  {
    ps * (i % TuplesPerBlock(ps))
  }

  /** The row stored at a position. */
  function RowNumber(ps: nat, block: nat, offset: nat): (i: int)
    requires SizeOk(ps)
  {
    (block - 1) * TuplesPerBlock(ps) + offset / ps
  }

  // ----- arithmetic -----

  lemma PerBlockPositive(ps: nat)
    requires SizeOk(ps)
    ensures BlockSize / ps >= 1
  {
    DivBounds(BlockSize, ps);
    var q := BlockSize / ps;
    assert q == 0 ==> ps * q == 0;
  }

  lemma DivBounds(a: nat, b: nat)
    requires b > 0
    ensures b * (a / b) <= a < b * (a / b) + b && 0 <= a % b < b && a == b * (a / b) + a % b
  {
  }

  /** Exactly the first `TuplesPerBlock` multiples of the row size fit into a page. */
  lemma FitsInBlock(ps: nat, k: nat)
    requires SizeOk(ps)
    ensures ps * k + ps <= BlockSize <==> k < TuplesPerBlock(ps)
  {
    var t := TuplesPerBlock(ps);
    DivBounds(BlockSize, ps);
    if k < t {
      assert ps * (k + 1) <= ps * t;
    } else {
      assert ps * k >= ps * t;
    }
  }

  lemma DivMul(ps: nat, k: nat)
    requires ps > 0
    ensures (ps * k) / ps == k && (ps * k) % ps == 0
  {
    DivUnique(ps * k, ps, k, 0);
  }

  /** The first row of the page that holds row `i`. */
  function PageStart(ps: nat, i: nat): (s: nat)
    requires SizeOk(ps)
    ensures s <= i
  {
    DivBounds(i, TuplesPerBlock(ps));
    i - i % TuplesPerBlock(ps)
  }

  lemma DivMonotone(a: nat, b: nat, t: nat)
    requires a <= b && t > 0
    ensures a / t <= b / t
  {
    DivBounds(a, t);
    DivBounds(b, t);
    QuotientLe(t, a / t, b / t, a % t, b % t);
  }

  lemma QuotientLe(t: nat, p: nat, q: nat, r: nat, s: nat)
    requires r < t && s < t && t * p + r <= t * q + s
    ensures p <= q
  {
    var d := p - q - 1;
    assert t * d == t * p - t * q - t;
    assert d >= 0 ==> t * d >= 0;
  }

  // ----- numbering -----

  /** The position determines the row. */
  lemma RowNumberOf(ps: nat, i: nat)
    requires SizeOk(ps)
    ensures RowNumber(ps, ComputeBlockIdx(ps, i), ComputeBlockOffset(ps, i)) == i
    ensures ComputeBlockOffset(ps, i) + ps <= BlockSize
  {
    var t := TuplesPerBlock(ps);
    DivMul(ps, i % t);
    DivBounds(i, t);
    FitsInBlock(ps, i % t);
    assert (ComputeBlockIdx(ps, i) - 1) * t == t * (i / t);
  }

  /** Different rows take different bytes. */
  lemma PositionsDiffer(ps: nat, i: nat, j: nat)
    requires SizeOk(ps) && i != j
    ensures ComputeBlockIdx(ps, i) == ComputeBlockIdx(ps, j) ==>
              || ComputeBlockOffset(ps, i) + ps <= ComputeBlockOffset(ps, j)
              || ComputeBlockOffset(ps, j) + ps <= ComputeBlockOffset(ps, i)
  {
    var t := TuplesPerBlock(ps);
    RowNumberOf(ps, i);
    RowNumberOf(ps, j);
    if i % t < j % t {
      OneApart(ps, i % t, j % t);
    } else if j % t < i % t {
      OneApart(ps, j % t, i % t);
    }
  }

  lemma OneApart(ps: nat, a: nat, b: nat)
    requires a < b
    ensures ps * a + ps <= ps * b
  {
    assert ps * (b - a - 1) >= 0;
  }

  /** Row `k` of page `b`, counted from the start. */
  lemma PositionAt(ps: nat, b: nat, k: nat)
    requires SizeOk(ps) && k < TuplesPerBlock(ps)
    ensures ComputeBlockIdx(ps, TuplesPerBlock(ps) * b + k) == b + 1 &&
            ComputeBlockOffset(ps, TuplesPerBlock(ps) * b + k) == ps * k
  {
    DivUnique(TuplesPerBlock(ps) * b + k, TuplesPerBlock(ps), b, k);
  }

  /** How many pages and bytes of the last page `n` rows take. */
  predicate Filled(ps: nat, n: nat, blocks: nat, last: nat)
    requires SizeOk(ps)
  {
    if n == 0 then blocks == 2 && last == 0
    else blocks == ComputeBlockIdx(ps, n - 1) + 1 && last == ComputeBlockOffset(ps, n - 1) + ps
  }

  /** `Size`: full pages and the bytes used in the last one. */
  function Size(ps: nat, blocks: nat, last: nat): (n: int)
    requires SizeOk(ps)
  {
    (if blocks - 2 > 0 then (blocks - 2) * TuplesPerBlock(ps) else 0) + last / ps
  }

  lemma SizeIsCount(ps: nat, n: nat, blocks: nat, last: nat)
    requires SizeOk(ps) && Filled(ps, n, blocks, last)
    ensures Size(ps, blocks, last) == n
  {
    if n > 0 {
      var t := TuplesPerBlock(ps);
      var b, k := (n - 1) / t, (n - 1) % t;
      DivBounds(n - 1, t);
      assert last == ps * (k + 1);
      DivMul(ps, k + 1);
      assert blocks - 2 == b;
      assert b * t == t * b;
    }
  }

  /** Where the next row goes: after the last one, or at the start of a new page. */
  lemma NextPosition(ps: nat, n: nat, blocks: nat, last: nat)
    requires SizeOk(ps) && Filled(ps, n, blocks, last)
    ensures last + ps > BlockSize ==> ComputeBlockIdx(ps, n) == blocks && ComputeBlockOffset(ps, n) == 0
    ensures last + ps <= BlockSize ==> ComputeBlockIdx(ps, n) == blocks - 1 && ComputeBlockOffset(ps, n) == last
  {
    var t := TuplesPerBlock(ps);
    if n == 0 {
      PositionAt(ps, 0, 0);
      assert t * 0 + 0 == 0;
    } else {
      var b, k := (n - 1) / t, (n - 1) % t;
      DivBounds(n - 1, t);
      assert last == ps * (k + 1);
      FitsInBlock(ps, k + 1);
      if k + 1 < t {
        PositionAt(ps, b, k + 1);
      } else {
        PositionAt(ps, b + 1, 0);
        assert t * (b + 1) == t * b + t;
      }
    }
  }
}
