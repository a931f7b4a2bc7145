/**
 Updating, growing and reading the aggregate hash table.
 */
module AggregateHashTable {
  import opened Sequences
  import opened Masks
  import opened PagedRows
  import opened Probing
  import opened AggregateTable

  lemma FilledParts(ps: nat, n: nat, blocks: nat, last: nat) returns (k: nat)
    requires SizeOk(ps) && Filled(ps, n, blocks, last)
    ensures blocks >= 2 && n == TuplesPerBlock(ps) * (blocks - 2) + k && last == ps * k && k <= TuplesPerBlock(ps)
  {
    if n == 0 {
      k := 0;
    } else {
      var t := TuplesPerBlock(ps);
      k := (n - 1) % t + 1;
      DivBounds(n - 1, t);
    }
  }

  /** Walking a page in steps of the row size visits its rows; `end` is where the page's data
      ends. */
  lemma PageStep(ps: nat, k: nat, kEnd: nat, end: nat)
    requires SizeOk(ps) && k <= kEnd <= TuplesPerBlock(ps) &&
             (end == ps * kEnd || (end == BlockSize && kEnd == TuplesPerBlock(ps)))
    ensures ps * k + ps <= end <==> k < kEnd
    ensures ps * (k + 1) == ps * k + ps
  {
    FitsInBlock(ps, k);
    if end == ps * kEnd {
      if k < kEnd {
        assert ps * (k + 1) <= ps * kEnd;
      } else {
        assert ps * k == ps * kEnd;
      }
    }
  }

  /** Enters row `|keys|` at the first empty slot from its home. */
  method PlaceRow<K>(ghost hash: K -> nat, ghost ps: nat, ents: array<Entry>, ghost keys: seq<K>,
                     ghost slotOf: seq<nat>, ghost k: K, h: nat, b: nat, o: nat)
    returns (ghost i: nat)
    requires SizeOk(ps) && Indexed(hash, ps, keys, ents[..], slotOf) && |keys| < ents.Length
    requires IsPowerOfTwo(ents.Length) && h == hash(k) && b == ComputeBlockIdx(ps, |keys|) &&
             o == ComputeBlockOffset(ps, |keys|)
    modifies ents
    ensures Indexed(hash, ps, keys + [k], ents[..], slotOf + [i])
  {
    hide Indexed, ComputeBlockIdx, ComputeBlockOffset, IsPowerOfTwo, And;
    ghost var free := FreeSlot(hash, ps, keys, ents[..], slotOf);
    ghost var home := Home(hash, k, ents.Length);
    var mask := ents.Length - 1;
    var idx := And(h, mask);
    MaskIsRemainder(h, ents.Length);
    ghost var d := 0;
    while ents[idx].block > 0
      invariant d <= Dist(home, free, ents.Length) && idx == Slot(home, d, ents.Length)
      invariant NoGap(ents[..], home, d) && ents[..] == old(ents[..])
      decreases ents.Length - d
    {
      NextSlot(home, d, ents.Length);
      MaskIsRemainder(idx + 1, ents.Length);
      idx := And(idx + 1, mask);
      d := d + 1;
    }
    InsertAt(hash, ps, keys, ents[..], slotOf, k, d);
    i := idx;
    ents[idx] := Entry(Salt(h), o, b);
  }

  lemma ReadParts(ps: nat, start: nat, end: nat)
    requires SizeOk(ps) && start <= end
    ensures var t := TuplesPerBlock(ps);
            && ComputeBlockIdx(ps, start) == start / t + 1 && ComputeBlockIdx(ps, end) == end / t + 1 &&
                start / t <= end / t
            && ComputeBlockOffset(ps, end) + ps == ps * (end % t + 1) && end % t < t
            && t * (start / t) == PageStart(ps, start) && t * (end / t) + end % t == end
  {
    var t := TuplesPerBlock(ps);
    DivBounds(start, t);
    DivBounds(end, t);
    DivMonotone(start, end, t);
  }

  lemma RowStored<K, A>(hash: K -> nat, ps: nat, keys: seq<K>, pages: Pages<K, A>, r: nat)
    requires SizeOk(ps) && AllStored(hash, ps, keys, pages) && r < |keys|
    ensures IsStored(hash, ps, keys, pages, r) && |RowsOf(hash, ps, keys, pages)| == |keys|
    ensures RowsOf(hash, ps, keys, pages)[r] == (keys[r], AggOf(hash, ps, keys, pages, r))
  {
  }

  lemma SliceStep<T>(rows: seq<T>, first: nat, r: nat)
    requires first <= r < |rows|
    ensures rows[first..r + 1] == rows[first..r] + [rows[r]]
  {
  }

  /** Reads one page up to `end`: its first `kEnd` rows. */
  method ReadPage<K, A>(ghost hash: K -> nat, ps: nat, ghost keys: seq<K>, pages: Pages<K, A>, block: nat, end: nat,
                        ghost kEnd: nat)
    returns (out: seq<(K, A)>)
    requires SizeOk(ps) && AllStored(hash, ps, keys, pages) && block >= 1 && kEnd <= TuplesPerBlock(ps)
    requires end == ps * kEnd || (end == BlockSize && kEnd == TuplesPerBlock(ps))
    requires TuplesPerBlock(ps) * (block - 1) + kEnd <= |keys|
    ensures var r := TuplesPerBlock(ps) * (block - 1);
            |RowsOf(hash, ps, keys, pages)| == |keys| && out == RowsOf(hash, ps, keys, pages)[r..r + kEnd]
  {
    hide AllStored, RowsOf, TuplesPerBlock, ComputeBlockIdx, ComputeBlockOffset;
    ghost var rows, first := RowsOf(hash, ps, keys, pages), TuplesPerBlock(ps) * (block - 1);
    var offset := 0;
    ghost var k := 0;
    out := [];
    while offset + ps <= end
      invariant k <= kEnd && offset == ps * k && out == rows[first..first + k]
      decreases kEnd - k
    {
      PageStep(ps, k, kEnd, end);
      PositionAt(ps, block - 1, k);
      RowStored(hash, ps, keys, pages, first + k);
      SliceStep(rows, first, first + k);
      var p := pages[block][offset];
      out := out + [(p.key, p.agg)];
      k := k + 1;
      offset := offset + ps;
    }
    PageStep(ps, k, kEnd, end);
  }

  lemma SliceJoin<T>(rows: seq<T>, a: nat, b: nat, c: nat)
    requires a <= b <= c <= |rows|
    ensures rows[a..b] + rows[b..c] == rows[a..c]
  {
  }

  /** Hands the rows from `start` to `end` to the caller, page by page.  Every page is read
      from its beginning, so rows before `start` on the same page are handed over too. */
  method ReadRows<K, A>(ghost hash: K -> nat, ps: nat, ghost keys: seq<K>, pages: Pages<K, A>, start: nat, end: nat)
    returns (out: seq<(K, A)>)
    requires SizeOk(ps) && AllStored(hash, ps, keys, pages) && start <= end < |keys|
    ensures |RowsOf(hash, ps, keys, pages)| == |keys| &&
            out == RowsOf(hash, ps, keys, pages)[PageStart(ps, start)..end + 1]
  {
    hide AllStored, RowsOf, TuplesPerBlock, ComputeBlockIdx, ComputeBlockOffset, PageStart;
    ghost var rows, t := RowsOf(hash, ps, keys, pages), TuplesPerBlock(ps);
    ReadParts(ps, start, end);
    ghost var first, kLast := t * (start / t), end % t + 1;
    var endBlock := ComputeBlockIdx(ps, end);
    var endOffset := ComputeBlockOffset(ps, end) + ps;
    var block := ComputeBlockIdx(ps, start);
    ghost var r := first;
    out := [];
    while block <= endBlock
      invariant 1 <= block <= endBlock + 1 && first <= r <= end + 1 && out == rows[first..r]
      invariant r == if block == endBlock + 1 then end + 1 else t * (block - 1)
    {
      ghost var kEnd := if block == endBlock then kLast else t;
      RowsBefore(t, block, endBlock + 1, kEnd, kLast);
      var page := ReadPage(hash, ps, keys, pages, block, if block == endBlock then endOffset else BlockSize, kEnd);
      SliceJoin(rows, first, r, r + kEnd);
      out := out + page;
      r := r + kEnd;
      block := block + 1;
    }
  }

  /** Enters the first `kEnd` rows of a page, which ends at `end`. */
  method PlacePage<K, A>(ghost hash: K -> nat, ps: nat, ents: array<Entry>, ghost keys: seq<K>, ghost slots0: seq<nat>,
                         pages: Pages<K, A>, block: nat, end: nat, ghost kEnd: nat) returns (ghost slots: seq<nat>)
    requires SizeOk(ps) && AllStored(hash, ps, keys, pages) && IsPowerOfTwo(ents.Length)
    requires block >= 1 && kEnd <= TuplesPerBlock(ps)
    requires end == ps * kEnd || (end == BlockSize && kEnd == TuplesPerBlock(ps))
    requires |slots0| == TuplesPerBlock(ps) * (block - 1) && |slots0| + kEnd <= |keys| <= ents.Length
    requires Indexed(hash, ps, keys[..|slots0|], ents[..], slots0)
    modifies ents
    ensures |slots| == |slots0| + kEnd && Indexed(hash, ps, keys[..|slots|], ents[..], slots)
  {
    hide Indexed, AllStored, TuplesPerBlock, ComputeBlockIdx, ComputeBlockOffset, IsPowerOfTwo;
    slots := slots0;
    var offset := 0;
    ghost var k := 0;
    while offset + ps <= end
      invariant k <= kEnd && offset == ps * k && |slots| == |slots0| + k
      invariant Indexed(hash, ps, keys[..|slots|], ents[..], slots)
      decreases kEnd - k
    {
      ghost var r := |slots|;
      PageStep(ps, k, kEnd, end);
      PositionAt(ps, block - 1, k);
      RowStored(hash, ps, keys, pages, r);
      var p := pages[block][offset];
      ghost var i := PlaceRow(hash, ps, ents, keys[..r], slots, p.key, p.hash, block, offset);
      assert keys[..r + 1] == keys[..r] + [keys[r]];
      slots := slots + [i];
      k := k + 1;
      offset := offset + ps;
    }
    PageStep(ps, k, kEnd, end);
  }

  class AggregateHashTable<K(==, !new), X, A(!new)> {
    const hash: K -> nat
    const init: X -> A
    const update: (A, X) -> A
    const payloadSize: nat
    var size: nat
    var entries: array<Entry>
    var pages: Pages<K, A>
    var blockCapacity: nat
    var lastOffset: nat
    ghost var keys: seq<K>
    ghost var slotOf: seq<nat>

    ghost predicate Stored()
      reads this
    {
      && SizeOk(payloadSize) && size == |keys| && Distinct(keys)
      && Filled(payloadSize, |keys|, |pages|, lastOffset) && |pages| <= blockCapacity
      && AllStored(hash, payloadSize, keys, pages)
    }

    ghost predicate Valid()
      reads this, entries
    {
      && Stored() && entries.Length >= 1024 && IsPowerOfTwo(entries.Length) && |slotOf| == |keys|
      && 3 * (|keys| - 1) <= 2 * entries.Length
      && Indexed(hash, payloadSize, keys, entries[..], slotOf)
    }

    /** What has been aggregated, in the order in which the keys first appeared. */
    ghost function Rows(): (rows: seq<(K, A)>)
      requires Stored()
      reads this
    {
      RowsOf(hash, payloadSize, keys, pages)
    }

    constructor (hash: K -> nat, init: X -> A, update: (A, X) -> A, payloadSize: nat)
      requires SizeOk(payloadSize)
      ensures Valid() && Rows() == [] && fresh(entries)
      ensures this.hash == hash && this.init == init && this.update == update && this.payloadSize == payloadSize
      ensures entries.Length == 1024 && |pages| == 2 && blockCapacity == 4
    {
      this.hash, this.init, this.update, this.payloadSize := hash, init, update, payloadSize;
      size, keys, slotOf := 0, [], [];
      entries := new Entry[1024](_ => Entry(0, 0, 0));
      blockCapacity, pages, lastOffset := 4, [map[], map[]], 0;
      new;
      InitialCapacity();
      EmptyIndexed(hash, payloadSize, entries[..]);
    }

    method AllocateNewPage()
      requires |pages| <= blockCapacity && 0 < blockCapacity
      modifies this`pages, this`blockCapacity, this`lastOffset
      ensures pages == old(pages) + [map[]] && |pages| <= blockCapacity && lastOffset == 0
      ensures blockCapacity == (if |old(pages)| == old(blockCapacity) then 2 else 1) * old(blockCapacity)
    {
      if |pages| == blockCapacity {
        blockCapacity := blockCapacity * 2;
      }
      pages := pages + [map[]];
      lastOffset := 0;
    }

    /** Doubles the slots and enters every row again, page by page. */
    method Resize()
      requires Valid()
      modifies this`entries, this`slotOf
      ensures Valid() && fresh(entries) && entries.Length == 2 * old(entries.Length)
    {
      hide Indexed, Filled, AllStored, Distinct, ComputeBlockIdx, ComputeBlockOffset, TuplesPerBlock, IsPowerOfTwo;
      var capacity := 2 * entries.Length;
      Doubled(entries.Length);
      var ents := new Entry[capacity](_ => Entry(0, 0, 0));
      EmptyIndexed(hash, payloadSize, ents[..]);
      ghost var t, r, slots := TuplesPerBlock(payloadSize), 0, [];
      ghost var kLast := FilledParts(payloadSize, |keys|, |pages|, lastOffset);
      var block := 1;
      while block < |pages|
        invariant 1 <= block <= |pages| && r == |slots| <= |keys| <= ents.Length && fresh(ents)
        invariant r == if block == |pages| then |keys| else t * (block - 1)
        invariant Indexed(hash, payloadSize, keys[..r], ents[..], slots)
      {
        var end := if block == |pages| - 1 then lastOffset else BlockSize;
        ghost var kEnd := if block == |pages| - 1 then kLast else t;
        RowsBefore(t, block, |pages|, kEnd, kLast);
        slots := PlacePage(hash, payloadSize, ents, keys, slots, pages, block, end, kEnd);
        r := r + kEnd;
        block := block + 1;
      }
      assert keys[..r] == keys;
      entries, slotOf := ents, slots;
    }

    /** Gives the key the next row and the empty slot `idx`. */
    method Insert(idx: nat, k: K, x: X, ghost d: nat)
      requires Valid() && 3 * |keys| <= 2 * entries.Length && d < entries.Length && k !in keys
      requires idx == Slot(Home(hash, k, entries.Length), d, entries.Length)
      requires entries[idx].block == 0 && NoGap(entries[..], Home(hash, k, entries.Length), d)
      modifies this, entries
      ensures Valid() && entries == old(entries) && Rows() == old(Rows()) + [(k, init(x))] && keys == old(keys) + [k]
    {
      hide Indexed, Filled, AllStored, ComputeBlockIdx, ComputeBlockOffset, TuplesPerBlock, NoGap, RowsOf;
      ghost var n := |keys|;
      FilledHere(payloadSize, n, |pages|, lastOffset);
      NextPosition(payloadSize, n, |pages|, lastOffset);
      InsertAt(hash, payloadSize, keys, entries[..], slotOf, k, d);
      size := size + 1;
      if lastOffset + payloadSize > BlockSize {
        AppendPage(hash, payloadSize, keys, pages);
        AllocateNewPage();
      }
      var block, offset := |pages| - 1, lastOffset;
      lastOffset := offset + payloadSize;
      entries[idx] := Entry(Salt(hash(k)), offset, block);
      StoreNew(hash, payloadSize, keys, pages, k, init(x));
      pages := Written(pages, block, offset, Payload(hash(k), k, init(x)));
      keys, slotOf := keys + [k], slotOf + [idx];
      FilledNext(payloadSize, n, |pages|, lastOffset);
    }

    /** Folds one input row into the aggregate of its key. */
    method UpdateOrInsert(k: K, x: X)
      requires Valid()
      modifies this, entries
      ensures Valid() && (entries == old(entries) || fresh(entries))
      ensures entries.Length == (if 3 * |old(keys)| > 2 * old(entries.Length) then 2 else 1) * old(entries.Length)
      ensures if k in old(keys)
              then exists r: nat ::
                     && r < |old(keys)| && old(keys)[r] == k
                     && Rows() == old(Rows())[r := (k, update(old(Rows())[r].1, x))]
              else Rows() == old(Rows()) + [(k, init(x))]
      ensures keys == if k in old(keys) then old(keys) else old(keys) + [k]
    {
      hide Indexed, Filled, AllStored, ComputeBlockIdx, ComputeBlockOffset, TuplesPerBlock, NoGap, RowsOf, NotBefore;
      hide Distinct, IsPowerOfTwo, And;
      // grow at the latest when two thirds of the slots are taken
      if size == entries.Length || 3 * size > 2 * entries.Length {
        Resize();
      }
      ghost var free := FreeSlot(hash, payloadSize, keys, entries[..], slotOf);
      ghost var cap := entries.Length;
      ghost var home := Home(hash, k, cap);
      StartSearch(hash, payloadSize, keys, entries[..], slotOf, k);
      var mask := entries.Length - 1;
      var idx := And(hash(k), mask);
      MaskIsRemainder(hash(k), entries.Length);
      ghost var d := 0;
      while true
        invariant Valid() && keys == old(keys) && Rows() == old(Rows()) && entries.Length == cap &&
                  (entries == old(entries) || fresh(entries))
        invariant d <= Dist(home, free, cap) && idx == Slot(home, d, cap) && entries[free].block == 0
        invariant NoGap(entries[..], home, d) && NotBefore(hash, keys, cap, slotOf, k, d)
        decreases cap - d
      {
        var entry := entries[idx];
        if entry.block == 0 {
          NotPresent(hash, payloadSize, keys, entries[..], slotOf, k, d);
          Insert(idx, k, x, d);
          return;
        }
        ghost var r := RowAt(hash, payloadSize, keys, entries[..], slotOf, idx);
        StoredAt(r);
        if entry.salt == Salt(hash(k)) {
          var p := pages[entry.block][entry.offset];
          if p.key == k {
            UpdateRow(entry.block, entry.offset, x, r);
            return;
          }
        }
        NotBeforeNext(hash, payloadSize, keys, entries[..], slotOf, k, d, r);
        NoGapNext(entries[..], home, d);
        NextSlot(home, d, cap);
        MaskIsRemainder(idx + 1, cap);
        idx := And(idx + 1, mask);
        d := d + 1;
      }
    }

    method UpdateRow(block: nat, offset: nat, x: X, ghost r: nat)
      requires Valid() && r < |keys| && block == ComputeBlockIdx(payloadSize, r) &&
               offset == ComputeBlockOffset(payloadSize, r)
      modifies this`pages
      ensures Valid() && Rows() == old(Rows())[r := (keys[r], update(old(Rows())[r].1, x))]
    {
      hide Indexed, Filled, ComputeBlockIdx, ComputeBlockOffset, TuplesPerBlock, Distinct;
      StoredAt(r);
      var p := pages[block][offset];
      StoreUpdate(hash, payloadSize, keys, pages, r, update(p.agg, x));
      pages := Written(pages, block, offset, p.(agg := update(p.agg, x)));
    }

    /** The number of rows, computed from the pages. */
    method NumTuples() returns (n: nat)
      requires Valid()
      ensures n == |Rows()|
    {
      SizeIsCount(payloadSize, |keys|, |pages|, lastOffset);
      n := Size(payloadSize, |pages|, lastOffset);
    }

    method ForEach(start: nat, end: nat) returns (out: seq<(K, A)>)
      requires Valid() && start <= end < |Rows()|
      ensures out == Rows()[PageStart(payloadSize, start)..end + 1]
    {
      hide Indexed, Filled, AllStored, Distinct, RowsOf;
      out := ReadRows(hash, payloadSize, keys, pages, start, end);
    }

    /** Reads the whole table, from row 0 to the last one. */
    method AllRows() returns (out: seq<(K, A)>)
      requires Valid()
      ensures out == Rows()
    {
      hide Indexed, Filled, AllStored, Distinct, RowsOf;
      var n := NumTuples();
      if n == 0 {
        out := [];
      } else {
        out := ForEach(0, n - 1);
        assert PageStart(payloadSize, 0) == 0;
        assert Rows()[0..n] == Rows();
      }
    }

    lemma StoredAt(r: nat)
      requires SizeOk(payloadSize) && AllStored(hash, payloadSize, keys, pages) && r < |keys|
      ensures IsStored(hash, payloadSize, keys, pages, r)
    {
    }
  }

  /** The search for a key starts at its masked hash. */
  lemma HomeIsMasked<K>(hash: K -> nat, k: K, capacity: nat)
    requires IsPowerOfTwo(capacity)
    ensures Home(hash, k, capacity) == And(hash(k), capacity - 1)
  {
    MaskIsRemainder(hash(k), capacity);
  }

  lemma InitialCapacity()
    ensures IsPowerOfTwo(1024)
  {
    assert Pow2(5) == 32;
    assert Pow2(10) == 1024;
  }

  lemma FilledHere(ps: nat, n: nat, blocks: nat, last: nat)
    requires SizeOk(ps) && Filled(ps, n, blocks, last)
    ensures blocks >= 2
  {
  }

  lemma FilledNext(ps: nat, n: nat, blocks: nat, last: nat)
    requires SizeOk(ps) && blocks == ComputeBlockIdx(ps, n) + 1 && last == ComputeBlockOffset(ps, n) + ps
    ensures Filled(ps, n + 1, blocks, last)
  {
  }

  lemma NoGapNext(ents: seq<Entry>, home: nat, d: nat)
    requires home < |ents| && d < |ents| && NoGap(ents, home, d) && ents[Slot(home, d, |ents|)].block != 0
    ensures NoGap(ents, home, d + 1)
  {
  }

  lemma RowsBefore(t: nat, block: nat, blocks: nat, kEnd: nat, kLast: nat)
    requires 1 <= block < blocks && kLast <= t && kEnd == if block == blocks - 1 then kLast else t
    ensures t * (block - 1) + kEnd <= t * (blocks - 2) + kLast
    ensures block + 1 == blocks ==> t * (block - 1) + kEnd == t * (blocks - 2) + kLast
    ensures block + 1 < blocks ==> t * (block - 1) + kEnd == t * block
  {
    MulStep(t, block - 1);
    if block + 1 < blocks { MulLe(t, block, blocks - 2); }
  }

  lemma MulStep(t: nat, a: nat)
    ensures t * (a + 1) == t * a + t
  {
  }

  lemma MulLe(t: nat, a: nat, b: nat)
    requires a <= b
    ensures t * a <= t * b
  {
    assert t * (b - a) >= 0;
  }

  // ----- a whole run -----

  /** The aggregates of a list of inputs, key by key. */
  ghost function Folded<K, X, A>(init: X -> A, update: (A, X) -> A, inputs: seq<(K, X)>): (m: map<K, A>)
  {
    if inputs == [] then map[]
    else
      var (k, x) := inputs[|inputs| - 1];
      var m := Folded(init, update, inputs[..|inputs| - 1]);
      m[k := if k in m then update(m[k], x) else init(x)]
  }

  /** One input changes the rows, seen as a map, as it changes the fold. */
  lemma RowsFold<K(!new), X, A(!new)>(init: X -> A, update: (A, X) -> A, rows: seq<(K, A)>, rows': seq<(K, A)>,
                   keys: seq<K>, k: K, x: X)
    requires |keys| == |rows| && (forall r: nat :: r < |rows| ==> rows[r].0 == keys[r]) && Distinct(keys)
    requires if k in keys
             then exists r: nat :: r < |keys| && keys[r] == k && rows' == rows[r := (k, update(rows[r].1, x))]
             else rows' == rows + [(k, init(x))]
    ensures var m := ToMap(rows); ToMap(rows') == m[k := if k in m then update(m[k], x) else init(x)]
  {
    ToMapKeys(rows, k);
    if k in keys {
      var r: nat :| r < |keys| && keys[r] == k && rows' == rows[r := (k, update(rows[r].1, x))];
      assert DistinctRows(rows);
      ToMapAt(rows, r);
      ToMapUpdate(rows, r, update(rows[r].1, x));
    } else {
      ToMapAppend(rows, k, init(x));
    }
  }

  /** Any sequence of updates leaves one row for each key, with the fold of its inputs. */
  method AggregateAll<K(==, !new), X, A(!new)>(hash: K -> nat, init: X -> A, update: (A, X) -> A, payloadSize: nat,
                        inputs: seq<(K, X)>)
    returns (rows: seq<(K, A)>)
    requires SizeOk(payloadSize)
    ensures DistinctRows(rows) && ToMap(rows) == Folded(init, update, inputs)
  {
    hide Indexed, Filled, AllStored, ToMap, RowsOf, DistinctRows;
    var table := new AggregateHashTable<K, X, A>(hash, init, update, payloadSize);
    StartEmpty(init, update, table.Rows());
    for i := 0 to |inputs|
      invariant table.Valid() && fresh(table) && fresh(table.entries)
      invariant table.init == init && table.update == update
      invariant ToMap(table.Rows()) == Folded(init, update, inputs[..i])
    {
      var (k, x) := inputs[i];
      ghost var before, keys := table.Rows(), table.keys;
      KeysOfRows(table.hash, table.payloadSize, keys, table.pages);
      table.UpdateOrInsert(k, x);
      RowsFold(init, update, before, table.Rows(), keys, k, x);
      assert inputs[..i + 1][..i] == inputs[..i];
    }
    assert inputs[..|inputs|] == inputs;
    KeysOfRows(table.hash, table.payloadSize, table.keys, table.pages);
    DistinctKeysRows(table.keys, table.Rows());
    rows := table.AllRows();
  }

  lemma StartEmpty<K, X, A>(init: X -> A, update: (A, X) -> A, rows: seq<(K, A)>)
    requires rows == []
    ensures ToMap(rows) == Folded(init, update, [])
  {
  }

  lemma KeysOfRows<K, A>(hash: K -> nat, ps: nat, keys: seq<K>, pages: Pages<K, A>)
    requires SizeOk(ps) && AllStored(hash, ps, keys, pages)
    ensures var rows := RowsOf(hash, ps, keys, pages);
            |rows| == |keys| && forall r: nat :: r < |rows| ==> rows[r].0 == keys[r]
  {
  }

  lemma DistinctKeysRows<K(!new), A(!new)>(keys: seq<K>, rows: seq<(K, A)>)
    requires Distinct(keys) && |rows| == |keys| && forall r: nat :: r < |rows| ==> rows[r].0 == keys[r]
    ensures DistinctRows(rows)
  {
  }

  /** A chunk of rows is handed over exactly if it starts at a page boundary. */
  lemma ChunkIsExact<T>(ps: nat, rows: seq<T>, start: nat, end: nat)
    requires SizeOk(ps) && start <= end < |rows|
    ensures rows[PageStart(ps, start)..end + 1] == rows[start..end + 1] <==> start % TuplesPerBlock(ps) == 0
  {
    assert |rows[PageStart(ps, start)..end + 1]| == end + 1 - PageStart(ps, start);
  }
}
