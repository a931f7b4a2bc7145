/**
 The aggregate hash table: open addressing over rows kept in pages.
 */
module AggregateTable {
  import opened PagedRows

  datatype Payload<K, A> = Payload(hash: nat, key: K, agg: A)

  type Pages<K, A> = seq<map<int, Payload<K, A>>>

  // ----- stored rows -----

  ghost predicate IsStored<K, A>(hash: K -> nat, ps: nat, keys: seq<K>, pages: Pages<K, A>, r: nat)
    requires SizeOk(ps) && r < |keys|
  {
    var b, o := ComputeBlockIdx(ps, r), ComputeBlockOffset(ps, r);
    b < |pages| && o in pages[b] && pages[b][o].key == keys[r] && pages[b][o].hash == hash(keys[r])
  }

  ghost predicate AllStored<K, A>(hash: K -> nat, ps: nat, keys: seq<K>, pages: Pages<K, A>)
    requires SizeOk(ps)
  {
    forall r: nat :: r < |keys| ==> IsStored(hash, ps, keys, pages, r)
  }

  ghost function AggOf<K, A>(hash: K -> nat, ps: nat, keys: seq<K>, pages: Pages<K, A>, r: nat): (a: A)
    requires SizeOk(ps) && r < |keys| && IsStored(hash, ps, keys, pages, r)
  {
    pages[ComputeBlockIdx(ps, r)][ComputeBlockOffset(ps, r)].agg
  }

  /** Keys and aggregates in the order of insertion. */
  ghost function RowsOf<K, A>(hash: K -> nat, ps: nat, keys: seq<K>, pages: Pages<K, A>): (rows: seq<(K, A)>)
    requires SizeOk(ps) && AllStored(hash, ps, keys, pages)
    ensures |rows| == |keys|
    ensures forall r: nat :: r < |keys| ==> rows[r] == (keys[r], AggOf(hash, ps, keys, pages, r))
  {
    seq(|keys|, r requires 0 <= r < |keys| => (keys[r], AggOf(hash, ps, keys, pages, r)))
  }

  function Written<K, A>(pages: Pages<K, A>, b: nat, o: nat, p: Payload<K, A>): (r: Pages<K, A>)
    requires b < |pages|
  {
    pages[b := pages[b][o := p]]
  }

  lemma StoreNew<K, A>(hash: K -> nat, ps: nat, keys: seq<K>, pages: Pages<K, A>, k: K, a: A)
    requires SizeOk(ps) && AllStored(hash, ps, keys, pages) && ComputeBlockIdx(ps, |keys|) < |pages|
    ensures var pages' := Written(pages, ComputeBlockIdx(ps, |keys|), ComputeBlockOffset(ps, |keys|),
            Payload(hash(k), k, a));
            AllStored(hash, ps, keys + [k], pages') &&
                RowsOf(hash, ps, keys + [k], pages') == RowsOf(hash, ps, keys, pages) + [(k, a)]
  {
    var n := |keys|;
    var pages' := Written(pages, ComputeBlockIdx(ps, n), ComputeBlockOffset(ps, n), Payload(hash(k), k, a));
    forall r: nat | r < n + 1
      ensures IsStored(hash, ps, keys + [k], pages', r)
      ensures AggOf(hash, ps, keys + [k], pages', r) == if r < n then RowsOf(hash, ps, keys, pages)[r].1 else a
    {
      if r < n {
        assert IsStored(hash, ps, keys, pages, r);
        PositionsDiffer(ps, r, n);
      }
    }
  }

  lemma StoreUpdate<K, A>(hash: K -> nat, ps: nat, keys: seq<K>, pages: Pages<K, A>, r: nat, a: A)
    requires SizeOk(ps) && AllStored(hash, ps, keys, pages) && r < |keys|
    ensures var b, o := ComputeBlockIdx(ps, r), ComputeBlockOffset(ps, r);
            && b < |pages| && o in pages[b]
            && var pages' := Written(pages, b, o, pages[b][o].(agg := a));
            && AllStored(hash, ps, keys, pages')
            && RowsOf(hash, ps, keys, pages') == RowsOf(hash, ps, keys, pages)[r := (keys[r], a)]
  {
    assert IsStored(hash, ps, keys, pages, r);
    var b, o := ComputeBlockIdx(ps, r), ComputeBlockOffset(ps, r);
    var pages' := Written(pages, b, o, pages[b][o].(agg := a));
    forall q: nat | q < |keys|
      ensures IsStored(hash, ps, keys, pages', q)
      ensures AggOf(hash, ps, keys, pages', q) == if q == r then a else RowsOf(hash, ps, keys, pages)[q].1
    {
      assert IsStored(hash, ps, keys, pages, q);
      if q != r { PositionsDiffer(ps, q, r); }
    }
  }

  lemma AppendPage<K, A>(hash: K -> nat, ps: nat, keys: seq<K>, pages: Pages<K, A>)
    requires SizeOk(ps) && AllStored(hash, ps, keys, pages)
    ensures AllStored(hash, ps, keys, pages + [map[]]) &&
            RowsOf(hash, ps, keys, pages + [map[]]) == RowsOf(hash, ps, keys, pages)
  {
    forall r: nat | r < |keys|
      ensures IsStored(hash, ps, keys, pages + [map[]], r)
      ensures AggOf(hash, ps, keys, pages + [map[]], r) == RowsOf(hash, ps, keys, pages)[r].1
    {
      assert IsStored(hash, ps, keys, pages, r);
    }
  }

  // ----- rows as a map -----

  /** The rows as a map from key to aggregate. */
  ghost function ToMap<K, A>(rows: seq<(K, A)>): (m: map<K, A>)
  {
    if rows == [] then map[] else ToMap(rows[..|rows| - 1])[rows[|rows| - 1].0 := rows[|rows| - 1].1]
  }

  ghost predicate DistinctRows<K(!new), A(!new)>(rows: seq<(K, A)>)
  {
    forall i, j :: 0 <= i < j < |rows| ==> rows[i].0 != rows[j].0
  }

  lemma {:induction false} ToMapKeys<K(!new), A(!new)>(rows: seq<(K, A)>, k: K)
    ensures k in ToMap(rows) <==> exists i :: 0 <= i < |rows| && rows[i].0 == k
  {
    if rows != [] {
      var n := |rows| - 1;
      ToMapKeys(rows[..n], k);
      if i :| 0 <= i < |rows| && rows[i].0 == k {
        if i < n { assert rows[..n][i].0 == k; }
      }
      if k in ToMap(rows[..n]) {
        var i :| 0 <= i < n && rows[..n][i].0 == k;
        assert rows[i].0 == k;
      }
    }
  }

  lemma {:induction false} ToMapAt<K(!new), A(!new)>(rows: seq<(K, A)>, i: nat)
    requires DistinctRows(rows) && i < |rows|
    ensures rows[i].0 in ToMap(rows) && ToMap(rows)[rows[i].0] == rows[i].1
  {
    var n := |rows| - 1;
    if i < n { ToMapAt(rows[..n], i); }
  }

  lemma {:induction false} ToMapUpdate<K(!new), A(!new)>(rows: seq<(K, A)>, i: nat, a: A)
    requires DistinctRows(rows) && i < |rows|
    ensures ToMap(rows[i := (rows[i].0, a)]) == ToMap(rows)[rows[i].0 := a]
  {
    var n := |rows| - 1;
    var rows' := rows[i := (rows[i].0, a)];
    if i < n {
      ToMapUpdate(rows[..n], i, a);
      assert rows'[..n] == rows[..n][i := (rows[i].0, a)];
    } else {
      assert rows'[..n] == rows[..n];
    }
  }

  lemma ToMapAppend<K, A>(rows: seq<(K, A)>, k: K, a: A)
    ensures ToMap(rows + [(k, a)]) == ToMap(rows)[k := a]
  {
    assert (rows + [(k, a)])[..|rows|] == rows;
  }
}
