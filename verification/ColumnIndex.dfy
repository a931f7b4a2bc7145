/**
 The column index: a file with a hash table of chained entries, one for each key.
 */
module ColumnIndex {
  import opened Masks

  /** An entry of the file: the rows of one key and the offset of the next entry. */
  datatype Entry<K> = Entry(key: K, rows: seq<int>, next: nat)

  /** Heads of the chains, entries by their byte offset, and the length of the file. */
  datatype File<K> = File(heads: seq<nat>, entries: map<int, Entry<K>>, length: nat)

  /** What the layout depends on: size of an entry without rows, and bytes behind the rows. */
  datatype Format<!K> = Format(header: nat, extra: K -> nat, hash: K -> nat)

  type Item<K> = (K, seq<int>)

  function Size<K>(f: Format<K>, key: K, rows: seq<int>): (n: nat)
  {
    f.header + 4 * |rows| + f.extra(key)
  }

  function Pos<K>(f: Format<K>, n: nat, key: K): (p: nat)
    requires n > 0
    ensures p < n
  {
    f.hash(key) % n
  }

  /** A key belongs to the chain at its masked hash. */
  lemma PosIsMasked<K>(f: Format<K>, n: nat, key: K)
    requires IsPowerOfTwo(n)
    ensures n > 0 && Pos(f, n, key) == And(f.hash(key), n - 1)
  {
    MaskIsRemainder(f.hash(key), n);
  }

  // ----- groups of entries that share a position -----

  function Group<K>(f: Format<K>, n: nat, items: seq<Item<K>>, pos: nat): (r: seq<Item<K>>)
    requires n > 0
  {
    if items == [] then []
    else
      var last := items[|items| - 1];
      Group(f, n, items[..|items| - 1], pos) + if Pos(f, n, last.0) == pos then [last] else []
  }

  lemma {:induction false} InGroup<K>(f: Format<K>, n: nat, items: seq<Item<K>>, pos: nat, x: Item<K>)
    requires n > 0
    ensures x in Group(f, n, items, pos) <==> x in items && Pos(f, n, x.0) == pos
  {
    if items != [] {
      InGroup(f, n, items[..|items| - 1], pos, x);
      assert items == items[..|items| - 1] + [items[|items| - 1]];
    }
  }

  // ----- chains -----

  /** The chain at `off` holds the items in order, at growing offsets. */
  ghost predicate Spells<K>(entries: map<int, Entry<K>>, off: nat, items: seq<Item<K>>)
    decreases |items|
  {
    if items == [] then off == 0
    else
      && off > 0 && off in entries && entries[off].key == items[0].0 && entries[off].rows == items[0].1
      && (entries[off].next == 0 || entries[off].next > off)
      && Spells(entries, entries[off].next, items[1..])
  }

  /** New entries do not disturb a chain. */
  lemma {:induction false} SpellsFrame<K>(entries: map<int, Entry<K>>, entries': map<int, Entry<K>>, off: nat,
                                          items: seq<Item<K>>)
    requires Spells(entries, off, items) && forall o :: o in entries ==> o in entries' && entries'[o] == entries[o]
    ensures Spells(entries', off, items)
    decreases |items|
  {
    if items != [] { SpellsFrame(entries, entries', entries[off].next, items[1..]); }
  }

  /** A chain that starts at or after `b` does not see what happens before. */
  lemma {:induction false} SpellsFrom<K>(entries: map<int, Entry<K>>, entries': map<int, Entry<K>>, off: nat,
                                         items: seq<Item<K>>, b: nat)
    requires Spells(entries, off, items) && (off == 0 || off >= b)
    requires forall o :: o in entries && o >= b ==> o in entries' && entries'[o] == entries[o]
    ensures Spells(entries', off, items)
    decreases |items|
  {
    if items != [] { SpellsFrom(entries, entries', entries[off].next, items[1..], b); }
  }

  function RowsOf<K(==)>(items: seq<Item<K>>, key: K): (r: seq<int>)
  {
    if items == [] then [] else if items[0].0 == key then items[0].1 else RowsOf(items[1..], key)
  }

  lemma {:induction false} RowsOfItem<K(!new)>(items: seq<Item<K>>, key: K, rows: seq<int>)
    requires (key, rows) in items && forall x :: x in items && x.0 == key ==> x.1 == rows
    ensures RowsOf(items, key) == rows
  {
    if items[0].0 != key {
      assert items == [items[0]] + items[1..];
      RowsOfItem(items[1..], key, rows);
    } else {
      assert items[0] in items;
    }
  }

  lemma {:induction false} RowsOfNone<K(!new)>(items: seq<Item<K>>, key: K)
    requires forall x :: x in items ==> x.0 != key
    ensures RowsOf(items, key) == []
  {
    if items != [] {
      assert items[0] in items;
      RowsOfNone(items[1..], key);
    }
  }

  // ----- files -----

  ghost predicate FileOk<K>(f: Format<K>, file: File<K>, items: seq<Item<K>>, done: set<nat>)
  {
    && 0 < |file.heads|
    && (forall p: nat :: p < |file.heads| && p in done ==>
        Spells(file.entries, file.heads[p], Group(f, |file.heads|, items, p)))
    && (forall p: nat :: p < |file.heads| && p !in done ==> file.heads[p] == 0)
  }

  /** Entries lie one behind the other between `start` and `end`. */
  ghost predicate Layout<K>(f: Format<K>, entries: map<int, Entry<K>>, start: nat, end: nat)
  {
    && (forall o :: o in entries ==> start <= o && o + Size(f, entries[o].key, entries[o].rows) <= end)
    && (forall o, o' :: o in entries && o' in entries && o < o' ==> o + Size(f, entries[o].key, entries[o].rows) <= o')
    && (forall b :: start <= b < end ==> InEntry(f, entries, b))
  }

  ghost predicate InEntry<K>(f: Format<K>, entries: map<int, Entry<K>>, b: int)
  {
    exists o :: o in entries && o <= b < o + Size(f, entries[o].key, entries[o].rows)
  }

  // ----- the bytes of an entry -----

  /** What is stored at an entry: its fields, one row number behind the other, and the text. */
  datatype Part = Header | Row(i: nat) | Extra

  predicate HasPart<K>(e: Entry<K>, part: Part)
  {
    part.Row? ==> part.i < |e.rows|
  }

  function PartStart<K>(f: Format<K>, o: int, e: Entry<K>, part: Part): (b: int)
  {
    match part
    case Header => o
    case Row(i) => o + f.header + 4 * i
    case Extra => o + f.header + 4 * |e.rows|
  }

  function PartSize<K>(f: Format<K>, e: Entry<K>, part: Part): (n: nat)
  {
    match part
    case Header => f.header
    case Row(_) => 4
    case Extra => f.extra(e.key)
  }

  /** The byte belongs to a part of the entry at `o`. */
  predicate InPart<K>(f: Format<K>, entries: map<int, Entry<K>>, o: int, part: Part, b: int)
  {
    && o in entries && HasPart(entries[o], part)
    && PartStart(f, o, entries[o], part) <= b < PartStart(f, o, entries[o], part) + PartSize(f, entries[o], part)
  }

  /** From `start` to `end` every byte belongs to exactly one part of one entry. */
  ghost predicate IsTiled<K>(f: Format<K>, entries: map<int, Entry<K>>, start: nat, end: nat)
  {
    && (forall o, part, b :: InPart(f, entries, o, part, b) ==> start <= b < end)
    && (forall o, part, o', part', b :: InPart(f, entries, o, part, b) && InPart(f, entries, o', part', b) ==>
        o == o' && part == part')
    && (forall b :: start <= b < end ==> InSomePart(f, entries, b))
  }

  ghost predicate InSomePart<K>(f: Format<K>, entries: map<int, Entry<K>>, b: int)
  {
    exists o, part :: InPart(f, entries, o, part, b)
  }

  lemma PartInEntry<K>(f: Format<K>, entries: map<int, Entry<K>>, o: int, part: Part, b: int)
    requires InPart(f, entries, o, part, b)
    ensures o <= b < o + Size(f, entries[o].key, entries[o].rows)
  {
  }

  lemma PartOfByte<K>(f: Format<K>, entries: map<int, Entry<K>>, o: int, b: int) returns (part: Part)
    requires o in entries && o <= b < o + Size(f, entries[o].key, entries[o].rows)
    ensures InPart(f, entries, o, part, b)
  {
    var rows := o + f.header;
    if b < rows {
      part := Header;
    } else if b < rows + 4 * |entries[o].rows| {
      part := Row((b - rows) / 4);
    } else {
      part := Extra;
    }
  }

  lemma LayoutTiles<K>(f: Format<K>, entries: map<int, Entry<K>>, start: nat, end: nat)
    requires Layout(f, entries, start, end)
    ensures IsTiled(f, entries, start, end)
  {
    hide Size;
    forall o, part, b | InPart(f, entries, o, part, b) ensures start <= b < end { PartInEntry(f, entries, o, part, b); }
    forall o, part, o', part', b | InPart(f, entries, o, part, b) && InPart(f, entries, o', part', b)
      ensures o == o' && part == part'
    {
      PartInEntry(f, entries, o, part, b);
      PartInEntry(f, entries, o', part', b);
      assert o == o';
    }
    forall b | start <= b < end ensures InSomePart(f, entries, b) {
      assert InEntry(f, entries, b);
      var o :| o in entries && o <= b < o + Size(f, entries[o].key, entries[o].rows);
      var part := PartOfByte(f, entries, o, b);
    }
  }

  /** Walks the chain of the key. */
  method Get<K(==)>(f: Format<K>, file: File<K>, key: K, ghost items: seq<Item<K>>, ghost done: set<nat>)
    returns (rows: seq<int>)
    requires FileOk(f, file, items, done) && forall x :: x in items ==> Pos(f, |file.heads|, x.0) in done
    requires IsPowerOfTwo(|file.heads|)
    ensures rows == RowsOf(Group(f, |file.heads|, items, Pos(f, |file.heads|, key)), key)
  {
    ghost var group := Group(f, |file.heads|, items, Pos(f, |file.heads|, key));
    MaskIsRemainder(f.hash(key), |file.heads|);
    var pos := file.heads[And(f.hash(key), |file.heads| - 1)];
    ghost var rest := group;
    if Pos(f, |file.heads|, key) !in done { EmptyGroup(f, |file.heads|, items, Pos(f, |file.heads|, key), done); }
    while pos > 0
      invariant Spells(file.entries, pos, rest) && RowsOf(rest, key) == RowsOf(group, key)
      decreases |rest|
    {
      var entry := file.entries[pos];
      if entry.key == key {
        return entry.rows;
      }
      pos := entry.next;
      rest := rest[1..];
    }
    rows := [];
  }

  lemma EmptyGroup<K>(f: Format<K>, n: nat, items: seq<Item<K>>, pos: nat, done: set<nat>)
    requires n > 0 && pos !in done && forall x :: x in items ==> Pos(f, n, x.0) in done
    ensures Group(f, n, items, pos) == []
  {
    var g := Group(f, n, items, pos);
    if g != [] {
      InGroup(f, n, items, pos, g[0]);
    }
  }

  // ----- writing one group -----

  function Bytes<K>(f: Format<K>, items: seq<Item<K>>): (n: nat)
  {
    if items == [] then 0 else Bytes(f, items[..|items| - 1]) + Size(f, items[|items| - 1].0, items[|items| - 1].1)
  }

  /** The first `i` items of the group have been written at these offsets. */
  ghost predicate Written<K>(entries: map<int, Entry<K>>, group: seq<Item<K>>, offsets: seq<nat>, from: nat, end: nat)
  {
    && |offsets| <= |group|
    && (forall j :: 0 <= j < |offsets| ==> from <= offsets[j] < end && offsets[j] in entries)
    && (forall j :: 0 <= j < |offsets| ==>
        entries[offsets[j]].key == group[j].0 && entries[offsets[j]].rows == group[j].1)
    && (forall i, j :: 0 <= i < j < |offsets| ==> offsets[i] < offsets[j])
  }

  ghost predicate Extends<K>(entries: map<int, Entry<K>>, entries': map<int, Entry<K>>, from: nat)
  {
    && (forall o :: o in entries ==> o in entries' && entries'[o] == entries[o])
    && (forall o :: o in entries' && o !in entries ==> o >= from)
  }

  lemma AppendEntry<K>(f: Format<K>, entries: map<int, Entry<K>>, start: nat, end: nat, e: Entry<K>)
    requires Layout(f, entries, start, end) && start <= end && f.header > 0
    ensures end !in entries
    ensures Layout(f, entries[end := e], start, end + Size(f, e.key, e.rows))
  {
    hide Size;
    SizePositive(f, e.key, e.rows);
    forall o | o in entries ensures o < end { SizePositive(f, entries[o].key, entries[o].rows); }
    var entries' := entries[end := e];
    forall b | start <= b < end + Size(f, e.key, e.rows) ensures InEntry(f, entries', b) {
      if b < end {
        assert InEntry(f, entries, b);
        var o :| o in entries && o <= b < o + Size(f, entries[o].key, entries[o].rows);
        assert o in entries' && entries'[o] == entries[o];
      } else {
        assert end in entries';
      }
    }
  }

  lemma SizePositive<K>(f: Format<K>, key: K, rows: seq<int>)
    requires f.header > 0
    ensures Size(f, key, rows) > 0
  {
  }

  lemma RelinkLayout<K>(f: Format<K>, entries: map<int, Entry<K>>, start: nat, end: nat, o: int, next: nat)
    requires Layout(f, entries, start, end) && o in entries
    ensures Layout(f, entries[o := entries[o].(next := next)], start, end)
  {
    hide Size;
    var entries' := entries[o := entries[o].(next := next)];
    forall b | start <= b < end ensures InEntry(f, entries', b) {
      assert InEntry(f, entries, b);
      var x :| x in entries && x <= b < x + Size(f, entries[x].key, entries[x].rows);
      assert x in entries';
    }
  }

  /** Writes the entries of a group behind each other. */
  method WriteEntries<K>(f: Format<K>, entries0: map<int, Entry<K>>, group: seq<Item<K>>, ghost start: nat, from: nat)
    returns (entries: map<int, Entry<K>>, offsets: seq<nat>, end: nat)
    requires Layout(f, entries0, start, from) && start <= from && f.header > 0
    ensures Layout(f, entries, start, end) && end == from + Bytes(f, group) && Extends(entries0, entries, from)
    ensures |offsets| == |group| && Written(entries, group, offsets, from, end)
    ensures IsTiled(f, entries, start, end)
  {
    hide Size, Layout, IsTiled;
    entries, offsets, end := entries0, [], from;
    for i := 0 to |group|
      invariant Layout(f, entries, start, end) && end == from + Bytes(f, group[..i]) && Extends(entries0, entries, from)
      invariant |offsets| == i && Written(entries, group, offsets, from, end) && from <= end
    {
      var (key, rows) := group[i];
      AppendEntry(f, entries, start, end, Entry(key, rows, 0));
      SizePositive(f, key, rows);
      entries := entries[end := Entry(key, rows, 0)];
      offsets := offsets + [end];
      end := end + Size(f, key, rows);
      assert group[..i + 1][..i] == group[..i];
    }
    assert group[..|group|] == group;
    LayoutTiles(f, entries, start, end);
  }

  /** Links the entries of a group, from the last one back. */
  method LinkEntries<K>(f: Format<K>, entries0: map<int, Entry<K>>, group: seq<Item<K>>, offsets: seq<nat>,
                        ghost start: nat, ghost from: nat, ghost end: nat)
    returns (entries: map<int, Entry<K>>, head: nat)
    requires Layout(f, entries0, start, end) && 0 < from && |offsets| == |group| &&
             Written(entries0, group, offsets, from, end)
    ensures Layout(f, entries, start, end) && Spells(entries, head, group)
    ensures entries.Keys == entries0.Keys && forall o :: o in entries0 && o < from ==> entries[o] == entries0[o]
  {
    hide Size, Layout, Spells;
    entries, head := entries0, 0;
    var i := |offsets|;
    assert group[i..] == [];
    assert Spells(entries, head, group[i..]) by { SpellsNothing(entries); }
    while i > 0
      invariant 0 <= i <= |offsets| && head == (if i == |offsets| then 0 else offsets[i])
      invariant Layout(f, entries, start, end) && Written(entries, group, offsets, from, end) &&
                Spells(entries, head, group[i..])
      invariant entries.Keys == entries0.Keys && forall o :: o in entries0 && o < from ==> entries[o] == entries0[o]
    {
      i := i - 1;
      var o := offsets[i];
      RelinkLayout(f, entries, start, end, o, head);
      PrependChain(entries, o, head, group, i);
      entries := entries[o := entries[o].(next := head)];
      head := o;
    }
    assert group[0..] == group;
  }

  lemma SpellsNothing<K>(entries: map<int, Entry<K>>)
    ensures Spells(entries, 0, [])
  {
  }

  lemma PrependChain<K>(entries: map<int, Entry<K>>, o: nat, head: nat, group: seq<Item<K>>, i: nat)
    requires i < |group| && 0 < o && o in entries && entries[o].key == group[i].0 && entries[o].rows == group[i].1
    requires Spells(entries, head, group[i + 1..]) && (head == 0 || head > o)
    ensures Spells(entries[o := entries[o].(next := head)], o, group[i..])
  {
    var entries' := entries[o := entries[o].(next := head)];
    SpellsFrom(entries, entries', head, group[i + 1..], o + 1);
    assert group[i..][1..] == group[i + 1..];
  }

  // ----- the whole file -----

  /** The bytes of the items whose position is in `done`. */
  ghost function BytesIn<K>(f: Format<K>, n: nat, items: seq<Item<K>>, done: set<nat>): (b: nat)
    requires n > 0
  {
    if items == [] then 0
    else
      var last := items[|items| - 1];
      BytesIn(f, n, items[..|items| - 1], done) + if Pos(f, n, last.0) in done then Size(f, last.0, last.1) else 0
  }

  lemma {:induction false} BytesMore<K>(f: Format<K>, n: nat, items: seq<Item<K>>, done: set<nat>, pos: nat)
    requires n > 0 && pos !in done
    ensures BytesIn(f, n, items, done + {pos}) == BytesIn(f, n, items, done) + Bytes(f, Group(f, n, items, pos))
  {
    if items != [] {
      var last, rest := items[|items| - 1], items[..|items| - 1];
      BytesMore(f, n, rest, done, pos);
      var g := Group(f, n, rest, pos);
      assert Group(f, n, items, pos) == g + if Pos(f, n, last.0) == pos then [last] else [];
      if Pos(f, n, last.0) == pos {
        assert (g + [last])[..|g|] == g;
        assert Bytes(f, g + [last]) == Bytes(f, g) + Size(f, last.0, last.1);
      } else {
        assert g + [] == g;
      }
    }
  }

  lemma {:induction false} BytesAll<K>(f: Format<K>, n: nat, items: seq<Item<K>>, done: set<nat>)
    requires n > 0 && forall x :: x in items ==> Pos(f, n, x.0) in done
    ensures BytesIn(f, n, items, done) == Bytes(f, items)
  {
    if items != [] {
      assert items == items[..|items| - 1] + [items[|items| - 1]];
      BytesAll(f, n, items[..|items| - 1], done);
    }
  }

  lemma {:induction false} BytesNone<K>(f: Format<K>, n: nat, items: seq<Item<K>>)
    requires n > 0
    ensures BytesIn(f, n, items, {}) == 0
  {
    if items != [] { BytesNone(f, n, items[..|items| - 1]); }
  }

  method TotalLength<K>(f: Format<K>, items: seq<Item<K>>, start: nat) returns (length: nat)
    ensures length == start + Bytes(f, items)
  {
    length := start;
    for i := 0 to |items|
      invariant length == start + Bytes(f, items[..i])
    {
      length := length + Size(f, items[i].0, items[i].1);
      assert items[..i + 1][..i] == items[..i];
    }
    assert items[..|items|] == items;
  }

  /** The items by position. */
  method GroupItems<K>(f: Format<K>, n: nat, items: seq<Item<K>>) returns (groups: map<nat, seq<Item<K>>>)
    requires n > 0 && IsPowerOfTwo(n)
    ensures forall x :: x in items ==> Pos(f, n, x.0) in groups
    ensures forall p: nat :: p in groups ==> p < n && groups[p] == Group(f, n, items, p)
  {
    groups := map[];
    for i := 0 to |items|
      invariant forall x :: x in items[..i] ==> Pos(f, n, x.0) in groups
      invariant forall p: nat :: p in groups ==> p < n && groups[p] == Group(f, n, items[..i], p)
    {
      var p := And(f.hash(items[i].0), n - 1);
      MaskIsRemainder(f.hash(items[i].0), n);
      assert items[..i + 1][..i] == items[..i] && items[..i + 1] == items[..i] + [items[i]];
      if p !in groups { NotThere(f, n, items[..i], p); }
      groups := groups[p := (if p in groups then groups[p] else []) + [items[i]]];
    }
    assert items[..|items|] == items;
  }

  lemma NotThere<K>(f: Format<K>, n: nat, items: seq<Item<K>>, p: nat)
    requires n > 0 && forall x :: x in items ==> Pos(f, n, x.0) != p
    ensures Group(f, n, items, p) == []
  {
    var g := Group(f, n, items, p);
    if g != [] { InGroup(f, n, items, p, g[0]); }
  }

  lemma FileStep<K>(f: Format<K>, file: File<K>, file': File<K>, items: seq<Item<K>>, done: set<nat>, p: nat)
    requires FileOk(f, file, items, done) && p < |file.heads| && p !in done
    requires |file'.heads| == |file.heads| && file'.heads == file.heads[p := file'.heads[p]]
    requires forall o :: o in file.entries ==> o in file'.entries && file'.entries[o] == file.entries[o]
    requires Spells(file'.entries, file'.heads[p], Group(f, |file.heads|, items, p))
    ensures FileOk(f, file', items, done + {p})
  {
    hide Group;
    forall q: nat | q < |file.heads| && q in done
      ensures Spells(file'.entries, file'.heads[q], Group(f, |file.heads|, items, q))
    {
      SpellsFrame(file.entries, file'.entries, file.heads[q], Group(f, |file.heads|, items, q));
    }
  }

  /** Adds one group to the file. */
  method AddGroup<K>(f: Format<K>, file: File<K>, group: seq<Item<K>>, p: nat, ghost items: seq<Item<K>>,
                     ghost done: set<nat>, ghost start: nat)
    returns (file': File<K>)
    requires FileOk(f, file, items, done) && p < |file.heads| && p !in done && group == Group(f, |file.heads|, items, p)
    requires Layout(f, file.entries, start, file.length) && 0 < start <= file.length && f.header > 0
    ensures FileOk(f, file', items, done + {p}) && |file'.heads| == |file.heads|
    ensures Layout(f, file'.entries, start, file'.length) && file'.length == file.length + Bytes(f, group)
  {
    hide Group, Layout, FileOk, Spells;
    var entries, offsets, end := WriteEntries(f, file.entries, group, start, file.length);
    var linked, head := LinkEntries(f, entries, group, offsets, start, file.length, end);
    EntriesBefore(f, file.entries, start, file.length);
    file' := File(file.heads[p := head], linked, end);
    FileStep(f, file, file', items, done, p);
  }

  lemma EntriesBefore<K>(f: Format<K>, entries: map<int, Entry<K>>, start: nat, end: nat)
    requires Layout(f, entries, start, end) && f.header > 0
    ensures forall o :: o in entries ==> o < end
  {
    forall o | o in entries ensures o < end { SizePositive(f, entries[o].key, entries[o].rows); }
  }

  /** Writes the index file; the groups come in any order. */
  method Serialize<K>(f: Format<K>, items: seq<Item<K>>) returns (file: File<K>, ghost done: set<nat>)
    requires f.header > 0
    ensures FileOk(f, file, items, done) && forall x :: x in items ==> Pos(f, |file.heads|, x.0) in done
    ensures IsPowerOfTwo(|file.heads|)
    ensures Layout(f, file.entries, 8 + 8 * |file.heads|, file.length) &&
            file.length == 8 + 8 * |file.heads| + Bytes(f, items)
    ensures IsTiled(f, file.entries, 8 + 8 * |file.heads|, file.length)
  {
    hide Group, Layout, FileOk, Spells, Size, IsTiled;
    var n := TableSize(|items|);
    var start := 8 + 8 * n;
    var length := TotalLength(f, items, start);
    file := File(seq(n, i => 0), map[], start);
    done := {};
    StartFile(f, file, items, start);
    var groups := GroupItems(f, n, items);
    BytesNone(f, n, items);
    var todo := groups.Keys;
    while todo != {}
      invariant FileOk(f, file, items, done) && |file.heads| == n && todo == groups.Keys - done
      invariant Layout(f, file.entries, start, file.length) && file.length == start + BytesIn(f, n, items, done)
      decreases todo
    {
      var p: nat :| p in todo;
      BytesMore(f, n, items, done, p);
      file := AddGroup(f, file, groups[p], p, items, done, start);
      done := done + {p};
      todo := todo - {p};
    }
    forall x | x in items ensures Pos(f, n, x.0) in done {
      assert Pos(f, n, x.0) in groups.Keys;
    }
    BytesAll(f, n, items, done);
    assert file.length == length;
    LayoutTiles(f, file.entries, start, file.length);
  }

  lemma StartFile<K>(f: Format<K>, file: File<K>, items: seq<Item<K>>, start: nat)
    requires 0 < |file.heads| && (forall i :: 0 <= i < |file.heads| ==> file.heads[i] == 0) && file.entries == map[]
    ensures FileOk(f, file, items, {}) && Layout(f, file.entries, start, start)
  {
  }

  // ----- from the loader to the lookup -----

  /** The rows of a column that hold the key, in order; null rows hold none. */
  function RowsWith<K(==)>(column: seq<Cell<K>>, key: K): (r: seq<int>)
  {
    if column == [] then []
    else
      var n := |column| - 1;
      RowsWith(column[..n], key) + if column[n] == Value(key) then [n] else []
  }

  datatype Cell<K> = Null | Value(v: K)

  lemma {:induction false} RowsWithExact<K>(column: seq<Cell<K>>, key: K, r: int)
    ensures r in RowsWith(column, key) <==> 0 <= r < |column| && column[r] == Value(key)
    ensures forall i, j :: 0 <= i < j < |RowsWith(column, key)| ==>
            RowsWith(column, key)[i] < RowsWith(column, key)[j] < |column|
    ensures forall i :: 0 <= i < |RowsWith(column, key)| ==> RowsWith(column, key)[i] < |column|
  {
    if column != [] { RowsWithExact(column[..|column| - 1], key, r); }
  }

  /** Appends the cells one by one and notes the row number under its key. */
  method LoadColumn<K(==)>(column: seq<Cell<K>>) returns (index: map<K, seq<int>>)
    ensures forall k :: k in index <==> Value(k) in column
    ensures forall k :: k in index ==> index[k] == RowsWith(column, k)
  {
    index := map[];
    for i := 0 to |column|
      invariant forall k :: k in index <==> Value(k) in column[..i]
      invariant forall k :: k in index ==> index[k] == RowsWith(column[..i], k)
    {
      assert column[..i + 1][..i] == column[..i] && column[..i + 1] == column[..i] + [column[i]];
      if column[i].Value? {
        var k := column[i].v;
        if k !in index { NoRows(column[..i], k); }
        index := index[k := (if k in index then index[k] else []) + [i]];
      }
    }
    assert column[..|column|] == column;
  }

  lemma {:induction false} NoRows<K>(column: seq<Cell<K>>, key: K)
    requires Value(key) !in column
    ensures RowsWith(column, key) == []
  {
    if column != [] {
      assert column[|column| - 1] in column;
      NoRows(column[..|column| - 1], key);
    }
  }

  /** The items of an index, in any order. */
  method ItemsOf<K(==)>(index: map<K, seq<int>>) returns (items: seq<Item<K>>)
    ensures forall x :: x in items <==> x.0 in index && index[x.0] == x.1
  {
    items := [];
    var todo := index.Keys;
    while todo != {}
      invariant todo <= index.Keys
      invariant forall x :: x in items <==> x.0 in index && x.0 !in todo && index[x.0] == x.1
      decreases todo
    {
      var k :| k in todo;
      items := items + [(k, index[k])];
      todo := todo - {k};
    }
  }

  /** What the file stores for a key is what the index held. */
  lemma GroupRows<K(!new)>(f: Format<K>, n: nat, items: seq<Item<K>>, index: map<K, seq<int>>, key: K)
    requires n > 0 && forall x :: x in items <==> x.0 in index && index[x.0] == x.1
    ensures RowsOf(Group(f, n, items, Pos(f, n, key)), key) == if key in index then index[key] else []
  {
    var p := Pos(f, n, key);
    forall x ensures x in Group(f, n, items, p) <==> x in items && Pos(f, n, x.0) == p { InGroup(f, n, items, p, x); }
    if key in index {
      assert (key, index[key]) in items;
      RowsOfItem(Group(f, n, items, p), key, index[key]);
    } else {
      RowsOfNone(Group(f, n, items, p), key);
    }
  }

  /** Loading a column, writing its index and looking a key up gives exactly the rows with the
      key, in ascending order. */
  method IndexedRows<K(==, !new)>(f: Format<K>, column: seq<Cell<K>>, key: K) returns (rows: seq<int>)
    requires f.header > 0
    ensures rows == RowsWith(column, key)
  {
    var index := LoadColumn(column);
    var items := ItemsOf(index);
    var file;
    ghost var done;
    file, done := Serialize(f, items);
    GroupRows(f, |file.heads|, items, index, key);
    if key !in index { NoRows(column, key); }
    rows := Get(f, file, key, items, done);
  }
}
