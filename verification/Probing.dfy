/**
 Linear probing over slots that point to numbered rows.
 */
module Probing {
  import opened Sequences
  import opened Arithmetic
  import opened PagedRows

  /** A slot: 16 bits of the hash, and the position of the row.  Page 0 means empty. */
  datatype Entry = Entry(salt: nat, offset: nat, block: nat)

  /** Fields that fit their bits: 16 for salt and offset, 32 for the page. */
  predicate FitsWord(e: Entry)
  {
    e.salt < 0x1_0000 && e.offset < 0x1_0000 && e.block < 0x1_0000_0000
  }

  /** The 64-bit word of an entry: salt, offset and page from the top down. */
  function ConstructEntry(e: Entry): (w: nat)
  {
    e.salt * 0x1_0000_0000_0000 + e.offset * 0x1_0000_0000 + e.block
  }

  function EntryParts(w: nat): (e: Entry)
  {
    Entry(w / 0x1_0000_0000_0000 % 0x1_0000, w / 0x1_0000_0000 % 0x1_0000, w % 0x1_0000_0000)
  }

  /** Taking the word apart gives the entry back; its low half is zero exactly for page 0. */
  lemma EntryRoundTrip(e: Entry)
    requires FitsWord(e)
    ensures ConstructEntry(e) < 0x1_0000_0000_0000_0000 && EntryParts(ConstructEntry(e)) == e
    ensures ConstructEntry(e) % 0x1_0000_0000 > 0 <==> e.block != 0
    ensures ConstructEntry(e) / 0x1_0000_0000_0000 == e.salt && ConstructEntry(e) % 0x1_0000_0000 == e.block
    ensures ConstructEntry(e) / 0x1_0000_0000 % 0x1_0000 == e.offset
  {
    var w := ConstructEntry(e);
    assert w / 0x1_0000_0000 == e.salt * 0x1_0000 + e.offset;
    assert w / 0x1_0000_0000_0000 == e.salt;
  }

  function Salt(hash: nat): (s: nat)
  {
    hash / 0x1_0000_0000_0000
  }

  function EntryFor(hash: nat, ps: nat, r: nat): (e: Entry)
    requires SizeOk(ps)
    ensures e.block != 0
  {
    Entry(Salt(hash), ComputeBlockOffset(ps, r), ComputeBlockIdx(ps, r))
  }

  /** Entries of the table hold the first 16 bits of the hash, and fit their word as long as the pages can be
      numbered in 32 bits. */
  lemma EntryForFits(hash: nat, ps: nat, r: nat)
    requires SizeOk(ps) && hash < 0x1_0000_0000_0000_0000 && ComputeBlockIdx(ps, r) < 0x1_0000_0000
    ensures FitsWord(EntryFor(hash, ps, r))
    ensures var salt := EntryFor(hash, ps, r).salt;
            salt * 0x1_0000_0000_0000 <= hash < salt * 0x1_0000_0000_0000 + 0x1_0000_0000_0000
  {
    RowNumberOf(ps, r);
  }

  // ----- circular positions -----

  /** The slot `d` steps after `home`. */
  function Slot(home: nat, d: nat, cap: nat): (i: nat)
    requires home < cap && d < cap
    ensures i < cap
  {
    if home + d < cap then home + d else home + d - cap
  }

  function Dist(home: nat, i: nat, cap: nat): (d: nat)
    requires home < cap && i < cap
    ensures d < cap && Slot(home, d, cap) == i
  {
    if i >= home then i - home else i + cap - home
  }

  lemma NextSlot(home: nat, d: nat, cap: nat)
    requires home < cap && d + 1 < cap
    ensures (Slot(home, d, cap) + 1) % cap == Slot(home, d + 1, cap)
  {
    var i := Slot(home, d, cap);
    if i + 1 < cap {
      DivUnique(i + 1, cap, 0, i + 1);
    } else {
      DivUnique(cap, cap, 1, 0);
    }
  }

  // ----- tables -----

  /** The first `d` slots from `home` are taken. */
  ghost predicate NoGap(ents: seq<Entry>, home: nat, d: nat)
    requires home < |ents| && d <= |ents|
  {
    forall e: nat :: e < d ==> ents[Slot(home, e, |ents|)].block != 0
  }

  function Home<K>(hash: K -> nat, k: K, cap: nat): (i: nat)
    requires cap > 0
    ensures i < cap
  {
    hash(k) % cap
  }

  /** Row `r` has its entry, and probing from its home slot reaches it. */
  ghost predicate Placed<K>(hash: K -> nat, ps: nat, keys: seq<K>, ents: seq<Entry>, slotOf: seq<nat>, r: nat)
    requires SizeOk(ps) && r < |keys| == |slotOf| && 0 < |ents|
  {
    && slotOf[r] < |ents| && ents[slotOf[r]] == EntryFor(hash(keys[r]), ps, r)
    && NoGap(ents, Home(hash, keys[r], |ents|), Dist(Home(hash, keys[r], |ents|), slotOf[r], |ents|))
  }

  /** A taken slot belongs to a row whose entry it is. */
  ghost predicate Owned(ps: nat, ents: seq<Entry>, slotOf: seq<nat>, i: nat)
    requires SizeOk(ps) && i < |ents|
  {
    var r := RowNumber(ps, ents[i].block, ents[i].offset);
    0 <= r < |slotOf| && slotOf[r] == i
  }

  /** Every row has exactly one entry, and no empty slot lies before it. */
  ghost predicate Indexed<K>(hash: K -> nat, ps: nat, keys: seq<K>, ents: seq<Entry>, slotOf: seq<nat>)
    requires SizeOk(ps)
  {
    && |slotOf| == |keys| && 0 < |ents|
    && (forall r: nat :: r < |keys| ==> Placed(hash, ps, keys, ents, slotOf, r))
    && (forall i: nat :: i < |ents| && ents[i].block != 0 ==> Owned(ps, ents, slotOf, i))
  }

  lemma EmptyIndexed<K>(hash: K -> nat, ps: nat, ents: seq<Entry>)
    requires SizeOk(ps) && 0 < |ents| && forall i :: 0 <= i < |ents| ==> ents[i].block == 0
    ensures Indexed(hash, ps, [], ents, [])
  {
  }

  lemma StillPlaced<K>(hash: K -> nat, ps: nat, keys: seq<K>, ents: seq<Entry>, slotOf: seq<nat>, k: K, i: nat,
                       e: Entry, r: nat)
    requires SizeOk(ps) && r < |keys| == |slotOf| && 0 < |ents| && Placed(hash, ps, keys, ents, slotOf, r)
    requires i < |ents| && ents[i].block == 0 && e.block != 0
    ensures Placed(hash, ps, keys + [k], ents[i := e], slotOf + [i], r)
  {
    var cap, home := |ents|, Home(hash, keys[r], |ents|);
    var d := Dist(home, slotOf[r], cap);
    forall x: nat | x < d ensures ents[i := e][Slot(home, x, cap)].block != 0 {
      assert ents[Slot(home, x, cap)].block != 0;
    }
  }

  /** A new row is entered at the first empty slot from its home. */
  lemma InsertAt<K>(hash: K -> nat, ps: nat, keys: seq<K>, ents: seq<Entry>, slotOf: seq<nat>, k: K, d: nat)
    requires SizeOk(ps) && Indexed(hash, ps, keys, ents, slotOf) && d < |ents| && NoGap(ents, Home(hash, k, |ents|), d)
    requires ents[Slot(Home(hash, k, |ents|), d, |ents|)].block == 0
    ensures var i := Slot(Home(hash, k, |ents|), d, |ents|);
            Indexed(hash, ps, keys + [k], ents[i := EntryFor(hash(k), ps, |keys|)], slotOf + [i])
  {
    var cap, home, n := |ents|, Home(hash, k, |ents|), |keys|;
    var i := Slot(home, d, cap);
    var e := EntryFor(hash(k), ps, n);
    var ents', slotOf', keys' := ents[i := e], slotOf + [i], keys + [k];
    hide EntryFor;
    RowNumberOf(ps, n);
    NewEntryOwned(ps, ents, slotOf, hash(k), i, n);
    forall r: nat | r < |keys'| ensures Placed(hash, ps, keys', ents', slotOf', r) {
      if r < n {
        StillPlaced(hash, ps, keys, ents, slotOf, k, i, e, r);
      } else {
        NewPlaced(ents, home, d, e);
      }
    }
    forall q: nat | q < cap && ents'[q].block != 0 ensures Owned(ps, ents', slotOf', q) {
      if q != i { assert Owned(ps, ents, slotOf, q); }
    }
  }

  lemma NewEntryOwned(ps: nat, ents: seq<Entry>, slotOf: seq<nat>, h: nat, i: nat, n: nat)
    requires SizeOk(ps) && i < |ents| && n == |slotOf|
    ensures Owned(ps, ents[i := EntryFor(h, ps, n)], slotOf + [i], i)
  {
    RowNumberOf(ps, n);
  }

  lemma NewPlaced(ents: seq<Entry>, home: nat, d: nat, e: Entry)
    requires home < |ents| && d < |ents| && NoGap(ents, home, d) && e.block != 0
    ensures var i := Slot(home, d, |ents|); Dist(home, i, |ents|) == d && NoGap(ents[i := e], home, d)
  {
    var i := Slot(home, d, |ents|);
    forall x: nat | x < d ensures ents[i := e][Slot(home, x, |ents|)].block != 0 {
      assert ents[Slot(home, x, |ents|)].block != 0;
    }
  }

  // ----- there is always an empty slot -----

  ghost function Elements(s: seq<nat>): (r: set<nat>)
    ensures |r| <= |s| && forall x :: x in s <==> x in r
  {
    if s == [] then {} else
    assert s == s[..|s| - 1] + [s[|s| - 1]];
    Elements(s[..|s| - 1]) + {s[|s| - 1]}
  }

  lemma Missing(slotOf: seq<nat>, cap: nat) returns (i: nat)
    requires |slotOf| < cap
    ensures i < cap && i !in slotOf
  {
    var taken, all := Elements(slotOf), UpTo(cap);
    if all <= taken { SubsetSize(all, taken); }
    i :| i in all && i !in taken;
  }

  lemma {:induction false} SubsetSize(a: set<nat>, b: set<nat>)
    requires a <= b
    ensures |a| <= |b|
  {
    if a != {} {
      var x :| x in a;
      SubsetSize(a - {x}, b - {x});
    }
  }

  lemma FreeSlot<K>(hash: K -> nat, ps: nat, keys: seq<K>, ents: seq<Entry>, slotOf: seq<nat>) returns (i: nat)
    requires SizeOk(ps) && Indexed(hash, ps, keys, ents, slotOf) && |keys| < |ents|
    ensures i < |ents| && ents[i].block == 0
  {
    i := Missing(slotOf, |ents|);
    assert ents[i].block != 0 ==> Owned(ps, ents, slotOf, i);
  }

  // ----- looking up -----

  /** The row a taken slot stands for. */
  lemma RowAt<K>(hash: K -> nat, ps: nat, keys: seq<K>, ents: seq<Entry>, slotOf: seq<nat>, i: nat) returns (r: nat)
    requires SizeOk(ps) && Indexed(hash, ps, keys, ents, slotOf) && i < |ents| && ents[i].block != 0
    ensures r < |keys| && slotOf[r] == i && ents[i] == EntryFor(hash(keys[r]), ps, r)
  {
    assert Owned(ps, ents, slotOf, i);
    r := RowNumber(ps, ents[i].block, ents[i].offset);
    assert Placed(hash, ps, keys, ents, slotOf, r);
  }

  /** None of the first `d` slots from the home of `k` holds `k`. */
  ghost predicate NotBefore<K>(hash: K -> nat, keys: seq<K>, cap: nat, slotOf: seq<nat>, k: K, d: nat)
    requires |slotOf| == |keys| && 0 < cap
  {
    forall r: nat :: r < |keys| && keys[r] == k ==> slotOf[r] < cap && Dist(Home(hash, k, cap), slotOf[r], cap) >= d
  }

  lemma NotBeforeNext<K>(hash: K -> nat, ps: nat, keys: seq<K>, ents: seq<Entry>, slotOf: seq<nat>, k: K, d: nat,
                         r: nat)
    requires SizeOk(ps) && Indexed(hash, ps, keys, ents, slotOf) && d < |ents| &&
             NotBefore(hash, keys, |ents|, slotOf, k, d)
    requires r < |keys| && slotOf[r] == Slot(Home(hash, k, |ents|), d, |ents|) && keys[r] != k
    ensures NotBefore(hash, keys, |ents|, slotOf, k, d + 1)
  {
    var cap, home := |ents|, Home(hash, k, |ents|);
    forall q: nat | q < |keys| && keys[q] == k ensures Dist(home, slotOf[q], cap) >= d + 1 {
      if slotOf[q] == slotOf[r] {
        SameSlot(hash, ps, keys, ents, slotOf, q, r);
      }
    }
  }

  lemma SameSlot<K>(hash: K -> nat, ps: nat, keys: seq<K>, ents: seq<Entry>, slotOf: seq<nat>, q: nat, r: nat)
    requires SizeOk(ps) && Indexed(hash, ps, keys, ents, slotOf) && q < |keys| && r < |keys| && slotOf[q] == slotOf[r]
    ensures q == r
  {
    assert Placed(hash, ps, keys, ents, slotOf, q) && Placed(hash, ps, keys, ents, slotOf, r);
    RowNumberOf(ps, q);
    RowNumberOf(ps, r);
  }

  lemma StartSearch<K>(hash: K -> nat, ps: nat, keys: seq<K>, ents: seq<Entry>, slotOf: seq<nat>, k: K)
    requires SizeOk(ps) && Indexed(hash, ps, keys, ents, slotOf)
    ensures NotBefore(hash, keys, |ents|, slotOf, k, 0) && NoGap(ents, Home(hash, k, |ents|), 0)
  {
    forall r: nat | r < |keys| && keys[r] == k ensures slotOf[r] < |ents| {
      assert Placed(hash, ps, keys, ents, slotOf, r);
    }
  }

  /** An empty slot ends the search: the key is nowhere. */
  lemma NotPresent<K>(hash: K -> nat, ps: nat, keys: seq<K>, ents: seq<Entry>, slotOf: seq<nat>, k: K, d: nat)
    requires SizeOk(ps) && Indexed(hash, ps, keys, ents, slotOf) && d < |ents| &&
             NotBefore(hash, keys, |ents|, slotOf, k, d)
    requires ents[Slot(Home(hash, k, |ents|), d, |ents|)].block == 0
    ensures k !in keys
  {
    forall r: nat | r < |keys| ensures keys[r] != k {
      assert Placed(hash, ps, keys, ents, slotOf, r);
    }
  }
}
