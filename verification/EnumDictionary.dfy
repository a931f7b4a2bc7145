/**
 The enum dictionary file: names by number, and a linear-probing table from names to numbers.
 */
module EnumDictionary {
  import opened Sequences
  import opened Masks
  import opened Probing

  datatype Name = Name(offset: nat, len: nat, value: nat)

  /** Slots hold byte offsets of names, 0 for none; the text follows the names. */
  datatype File = File(slots: seq<nat>, names: seq<Name>, text: string)

  /** Where name `id` lies in the file with `n` slots: 16 bytes of metadata, then the slots. */
  function NameOffset(n: nat, id: nat): (o: nat)
    ensures o > 0
  {
    16 + 8 * n + 16 * id
  }

  function IdAt(n: nat, o: nat): (id: int)
  {
    (o - (16 + 8 * n)) / 16
  }

  lemma IdOfOffset(n: nat, id: nat)
    ensures IdAt(n, NameOffset(n, id)) == id
  {
  }

  function TextStart(n: nat, k: nat): (o: nat)
  {
    16 + 8 * n + 16 * k
  }

  // ----- text -----

  /** Every name is found at its offset in the text. */
  ghost predicate TextOk(file: File, keys: seq<string>, done: nat)
  {
    && |file.names| == done <= |keys|
    && forall id: nat :: id < done ==> NameOk(file, keys, id)
  }

  ghost predicate NameOk(file: File, keys: seq<string>, id: nat)
    requires id < |file.names| && id < |keys|
  {
    var base, e := TextStart(|file.slots|, |keys|), file.names[id];
    && e.value == id && e.len == |keys[id]| && base <= e.offset && e.offset - base + e.len < |file.text|
    && file.text[e.offset - base..e.offset - base + e.len] == keys[id] && file.text[e.offset - base + e.len] == '\0'
  }

  /** The texts of the first `done` names follow each other and fill the text. */
  ghost predicate Consecutive(file: File, keys: seq<string>, done: nat)
    requires done <= |file.names| && done <= |keys|
  {
    && (forall id: nat :: id < done ==>
        file.names[id].offset == TextStart(|file.slots|, |keys|) + TextLength(keys[..id]))
    && |file.text| == TextLength(keys[..done])
  }

  // ----- the bytes of the file -----

  /** What the file stores: metadata, slots, name entries, and texts with their zero bytes. */
  datatype Part = Metadata | SlotAt(i: nat) | NameAt(id: nat) | TextAt(id: nat)

  predicate HasPart(file: File, part: Part)
  {
    match part
    case Metadata => true
    case SlotAt(i) => i < |file.slots|
    case NameAt(id) => id < |file.names|
    case TextAt(id) => id < |file.names|
  }

  function PartStart(file: File, part: Part): (b: nat)
    requires HasPart(file, part)
  {
    match part
    case Metadata => 0
    case SlotAt(i) => 16 + 8 * i
    case NameAt(id) => 16 + 8 * |file.slots| + 16 * id
    case TextAt(id) => file.names[id].offset
  }

  function PartSize(file: File, part: Part): (n: nat)
    requires HasPart(file, part)
  {
    match part
    case Metadata => 16
    case SlotAt(_) => 8
    case NameAt(_) => 16
    case TextAt(id) => file.names[id].len + 1
  }

  predicate InPart(file: File, part: Part, b: int)
  {
    HasPart(file, part) && PartStart(file, part) <= b < PartStart(file, part) + PartSize(file, part)
  }

  ghost predicate InSomePart(file: File, b: int)
  {
    exists part :: InPart(file, part, b)
  }

  /** Every byte of a file of this length belongs to exactly one part. */
  ghost predicate IsTiled(file: File, length: nat)
  {
    && (forall part, b :: InPart(file, part, b) ==> b < length)
    && (forall part, part', b :: InPart(file, part, b) && InPart(file, part', b) ==> part == part')
    && (forall b :: 0 <= b < length ==> InSomePart(file, b))
  }

  lemma {:induction false} TextLengths(keys: seq<string>, i: nat, j: nat)
    requires i < j <= |keys|
    ensures TextLength(keys[..i]) + |keys[i]| + 1 <= TextLength(keys[..j])
  {
    assert keys[..j][..j - 1] == keys[..j - 1];
    if i < j - 1 { TextLengths(keys, i, j - 1); }
  }

  /** The name whose text holds the byte `b` of the text. */
  lemma {:induction false} TextAtByte(keys: seq<string>, j: nat, b: nat) returns (id: nat)
    requires j <= |keys| && b < TextLength(keys[..j])
    ensures id < j && TextLength(keys[..id]) <= b < TextLength(keys[..id]) + |keys[id]| + 1
  {
    assert keys[..j][..j - 1] == keys[..j - 1];
    if b < TextLength(keys[..j - 1]) {
      id := TextAtByte(keys, j - 1, b);
    } else {
      id := j - 1;
    }
  }

  lemma PartOfByte(file: File, keys: seq<string>, b: nat) returns (part: Part)
    requires TextOk(file, keys, |keys|) && Consecutive(file, keys, |keys|)
    requires b < TextStart(|file.slots|, |keys|) + |file.text|
    ensures InPart(file, part, b)
  {
    var n := |file.slots|;
    if b < 16 {
      part := Metadata;
    } else if b < 16 + 8 * n {
      part := SlotAt((b - 16) / 8);
    } else if b < TextStart(n, |keys|) {
      part := NameAt((b - 16 - 8 * n) / 16);
    } else {
      var id := TextAtByte(keys, |keys|, b - TextStart(n, |keys|));
      assert NameOk(file, keys, id);
      part := TextAt(id);
    }
  }

  lemma TextPart(file: File, keys: seq<string>, id: nat, id': nat)
    requires TextOk(file, keys, |keys|) && Consecutive(file, keys, |keys|) && id < id' < |keys|
    ensures TextStart(|file.slots|, |keys|) <= file.names[id].offset
    ensures file.names[id].offset + file.names[id].len + 1 <= file.names[id'].offset
  {
    assert NameOk(file, keys, id);
    TextLengths(keys, id, id');
  }

  lemma PartsDisjoint(file: File, keys: seq<string>, part: Part, part': Part, b: int)
    requires TextOk(file, keys, |keys|) && Consecutive(file, keys, |keys|)
    requires InPart(file, part, b) && InPart(file, part', b)
    ensures part == part'
  {
    hide Consecutive;
    assert part.TextAt? ==> NameOk(file, keys, part.id);
    assert part'.TextAt? ==> NameOk(file, keys, part'.id);
    if part.TextAt? && part'.TextAt? {
      if part.id < part'.id { TextPart(file, keys, part.id, part'.id); }
      if part'.id < part.id { TextPart(file, keys, part'.id, part.id); }
    }
  }

  lemma FileTiles(file: File, keys: seq<string>)
    requires TextOk(file, keys, |keys|) && Consecutive(file, keys, |keys|)
    ensures IsTiled(file, TextStart(|file.slots|, |keys|) + |file.text|)
  {
    hide Consecutive;
    var length := TextStart(|file.slots|, |keys|) + |file.text|;
    forall part, b | InPart(file, part, b) ensures b < length {
      assert part.TextAt? ==> NameOk(file, keys, part.id);
    }
    forall part, part', b | InPart(file, part, b) && InPart(file, part', b) ensures part == part' {
      PartsDisjoint(file, keys, part, part', b);
    }
    forall b | 0 <= b < length ensures InSomePart(file, b) {
      var part := PartOfByte(file, keys, b);
    }
  }

  lemma NameKept(file: File, file': File, keys: seq<string>, id: nat)
    requires id < |file.names| && id < |keys| && NameOk(file, keys, id)
    requires |file'.slots| == |file.slots| && id < |file'.names| && file'.names[id] == file.names[id] &&
             file.text <= file'.text
    ensures NameOk(file', keys, id)
  {
    var e, base := file.names[id], TextStart(|file.slots|, |keys|);
    assert file'.text[..|file.text|] == file.text;
    assert file'.text[e.offset - base..e.offset - base + e.len] == file.text[e.offset - base..e.offset - base + e.len];
  }

  /** Writes the names in the order of their numbers, each followed by a zero byte. */
  method WriteNames(n: nat, keys: seq<string>) returns (file: File)
    ensures TextOk(file, keys, |keys|) && file.slots == seq(n, i => 0)
    ensures |file.text| == TextLength(keys)
    ensures Consecutive(file, keys, |keys|) && IsTiled(file, FileLength(n, keys))
  {
    hide IsTiled;
    file := File(seq(n, i => 0), [], "");
    var offset := TextStart(n, |keys|);
    for id := 0 to |keys|
      invariant TextOk(file, keys, id) && |file.slots| == n && file.slots == seq(n, i => 0)
      invariant offset == TextStart(n, |keys|) + |file.text| && Consecutive(file, keys, id)
    {
      var key := keys[id];
      ghost var before := file;
      file := File(file.slots, file.names + [Name(offset, |key|, id)], file.text + key + ['\0']);
      offset := offset + |key| + 1;
      forall i: nat | i < id ensures NameOk(file, keys, i) { NameKept(before, file, keys, i); }
      assert file.text[|before.text|..|before.text| + |key|] == key;
      assert file.text[|before.text| + |key|] == '\0';
      assert keys[..id + 1][..id] == keys[..id];
    }
    assert keys[..|keys|] == keys;
    FileTiles(file, keys);
    LengthOfFile(n, keys);
  }

  /** The length that is computed before the file is written. */
  function FileLength(n: nat, keys: seq<string>): (length: nat)
  {
    if keys == [] then 16 + 8 * n else FileLength(n, keys[..|keys| - 1]) + 16 + |keys[|keys| - 1]| + 1
  }

  lemma {:induction false} LengthOfFile(n: nat, keys: seq<string>)
    ensures FileLength(n, keys) == TextStart(n, |keys|) + TextLength(keys)
  {
    if keys != [] { LengthOfFile(n, keys[..|keys| - 1]); }
  }

  function TextLength(keys: seq<string>): (n: nat)
  {
    if keys == [] then 0 else TextLength(keys[..|keys| - 1]) + |keys[|keys| - 1]| + 1
  }

  /** The name with a number. */
  method GetKey(file: File, id: nat, ghost keys: seq<string>) returns (key: string)
    requires TextOk(file, keys, |keys|) && id < |keys|
    ensures key == keys[id]
  {
    assert NameOk(file, keys, id);
    var e, base := file.names[id], TextStart(|file.slots|, |file.names|);
    key := file.text[e.offset - base..e.offset - base + e.len];
  }

  // ----- probing -----

  ghost predicate Filled(slots: seq<nat>, home: nat, d: nat)
    requires home < |slots| && d <= |slots|
  {
    forall e: nat :: e < d ==> slots[Slot(home, e, |slots|)] != 0
  }

  /** The `r`-th number entered is in its slot and can be reached. */
  ghost predicate Entered(hash: string -> nat, keys: seq<string>, slots: seq<nat>, ids: seq<nat>, slotOf: seq<nat>,
                          r: nat)
    requires r < |ids| == |slotOf| && 0 < |slots|
  {
    && ids[r] < |keys| && slotOf[r] < |slots| && slots[slotOf[r]] == NameOffset(|slots|, ids[r])
    && Filled(slots, Home(hash, keys[ids[r]], |slots|), Dist(Home(hash, keys[ids[r]], |slots|), slotOf[r], |slots|))
  }

  ghost predicate TableOk(hash: string -> nat, keys: seq<string>, slots: seq<nat>, ids: seq<nat>, slotOf: seq<nat>)
  {
    && |ids| == |slotOf| && 0 < |slots|
    && (forall r: nat :: r < |ids| ==> Entered(hash, keys, slots, ids, slotOf, r))
    && (forall i: nat :: i < |slots| && slots[i] != 0 ==> i in slotOf)
  }

  lemma StillEntered(hash: string -> nat, keys: seq<string>, slots: seq<nat>, ids: seq<nat>, slotOf: seq<nat>,
                     id: nat, i: nat, o: nat, r: nat)
    requires r < |ids| == |slotOf| && 0 < |slots| && Entered(hash, keys, slots, ids, slotOf, r) && i < |slots| &&
             slots[i] == 0 && o > 0
    ensures Entered(hash, keys, slots[i := o], ids + [id], slotOf + [i], r)
  {
    var home := Home(hash, keys[ids[r]], |slots|);
    var d := Dist(home, slotOf[r], |slots|);
    forall e: nat | e < d ensures slots[i := o][Slot(home, e, |slots|)] != 0 {
      assert slots[Slot(home, e, |slots|)] != 0;
    }
  }

  lemma EnterAt(hash: string -> nat, keys: seq<string>, slots: seq<nat>, ids: seq<nat>, slotOf: seq<nat>, id: nat,
                d: nat)
    requires TableOk(hash, keys, slots, ids, slotOf) && id < |keys| && d < |slots| &&
             Filled(slots, Home(hash, keys[id], |slots|), d)
    requires slots[Slot(Home(hash, keys[id], |slots|), d, |slots|)] == 0
    ensures var i := Slot(Home(hash, keys[id], |slots|), d, |slots|);
            TableOk(hash, keys, slots[i := NameOffset(|slots|, id)], ids + [id], slotOf + [i])
  {
    var n, home := |slots|, Home(hash, keys[id], |slots|);
    var i, o := Slot(home, d, n), NameOffset(n, id);
    var slots' := slots[i := o];
    forall r: nat | r < |ids| + 1 ensures Entered(hash, keys, slots', ids + [id], slotOf + [i], r) {
      if r < |ids| {
        StillEntered(hash, keys, slots, ids, slotOf, id, i, o, r);
      } else {
        forall e: nat | e < d ensures slots'[Slot(home, e, n)] != 0 { assert slots[Slot(home, e, n)] != 0; }
      }
    }
  }

  lemma FreeSlotExists(hash: string -> nat, keys: seq<string>, slots: seq<nat>, ids: seq<nat>, slotOf: seq<nat>)
    returns (i: nat)
    requires TableOk(hash, keys, slots, ids, slotOf) && |ids| < |slots|
    ensures i < |slots| && slots[i] == 0
  {
    i := Missing(slotOf, |slots|);
  }

  /** Enters a name at the first free slot from its home. */
  method EnterName(hash: string -> nat, keys: seq<string>, slots0: seq<nat>, id: nat, ghost ids: seq<nat>,
                   ghost slotOf: seq<nat>)
    returns (slots: seq<nat>, ghost i: nat)
    requires TableOk(hash, keys, slots0, ids, slotOf) && |ids| < |slots0| && id < |keys| && IsPowerOfTwo(|slots0|)
    ensures TableOk(hash, keys, slots, ids + [id], slotOf + [i]) && |slots| == |slots0|
  {
    hide TableOk, NameOffset;
    var n := |slots0|;
    ghost var home := Home(hash, keys[id], n);
    ghost var free := FreeSlotExists(hash, keys, slots0, ids, slotOf);
    var pos := And(hash(keys[id]), n - 1);
    MaskIsRemainder(hash(keys[id]), n);
    ghost var d := 0;
    while slots0[pos] != 0
      invariant d <= Dist(home, free, n) && pos == Slot(home, d, n) && Filled(slots0, home, d)
      decreases n - d
    {
      NextSlot(home, d, n);
      MaskIsRemainder(pos + 1, n);
      pos := And(pos + 1, n - 1);
      d := d + 1;
    }
    EnterAt(hash, keys, slots0, ids, slotOf, id, d);
    slots, i := slots0[pos := NameOffset(n, id)], pos;
  }

  /** A dictionary file for these names: all of them entered, and room left. */
  ghost predicate DictionaryOk(hash: string -> nat, keys: seq<string>, file: File, ids: seq<nat>, slotOf: seq<nat>)
  {
    && Distinct(keys) && TextOk(file, keys, |keys|) && TableOk(hash, keys, file.slots, ids, slotOf)
    && (forall id: nat :: id < |keys| ==> id in ids) && |ids| < |file.slots| && IsPowerOfTwo(|file.slots|)
  }

  ghost predicate IsOrder(order: seq<nat>, n: nat)
  {
    |order| == n && (forall i :: 0 <= i < |order| ==> order[i] < n) && forall id: nat :: id < n ==> id in order
  }

  /** Writes the file; the table is filled in the order of the hash map's iterator. */
  method Serialize(hash: string -> nat, keys: seq<string>, order: seq<nat>) returns (file: File, ghost slotOf: seq<nat>)
    requires Distinct(keys) && IsOrder(order, |keys|)
    ensures DictionaryOk(hash, keys, file, order, slotOf)
    ensures TextOk(file, keys, |keys|) && |keys| < |file.slots|
    ensures IsTiled(file, FileLength(|file.slots|, keys))
    ensures forall i: nat :: i < |file.slots| && file.slots[i] != 0 ==> PointsAtName(file, file.slots[i])
  {
    hide TableOk, TextOk, Distinct, IsTiled;
    var n := TableSize(|keys|);
    file := WriteNames(n, keys);
    slotOf := [];
    var slots := file.slots;
    StartTable(hash, keys, slots);
    for k := 0 to |order|
      invariant |slots| == n && TableOk(hash, keys, slots, order[..k], slotOf)
    {
      ghost var i;
      slots, i := EnterName(hash, keys, slots, order[k], order[..k], slotOf);
      slotOf := slotOf + [i];
      assert order[..k + 1] == order[..k] + [order[k]];
    }
    assert order[..|order|] == order;
    SameText(file, slots, keys);
    SameTiles(file, slots, FileLength(n, keys));
    file := file.(slots := slots);
    forall i: nat | i < n && slots[i] != 0 ensures PointsAtName(file, slots[i]) {
      var r := SlotHolds(hash, keys, slots, order, slotOf, i);
      NameCount(file, keys);
      assert slots[i] == PartStart(file, NameAt(order[r]));
    }
  }

  lemma NameCount(file: File, keys: seq<string>)
    requires TextOk(file, keys, |keys|)
    ensures |file.names| == |keys|
  {
  }

  /** The byte is where an entry for a name starts. */
  ghost predicate PointsAtName(file: File, o: nat)
  {
    exists id: nat :: HasPart(file, NameAt(id)) && o == PartStart(file, NameAt(id))
  }

  lemma SameTiles(file: File, slots: seq<nat>, length: nat)
    requires IsTiled(file, length) && |slots| == |file.slots|
    ensures IsTiled(file.(slots := slots), length)
  {
    var file' := file.(slots := slots);
    forall part, b ensures InPart(file', part, b) <==> InPart(file, part, b) {}
    forall b | 0 <= b < length ensures InSomePart(file', b) {
      assert InSomePart(file, b);
      var part :| InPart(file, part, b);
      assert InPart(file', part, b);
    }
  }

  lemma StartTable(hash: string -> nat, keys: seq<string>, slots: seq<nat>)
    requires 0 < |slots| && forall i :: 0 <= i < |slots| ==> slots[i] == 0
    ensures TableOk(hash, keys, slots, [], [])
  {
  }

  lemma SameText(file: File, slots: seq<nat>, keys: seq<string>)
    requires TextOk(file, keys, |keys|) && |slots| == |file.slots|
    ensures TextOk(file.(slots := slots), keys, |keys|)
  {
    forall id: nat | id < |keys| ensures NameOk(file.(slots := slots), keys, id) {
      NameKept(file, file.(slots := slots), keys, id);
    }
  }

  // ----- lookup -----

  /** None of the first `d` slots holds the number `id`. */
  ghost predicate NotWithin(slots: seq<nat>, home: nat, d: nat, id: nat)
    requires home < |slots| && d <= |slots|
  {
    forall e: nat :: e < d ==> slots[Slot(home, e, |slots|)] != NameOffset(|slots|, id)
  }

  /** A name that is in the dictionary is met before any free slot. */
  lemma MetBefore(hash: string -> nat, keys: seq<string>, slots: seq<nat>, ids: seq<nat>, slotOf: seq<nat>, id: nat,
                  d: nat)
    requires TableOk(hash, keys, slots, ids, slotOf) && id in ids && id < |keys| && d < |slots|
    requires slots[Slot(Home(hash, keys[id], |slots|), d, |slots|)] == 0
    ensures !NotWithin(slots, Home(hash, keys[id], |slots|), d, id)
  {
    var r :| 0 <= r < |ids| && ids[r] == id;
    assert Entered(hash, keys, slots, ids, slotOf, r);
    var home := Home(hash, keys[id], |slots|);
    var x := Dist(home, slotOf[r], |slots|);
    assert x < d;
    assert slots[Slot(home, x, |slots|)] == NameOffset(|slots|, id);
  }

  /** The number of a name, or -1. */
  method GetValue(hash: string -> nat, file: File, name: string, ghost keys: seq<string>, ghost ids: seq<nat>,
                  ghost slotOf: seq<nat>)
    returns (value: int)
    requires DictionaryOk(hash, keys, file, ids, slotOf)
    ensures name !in keys ==> value == -1
    ensures name in keys ==> 0 <= value < |keys| && keys[value] == name
  {
    hide TableOk, NameOffset, IdAt, Distinct;
    var n := |file.slots|;
    TableSizePositive(hash, keys, file.slots, ids, slotOf);
    ghost var home := Home(hash, name, n);
    ghost var free := FreeSlotExists(hash, keys, file.slots, ids, slotOf);
    var pos := And(hash(name), n - 1);
    MaskIsRemainder(hash(name), n);
    ghost var d := 0;
    while file.slots[pos] != 0
      invariant d <= Dist(home, free, n) && pos == Slot(home, d, n)
      invariant forall id: nat :: id < |keys| && keys[id] == name ==> NotWithin(file.slots, home, d, id)
      decreases n - d
    {
      ghost var r := SlotHolds(hash, keys, file.slots, ids, slotOf, pos);
      var id := IdAt(n, file.slots[pos]);
      IdOfOffset(n, ids[r]);
      var key := GetKey(file, id, keys);
      if key == name {
        assert NameOk(file, keys, id);
        return file.names[id].value;
      }
      forall q: nat | q < |keys| && keys[q] == name ensures NotWithin(file.slots, home, d + 1, q) {
        OffsetsDiffer(n, id, q);
        WithinNext(file.slots, home, d, q);
      }
      NextSlot(home, d, n);
      MaskIsRemainder(pos + 1, n);
      pos := And(pos + 1, n - 1);
      d := d + 1;
    }
    value := -1;
    forall id: nat | id < |keys| ensures keys[id] != name {
      if keys[id] == name { MetBefore(hash, keys, file.slots, ids, slotOf, id, d); }
    }
  }

  lemma TableSizePositive(hash: string -> nat, keys: seq<string>, slots: seq<nat>, ids: seq<nat>, slotOf: seq<nat>)
    requires TableOk(hash, keys, slots, ids, slotOf)
    ensures 0 < |slots|
  {
  }

  lemma SlotHolds(hash: string -> nat, keys: seq<string>, slots: seq<nat>, ids: seq<nat>, slotOf: seq<nat>, i: nat)
    returns (r: nat)
    requires TableOk(hash, keys, slots, ids, slotOf) && i < |slots| && slots[i] != 0
    ensures r < |ids| && ids[r] < |keys| && slots[i] == NameOffset(|slots|, ids[r])
  {
    assert i in slotOf;
    r :| 0 <= r < |slotOf| && slotOf[r] == i;
    assert Entered(hash, keys, slots, ids, slotOf, r);
  }

  lemma OffsetsDiffer(n: nat, id: nat, q: nat)
    requires id != q
    ensures NameOffset(n, id) != NameOffset(n, q)
  {
  }

  lemma WithinNext(slots: seq<nat>, home: nat, d: nat, q: nat)
    requires home < |slots| && d < |slots| && NotWithin(slots, home, d, q) &&
             slots[Slot(home, d, |slots|)] != NameOffset(|slots|, q)
    ensures NotWithin(slots, home, d + 1, q)
  {
  }

  // ----- the loader -----

  /** The strings of a column in the order of their first appearance. */
  function FirstSeen(column: seq<string>): (keys: seq<string>)
  {
    if column == [] then []
    else
      var n := |column| - 1;
      FirstSeen(column[..n]) + if column[n] in column[..n] then [] else [column[n]]
  }

  lemma {:induction false} FirstSeenElements(column: seq<string>, s: string)
    ensures s in FirstSeen(column) <==> s in column
  {
    if column != [] {
      var n := |column| - 1;
      FirstSeenElements(column[..n], s);
      assert column == column[..n] + [column[n]];
    }
  }

  /** A later string of the list first appears after an earlier one has appeared. */
  lemma {:induction false} FirstSeenInOrder(column: seq<string>, i: nat, j: nat) returns (a: nat, b: nat)
    requires i < j < |FirstSeen(column)|
    ensures a < b < |column| && column[a] == FirstSeen(column)[i]
    ensures column[b] == FirstSeen(column)[j] && column[b] !in column[..b]
  {
    var n := |column| - 1;
    var before := FirstSeen(column[..n]);
    if j < |before| {
      a, b := FirstSeenInOrder(column[..n], i, j);
      assert column[..n][..b] == column[..b];
    } else {
      b := n;
      FirstSeenElements(column[..n], before[i]);
      assert before[i] in before;
      a :| 0 <= a < n && column[..n][a] == before[i];
    }
  }

  /** The loader numbers strings in the order of their first appearance. */
  method LoadEnum(column: seq<string>) returns (keys: seq<string>, values: seq<nat>)
    ensures keys == FirstSeen(column) && Distinct(keys) && |values| == |column|
    ensures forall i :: 0 <= i < |column| ==> values[i] < |keys| && keys[values[i]] == column[i]
  {
    hide FirstSeen;
    keys, values := [], [];
    NoneSeen(column);
    var dictionary: map<string, nat> := map[];
    for i := 0 to |column|
      invariant |values| == i && keys == FirstSeen(column[..i]) && forall s :: s in dictionary <==> s in keys
      invariant forall s :: s in dictionary ==> dictionary[s] < |keys| && keys[dictionary[s]] == s
      invariant Distinct(keys) && forall k :: 0 <= k < i ==> values[k] < |keys| && keys[values[k]] == column[k]
    {
      FirstSeenStep(column, i);
      if column[i] !in dictionary {
        dictionary := dictionary[column[i] := |keys|];
        keys := keys + [column[i]];
      }
      values := values + [dictionary[column[i]]];
    }
    assert column[..|column|] == column;
  }

  lemma NoneSeen(column: seq<string>)
    ensures FirstSeen(column[..0]) == []
  {
  }

  lemma FirstSeenStep(column: seq<string>, i: nat)
    requires i < |column|
    ensures FirstSeen(column[..i + 1]) == FirstSeen(column[..i]) + if column[i] in FirstSeen(column[..i]) then []
            else [column[i]]
  {
    FirstSeenElements(column[..i], column[i]);
    assert column[..i + 1][..i] == column[..i];
  }

  lemma SameNumber(keys: seq<string>, a: int, b: int)
    requires Distinct(keys) && 0 <= a < |keys| && 0 <= b < |keys| && keys[a] == keys[b]
    ensures a == b
  {
  }

  /** Loading, writing in any iteration order and reading back: a string of the column gets the
      number that its rows hold, the number gets the string back, and other strings get -1. */
  method EnumRoundTrip(hash: string -> nat, column: seq<string>, order: seq<nat>, name: string)
    returns (values: seq<nat>, value: int, key: string)
    requires IsOrder(order, |FirstSeen(column)|)
    ensures |values| == |column|
    ensures name !in column ==> value == -1
    ensures name in column ==> value >= 0 && key == name
    ensures forall i :: 0 <= i < |column| && column[i] == name ==> value == values[i]
  {
    var keys;
    keys, values := LoadEnum(column);
    var file;
    ghost var slotOf;
    file, slotOf := Serialize(hash, keys, order);
    value := GetValue(hash, file, name, keys, order, slotOf);
    key := "";
    if value >= 0 {
      key := GetKey(file, value, keys);
    }
    FirstSeenElements(column, name);
    forall i | 0 <= i < |column| && column[i] == name ensures value == values[i] {
      SameNumber(keys, value, values[i]);
    }
  }
}
