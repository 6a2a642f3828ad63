/**
 A run of four operations after which the data has no hole and yet export and import exchange the bytes
 of two ids: entry order and data order part ways when a deletion moves the last entry and a later
 store reuses the hole.
*/
module ReuseOrder {
  import opened Wrappers
  import opened Handles
  import opened LittleEndian
  import opened SlotHeader
  import opened FreeList
  import opened Snapshots
  import opened Compaction
  import opened Transfer

  const LIVE0 := Slot(0, 0, true)
  const LIVE1 := Slot(1, 0, true)

  function OneStored(a: Word, x: byte): Snap {
    Snap([x], Table([LIVE0], FREE_LIST_NIL, 1), [Entry(0, 1, a)], map[0 := 0], [], map[a := 0])
  }

  function TwoStored(a: Word, b: Word, x: byte, y: byte): Snap {
    Snap([x, y], Table([LIVE0, LIVE1], FREE_LIST_NIL, 2), [Entry(0, 1, a), Entry(1, 1, b)],
         map[0 := 0, 1 := 1], [], map[a := 0, b := 1])
  }

  function FirstDeleted(b: Word, x: byte, y: byte): Snap {
    Snap([x, y], Table([Slot(FREE_LIST_NIL, 1, false), LIVE1], 0, 1), [Entry(1, 1, b)],
         map[1 := 0], [Hole(0, 1)], map[b := 0])
  }

  function HoleReused(b: Word, c: Word, y: byte, z: byte): Snap {
    Snap([z, y], Table([Slot(0, 1, true), LIVE1], FREE_LIST_NIL, 2), [Entry(1, 1, b), Entry(0, 1, c)],
         map[1 := 0, 0 := 1], [], map[b := 0, c := 1])
  }

  // ---------- the four steps, computed ----------

  lemma {:induction false} ComputeOne(a: Word, x: byte)
    ensures StoredAt(EMPTY_SNAP, a, [x], None) == OneStored(a, x)
  {
    var (slot, table) := Occupied(EMPTY_TABLE, 0).value;
    assert slot == 0 && table.slots == [LIVE0];
  }

  lemma {:induction false} ComputeTwo(a: Word, b: Word, x: byte, y: byte)
    ensures StoredAt(OneStored(a, x), b, [y], None) == TwoStored(a, b, x, y)
  {
    var (slot, table) := Occupied(OneStored(a, x).table, 1).value;
    assert slot == 1 && table.slots == [LIVE0, LIVE1];
    assert [x] + [y] == [x, y];
  }

  lemma {:induction false} ComputeThree(a: Word, b: Word, x: byte, y: byte)
    requires a != b
    ensures Deleted(TwoStored(a, b, x, y), 0) == FirstDeleted(b, x, y)
  {
    var v := TwoStored(a, b, x, y);
    assert Freed(v.table, 0).slots == [Slot(FREE_LIST_NIL, 1, false), LIVE1];
    assert SwapRemoved(v.entries, 0) == [Entry(1, 1, b)];
    assert v.slotOf[1 := 0] - {0} == map[1 := 0];
    assert v.index[b := 0] - {a} == map[b := 0];
  }

  lemma {:induction false} ComputeFour(b: Word, c: Word, x: byte, y: byte, z: byte)
    ensures StoredAt(FirstDeleted(b, x, y), c, [z], Some(0)) == HoleReused(b, c, y, z)
  {
    var v := FirstDeleted(b, x, y);
    var (slot, table) := Occupied(v.table, 0).value;
    assert slot == 0 && table.slots == [Slot(0, 1, true), LIVE1];
    assert Overwrite(v.data, 0, [z]) == [z, y];
    assert HolesAfterFit(v.holes, 0, 1) == [];
  }

  // ---------- what they stand for ----------

  lemma {:induction false} MeaningOne(a: Word, x: byte)
    ensures Sound(OneStored(a, x)) && Tiled(OneStored(a, x)) && Contents(OneStored(a, x)) == map[a := [x]]
  {
    ComputeOne(a, x);
    EmptySound();
    hide Sound, Tiled, Contents, StoredAt;
    StoredSpec(EMPTY_SNAP, a, [x], None);
  }

  lemma {:induction false} MeaningTwo(a: Word, b: Word, x: byte, y: byte)
    requires a != b
    ensures Sound(TwoStored(a, b, x, y)) && Tiled(TwoStored(a, b, x, y))
    ensures Contents(TwoStored(a, b, x, y)) == map[a := [x], b := [y]]
  {
    ComputeTwo(a, b, x, y);
    MeaningOne(a, x);
    hide Sound, Tiled, Contents, StoredAt;
    StoredSpec(OneStored(a, x), b, [y], None);
  }

  lemma {:induction false} MeaningThree(a: Word, b: Word, x: byte, y: byte)
    requires a != b
    ensures Sound(FirstDeleted(b, x, y)) && Tiled(FirstDeleted(b, x, y))
    ensures Contents(FirstDeleted(b, x, y)) == map[b := [y]]
  {
    ComputeThree(a, b, x, y);
    MeaningTwo(a, b, x, y);
    hide Sound, Tiled, Contents, Deleted;
    DeletedSpec(TwoStored(a, b, x, y), 0);
    assert map[a := [x], b := [y]] - {a} == map[b := [y]];
  }

  lemma {:induction false} MeaningFour(a: Word, b: Word, c: Word, x: byte, y: byte, z: byte)
    requires a != b && b != c
    ensures Sound(HoleReused(b, c, y, z)) && Tiled(HoleReused(b, c, y, z))
    ensures Contents(HoleReused(b, c, y, z)) == map[b := [y], c := [z]]
  {
    ComputeFour(b, c, x, y, z);
    MeaningThree(a, b, x, y);
    hide Sound, Tiled, Contents, StoredAt;
    StoredSpec(FirstDeleted(b, x, y), c, [z], Some(0));
  }

  lemma {:induction false} OutOfOrder(b: Word, c: Word, y: byte, z: byte)
    ensures !InEntryOrder(HoleReused(b, c, y, z))
    ensures LengthBefore(HoleReused(b, c, y, z).entries, 2) == 2
  {
    var v := HoleReused(b, c, y, z);
    assert EntryRanges(v)[0].offset == 1 && LengthBefore(v.entries, 0) == 0;
    assert LengthBefore(v.entries, 1) == 1;
  }

  /** A write of two one-byte entries hands out the bytes in entry order. */
  lemma {:induction false} TwoBytesWritten(es: seq<Entry>, data: seq<byte>)
    requires Writable(es, data) && |es| == |data| == 2 && es[0].length == 1 && es[1].length == 1
    ensures Sound(Written(es, data))
    ensures Contents(Written(es, data)) == map[es[0].id := [data[0]], es[1].id := [data[1]]]
  {
    hide *;
    WrittenSpec(es, data);
    WritableTotal(es, data);
    TwoBytes(es, data);
  }

  lemma {:induction false} WritableTotal(es: seq<Entry>, data: seq<byte>)
    requires Writable(es, data)
    ensures LengthBefore(es, |es|) <= |data| <= MAX_DATA
  {
  }

  lemma {:induction false} TwoBytes(es: seq<Entry>, data: seq<byte>)
    requires |es| == |data| == 2 && es[0].length == 1 && es[1].length == 1 && LengthBefore(es, |es|) <= |data|
    ensures ById(es, PackedRanges(es, |data|), data, |es|) == map[es[0].id := [data[0]], es[1].id := [data[1]]]
  {
    assert LengthBefore(es, 0) == 0 && LengthBefore(es, 1) == 1;
    var rs := PackedRanges(es, 2);
    assert Slice(data, rs[0]) == [data[0]] && Slice(data, rs[1]) == [data[1]];
    assert ById(es, rs, data, 1) == map[es[0].id := [data[0]]];
  }

  /**
   Storing a and b, deleting a and storing c in its hole (the four steps computed above): the snapshot is
   sound, tiled and without holes, but not in entry order, and what an import of its export holds is not
   what it holds.
  */
  lemma {:induction false} ReuseSwapsContents(a: Word, b: Word, c: Word, x: byte, y: byte, z: byte)
    requires a != b && b != c && y != z
    ensures StoredAt(EMPTY_SNAP, a, [x], None) == OneStored(a, x)
    ensures StoredAt(OneStored(a, x), b, [y], None) == TwoStored(a, b, x, y)
    ensures Deleted(TwoStored(a, b, x, y), 0) == FirstDeleted(b, x, y)
    ensures StoredAt(FirstDeleted(b, x, y), c, [z], Some(0)) == HoleReused(b, c, y, z)
    ensures
      var v := HoleReused(b, c, y, z);
      && Sound(v) && Tiled(v) && v.holes == [] && !InEntryOrder(v)
      && Contents(v) == map[b := [y], c := [z]]
      && LengthBefore(v.entries, 2) == 2
      && Sound(Written(v.entries, v.data))
      && Contents(Written(v.entries, v.data)) == map[b := [z], c := [y]]
      && Contents(Written(v.entries, v.data)) != Contents(v)
  {
    ComputeOne(a, x);
    ComputeTwo(a, b, x, y);
    ComputeThree(a, b, x, y);
    ComputeFour(b, c, x, y, z);
    MeaningFour(a, b, c, x, y, z);
    OutOfOrder(b, c, y, z);
    SoundIsWritable(HoleReused(b, c, y, z));
    hide Sound, Tiled, Contents, StoredAt, Deleted, InEntryOrder, Written, Writable, LengthBefore;
    TwoBytesWritten(HoleReused(b, c, y, z).entries, [z, y]);
    assert map[b := [y], c := [z]][b] != map[b := [z], c := [y]][b];
  }
}
