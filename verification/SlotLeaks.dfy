/**
 A run after which an import leaks slots: ids are stored in slots 0, 1, 2 and so on, all but the last are deleted,
 and the export of what is left is imported. One entry is stored then, yet every slot below its own is lost.
*/
module SlotLeaks {
  import opened Wrappers
  import opened Handles
  import opened LittleEndian
  import opened SlotHeader
  import opened FreeList
  import opened Snapshots
  import opened Compaction
  import opened Transfer
  import opened RegistryOperations

  /** The ids from `low` on, each in the slot of its own number, and no slot leaked. */
  ghost predicate HoldsFrom(v: Snap, low: nat, n: nat) {
    && Sound(v) && Leaked(v.table) == {}
    && (forall id :: id in EntryMap(v) <==> low <= id < n)
    && (forall id :: id in EntryMap(v) ==> EntryMap(v)[id] == Entry(id, 1, id))
  }

  /** Nothing was deleted yet: the free list and the holes are empty. */
  ghost predicate Fresh(v: Snap, n: nat) {
    HoldsFrom(v, 0, n) && v.table.freeHead == FREE_LIST_NIL && |v.table.slots| == n && v.holes == [] && |v.data| == n
  }

  /** A store at the end, into a new slot. */
  lemma {:induction false} StoreLast(v: Snap, n: nat)
    requires n < MAX_OFFSET && v.table.freeHead == FREE_LIST_NIL && |v.table.slots| == n
    requires v.holes == [] && |v.data| == n
    ensures CanStore(v, [0], None) && StoreDefined(v, [0], None) && StoredEntry(v, n, [0]) == Entry(n, 1, n)
    ensures
      var w := StoredAt(v, n, [0], None);
      && w.table.freeHead == FREE_LIST_NIL && |w.table.slots| == n + 1
      && w.holes == [] && |w.data| == n + 1
  {
  }

  lemma {:induction false} EntryKnown(v: Snap, id: Word)
    requires Sound(v)
    ensures id in EntryMap(v) <==> id in v.index
  {
    hide Sound;
  }

  lemma {:induction false} StoreNext(v: Snap, n: nat)
    requires n < MAX_OFFSET && Fresh(v, n)
    ensures StoreDefined(v, [0], None) && Fresh(StoredAt(v, n, [0], None), n + 1)
  {
    hide Sound, Leaked, Contents, EntryMap, Tiled, StoredAt, StoredEntry, CanStore, StoreDefined;
    StoreLast(v, n);
    EntryKnown(v, n);
    StoredSpec(v, n, [0], None);
  }

  /** Ids 0 to n - 1 stored one after the other, each with one byte. */
  ghost function Filled(n: nat): (v: Snap)
    requires n <= MAX_OFFSET
    ensures Fresh(v, n)
  {
    if n == 0 then
      EmptySound();
      EMPTY_SNAP
    else
      StoreNext(Filled(n - 1), n - 1);
      StoredAt(Filled(n - 1), n - 1, [0], None)
  }

  lemma {:induction false} DeleteNext(v: Snap, k: nat, n: nat)
    requires k < n <= MAX_OFFSET && HoldsFrom(v, k, n)
    ensures HoldsFrom(WithoutId(v, k), k + 1, n)
  {
    hide Sound, Leaked, Contents, EntryMap, Tiled, WithoutId;
    WithoutIdSpec(v, k);
  }

  /** The lowest k of them deleted. */
  ghost function Emptied(n: nat, k: nat): (v: Snap)
    requires k <= n <= MAX_OFFSET
    ensures HoldsFrom(v, k, n)
  {
    hide Sound, Leaked, EntryMap, WithoutId, Filled;
    if k == 0 then Filled(n)
    else
      DeleteNext(Emptied(n, k - 1), k - 1, n);
      WithoutId(Emptied(n, k - 1), k - 1)
  }

  lemma {:induction false} EntryAt(v: Snap, q: nat)
    requires Sound(v) && q < |v.entries|
    ensures v.entries[q].id in EntryMap(v) && v.index[v.entries[q].id] == q
  {
  }

  lemma {:induction false} OneLeft(v: Snap, n: nat)
    requires n < MAX_OFFSET && HoldsFrom(v, n, n + 1)
    ensures v.entries == [Entry(n, 1, n)]
  {
    assert n in EntryMap(v) && EntryMap(v)[n] == v.entries[v.index[n]];
    if |v.entries| > 1 {
      EntryAt(v, 0);
      EntryAt(v, 1);
    }
  }

  /** One entry in slot n: an import of it names that slot only. */
  lemma {:induction false} OneNamed(n: nat, data: seq<byte>)
    requires n < MAX_OFFSET && Writable([Entry(n, 1, n)], data)
    ensures |Unnamed([Entry(n, 1, n)])| == n
    ensures Names([Entry(n, 1, n)], MAX_OFFSET - 1) <==> n == MAX_OFFSET - 1
    ensures ShortLengths([Entry(n, 1, n)], 1)
  {
    var es := [Entry(n, 1, n)];
    WrittenSpec(es, data);
    assert es[..0] == [] && MaxSlot([]) == 0;
    assert es[0].slot == n && SlotCountFor(es) == n + 1;
    hide Unnamed, Sound, Written, LengthBefore, SlotCountFor;
  }

  /**
   After n + 1 stores and n deletions one entry is left and no slot is leaked. Importing the export of that succeeds
   and leaks n slots, so when all 65536 slots were used, no other id can be stored any more, which before it could.
  */
  lemma {:induction false} ImportLeaks(n: nat, id: Word, need: nat)
    requires n < MAX_OFFSET && id != n
    ensures
      var v := Emptied(n + 1, n);
      && |v.entries| == 1 && Leaked(v.table) == {} && Writable(v.entries, v.data) && ShortLengths(v.entries, 1)
      && StoreFailure(WithoutId(v, id), need) != Some(TooManyEntries)
    ensures
      var v := Emptied(n + 1, n);
      var w := Written(v.entries, v.data);
      && Sound(w) && |w.entries| == 1 && |Leaked(w.table)| == n
      && (StoreFailure(WithoutId(w, id), need) == Some(TooManyEntries) <==> n == MAX_OFFSET - 1)
  {
    hide Sound, Leaked, Unnamed, Written, EntryMap, Emptied, StoreFailure, WithoutId, LengthBefore, Names, ShortLengths,
      SlotCountFor, Tiled, Packed, Contents, ById, PackedRanges;
    var v := Emptied(n + 1, n);
    OneLeft(v, n);
    SoundIsWritable(v);
    OneNamed(n, v.data);
    WrittenSpec(v.entries, v.data);
    WrittenLacks(v.entries, v.data, id);
    SlotsExhausted(v, id, need);
    SlotsExhaustedAfterImport(v.entries, v.data, id, need);
  }
}
