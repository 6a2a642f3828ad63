/**
 The registry: one mutable reference to an immutable snapshot. A write builds a new snapshot from copies
 and then swaps the reference, so nothing a reader of an older snapshot can reach is ever written.

 Locks, the background defragmentation goroutine and the onWrite hook are not part of this model; every
 operation that the program runs under the write lock is one step here.
*/
module Registries {
  import opened Wrappers
  import opened Handles
  import opened LittleEndian
  import opened PagedArrays
  import opened SlotHeader
  import opened FreeList
  import opened IdTables
  import opened Snapshots
  import opened Compaction
  import opened Transfer

  /** A published snapshot: none of its fields is assigned after construction. */
  class Snapshot {
    const data: seq<byte>
    const header: array<byte>
    const entries: PersistentEntries
    const slotToEntry: PersistentSlots
    const holes: seq<Hole>
    const idIndex: IdTable?
    const compactions: nat
    const defragments: nat

    constructor (data: seq<byte>, header: array<byte>, entries: PersistentEntries, slotToEntry: PersistentSlots,
                 holes: seq<Hole>, idIndex: IdTable?, compactions: nat, defragments: nat, ghost s: HandleSpec)
      requires WellFormed(header[..]) && entries.Valid() && slotToEntry.Valid() && (idIndex != null ==> idIndex.Valid())
      ensures this.header == header && this.idIndex == idIndex && this.entries == entries
      ensures this.compactions == compactions && this.defragments == defragments
      ensures Shaped(this)
      ensures ViewOf(s, this) ==
        Snap(data, Decoded(header[..]), EntriesOf(s, entries.View()), slotToEntry.View(), holes, ModelOf(idIndex))
    {
      hide IdTable.Valid, WellFormed, PersistentEntries.Valid, PersistentSlots.Valid, EntriesOf, ModelOf, Decoded;
      hide PersistentEntries.View, PersistentSlots.View;
      this.data, this.header, this.entries, this.slotToEntry := data, header, entries, slotToEntry;
      this.holes, this.idIndex, this.compactions, this.defragments := holes, idIndex, compactions, defragments;
    }
  }

  function EntryOf(s: HandleSpec, h: Handle): Entry {
    Entry(Offset(h), Length(s, h), Id(s, h))
  }

  function EntriesOf(s: HandleSpec, hs: seq<Handle>): (es: seq<Entry>)
    ensures |es| == |hs|
    ensures forall i :: 0 <= i < |hs| ==> es[i] == EntryOf(s, hs[i])
  {
    seq(|hs|, i requires 0 <= i < |hs| => EntryOf(s, hs[i]))
  }

  /** Each component is well formed by itself. */
  ghost predicate Shaped(sn: Snapshot)
    reads sn.header, if sn.idIndex == null then {} else {sn.idIndex, sn.idIndex.keys, sn.idIndex.vals, sn.idIndex.state}
  {
    && WellFormed(sn.header[..])
    && sn.entries.Valid()
    && sn.slotToEntry.Valid()
    && (sn.idIndex != null ==> sn.idIndex.Valid())
  }

  /** The value a concrete snapshot represents. */
  ghost function ViewOf(s: HandleSpec, sn: Snapshot): Snap
    requires Shaped(sn)
    reads sn.header, if sn.idIndex == null then {} else {sn.idIndex, sn.idIndex.keys, sn.idIndex.vals, sn.idIndex.state}
  {
    Snap(sn.data, Decoded(sn.header[..]), EntriesOf(s, sn.entries.View()), sn.slotToEntry.View(), sn.holes,
         ModelOf(sn.idIndex))
  }

  method CopyBytes(a: array<byte>) returns (b: array<byte>)
    ensures fresh(b) && b[..] == a[..]
  {
    b := new byte[a.Length](i requires 0 <= i < a.Length reads a => a[i]);
  }

  /** The dense part of a deletion: swap-remove in the entries, with the slot lookup and the index kept in step. */
  method DropEntry(s: HandleSpec, entries: PersistentEntries, slots: PersistentSlots, index: IdTable?, pos: nat,
                   compactionThreshold: int, ghost es: seq<Entry>)
    returns (entries': PersistentEntries, slots': PersistentSlots, index': IdTable?, compacted: bool)
    requires entries.Valid() && slots.Valid() && (index != null ==> index.Valid())
    requires es == EntriesOf(s, entries.View()) && pos < |es| < 0x8000_0000 && es[pos].id in ModelOf(index)
    ensures entries'.Valid() && slots'.Valid() && index' != null && index'.Valid()
    ensures EntriesOf(s, entries'.View()) == SwapRemoved(es, pos)
    ensures slots'.View() == slots.View()[es[|es| - 1].slot := pos] - {es[pos].slot}
    ensures ModelOf(index') == ModelOf(index)[es[|es| - 1].id := pos] - {es[pos].id}
  {
    hide *;
    EntriesAt(s, entries, pos);
    EntriesAt(s, entries, |es| - 1);
    entries', slots', index' := entries, slots, index;
    var e := entries.Get(pos);
    var lastPos := entries.length - 1;
    if pos != lastPos {
      var moved := entries.Get(lastPos);
      entries' := entries.Set(pos, moved);
      slots' := slots.Set(Offset(moved), pos);
      index' := InsertOrUpdate(index, Id(s, moved), pos);
    }
    entries' := entries'.Pop();
    slots' := slots'.Set(Offset(e), -1);
    index', compacted := Delete(index', Id(s, e), compactionThreshold);
    SwapRemovedEntries(s, entries.View(), entries'.View(), pos);
  }

  lemma {:induction false} EntriesAt(s: HandleSpec, entries: PersistentEntries, p: nat)
    requires entries.Valid() && p < entries.length
    ensures |EntriesOf(s, entries.View())| == entries.length
    ensures
      var h := entries.Get(p);
      EntriesOf(s, entries.View())[p] == Entry(Offset(h), Length(s, h), Id(s, h))
  {
    hide Offset, Length, Id;
  }

  /** The header part of a deletion, on a private copy: the slot's byte offset is read and the slot freed. */
  method ReleaseSlot(header: array<byte>, slot: nat) returns (h: array<byte>, offset: U32)
    requires WellFormed(header[..]) && slot < SlotCount(header[..]) && Decoded(header[..]).slots[slot].alive
    ensures fresh(h) && WellFormed(h[..]) && Decoded(h[..]) == Freed(Decoded(header[..]), slot)
    ensures offset == Decoded(header[..]).slots[slot].offsetOrNext
  {
    hide Freed, SlotAt;
    h := CopyBytes(header);
    var byteOffset := SlotOffset(h, slot);
    FreeSlot(h, slot);
    offset := byteOffset.value;
  }

  /** Removes the entry at a position: the last entry takes its place, its slot is freed, its bytes become a hole. */
  method DeletePos(s: HandleSpec, before: Snapshot, pos: nat, compactionThreshold: int, ghost v: Snap)
    returns (sn: Snapshot)
    requires Shaped(before) && v == ViewOf(s, before) && Sound(v) && pos < |v.entries|
    ensures Shaped(sn)
    ensures SlotsInRange(v) && ViewOf(s, sn) == Deleted(v, pos)
  {
    hide *;
    SoundAt(v, pos);
    ViewParts(s, before);
    var e := before.entries.Get(pos);
    var length := Length(s, e);
    var header, offset := ReleaseSlot(before.header, Offset(e));
    var entries, slots, index, compacted :=
      DropEntry(s, before.entries, before.slotToEntry, before.idIndex, pos, compactionThreshold, v.entries);
    sn := new Snapshot(before.data, header, entries, slots, before.holes + [Hole(offset, length)], index,
                       if compacted then before.compactions + 1 else before.compactions, before.defragments, s);
    DeletedFrom(v, ViewOf(s, sn), pos);
  }

  /** The view of a snapshot, part by part. */
  lemma {:induction false} ViewParts(s: HandleSpec, sn: Snapshot)
    requires Shaped(sn)
    ensures WellFormed(sn.header[..]) && sn.entries.Valid() && sn.slotToEntry.Valid()
    ensures sn.idIndex != null ==> sn.idIndex.Valid()
    ensures
      var v := ViewOf(s, sn);
      && v.data == sn.data && v.holes == sn.holes && v.index == ModelOf(sn.idIndex)
      && v.table == Decoded(sn.header[..]) && |v.table.slots| == SlotCount(sn.header[..])
      && v.slotOf == sn.slotToEntry.View()
      && v.entries == EntriesOf(s, sn.entries.View()) && |v.entries| == sn.entries.length
      && forall p :: 0 <= p < sn.entries.length ==>
           var h := sn.entries.Get(p);
           v.entries[p] == Entry(Offset(h), Length(s, h), Id(s, h))
  {
    hide Offset, Length, Id;
  }

  lemma {:induction false} SwapRemovedEntries(s: HandleSpec, hs: seq<Handle>, hs': seq<Handle>, p: nat)
    requires p < |hs| && |hs'| == |hs| - 1
    requires hs' == if p == |hs| - 1 then hs[..|hs| - 1] else hs[p := hs[|hs| - 1]][..|hs| - 1]
    ensures EntriesOf(s, hs') == SwapRemoved(EntriesOf(s, hs), p)
  {
    hide EntryOf;
  }

  lemma {:induction false} DeletedFrom(v: Snap, w: Snap, p: nat)
    requires SlotsInRange(v) && p < |v.entries|
    requires w.data == v.data && w.entries == SwapRemoved(v.entries, p)
    requires w.table == Freed(v.table, v.entries[p].slot)
    requires w.holes == v.holes + [Hole(v.table.slots[v.entries[p].slot].offsetOrNext, v.entries[p].length)]
    requires w.slotOf == v.slotOf[v.entries[|v.entries| - 1].slot := p] - {v.entries[p].slot}
    requires w.index == v.index[v.entries[|v.entries| - 1].id := p] - {v.entries[p].id}
    ensures w == Deleted(v, p)
  {
  }

  /** What the invariant says about one position: a live slot in range, an indexed id, and the overall count. */
  lemma {:induction false} SoundAt(v: Snap, pos: nat)
    requires Sound(v) && pos < |v.entries|
    ensures |v.entries| < 0x8000_0000 && SlotsInRange(v)
    ensures v.table.slots[v.entries[pos].slot].alive
    ensures v.entries[pos].id in v.index && v.index[v.entries[pos].id] == pos
  {
    EntriesBelowMax(v);
  }

  lemma {:induction false} EntriesBelowMax(v: Snap)
    requires Sound(v)
    ensures |v.entries| <= MAX_OFFSET
  {
    SoundIsWritable(v);
  }

  // ---------- storing ----------

  /** Scans the holes from the front for the first one that is long enough. */
  method FindFit(holes: seq<Hole>, need: nat) returns (fit: Option<nat>)
    ensures fit.Some? ==> IsFirstFit(holes, need, fit.value)
    ensures fit.None? ==> NoFit(holes, need)
  {
    for i := 0 to |holes|
      invariant forall k :: 0 <= k < i ==> holes[k].length < need
    {
      if holes[i].length >= need {
        return Some(i);
      }
    }
    return None;
  }

  /** The handle Set packs: the slot, the length and the id, all within their fields. */
  function NewHandle(s: HandleSpec, slot: nat, length: nat, id: Word): (h: Handle)
    requires slot < MAX_OFFSET && length <= MaxLength(s) && id <= MaxId(s)
    ensures Offset(h) == slot && Length(s, h) == length && Id(s, h) == id
  {
    MakeSpec(s, slot, length);
    SetIdSpec(s, Make(s, slot, length).value, id);
    SetId(s, Make(s, slot, length).value, id).value
  }

  /** Appends a handle to the dense entries and points the slot lookup and the index at it. */
  method AppendEntry(s: HandleSpec, entries: PersistentEntries, slots: PersistentSlots, index: IdTable?, h: Handle,
                     ghost es: seq<Entry>)
    returns (entries': PersistentEntries, slots': PersistentSlots, index': IdTable?)
    requires entries.Valid() && slots.Valid() && (index != null ==> index.Valid())
    requires es == EntriesOf(s, entries.View()) && |es| < 0x7FFF_FFFF
    ensures entries'.Valid() && slots'.Valid() && (index' != null ==> index'.Valid())
    ensures EntriesOf(s, entries'.View()) == es + [Entry(Offset(h), Length(s, h), Id(s, h))]
    ensures slots'.View() == slots.View()[Offset(h) := |es|]
    ensures ModelOf(index') == ModelOf(index)[Id(s, h) := |es|]
  {
    hide *;
    EntriesLength(s, entries);
    var pos := entries.length;
    entries' := entries.Append(h);
    slots' := slots.Set(Offset(h), pos);
    index' := InsertOrUpdate(index, Id(s, h), pos);
    AppendedEntries(s, entries.View(), h);
  }

  lemma {:induction false} EntriesLength(s: HandleSpec, entries: PersistentEntries)
    requires entries.Valid()
    ensures |EntriesOf(s, entries.View())| == entries.length
  {
  }

  lemma {:induction false} AppendedEntries(s: HandleSpec, hs: seq<Handle>, h: Handle)
    ensures EntriesOf(s, hs + [h]) == EntriesOf(s, hs) + [Entry(Offset(h), Length(s, h), Id(s, h))]
  {
    hide Offset, Length, Id;
  }

  /** A private copy of the header with one slot claimed: popped from the free list or appended. */
  method ClaimSlot(header: array<byte>) returns (r: Option<(nat, array<byte>)>)
    requires WellFormed(header[..])
    requires Decoded(header[..]).freeHead == FREE_LIST_NIL || Decoded(header[..]).freeHead < |Decoded(header[..]).slots|
    ensures r.None? <==> Allocated(Decoded(header[..])).None?
    ensures r.Some? ==>
      && fresh(r.value.1) && WellFormed(r.value.1[..])
      && Allocated(Decoded(header[..])) == Some((r.value.0, Decoded(r.value.1[..])))
  {
    hide ReadWord, SlotAt, Allocated;
    var h := CopyBytes(header);
    r := AllocSlot(h);
  }

  /** Writes the entry of a claimed slot: its byte offset, its handle, its lookups. */
  method PlaceEntry(s: HandleSpec, before: Snapshot, header: array<byte>, h: Handle, offset: U32,
                    data: seq<byte>, holes: seq<Hole>, ghost v: Snap)
    returns (sn: Snapshot)
    requires Shaped(before) && v == ViewOf(s, before) && |v.entries| < 0x7FFF_FFFF
    requires WellFormed(header[..]) && Offset(h) < |Decoded(header[..]).slots|
    requires header != before.header
    requires before.idIndex != null ==>
      header as object !in {before.idIndex.keys as object, before.idIndex.vals, before.idIndex.state}
    modifies header
    ensures Shaped(sn)
    ensures ViewOf(s, sn) ==
      Inserted(
        v, Entry(Offset(h), Length(s, h), Id(s, h)), WithOffset(old(Decoded(header[..])), Offset(h), offset),
        data, holes)
  {
    hide *;
    ViewParts(s, before);
    SetSlotOffset(header, Offset(h), offset);
    var entries, slots, index :=
      AppendEntry(s, before.entries, before.slotToEntry, before.idIndex, h, v.entries);
    sn := new Snapshot(data, header, entries, slots, holes, index, before.compactions, before.defragments, s);
    InsertedFields(v, Entry(Offset(h), Length(s, h), Id(s, h)), Decoded(header[..]), data, holes);
  }

  lemma {:induction false} InsertedFields(v: Snap, e: Entry, table: Table, data: seq<byte>, holes: seq<Hole>)
    ensures Inserted(v, e, table, data, holes) ==
      Snap(data, table, v.entries + [e], v.slotOf[e.slot := |v.entries|], holes, v.index[e.id := |v.entries|])
  {
  }

  /** Storing, spelled out over the claimed slot. */
  lemma {:induction false} StoredUnfolded(v: Snap, id: Word, value: seq<byte>, fit: Option<nat>)
    requires StoreDefined(v, value, fit)
    ensures
      var (slot, table) := Allocated(v.table).value;
      var offset := if fit.Some? then v.holes[fit.value].offset else |v.data|;
      var data := if fit.Some? then Overwrite(v.data, offset, value) else v.data + value;
      var holes := if fit.Some? then HolesAfterFit(v.holes, fit.value, |value|) else v.holes;
      && slot < |table.slots| && StoredEntry(v, id, value) == Entry(slot, |value|, id)
      && StoredAt(v, id, value, fit) ==
         Inserted(v, Entry(slot, |value|, id), WithOffset(table, slot, offset), data, holes)
  {
  }

  /** What a store may rely on before it chooses the bytes. */
  lemma {:induction false} StoreReady(v: Snap, need: nat)
    requires Sound(v)
    ensures v.table.freeHead == FREE_LIST_NIL || v.table.freeHead < |v.table.slots|
    ensures |v.entries| < 0x7FFF_FFFF && |v.data| <= MAX_DATA && |v.table.slots| <= MAX_OFFSET
    ensures Allocated(v.table).None? <==> StoreFailure(v, need) == Some(TooManyEntries)
    ensures Allocated(v.table).Some? ==>
      && Allocated(v.table).value.0 < MAX_OFFSET
      && Allocated(v.table).value.0 < |Allocated(v.table).value.1.slots|
  {
    EntriesBelowMax(v);
    HeadIsDead(v.table);
  }

  lemma {:induction false} FitChosen(v: Snap, value: seq<byte>, fit: Option<nat>)
    requires Sound(v) && |value| < TWO_32 && StoreFailure(v, |value|) != Some(TooManyEntries)
    requires if fit.Some? then IsFirstFit(v.holes, |value|, fit.value) else NoFit(v.holes, |value|)
    requires fit.None? ==> |v.data| + |value| <= MAX_DATA
    ensures CanStore(v, value, fit) && StoreDefined(v, value, fit) && StoreFailure(v, |value|).None?
  {
    CanStoreDefined(v, value, fit);
  }

  lemma {:induction false} NoRoom(v: Snap, need: nat)
    requires NoFit(v.holes, need) && |v.data| + need > MAX_DATA && StoreFailure(v, need) != Some(TooManyEntries)
    ensures StoreFailure(v, need) == Some(DataExceedsCapacity)
  {
  }

  lemma {:induction false} LengthFits(s: HandleSpec, n: nat)
    requires n <= MaxLength(s)
    ensures n < TWO_32
  {
    FieldSpaces(s);
  }

  /**
   Everything Set does after an existing entry of the id is gone: claim a slot, choose the bytes (first fit,
   or the end of the data), place the entry. A failure leaves only private copies behind.
  */
  method Store(s: HandleSpec, before: Snapshot, id: Word, value: seq<byte>, ghost v: Snap)
    returns (r: Result<(Snapshot, Handle), SetError>, ghost fit: Option<nat>)
    requires Shaped(before) && v == ViewOf(s, before) && Sound(v)
    requires id <= MaxId(s) && |value| <= MaxLength(s)
    ensures r.Err? ==> StoreFailure(v, |value|) == Some(r.error)
    ensures r.Ok? ==> StoreFailure(v, |value|).None? && CanStore(v, value, fit) && StoreDefined(v, value, fit)
    ensures r.Ok? ==>
      var (sn, h) := r.value;
      && Shaped(sn) && ViewOf(s, sn) == StoredAt(v, id, value, fit)
      && Entry(Offset(h), Length(s, h), Id(s, h)) == StoredEntry(v, id, value)
      && Id(s, h) == id && Length(s, h) == |value|
  {
    hide *;
    ViewParts(s, before);
    StoreReady(v, |value|);
    LengthFits(s, |value|);
    fit := None;
    var claimed := ClaimSlot(before.header);
    if claimed.None? {
      return Err(TooManyEntries), fit;
    }
    var (slot, header) := claimed.value;
    var found := FindFit(before.holes, |value|);
    fit := found;
    if found.None? && |before.data| + |value| > MAX_DATA {
      NoRoom(v, |value|);
      return Err(DataExceedsCapacity), fit;
    }
    FitChosen(v, value, fit);
    StoredUnfolded(v, id, value, fit);
    var h := NewHandle(s, slot, |value|, id);
    var sn;
    if found.Some? {
      var hl := before.holes[found.value];
      var data := Overwrite(before.data, hl.offset, value);
      var holes := HolesAfterFit(before.holes, found.value, |value|);
      sn := PlaceEntry(s, before, header, h, hl.offset, data, holes, v);
    } else {
      sn := PlaceEntry(s, before, header, h, |before.data|, before.data + value, before.holes, v);
    }
    return Ok((sn, h)), fit;
  }

  // ---------- defragmentation ----------

  /** What the defragmentation loop may rely on at position p. */
  lemma {:induction false} DefragStep(v: Snap, p: nat)
    requires Sound(v) && p < |v.entries|
    ensures SlotsInRange(v) && Fits(EntryRanges(v), |v.data|)
    ensures LengthBefore(v.entries, |v.entries|) <= |v.data| <= MAX_DATA
    ensures
      var e := v.entries[p];
      var slot := v.table.slots[e.slot];
      && Moved(v.entries, v.table.slots, p)[e.slot] == slot && slot.alive
      && slot.offsetOrNext + e.length <= |v.data|
      && LengthBefore(v.entries, p) < TWO_32 && LengthBefore(v.entries, p) + e.length == LengthBefore(v.entries, p + 1)
      && Moved(v.entries, v.table.slots, p + 1) ==
           Moved(v.entries, v.table.slots, p)[e.slot := Slot(LengthBefore(v.entries, p), slot.generation, true)]
      && Gathered(EntryRanges(v), v.data, p + 1) ==
           Gathered(EntryRanges(v), v.data, p) + v.data[slot.offsetOrNext..slot.offsetOrNext + e.length]
  {
    Conservation(v);
    hide TableOk, Cover, IndexOk;
    assert EntryRanges(v)[p] == Range(v.table.slots[v.entries[p].slot].offsetOrNext, v.entries[p].length);
    DefragStepSlots(v.entries, v.table.slots, v.slotOf, p);
    hide SlotsOk, Moved;
  }

  lemma {:induction false} DefragStepSlots(es: seq<Entry>, slots: seq<Slot>, at: map<nat, nat>, p: nat)
    requires p < |es| && LengthBefore(es, |es|) <= MAX_DATA
    requires forall q :: 0 <= q < |es| ==> es[q].slot < |slots| && es[q].slot in at && at[es[q].slot] == q
    ensures LengthBefore(es, p) < TWO_32
    ensures Moved(es, slots, p)[es[p].slot] == slots[es[p].slot]
    ensures Moved(es, slots, p + 1) ==
      Moved(es, slots, p)[es[p].slot := Slot(LengthBefore(es, p), slots[es[p].slot].generation, true)]
  {
    NotMovedYet(es, slots, at, p, p);
    LengthBeforeMonotone(es, p + 1, |es|);
  }

  lemma {:induction false} DefragStart(v: Snap)
    requires Sound(v)
    ensures SlotsInRange(v) && Fits(EntryRanges(v), |v.data|)
    ensures LengthBefore(v.entries, |v.entries|) <= |v.data| <= MAX_DATA
    ensures Moved(v.entries, v.table.slots, 0) == v.table.slots
    ensures Gathered(EntryRanges(v), v.data, 0) == [] && LengthBefore(v.entries, 0) == 0
    ensures v.holes == [] ==> Defragmented(v) == v
    ensures v.holes != [] ==> Defragmented(v) ==
                              v.(data := Gathered(EntryRanges(v), v.data, |v.entries|),
                                 table := v.table.(slots := Moved(v.entries, v.table.slots, |v.entries|)),
                                 holes := [])
  {
    Conservation(v);
  }

  /** Copies the live bytes, in entry order, to a new buffer and rewrites the slot offsets in a copy of the header. */
  method Defragmentation(s: HandleSpec, before: Snapshot, ghost v: Snap) returns (sn: Snapshot)
    requires Shaped(before) && v == ViewOf(s, before) && Sound(v)
    ensures SlotsInRange(v) && Fits(EntryRanges(v), |v.data|) && LengthBefore(v.entries, |v.entries|) <= MAX_DATA
    ensures Shaped(sn) && ViewOf(s, sn) == Defragmented(v)
  {
    hide *;
    DefragStart(v);
    ViewParts(s, before);
    if before.holes == [] {
      return before;
    }
    if before.entries.length == 0 {
      sn := new Snapshot([], before.header, before.entries, before.slotToEntry, [], before.idIndex,
                         before.compactions, before.defragments + 1, s);
      return;
    }
    var header := CopyBytes(before.header);
    var data: seq<byte> := [];
    var writePos := 0;
    for pos := 0 to before.entries.length
      invariant WellFormed(header[..]) && fresh(header)
      invariant Decoded(header[..]) == v.table.(slots := Moved(v.entries, v.table.slots, pos))
      invariant data == Gathered(EntryRanges(v), v.data, pos)
      invariant writePos == LengthBefore(v.entries, pos)
    {
      DefragStep(v, pos);
      var h := before.entries.Get(pos);
      var index, length := Offset(h), Length(s, h);
      var slot := ReadSlot(header, index);
      assert slot.alive;
      var offset := slot.offsetOrNext;
      if writePos != offset {
        WriteSlot(header, index, Slot(writePos, slot.generation, true));
      }
      data := data + before.data[offset..offset + length];
      writePos := writePos + length;
    }
    sn := new Snapshot(data, header, before.entries, before.slotToEntry, [], before.idIndex,
                       before.compactions, before.defragments + 1, s);
  }

  // ---------- whole-content writes and the export format ----------

  lemma {:induction false} WriteStart(s: HandleSpec, hs: seq<Handle>, data: seq<byte>)
    requires Writable(EntriesOf(s, hs), data)
    ensures |EntriesOf(s, hs)| == |hs| <= MAX_OFFSET < TWO_32 && LengthBefore(EntriesOf(s, hs), |hs|) <= MAX_DATA
    ensures SlotCountFor(EntriesOf(s, hs)) <= MAX_OFFSET
    ensures SlotCountFor(EntriesOf(s, hs)) == if hs == [] then 0 else MaxSlot(EntriesOf(s, hs)) + 1
  {
    hide EntryOf, Offset, Length, Id, LengthBefore;
    CountBySlots(EntriesOf(s, hs), data);
  }

  lemma {:induction false} EntryFields(s: HandleSpec, hs: seq<Handle>, p: nat)
    requires p < |hs|
    ensures EntriesOf(s, hs)[p] == Entry(Offset(hs[p]), Length(s, hs[p]), Id(s, hs[p]))
  {
    hide Offset, Length, Id;
  }

  lemma {:induction false} TotalStep(es: seq<Entry>, p: nat)
    requires p < |es|
    ensures WriteTotal(es, p + 1) == (WriteTotal(es, p) + SignExtended(es[p].length)) % TWO_64
    ensures MaxSlot(es[..p + 1]) == if es[p].slot > MaxSlot(es[..p]) then es[p].slot else MaxSlot(es[..p])
  {
    assert es[..p + 1][..p] == es[..p];
  }

  lemma {:induction false} BuildStart(es: seq<Entry>)
    requires LengthBefore(es, |es|) <= MAX_DATA && |es| <= MAX_OFFSET
    ensures WrittenSlots(es, 0) == seq(SlotCountFor(es), _ => Slot(0, 0, false))
    ensures SlotMap(es, 0) == map[] && IdMap(es, 0) == map[] && LengthBefore(es, 0) == 0
  {
  }

  lemma {:induction false} WrittenFields(es: seq<Entry>, data: seq<byte>)
    requires LengthBefore(es, |es|) <= MAX_DATA && |es| < TWO_32
    ensures Written(es, data) ==
      Snap(data, Table(WrittenSlots(es, |es|), FREE_LIST_NIL, |es|), es, SlotMap(es, |es|), [], IdMap(es, |es|))
  {
  }

  lemma {:induction false} BuildStep(es: seq<Entry>, p: nat)
    requires p < |es| && LengthBefore(es, |es|) <= MAX_DATA
    ensures LengthBefore(es, p) < TWO_32 && LengthBefore(es, p + 1) == LengthBefore(es, p) + es[p].length
    ensures es[p].slot < SlotCountFor(es)
    ensures WrittenSlots(es, p + 1) == WrittenSlots(es, p)[es[p].slot := Slot(LengthBefore(es, p), 0, true)]
    ensures SlotMap(es, p + 1) == SlotMap(es, p)[es[p].slot := p]
    ensures IdMap(es, p + 1) == IdMap(es, p)[es[p].id := p]
    ensures es[..p + 1] == es[..p] + [es[p]]
  {
    LengthBeforeMonotone(es, p, |es|);
  }

  lemma {:induction false} NothingStored(s: HandleSpec)
    ensures PersistentEntries([], 0).Valid() && EntriesOf(s, PersistentEntries([], 0).View()) == []
    ensures PersistentSlots([], 0).Valid() && PersistentSlots([], 0).View() == map[]
    ensures ModelOf(null) == map[]
  {
  }

  /** One pass over the handles: the largest slot and the 64-bit sum of the sign-extended lengths. */
  method SumLengths(s: HandleSpec, hs: seq<Handle>) returns (maxIndex: nat, total: Word)
    ensures maxIndex == MaxSlot(EntriesOf(s, hs))
    ensures total == WriteTotal(EntriesOf(s, hs), |EntriesOf(s, hs)|)
  {
    ghost var es := EntriesOf(s, hs);
    maxIndex, total := 0, 0;
    for pos := 0 to |hs|
      invariant maxIndex == MaxSlot(es[..pos]) && total == WriteTotal(es, pos)
    {
      hide Offset, Length, Id, WriteTotal, MaxSlot, SignExtended;
      EntryFields(s, hs, pos);
      TotalStep(es, pos);
      if Offset(hs[pos]) > maxIndex {
        maxIndex := Offset(hs[pos]);
      }
      total := (total + SignExtended(Length(s, hs[pos]))) % TWO_64;
    }
    assert es[..|hs|] == es;
  }

  /** Writes the slot words of all entries into a header that has room for them. */
  method FillSlots(s: HandleSpec, hs: seq<Handle>, header: array<byte>)
    requires LengthBefore(EntriesOf(s, hs), |EntriesOf(s, hs)|) <= MAX_DATA
    requires WellFormed(header[..]) && Decoded(header[..]).slots == WrittenSlots(EntriesOf(s, hs), 0)
    modifies header
    ensures WellFormed(header[..])
    ensures Decoded(header[..]) ==
      old(Decoded(header[..])).(slots := WrittenSlots(EntriesOf(s, hs), |EntriesOf(s, hs)|))
  {
    ghost var es := EntriesOf(s, hs);
    hide *;
    var cursor := 0;
    NothingBefore(es);
    for pos := 0 to |hs|
      invariant WellFormed(header[..])
      invariant Decoded(header[..]) == old(Decoded(header[..])).(slots := WrittenSlots(es, pos))
      invariant cursor == LengthBefore(es, pos)
    {
      BuildStep(es, pos);
      EntryFields(s, hs, pos);
      WriteSlot(header, Offset(hs[pos]), Slot(cursor, 0, true));
      cursor := cursor + Length(s, hs[pos]);
    }
  }

  lemma {:induction false} NothingBefore(es: seq<Entry>)
    ensures LengthBefore(es, 0) == 0 && 0 < GEN_SPACE
  {
  }

  /** Appends all handles to empty dense entries and lookups. */
  method FillEntries(s: HandleSpec, hs: seq<Handle>)
    returns (entries: PersistentEntries, slots: PersistentSlots, index: IdTable?)
    requires |hs| <= MAX_OFFSET && LengthBefore(EntriesOf(s, hs), |EntriesOf(s, hs)|) <= MAX_DATA
    ensures entries.Valid() && slots.Valid() && (index != null ==> index.Valid())
    ensures EntriesOf(s, entries.View()) == EntriesOf(s, hs)
    ensures slots.View() == SlotMap(EntriesOf(s, hs), |EntriesOf(s, hs)|)
    ensures ModelOf(index) == IdMap(EntriesOf(s, hs), |EntriesOf(s, hs)|)
  {
    ghost var es := EntriesOf(s, hs);
    assert |es| == |hs| <= 0x1_0000;
    hide *;
    BuildStart(es);
    NothingStored(s);
    entries, slots, index := PersistentEntries([], 0), PersistentSlots([], 0), null;
    for pos := 0 to |hs|
      invariant entries.Valid() && slots.Valid() && (index != null ==> index.Valid())
      invariant EntriesOf(s, entries.View()) == es[..pos]
      invariant slots.View() == SlotMap(es, pos) && ModelOf(index) == IdMap(es, pos)
    {
      BuildStep(es, pos);
      EntryFields(s, hs, pos);
      entries, slots, index := AppendEntry(s, entries, slots, index, hs[pos], es[..pos]);
    }
    assert es[..|hs|] == es;
  }

  /** Lays the entries out at cumulative offsets over a header of their slots. */
  method LayOut(s: HandleSpec, hs: seq<Handle>, data: seq<byte>, slotCount: nat, compactions: nat, defragments: nat)
    returns (sn: Snapshot)
    requires |hs| <= MAX_OFFSET && LengthBefore(EntriesOf(s, hs), |EntriesOf(s, hs)|) <= MAX_DATA
    requires slotCount == SlotCountFor(EntriesOf(s, hs)) <= MAX_OFFSET
    ensures |EntriesOf(s, hs)| < TWO_32
    ensures Shaped(sn) && ViewOf(s, sn) == Written(EntriesOf(s, hs), data)
  {
    ghost var es := EntriesOf(s, hs);
    assert |es| == |hs| < TWO_32;
    hide *;
    BuildStart(es);
    var header := NewHeader(s as int, slotCount);
    SetLiveCount(header, |hs|);
    FillSlots(s, hs, header);
    var entries, slots, index := FillEntries(s, hs);
    sn := new Snapshot(data, header, entries, slots, [], index, compactions, defragments, s);
    WrittenFields(es, data);
  }

  /** Write: the capacity check over the sums, then the layout. */
  method BuildWritten(s: HandleSpec, hs: seq<Handle>, data: seq<byte>, compactions: nat, defragments: nat)
    returns (r: Result<Snapshot, TransferError>)
    requires Writable(EntriesOf(s, hs), data)
    ensures LengthBefore(EntriesOf(s, hs), |EntriesOf(s, hs)|) <= MAX_DATA && |hs| < TWO_32
    ensures r == Err(ContentExceedsCapacity) || r.Ok?
    ensures r.Ok? <==> WriteTotal(EntriesOf(s, hs), |EntriesOf(s, hs)|) <= MAX_DATA
    ensures r.Ok? ==> Shaped(r.value) && ViewOf(s, r.value) == Written(EntriesOf(s, hs), data)
  {
    hide *;
    WriteStart(s, hs, data);
    var maxIndex, total := SumLengths(s, hs);
    if total > MAX_DATA {
      return Err(ContentExceedsCapacity);
    }
    var sn := LayOut(s, hs, data, if hs == [] then 0 else maxIndex + 1, compactions, defragments);
    return Ok(sn);
  }
}
