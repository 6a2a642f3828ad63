/**
 The public operations of the registry over every run: Get, Set, Delete, Defragment, Clear, Export, Import.
 `Denoted` is the one finite map from ids to byte strings that the registry stands for.
*/
module RegistryOperations {
  import opened Wrappers
  import opened Handles
  import opened LittleEndian
  import opened PagedArrays
  import opened SlotHeader
  import opened FreeList
  import opened IdTables
  import opened Snapshots
  import opened Compaction
  import opened Transfer
  import opened Registries

  const DEFAULT_COMPACTION_THRESHOLD := 256

  // ---------- the steps on values ----------

  /** Set first deletes the entry the id already has. */
  ghost function WithoutId(v: Snap, id: Word): Snap
    requires Sound(v)
  {
    if id in v.index then Deleted(v, v.index[id]) else v
  }

  /** Why a Set fails, if it does. */
  ghost function SetFailure(s: HandleSpec, configured: bool, v: Snap, id: Word, need: nat): Option<SetError>
    requires Sound(v)
  {
    if need > MaxLength(s) then Some(SetError.LengthExceedsBitSpace)
    else if !configured then Some(MissingFunctions)
    else StoreFailure(WithoutId(v, id), need)
  }

  ghost function SetResult(v: Snap, id: Word, value: seq<byte>, fit: Option<nat>): Snap
    requires Sound(v) && StoreDefined(WithoutId(v, id), value, fit)
  {
    StoredAt(WithoutId(v, id), id, value, fit)
  }

  lemma {:induction false} WithoutIdSpec(v: Snap, id: Word)
    requires Sound(v)
    ensures
      var w := WithoutId(v, id);
      && Sound(w) && Contents(w) == Contents(v) - {id} && EntryMap(w) == EntryMap(v) - {id} && id !in w.index
      && (Tiled(v) ==> Tiled(w))
      && Leaked(w.table) == Leaked(v.table)
  {
    if id in v.index {
      DeletedSpec(v, v.index[id]);
      DeletedIndex(v, v.index[id]);
      hide Sound, Contents, EntryMap, Deleted, Tiled, Leaked;
      IndexHolds(v, id);
    } else {
      assert Contents(v) - {id} == Contents(v) && EntryMap(v) - {id} == EntryMap(v);
    }
  }

  lemma {:induction false} IndexHolds(v: Snap, id: Word)
    requires Sound(v) && id in v.index
    ensures 0 <= v.index[id] < |v.entries| && v.entries[v.index[id]].id == id
  {
  }

  /** A Set that does not fail maps exactly the given id to the value and keeps every invariant. */
  lemma {:induction false} SetSpec(v: Snap, id: Word, value: seq<byte>, fit: Option<nat>)
    requires Sound(v) && CanStore(WithoutId(v, id), value, fit) && StoreDefined(WithoutId(v, id), value, fit)
    ensures
      var w := SetResult(v, id, value, fit);
      && Sound(w) && Contents(w) == Contents(v)[id := value]
      && EntryMap(w) == EntryMap(v)[id := StoredEntry(WithoutId(v, id), id, value)]
      && (Tiled(v) ==> Tiled(w))
      && Leaked(w.table) == Leaked(v.table)
  {
    hide Sound, Contents, EntryMap, StoredEntry, StoredAt, Tiled, Leaked, WithoutId, CanStore, StoreDefined;
    WithoutIdSpec(v, id);
    StoredSpec(WithoutId(v, id), id, value, fit);
    assert (Contents(v) - {id})[id := value] == Contents(v)[id := value];
    var e := StoredEntry(WithoutId(v, id), id, value);
    assert (EntryMap(v) - {id})[id := e] == EntryMap(v)[id := e];
  }

  /**
   A Set runs out of slots exactly when the ids stored, its own not among them, and the leaked slots together
   take all 65536 slots: an id that is present always finds the slot its own deletion freed.
  */
  lemma {:induction false} SlotsExhausted(v: Snap, id: Word, need: nat)
    requires Sound(v)
    ensures StoreFailure(WithoutId(v, id), need) == Some(TooManyEntries) <==>
      id !in v.index && |v.entries| + |Leaked(v.table)| == MAX_OFFSET
  {
    var w := WithoutId(v, id);
    WithoutIdSpec(v, id);
    StoreReady(w, need);
    FullExactly(w.table, 0);
    FullExactly(v.table, 0);
    EntriesBelowMax(v);
    LiveCountIs(w);
    LiveCountIs(v);
    SlotsBound(v.table);
    hide Sound, Leaked, TableOk;
  }

  /**
   When a Set fails, and why: the value does not fit the length field; a function is missing; the slots are gone; or
   no hole is long enough, the one its own entry leaves included, and the data would pass 2^32 - 1 bytes.
  */
  lemma {:induction false} SetFailsExactly(s: HandleSpec, configured: bool, v: Snap, id: Word, need: nat)
    requires Sound(v)
    ensures
      var own := id in v.index;
      var slotsGone := !own && |v.entries| + |Leaked(v.table)| == 0x1_0000;
      var dataFull := |v.data| + need > 0xFFFF_FFFF
        && (forall k :: 0 <= k < |v.holes| ==> v.holes[k].length < need)
        && (own ==> 0 <= v.index[id] < |v.entries| && v.entries[v.index[id]].length < need);
      SetFailure(s, configured, v, id, need) ==
        if need >= Pow2(s as int) then Some(SetError.LengthExceedsBitSpace)
        else if !configured then Some(MissingFunctions)
        else if slotsGone then Some(TooManyEntries)
        else if dataFull then Some(DataExceedsCapacity)
        else None
  {
    SlotsExhausted(v, id, need);
    if id in v.index {
      IndexHolds(v, id);
      HolesOfDeleted(v, v.index[id], need);
    }
    hide Sound, Leaked, Deleted;
  }

  lemma {:induction false} HolesOfDeleted(v: Snap, p: nat, need: nat)
    requires Sound(v) && p < |v.entries|
    ensures Deleted(v, p).data == v.data
    ensures NoFit(Deleted(v, p).holes, need) <==> NoFit(v.holes, need) && v.entries[p].length < need
  {
    var r := EntryRange(v.table, v.entries[p]);
    var holes := v.holes + [Hole(r.offset, r.length)];
    assert Deleted(v, p).holes == holes;
    if NoFit(holes, need) {
      assert holes[|v.holes|].length < need;
      assert forall k :: 0 <= k < |v.holes| ==> holes[k] == v.holes[k];
    }
  }

  lemma {:induction false} DataBelowMax(v: Snap)
    requires Sound(v)
    ensures |v.data| < TWO_32
  {
  }

  /** After an import a new id runs out of slots exactly when the highest slot is named, however few others are. */
  lemma {:induction false} SlotsExhaustedAfterImport(es: seq<Entry>, data: seq<byte>, id: Word, need: nat)
    requires Writable(es, data) && forall p :: 0 <= p < |es| ==> es[p].id != id
    ensures |es| <= MAX_OFFSET && Sound(Written(es, data))
    ensures StoreFailure(WithoutId(Written(es, data), id), need) == Some(TooManyEntries) <==>
      Names(es, MAX_OFFSET - 1)
  {
    hide Written, Sound, Leaked, Unnamed, StoreFailure, WithoutId, Tiled, Packed, LengthBefore, SlotCountFor, Names,
      Contents, ById, PackedRanges;
    WrittenSpec(es, data);
    HighestNamed(es, data);
    WrittenLacks(es, data, id);
    SlotsExhausted(Written(es, data), id, need);
  }

  lemma {:induction false} WrittenLacks(es: seq<Entry>, data: seq<byte>, id: Word)
    requires Writable(es, data) && |es| <= MAX_OFFSET && forall p :: 0 <= p < |es| ==> es[p].id != id
    ensures id !in Written(es, data).index && Written(es, data).entries == es
  {
    MapsAt(es, data, |es|);
  }

  lemma {:induction false} SlotsBound(t: Table)
    requires TableOk(t)
    ensures t.liveCount + |Leaked(t)| <= MAX_OFFSET
  {
    var c :| Linked(t, c);
    SlotsAddUp(t, c);
  }

  lemma {:induction false} LiveCountIs(v: Snap)
    requires Sound(v)
    ensures TableOk(v.table) && v.table.liveCount == |v.entries|
    ensures v.table.freeHead == FREE_LIST_NIL || v.table.freeHead < |v.table.slots|
  {
    HeadIsDead(v.table);
  }

  // ---------- the steps on snapshots ----------

  method EmptySnapshot(s: HandleSpec) returns (sn: Snapshot)
    ensures fresh(sn) && Shaped(sn) && ViewOf(s, sn) == EMPTY_SNAP
  {
    hide ReadWord, SlotAt;
    var header := NewHeader(s as int, 0);
    NothingStored(s);
    assert Decoded(header[..]) == EMPTY_TABLE;
    hide *;
    EmptyFields();
    sn := new Snapshot([], header, PersistentEntries([], 0), PersistentSlots([], 0), [], null, 0, 0, s);
  }

  lemma {:induction false} EmptyFields()
    ensures EMPTY_SNAP == Snap([], EMPTY_TABLE, [], map[], [], map[])
  {
  }

  /** The lookup of a nil table finds nothing. */
  method LookupIn(t: IdTable?, id: Word) returns (r: Option<int>)
    requires t != null ==> t.Valid()
    ensures r.Some? <==> id in ModelOf(t)
    ensures r.Some? ==> r.value == ModelOf(t)[id]
  {
    if t == null {
      return None;
    }
    r := t.Lookup(id);
  }

  lemma {:induction false} EntryInData(v: Snap, id: Word)
    requires Sound(v)
    ensures Contents(v).Keys == EntryMap(v).Keys == v.index.Keys
    ensures id in v.index ==>
      && 0 <= v.index[id] < |v.entries|
      && var e := v.entries[v.index[id]];
      && EntryMap(v)[id] == e && e.id == id && e.slot < |v.table.slots| && v.table.slots[e.slot].alive
      && v.table.slots[e.slot].offsetOrNext + e.length <= |v.data|
      && Contents(v)[id] == v.data[v.table.slots[e.slot].offsetOrNext..v.table.slots[e.slot].offsetOrNext + e.length]
  {
  }

  lemma {:induction false} EntryOfIs(s: HandleSpec, h: Handle)
    ensures EntryOf(s, h) == Entry(Offset(h), Length(s, h), Id(s, h))
  {
  }

  method Fetch(s: HandleSpec, sn: Snapshot, id: Word, ghost v: Snap)
    returns (r: Result<(Handle, seq<byte>), GetError>)
    requires Shaped(sn) && v == ViewOf(s, sn) && Sound(v)
    ensures r.Ok? <==> id in Contents(v)
    ensures r.Ok? ==> r.value.1 == Contents(v)[id]
    ensures r.Ok? ==> id in EntryMap(v) && EntryMap(v)[id] == EntryOf(s, r.value.0)
    ensures r.Ok? ==> EntryOf(s, r.value.0).id == id && EntryOf(s, r.value.0).length == |r.value.1|
  {
    hide *;
    ViewParts(s, sn);
    EntryInData(v, id);
    var pos := LookupIn(sn.idIndex, id);
    if pos.None? {
      return Err(NotFound);
    }
    var h := sn.entries.Get(pos.value);
    var length := Length(s, h);
    var byteOffset := SlotOffset(sn.header, Offset(h));
    assert byteOffset.Some?;
    assert byteOffset.value + length <= |sn.data|;
    EntryOfIs(s, h);
    return Ok((h, sn.data[byteOffset.value..byteOffset.value + length]));
  }

  lemma {:induction false} WithoutIdIs(v: Snap, id: Word)
    requires Sound(v)
    ensures SlotsInRange(v)
    ensures id in v.index ==> 0 <= v.index[id] < |v.entries| && WithoutId(v, id) == Deleted(v, v.index[id])
    ensures id !in v.index ==> WithoutId(v, id) == v
  {
  }

  lemma {:induction false} SetResultIs(v: Snap, id: Word, value: seq<byte>, fit: Option<nat>)
    requires Sound(v) && StoreDefined(WithoutId(v, id), value, fit)
    ensures SetResult(v, id, value, fit) == StoredAt(WithoutId(v, id), id, value, fit)
  {
  }

  /** Set on a snapshot: delete what the id had, then store. */
  method Replace(s: HandleSpec, before: Snapshot, id: Word, value: seq<byte>, compactionThreshold: int, ghost v: Snap)
    returns (r: Result<(Snapshot, Handle), SetError>)
    requires Shaped(before) && v == ViewOf(s, before) && Sound(v)
    requires id <= MaxId(s) && |value| <= MaxLength(s)
    ensures r.Err? ==> StoreFailure(WithoutId(v, id), |value|) == Some(r.error)
    ensures r.Ok? ==> StoreFailure(WithoutId(v, id), |value|).None?
    ensures r.Ok? ==>
      var (sn, h) := r.value;
      && Shaped(sn) && Id(s, h) == id && Length(s, h) == |value|
      && var w := ViewOf(s, sn);
      && Sound(w) && Contents(w) == Contents(v)[id := value]
      && EntryMap(w) == EntryMap(v)[id := Entry(Offset(h), Length(s, h), Id(s, h))]
      && (Tiled(v) ==> Tiled(w))
      && Leaked(w.table) == Leaked(v.table)
  {
    hide *;
    ViewParts(s, before);
    WithoutIdIs(v, id);
    WithoutIdSpec(v, id);
    var base := before;
    var pos := LookupIn(before.idIndex, id);
    if pos.Some? {
      base := DeletePos(s, before, pos.value, compactionThreshold, v);
    }
    ghost var fit;
    r, fit := Store(s, base, id, value, WithoutId(v, id));
    if r.Ok? {
      SetSpec(v, id, value, fit);
      SetResultIs(v, id, value, fit);
    }
  }

  /** Delete on a snapshot. */
  method Remove(s: HandleSpec, before: Snapshot, id: Word, compactionThreshold: int, ghost v: Snap)
    returns (removed: bool, sn: Snapshot)
    requires Shaped(before) && v == ViewOf(s, before) && Sound(v)
    ensures removed <==> id in Contents(v)
    ensures !removed ==> sn == before
    ensures Shaped(sn) && Sound(ViewOf(s, sn))
    ensures Contents(ViewOf(s, sn)) == Contents(v) - {id} && EntryMap(ViewOf(s, sn)) == EntryMap(v) - {id}
    ensures Tiled(v) ==> Tiled(ViewOf(s, sn))
    ensures Leaked(ViewOf(s, sn).table) == Leaked(v.table)
  {
    hide *;
    ViewParts(s, before);
    EntryInData(v, id);
    WithoutIdIs(v, id);
    WithoutIdSpec(v, id);
    var pos := LookupIn(before.idIndex, id);
    if pos.None? {
      return false, before;
    }
    sn := DeletePos(s, before, pos.value, compactionThreshold, v);
    return true, sn;
  }

  lemma {:induction false} ExportStep(hs: seq<Handle>, i: nat)
    requires i < |hs|
    ensures HandleBytes(hs[..0]) == [] && hs[..|hs|] == hs
    ensures HandleBytes(hs[..i + 1]) == HandleBytes(hs[..i]) + Encode(hs[i], 8)
  {
    assert hs[..i + 1][..i] == hs[..i];
  }

  lemma {:induction false} ExportWhole(hs: seq<Handle>, data: seq<byte>)
    ensures HandleBytes(hs[..0]) == [] && hs[..|hs|] == hs
    ensures ExportBytes(hs, data) == ExportHead(hs, data) + HandleBytes(hs) + data
  {
  }

  /** Writes the magic, the two counts, every handle and the data. */
  method ExportSnapshot(s: HandleSpec, sn: Snapshot, ghost v: Snap) returns (bs: seq<byte>, ghost hs: seq<Handle>)
    requires Shaped(sn) && v == ViewOf(s, sn) && Sound(v)
    ensures |hs| < 0x8000_0000 && EntriesOf(s, hs) == v.entries && bs == ExportBytes(hs, v.data)
  {
    hide *;
    EntriesBelowMax(v);
    ViewParts(s, sn);
    if sn.entries.length > 0 {
      SoundAt(v, 0);
    }
    var entries := sn.entries.ToSlice();
    hs := entries;
    ExportWhole(entries, sn.data);
    bs := ExportHead(entries, sn.data);
    for i := 0 to |entries|
      invariant bs == ExportHead(entries, sn.data) + HandleBytes(entries[..i])
    {
      ExportStep(entries, i);
      bs := bs + Encode(entries[i], 8);
    }
    bs := bs + sn.data;
  }

  function ExportHead(hs: seq<Handle>, data: seq<byte>): seq<byte> {
    MAGIC + Encode(|hs| % TWO_32, 4) + Encode(|data| % TWO_32, 4)
  }

  /**
   The round trip through the export format: the export of a sound snapshot always parses back and is
   accepted by Import unless a single entry has 2 GiB or more, and what Import then holds is what was
   exported whenever the entries lie in entry order, as they do after a defragmentation that had holes.
  */
  lemma {:induction false} ExportThenImport(s: HandleSpec, v: Snap, hs: seq<Handle>)
    requires Sound(v) && EntriesOf(s, hs) == v.entries && |hs| < TWO_32
    ensures SlotsInRange(v)
    ensures Parse(ExportBytes(hs, v.data)) == Ok((hs, v.data))
    ensures Writable(v.entries, v.data)
    ensures InEntryOrder(v) ==> ById(v.entries, PackedRanges(v.entries, |v.data|), v.data, |v.entries|) == Contents(v)
    ensures Packed(v) ==> InEntryOrder(v)
  {
    WritableBounds(v);
    ParseExport(hs, v.data);
    SoundIsWritable(v);
    WrittenSpec(v.entries, v.data);
    hide Sound, Written, Writable, LengthBefore, ById, Contents, Parse;
    if InEntryOrder(v) {
      InOrderRestores(v);
      RestoresMeans(v);
    }
  }

  lemma {:induction false} SameEntryMap(v: Snap, w: Snap)
    requires Sound(v) && Sound(w) && w.entries == v.entries && w.index == v.index
    ensures EntryMap(w) == EntryMap(v)
  {
    hide Sound;
  }

  // ---------- the registry ----------

  datatype GetError = NotFound

  /** The registry of keys of type K. NewView is modelled by the handle and the bytes it is applied to. */
  class Registry<K> {
    const hashKey: Option<K -> Word>
    const hasView: bool
    const spec: HandleSpec
    const compactionThreshold: int
    var snap: Snapshot

    ghost predicate Valid()
      reads this, snap.header,
            if snap.idIndex == null then {}
            else {snap.idIndex, snap.idIndex.keys, snap.idIndex.vals, snap.idIndex.state}
    {
      Shaped(snap) && Sound(ViewOf(spec, snap))
    }

    ghost function View(): Snap
      requires Valid()
      reads this, snap.header,
            if snap.idIndex == null then {}
            else {snap.idIndex, snap.idIndex.keys, snap.idIndex.vals, snap.idIndex.state}
    {
      ViewOf(spec, snap)
    }

    /** The map from ids to byte strings the registry stands for. */
    ghost function Denoted(): map<Word, seq<byte>>
      requires Valid()
      reads this, snap.header,
            if snap.idIndex == null then {}
            else {snap.idIndex, snap.idIndex.keys, snap.idIndex.vals, snap.idIndex.state}
    {
      Contents(View())
    }

    ghost predicate Configured() {
      hashKey.Some? && hasView
    }

    /** The entry behind every id: slot, length and id of its handle. */
    ghost function Handles(): (m: map<Word, Entry>)
      requires Valid()
      ensures m.Keys == Denoted().Keys
      reads this, snap.header,
            if snap.idIndex == null then {}
            else {snap.idIndex, snap.idIndex.keys, snap.idIndex.vals, snap.idIndex.state}
    {
      EntryMap(View())
    }

    /** The id of a key: its hash, masked to the id field. */
    function IdOf(key: K): (id: Word)
      requires hashKey.Some?
      ensures id <= MaxId(spec)
    {
      IdSpaceBound(spec);
      hashKey.value(key) % IdSpace(spec)
    }

    /** The id keeps the low bits of the hash, as many as the length field leaves of 48. */
    lemma {:induction false} IdOfLowBits(key: K)
      requires hashKey.Some?
      ensures IdOf(key) == hashKey.value(key) % Pow2(48 - spec as int)
    {
      hide Pow2;
    }

    /** What is stored for a key: the entry behind its handle, and its bytes. */
    ghost function AnswerOf(key: K): Option<(Entry, seq<byte>)>
      requires Valid()
      reads this, snap.header,
            if snap.idIndex == null then {}
            else {snap.idIndex, snap.idIndex.keys, snap.idIndex.vals, snap.idIndex.state}
    {
      if Configured() && IdOf(key) in Denoted() then Some((Handles()[IdOf(key)], Denoted()[IdOf(key)])) else None
    }

    constructor (hashKey: Option<K -> Word>, hasView: bool, spec: HandleSpec, threshold: int)
      ensures Valid() && View() == EMPTY_SNAP && Denoted() == map[]
      ensures Tiled(View()) && Leaked(View().table) == {}
      ensures this.hashKey == hashKey && this.hasView == hasView && this.spec == spec
    {
      this.hashKey, this.hasView, this.spec := hashKey, hasView, spec;
      this.compactionThreshold := if threshold <= 0 then DEFAULT_COMPACTION_THRESHOLD else threshold;
      var empty := EmptySnapshot(spec);
      this.snap := empty;
      new;
      EmptySound();
    }

    /**
     Looks the id up and slices the data. The alive check and the bounds check of the program never fire for
     an indexed id, so NotFound means exactly that the id is not stored (or a function is missing).
    */
    method Get(key: K) returns (r: Result<(Handle, seq<byte>), GetError>)
      requires Valid()
      ensures r.Ok? <==> AnswerOf(key).Some?
      ensures r.Ok? ==> AnswerOf(key) == Some((EntryOf(spec, r.value.0), r.value.1))
      ensures r.Ok? ==> Configured() && Id(spec, r.value.0) == IdOf(key) && Length(spec, r.value.0) == |r.value.1|
    {
      hide Sound, Shaped, ViewOf, Contents, EntryMap, Tiled, Leaked, SlotsInRange, WithoutId, StoreFailure;
      if hashKey.None? || !hasView {
        return Err(NotFound);
      }
      r := Fetch(spec, snap, IdOf(key), View());
    }

    /**
     Stores the value under the key's id, replacing what it had. A failing Set leaves the very snapshot it
     found; which failure occurs, and that none does otherwise, is SetFailure of the state before.
    */
    method Set(key: K, value: seq<byte>) returns (r: Result<(Handle, seq<byte>), SetError>)
      requires Valid()
      modifies this
      ensures Valid()
      ensures r.Ok? ==> Configured() && Denoted() == old(Denoted())[IdOf(key) := value]
      ensures r.Ok? ==> Handles() == old(Handles())[IdOf(key) := EntryOf(spec, r.value.0)]
      ensures r.Ok? ==> r.value.1 == value && Id(spec, r.value.0) == IdOf(key) && Length(spec, r.value.0) == |value|
      ensures r.Err? ==> snap == old(snap) && Denoted() == old(Denoted()) && Handles() == old(Handles())
      ensures
        var id := if hashKey.Some? then IdOf(key) else 0;
        match SetFailure(spec, Configured(), old(View()), id, |value|)
        case Some(e) => r == Err(e)
        case None => r.Ok?
      ensures old(Tiled(View())) ==> Tiled(View())
      ensures Leaked(View().table) == old(Leaked(View().table))
    {
      hide Sound, Shaped, ViewOf, Contents, EntryMap, Tiled, Leaked, SlotsInRange, WithoutId, StoreFailure;
      var need := |value|;
      if need > MaxLength(spec) {
        return Err(SetError.LengthExceedsBitSpace);
      }
      if hashKey.None? || !hasView {
        return Err(MissingFunctions);
      }
      var res := Replace(spec, snap, IdOf(key), value, compactionThreshold, View());
      match res {
        case Err(e) => return Err(e);
        case Ok((sn, h)) =>
          snap := sn;
          return Ok((h, value));
      }
    }

    /** Removes the key's id; the snapshot stays when it was not stored. */
    method Delete(key: K) returns (removed: bool)
      requires Valid()
      modifies this
      ensures Valid()
      ensures removed <==> hashKey.Some? && IdOf(key) in old(Denoted())
      ensures Denoted() == if hashKey.Some? then old(Denoted()) - {IdOf(key)} else old(Denoted())
      ensures Handles() == if hashKey.Some? then old(Handles()) - {IdOf(key)} else old(Handles())
      ensures !removed ==> snap == old(snap)
      ensures old(Tiled(View())) ==> Tiled(View())
      ensures Leaked(View().table) == old(Leaked(View().table))
    {
      hide Sound, Shaped, ViewOf, Contents, EntryMap, Tiled, Leaked, SlotsInRange, WithoutId, StoreFailure;
      if hashKey.None? {
        return false;
      }
      var sn: Snapshot;
      removed, sn := Remove(spec, snap, IdOf(key), compactionThreshold, View());
      if removed {
        snap := sn;
      }
    }

    /** Keeps the denoted map and every slot's generation; when there were holes, packs the entries in order. */
    method Defragment()
      requires Valid()
      modifies this
      ensures Valid() && Denoted() == old(Denoted()) && Handles() == old(Handles())
      ensures View().holes == [] && View().entries == old(View().entries) && View().slotOf == old(View().slotOf)
      ensures OnlyOffsetsDiffer(old(View().table), View().table)
      ensures old(View().holes) != [] ==> Packed(View()) && Tiled(View())
      ensures old(View().holes) != [] || old(Tiled(View())) ==>
        |View().data| == LengthBefore(View().entries, |View().entries|)
      ensures old(Tiled(View())) ==> Tiled(View())
      ensures Leaked(View().table) == old(Leaked(View().table))
    {
      hide Sound, Shaped, ViewOf, Contents, EntryMap, Tiled, Leaked, SlotsInRange, Packed, OnlyOffsetsDiffer,
        Defragmented, LengthBefore;
      ghost var v := View();
      var sn := Defragmentation(spec, snap, v);
      DefragmentedSpec(v);
      SameEntryMap(v, Defragmented(v));
      snap := sn;
    }

    method Clear()
      requires Valid()
      modifies this
      ensures Valid() && View() == EMPTY_SNAP && Denoted() == map[]
      ensures Tiled(View()) && Leaked(View().table) == {}
    {
      hide Sound, Shaped, ViewOf, Contents, EntryMap, Tiled, Leaked, SlotsInRange, WithoutId, StoreFailure;
      var empty := EmptySnapshot(spec);
      EmptySound();
      snap := empty;
    }

    /** Magic, counts, handles and data of the current snapshot. */
    method Export() returns (bs: seq<byte>, ghost hs: seq<Handle>)
      requires Valid()
      ensures |hs| < TWO_32 && EntriesOf(spec, hs) == View().entries && bs == ExportBytes(hs, View().data)
      ensures LaidOut(bs, hs, View().data)
    {
      bs, hs := ExportSnapshot(spec, snap, View());
      DataBelowMax(View());
      ExportIsLaidOut(hs, View().data);
    }

    /**
     Replaces everything by what the bytes encode, or fails and changes nothing. The bytes must not name a
     slot or an id twice, and must carry data for every entry: the program does not check this.
    */
    method Import(bs: seq<byte>) returns (r: Result<(), TransferError>)
      requires Valid()
      requires Parse(bs).Ok? ==> Writable(EntriesOf(spec, Parse(bs).value.0), Parse(bs).value.1)
      modifies this
      ensures Valid() && ReadsAs(bs, Parse(bs))
      ensures r.Err? ==> snap == old(snap)
      ensures Parse(bs).Err? ==> r == Err(Parse(bs).error)
      ensures Parse(bs).Ok? ==>
        var es, data := EntriesOf(spec, Parse(bs).value.0), Parse(bs).value.1;
        if ShortLengths(es, |es|)
        then
          && r == Ok(()) && Denoted() == ById(es, PackedRanges(es, |data|), data, |es|)
          && Leaked(View().table) == Unnamed(es)
        else r == Err(ContentExceedsCapacity)
    {
      hide Sound, Shaped, ViewOf, Contents, Written, Writable, Parse, ById, PackedRanges, Tiled, Packed,
        ShortLengths, LengthBefore, WriteTotal, EntriesOf, Leaked, Unnamed, ReadsAs;
      ParseReads(bs);
      var parsed := Parse(bs);
      if parsed.Err? {
        return Err(parsed.error);
      }
      var (hs, data) := parsed.value;
      var built := BuildWritten(spec, hs, data, snap.compactions, snap.defragments);
      ghost var es := EntriesOf(spec, hs);
      CapacityCheck(es, data);
      if built.Err? {
        return Err(built.error);
      }
      WrittenSpec(es, data);
      snap := built.value;
      return Ok(());
    }
  }
}
