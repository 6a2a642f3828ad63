/**
 Export, import and whole-content writes. A write lays the entries out at cumulative offsets in the
 order given, so importing what was exported restores the contents exactly when the exported snapshot
 kept its bytes in entry order.
*/
module Transfer {
  import opened Wrappers
  import opened Handles
  import opened LittleEndian
  import opened SlotHeader
  import opened FreeList
  import opened Snapshots
  import opened Compaction

  // ---------- the snapshot a write builds ----------

  /** What Write is written for: no slot and no id twice, and data for every entry. */
  ghost predicate Writable(es: seq<Entry>, data: seq<byte>) {
    && (forall p, q :: 0 <= p < q < |es| ==> es[p].slot != es[q].slot && es[p].id != es[q].id)
    && (forall p :: 0 <= p < |es| ==> es[p].slot < MAX_OFFSET)
    && LengthBefore(es, |es|) <= |data| <= MAX_DATA
  }

  function MaxSlot(es: seq<Entry>): (m: nat)
    ensures forall p :: 0 <= p < |es| ==> es[p].slot <= m
  {
    if es == [] then 0
    else
      var m := MaxSlot(es[..|es| - 1]);
      var e := es[|es| - 1];
      assert forall p :: 0 <= p < |es| - 1 ==> es[p] == es[..|es| - 1][p];
      if e.slot > m then e.slot else m
  }

  function SlotCountFor(es: seq<Entry>): nat {
    if es == [] then 0 else MaxSlot(es) + 1
  }

  function WrittenSlots(es: seq<Entry>, k: nat): (r: seq<Slot>)
    requires k <= |es| && LengthBefore(es, |es|) <= MAX_DATA
    ensures |r| == SlotCountFor(es)
  {
    if k == 0 then seq(SlotCountFor(es), _ => Slot(0, 0, false))
    else
      LengthBeforeMonotone(es, k - 1, |es|);
      WrittenSlots(es, k - 1)[es[k - 1].slot := Slot(LengthBefore(es, k - 1), 0, true)]
  }

  function SlotMap(es: seq<Entry>, k: nat): map<nat, nat>
    requires k <= |es|
  {
    if k == 0 then map[] else SlotMap(es, k - 1)[es[k - 1].slot := k - 1]
  }

  function IdMap(es: seq<Entry>, k: nat): map<Word, int>
    requires k <= |es|
  {
    if k == 0 then map[] else IdMap(es, k - 1)[es[k - 1].id := k - 1]
  }

  function Written(es: seq<Entry>, data: seq<byte>): Snap
    requires LengthBefore(es, |es|) <= MAX_DATA && |es| < TWO_32
  {
    Snap(data, Table(WrittenSlots(es, |es|), FREE_LIST_NIL, |es|), es, SlotMap(es, |es|), [], IdMap(es, |es|))
  }

  lemma {:induction false} MapsAt(es: seq<Entry>, data: seq<byte>, k: nat)
    requires Writable(es, data) && k <= |es|
    ensures forall p :: 0 <= p < k ==> es[p].slot in SlotMap(es, k) && SlotMap(es, k)[es[p].slot] == p
    ensures forall p :: 0 <= p < k ==> es[p].id in IdMap(es, k) && IdMap(es, k)[es[p].id] == p
    ensures forall x :: x in SlotMap(es, k) ==> SlotMap(es, k)[x] < k && es[SlotMap(es, k)[x]].slot == x
    ensures forall id :: id in IdMap(es, k) ==> 0 <= IdMap(es, k)[id] < k && es[IdMap(es, k)[id]].id == id
  {
    SlotMapAt(es, k);
    IdMapAt(es, k);
    hide SlotMap, IdMap, LengthBefore;
  }

  lemma {:induction false} SlotMapAt(es: seq<Entry>, k: nat)
    requires k <= |es| && forall p, q :: 0 <= p < q < |es| ==> es[p].slot != es[q].slot
    ensures forall p :: 0 <= p < k ==> es[p].slot in SlotMap(es, k) && SlotMap(es, k)[es[p].slot] == p
    ensures forall x :: x in SlotMap(es, k) ==> SlotMap(es, k)[x] < k && es[SlotMap(es, k)[x]].slot == x
  {
    if k > 0 {
      SlotMapAt(es, k - 1);
    }
  }

  lemma {:induction false} IdMapAt(es: seq<Entry>, k: nat)
    requires k <= |es| && forall p, q :: 0 <= p < q < |es| ==> es[p].id != es[q].id
    ensures forall p :: 0 <= p < k ==> es[p].id in IdMap(es, k) && IdMap(es, k)[es[p].id] == p
    ensures forall id :: id in IdMap(es, k) ==> 0 <= IdMap(es, k)[id] < k && es[IdMap(es, k)[id]].id == id
  {
    if k > 0 {
      IdMapAt(es, k - 1);
    }
  }

  /** The slot of every written entry is live at the entry's cumulative offset... */
  lemma {:induction false} WrittenAt(es: seq<Entry>, at: map<nat, nat>, k: nat, p: nat)
    requires p < k <= |es| && LengthBefore(es, |es|) <= MAX_DATA
    requires forall q :: 0 <= q < |es| ==> es[q].slot in at && at[es[q].slot] == q
    ensures LengthBefore(es, p) <= MAX_DATA
    ensures WrittenSlots(es, k)[es[p].slot] == Slot(LengthBefore(es, p), 0, true)
  {
    LengthBeforeMonotone(es, p, |es|);
    if p < k - 1 {
      WrittenAt(es, at, k - 1, p);
      assert es[p].slot != es[k - 1].slot;
    }
  }

  /** ...and every other slot is dead. */
  lemma {:induction false} UnwrittenAt(es: seq<Entry>, k: nat, x: nat)
    requires k <= |es| && LengthBefore(es, |es|) <= MAX_DATA && x < SlotCountFor(es)
    requires forall q :: 0 <= q < k ==> es[q].slot != x
    ensures WrittenSlots(es, k)[x] == Slot(0, 0, false)
  {
    if k > 0 {
      UnwrittenAt(es, k - 1, x);
    }
  }

  lemma {:induction false} LiveWritten(es: seq<Entry>, at: map<nat, nat>, k: nat)
    requires k <= |es| && LengthBefore(es, |es|) <= MAX_DATA
    requires forall q :: 0 <= q < |es| ==> es[q].slot in at && at[es[q].slot] == q
    ensures LiveSlots(WrittenSlots(es, k)) == k
  {
    if k == 0 {
      NoneLive(WrittenSlots(es, 0));
    } else {
      LiveWritten(es, at, k - 1);
      LengthBeforeMonotone(es, k - 1, |es|);
      forall q | 0 <= q < k - 1
        ensures es[q].slot != es[k - 1].slot
      {
        assert at[es[q].slot] == q;
      }
      UnwrittenAt(es, k - 1, es[k - 1].slot);
      LiveSlotsUpdate(WrittenSlots(es, k - 1), es[k - 1].slot, Slot(LengthBefore(es, k - 1), 0, true));
    }
  }

  lemma {:induction false} NoneLive(slots: seq<Slot>)
    requires forall i :: 0 <= i < |slots| ==> !slots[i].alive
    ensures LiveSlots(slots) == 0
  {
    if slots != [] {
      NoneLive(slots[..|slots| - 1]);
    }
  }

  lemma {:induction false} CountBySlots(es: seq<Entry>, data: seq<byte>)
    requires Writable(es, data)
    ensures |es| <= SlotCountFor(es) <= MAX_OFFSET
  {
    MapsAt(es, data, |es|);
    LiveWritten(es, SlotMap(es, |es|), |es|);
    LiveSlotsBound(WrittenSlots(es, |es|));
    MaxSlotAttained(es);
  }

  lemma {:induction false} MaxSlotAttained(es: seq<Entry>)
    ensures es != [] ==> exists p :: 0 <= p < |es| && es[p].slot == MaxSlot(es)
  {
    if |es| > 1 {
      MaxSlotAttained(es[..|es| - 1]);
      if es[|es| - 1].slot <= MaxSlot(es[..|es| - 1]) {
        var p :| 0 <= p < |es| - 1 && es[..|es| - 1][p].slot == MaxSlot(es[..|es| - 1]);
        assert es[p].slot == MaxSlot(es);
      } else {
        assert es[|es| - 1].slot == MaxSlot(es);
      }
    } else if |es| == 1 {
      assert es[0].slot == MaxSlot(es);
    }
  }

  lemma {:induction false} WrittenEntries(es: seq<Entry>, data: seq<byte>)
    requires Writable(es, data)
    ensures forall p :: 0 <= p < |es| ==>
      && WrittenSlots(es, |es|)[es[p].slot].alive
      && WrittenSlots(es, |es|)[es[p].slot].offsetOrNext == LengthBefore(es, p)
    ensures forall x :: 0 <= x < SlotCountFor(es) && WrittenSlots(es, |es|)[x].alive ==> x in SlotMap(es, |es|)
  {
    MapsAt(es, data, |es|);
    var slots, at := WrittenSlots(es, |es|), SlotMap(es, |es|);
    forall p | 0 <= p < |es|
      ensures slots[es[p].slot].alive && slots[es[p].slot].offsetOrNext == LengthBefore(es, p)
    {
      WrittenAt(es, at, |es|, p);
    }
    forall x | 0 <= x < |slots| && slots[x].alive
      ensures x in at
    {
      if x !in at {
        UnwrittenAt(es, |es|, x);
      }
    }
  }

  lemma {:induction false} WrittenTable(es: seq<Entry>, data: seq<byte>)
    requires Writable(es, data)
    ensures |es| <= MAX_OFFSET && TableOk(Written(es, data).table)
  {
    CountBySlots(es, data);
    MapsAt(es, data, |es|);
    LiveWritten(es, SlotMap(es, |es|), |es|);
    assert Linked(Written(es, data).table, []);
  }

  predicate Names(es: seq<Entry>, x: nat) {
    exists p :: 0 <= p < |es| && es[p].slot == x
  }

  /** The slots below the highest one that no entry names. */
  function Unnamed(es: seq<Entry>): set<nat> {
    set x: nat | x < SlotCountFor(es) && !Names(es, x)
  }

  /** All 65536 slots are laid out exactly when the last of them is named. */
  lemma {:induction false} HighestNamed(es: seq<Entry>, data: seq<byte>)
    requires Writable(es, data)
    ensures SlotCountFor(es) == MAX_OFFSET <==> Names(es, MAX_OFFSET - 1)
  {
    CountBySlots(es, data);
    MaxSlotAttained(es);
    hide LengthBefore;
  }

  /** A write leaks exactly the slots it leaves unnamed: they are dead, and its free list is empty. */
  lemma {:induction false} WrittenLeaks(es: seq<Entry>, data: seq<byte>)
    requires Writable(es, data)
    ensures |es| <= MAX_OFFSET && Leaked(Written(es, data).table) == Unnamed(es)
    ensures |es| + |Unnamed(es)| == SlotCountFor(es)
  {
    WrittenTable(es, data);
    var t := Written(es, data).table;
    assert Linked(t, []);
    LeakedIs(t, []);
    SlotsAddUp(t, []);
    WrittenEntries(es, data);
    forall x: nat | x in Unnamed(es)
      ensures x in Leaked(t)
    {
      UnwrittenAt(es, |es|, x);
    }
    hide TableOk, WrittenSlots, MaxSlot, LengthBefore;
    forall x: nat | x in Leaked(t)
      ensures x in Unnamed(es)
    {
    }
    assert Leaked(t) == Unnamed(es);
  }

  lemma {:induction false} WrittenTableOk(es: seq<Entry>, data: seq<byte>)
    requires Writable(es, data)
    ensures |es| <= MAX_OFFSET && SlotsOk(Written(es, data))
    ensures forall p {:trigger EntryRanges(Written(es, data))[p]} :: 0 <= p < |es| ==>
      EntryRanges(Written(es, data))[p] == Range(LengthBefore(es, p), es[p].length)
  {
    WrittenTable(es, data);
    MapsAt(es, data, |es|);
    WrittenEntries(es, data);
    hide TableOk, WrittenSlots, SlotMap, IdMap, MaxSlot, LengthBefore;
    var w := Written(es, data);
    assert SlotsInRange(w);
    AssembleSlots(w);
  }

  lemma {:induction false} AssembleSlots(w: Snap)
    requires TableOk(w.table) && SlotsInRange(w) && w.table.liveCount == |w.entries|
    requires forall p :: 0 <= p < |w.entries| ==> w.table.slots[w.entries[p].slot].alive
    requires forall p :: 0 <= p < |w.entries| ==> w.entries[p].slot in w.slotOf && w.slotOf[w.entries[p].slot] == p
    requires forall x :: x in w.slotOf ==> w.slotOf[x] < |w.entries| && w.entries[w.slotOf[x]].slot == x
    requires forall x :: 0 <= x < |w.table.slots| && w.table.slots[x].alive ==> x in w.slotOf
    ensures SlotsOk(w)
  {
    hide TableOk;
  }

  lemma {:induction false} WrittenSpace(es: seq<Entry>, data: seq<byte>)
    requires Writable(es, data)
    ensures |es| <= MAX_OFFSET && SlotsInRange(Written(es, data)) && SpaceOk(Written(es, data))
    ensures |data| == LengthBefore(es, |es|) ==> Tiled(Written(es, data)) && Packed(Written(es, data))
  {
    WrittenTableOk(es, data);
    var w := Written(es, data);
    var rs := EntryRanges(w);
    assert rs[..|rs|] == rs;
    forall x: nat
      ensures Coverage(w, x) == if x < LengthBefore(es, |es|) then 1 else 0
    {
      PackedCover(es, rs, |rs|, x);
    }
    forall p | 0 <= p < |rs|
      ensures rs[p].offset + rs[p].length <= |data|
    {
      LengthBeforeMonotone(es, p + 1, |es|);
    }
  }

  function PackedRange(es: seq<Entry>, p: nat, n: nat): (r: Range)
    requires p < |es| && LengthBefore(es, |es|) <= n
    ensures r.offset + r.length <= n
  {
    LengthBeforeMonotone(es, p + 1, |es|);
    Range(LengthBefore(es, p), es[p].length)
  }

  function PackedRanges(es: seq<Entry>, n: nat): (rs: seq<Range>)
    requires LengthBefore(es, |es|) <= n
    ensures |rs| == |es| && Fits(rs, n)
    ensures forall p :: 0 <= p < |es| ==> rs[p] == PackedRange(es, p, n)
  {
    seq(|es|, p requires 0 <= p < |es| => PackedRange(es, p, n))
  }

  /** The first k ids, each with the bytes of its entry's range. */
  function ById(es: seq<Entry>, rs: seq<Range>, data: seq<byte>, k: nat): map<Word, seq<byte>>
    requires k <= |es| == |rs| && Fits(rs, |data|)
  {
    if k == 0 then map[] else ById(es, rs, data, k - 1)[es[k - 1].id := Slice(data, rs[k - 1])]
  }

  lemma {:induction false} IdMapRange(es: seq<Entry>, k: nat)
    requires k <= |es|
    ensures forall id :: id in IdMap(es, k) ==> 0 <= IdMap(es, k)[id] < k
  {
    if k > 0 {
      IdMapRange(es, k - 1);
    }
  }

  lemma {:induction false} LookupIsById(es: seq<Entry>, rs: seq<Range>, data: seq<byte>, k: nat)
    requires k <= |es| == |rs| && Points(IdMap(es, k), rs, |data|)
    ensures Lookup(IdMap(es, k), rs, data) == ById(es, rs, data, k)
  {
    if k > 0 {
      IdMapRange(es, k - 1);
      LookupIsById(es, rs, data, k - 1);
      LookupExtended(IdMap(es, k - 1), rs, data, es[k - 1].id, k - 1);
    }
  }

  lemma {:induction false} LookupExtended(index: map<Word, int>, rs: seq<Range>, data: seq<byte>, id: Word, p: nat)
    requires Points(index, rs, |data|) && p < |rs|
    ensures Points(index[id := p], rs, |data|)
    ensures Lookup(index[id := p], rs, data) == Lookup(index, rs, data)[id := Slice(data, rs[p])]
  {
  }

  lemma {:induction false} WrittenSound(es: seq<Entry>, data: seq<byte>)
    requires Writable(es, data)
    ensures |es| <= MAX_OFFSET
    ensures
      var w := Written(es, data);
      && Sound(w)
      && Contents(w) == ById(es, PackedRanges(es, |data|), data, |es|)
      && (|data| == LengthBefore(es, |es|) ==> Tiled(w) && Packed(w))
  {
    WrittenTableOk(es, data);
    MapsAt(es, data, |es|);
    WrittenSpace(es, data);
    var w := Written(es, data);
    hide SlotsOk, Cover, SlotMap, IdMap, WrittenSlots, MaxSlot, LengthBefore, Tiled, Packed;
    assert IndexOk(w);
    assert EntryRanges(w) == PackedRanges(es, |data|);
    LookupIsById(es, EntryRanges(w), data, |es|);
  }

  /**
   A write of well-formed content is sound, maps each id to the bytes at its cumulative offset, and leaks exactly
   the slots below the highest one that it does not name.
  */
  lemma {:induction false} WrittenSpec(es: seq<Entry>, data: seq<byte>)
    requires Writable(es, data)
    ensures |es| <= MAX_OFFSET
    ensures
      var w := Written(es, data);
      && Sound(w)
      && Contents(w) == ById(es, PackedRanges(es, |data|), data, |es|)
      && (|data| == LengthBefore(es, |es|) ==> Tiled(w) && Packed(w))
      && Leaked(w.table) == Unnamed(es) && |es| + |Unnamed(es)| == SlotCountFor(es)
  {
    hide *;
    WrittenSound(es, data);
    WrittenLeaks(es, data);
  }

  lemma {:induction false} SumOfLengths(es: seq<Entry>, p: nat)
    requires p < |es|
    ensures LengthBefore(es, 0) == 0 && LengthBefore(es, p + 1) == LengthBefore(es, p) + es[p].length
    ensures LengthBefore(es, p + 1) <= LengthBefore(es, |es|)
  {
    LengthBeforeMonotone(es, p + 1, |es|);
  }

  /** Entry by entry: each id has the bytes that start where the lengths of the entries before it add up to. */
  lemma {:induction false} WrittenBytes(es: seq<Entry>, data: seq<byte>, k: nat, p: nat)
    requires Writable(es, data) && p < k <= |es|
    ensures LengthBefore(es, p) + es[p].length <= |data|
    ensures es[p].id in ById(es, PackedRanges(es, |data|), data, k)
    ensures ById(es, PackedRanges(es, |data|), data, k)[es[p].id] ==
            data[LengthBefore(es, p)..LengthBefore(es, p) + es[p].length]
  {
    SumOfLengths(es, p);
    hide LengthBefore;
    if p < k - 1 {
      WrittenBytes(es, data, k - 1, p);
    }
  }

  lemma {:induction false} WrittenIds(es: seq<Entry>, data: seq<byte>, k: nat)
    requires Writable(es, data) && k <= |es|
    ensures forall id :: id in ById(es, PackedRanges(es, |data|), data, k) <==> exists p :: 0 <= p < k && es[p].id == id
  {
    hide LengthBefore, Slice;
    if k > 0 {
      WrittenIds(es, data, k - 1);
    }
  }

  // ---------- the capacity check of a write ----------

  /** The signed length in unsigned 64 bits, as the program adds it up. */
  function SignExtended(length: U32): Word {
    Signed(length) % TWO_64
  }

  lemma {:induction false} SignExtendedIs(length: U32)
    ensures SignExtended(length) == if length < 0x8000_0000 then length else TWO_64 - TWO_32 + length
  {
  }

  function WriteTotal(es: seq<Entry>, k: nat): Word
    requires k <= |es|
  {
    if k == 0 then 0 else (WriteTotal(es, k - 1) + SignExtended(es[k - 1].length)) % TWO_64
  }

  ghost predicate ShortLengths(es: seq<Entry>, k: nat)
    requires k <= |es|
  {
    forall p :: 0 <= p < k ==> es[p].length < 0x8000_0000
  }

  lemma {:induction false} WriteTotalIs(es: seq<Entry>, k: nat)
    requires k <= |es| && LengthBefore(es, k) <= MAX_DATA
    ensures ShortLengths(es, k) ==> WriteTotal(es, k) == LengthBefore(es, k)
    ensures !ShortLengths(es, k) ==>
      LengthBefore(es, k) >= 0x8000_0000 && WriteTotal(es, k) == LengthBefore(es, k) + TWO_64 - TWO_32
  {
    hide SignExtended;
    if k > 0 {
      WriteTotalIs(es, k - 1);
      SignExtendedIs(es[k - 1].length);
      if ShortLengths(es, k - 1) && es[k - 1].length < 0x8000_0000 {
        assert ShortLengths(es, k);
      }
    }
  }

  /** The check passes exactly when no single entry is 2 GiB or longer: such a length turns negative in the sum. */
  lemma {:induction false} CapacityCheck(es: seq<Entry>, data: seq<byte>)
    requires Writable(es, data)
    ensures WriteTotal(es, |es|) <= MAX_DATA <==> ShortLengths(es, |es|)
  {
    WriteTotalIs(es, |es|);
  }

  // ---------- export format ----------

  datatype TransferError = TooShort | BadMagic | Truncated | ContentExceedsCapacity

  const MAGIC: seq<byte> := [0x41, 0x4E, 0x52, 0x31]
  const PREAMBLE := 12

  function HandleBytes(hs: seq<Handle>): (bs: seq<byte>)
    ensures |bs| == 8 * |hs|
  {
    if hs == [] then [] else HandleBytes(hs[..|hs| - 1]) + Encode(hs[|hs| - 1], 8)
  }

  function ExportBytes(hs: seq<Handle>, data: seq<byte>): seq<byte> {
    MAGIC + Encode(|hs| % TWO_32, 4) + Encode(|data| % TWO_32, 4) + HandleBytes(hs) + data
  }

  function HandlesIn(bs: seq<byte>, n: nat): (hs: seq<Handle>)
    requires 8 * n <= |bs|
    ensures |hs| == n
  {
    if n == 0 then []
    else
      Decode64Bound(bs[8 * (n - 1)..8 * n]);
      HandlesIn(bs, n - 1) + [Decode(bs[8 * (n - 1)..8 * n])]
  }

  /** Reads an export back; anything after the declared length is ignored. */
  function Parse(bs: seq<byte>): Result<(seq<Handle>, seq<byte>), TransferError> {
    if |bs| < PREAMBLE then Err(TooShort)
    else if bs[..4] != MAGIC then Err(BadMagic)
    else
      var n, len := Decode(bs[4..8]), Decode(bs[8..12]);
      if |bs| < PREAMBLE + 8 * n + len then Err(Truncated)
      else Ok((HandlesIn(bs[PREAMBLE..], n), bs[PREAMBLE + 8 * n..PREAMBLE + 8 * n + len]))
  }

  lemma {:induction false} HandlesRoundTrip(hs: seq<Handle>, rest: seq<byte>)
    ensures HandlesIn(HandleBytes(hs) + rest, |hs|) == hs
  {
    if hs != [] {
      var n, h := |hs| - 1, hs[|hs| - 1];
      var bs := HandleBytes(hs) + rest;
      assert bs == HandleBytes(hs[..n]) + (Encode(h, 8) + rest);
      HandlesRoundTrip(hs[..n], Encode(h, 8) + rest);
      assert bs[8 * n..8 * (n + 1)] == Encode(h, 8);
      Word64(h);
    }
  }

  /** Parsing an export gives back the handles and the data, for every content within 32-bit counts. */
  lemma {:induction false} ParseExport(hs: seq<Handle>, data: seq<byte>)
    requires |hs| < TWO_32 && |data| < TWO_32
    ensures Parse(ExportBytes(hs, data)) == Ok((hs, data))
  {
    hide Encode, Decode, HandleBytes, HandlesIn;
    Word32(|hs|);
    Word32(|data|);
    var head, body := MAGIC + Encode(|hs|, 4) + Encode(|data|, 4), HandleBytes(hs) + data;
    assert ExportBytes(hs, data) == head + body;
    HeadFields(Encode(|hs|, 4), Encode(|data|, 4));
    HeadSlices(head, body);
    HandlesRoundTrip(hs, data);
    BodySlice(head, HandleBytes(hs), data);
  }

  lemma {:induction false} HeadFields(a: seq<byte>, b: seq<byte>)
    requires |a| == |b| == 4
    ensures (MAGIC + a + b)[..4] == MAGIC && (MAGIC + a + b)[4..8] == a && (MAGIC + a + b)[8..12] == b
  {
  }

  lemma {:induction false} BodySlice(head: seq<byte>, hs: seq<byte>, data: seq<byte>)
    ensures (head + (hs + data))[|head| + |hs|..|head| + |hs| + |data|] == data
  {
  }

  lemma {:induction false} HeadSlices(head: seq<byte>, body: seq<byte>)
    requires |head| == PREAMBLE
    ensures (head + body)[..4] == head[..4] && (head + body)[4..8] == head[4..8] && (head + body)[8..12] == head[8..12]
    ensures (head + body)[PREAMBLE..] == body
  {
  }

  // ---------- the bytes of an export, one by one ----------

  /**
   The layout: the letters ANR1, the number of entries and the length of the data in four bytes each, every handle
   in eight, and the data; numbers lowest byte first.
  */
  ghost predicate LaidOut(bs: seq<byte>, hs: seq<Handle>, data: seq<byte>) {
    && |bs| == 12 + 8 * |hs| + |data|
    && bs[0] == 0x41 && bs[1] == 0x4E && bs[2] == 0x52 && bs[3] == 0x31
    && Number32(bs, 4) == |hs| && Number32(bs, 8) == |data|
    && (forall i: nat :: i < |hs| ==> Number64(bs, 12 + 8 * i) == hs[i])
    && bs[12 + 8 * |hs|..] == data
  }

  lemma {:induction false} HandleBytesAt(hs: seq<Handle>, i: nat)
    requires i < |hs|
    ensures HandleBytes(hs)[8 * i..8 * i + 8] == Encode(hs[i], 8)
  {
    var n := |hs| - 1;
    if i < n {
      HandleBytesAt(hs[..n], i);
      assert HandleBytes(hs)[8 * i..8 * i + 8] == HandleBytes(hs[..n])[8 * i..8 * i + 8];
    } else {
      assert HandleBytes(hs)[8 * i..8 * i + 8] == Encode(hs[i], 8);
    }
  }

  lemma {:induction false} ExportIsLaidOut(hs: seq<Handle>, data: seq<byte>)
    requires |hs| < TWO_32 && |data| < TWO_32
    ensures LaidOut(ExportBytes(hs, data), hs, data)
  {
    hide Encode, Decode, HandleBytes, Number32, Number64;
    var bs := ExportBytes(hs, data);
    var head, body := MAGIC + Encode(|hs|, 4) + Encode(|data|, 4), HandleBytes(hs) + data;
    assert bs == head + body;
    HeadFields(Encode(|hs|, 4), Encode(|data|, 4));
    HeadSlices(head, body);
    assert bs[0] == bs[..4][0] && bs[1] == bs[..4][1] && bs[2] == bs[..4][2] && bs[3] == bs[..4][3];
    Word32(|hs|);
    Word32(|data|);
    DecodeFour(bs, 4);
    DecodeFour(bs, 8);
    forall i: nat | i < |hs|
      ensures Number64(bs, 12 + 8 * i) == hs[i]
    {
      HandleBytesAt(hs, i);
      DecodeEight(bs, 12 + 8 * i);
      assert bs[12 + 8 * i..12 + 8 * i + 8] == HandleBytes(hs)[8 * i..8 * i + 8];
      Word64(hs[i]);
    }
    assert bs[12 + 8 * |hs|..] == data;
  }

  lemma {:induction false} HandleIn(bs: seq<byte>, n: nat, i: nat)
    requires 8 * n <= |bs| && i < n
    ensures HandlesIn(bs, n)[i] == Number64(bs, 8 * i)
  {
    hide Decode, Number64;
    if i < n - 1 {
      HandleIn(bs, n - 1, i);
    } else {
      DecodeEight(bs, 8 * i);
    }
  }

  /**
   What arbitrary bytes are read as. They are too short below twelve, foreign unless they start with the letters ANR1,
   and truncated when they end before the handles and the data they announce; what they hold further is ignored.
  */
  ghost predicate ReadsAs(bs: seq<byte>, r: Result<(seq<Handle>, seq<byte>), TransferError>) {
    if |bs| < 12 then r == Err(TooShort)
    else if bs[0] != 0x41 || bs[1] != 0x4E || bs[2] != 0x52 || bs[3] != 0x31 then r == Err(BadMagic)
    else if |bs| < 12 + 8 * Number32(bs, 4) + Number32(bs, 8) then r == Err(Truncated)
    else
      && r.Ok?
      && var (hs, data) := r.value;
         && |hs| == Number32(bs, 4)
         && (forall i: nat :: i < |hs| ==> hs[i] == Number64(bs, 12 + 8 * i))
         && data == bs[12 + 8 * |hs|..12 + 8 * |hs| + Number32(bs, 8)]
  }

  lemma {:induction false} ParseReads(bs: seq<byte>)
    ensures ReadsAs(bs, Parse(bs))
  {
    hide Decode, Number32, Number64;
    if |bs| >= 12 {
      MagicBytes(bs);
      DecodeFour(bs, 4);
      DecodeFour(bs, 8);
      if Parse(bs).Ok? {
        var n := Number32(bs, 4);
        forall i: nat | i < n
          ensures Parse(bs).value.0[i] == Number64(bs, 12 + 8 * i)
        {
          HandleIn(bs[12..], n, i);
          NumberBehind(bs, 12, 8 * i);
        }
      }
    }
  }

  lemma {:induction false} MagicBytes(bs: seq<byte>)
    requires |bs| >= 12
    ensures bs[..4] == MAGIC <==> bs[0] == 0x41 && bs[1] == 0x4E && bs[2] == 0x52 && bs[3] == 0x31
  {
    var s := bs[..4];
    assert s == [bs[0], bs[1], bs[2], bs[3]];
  }

  lemma {:induction false} NumberBehind(bs: seq<byte>, from: nat, at: nat)
    requires from + at + 8 <= |bs|
    ensures Number64(bs[from..], at) == Number64(bs, from + at)
  {
  }

  // ---------- when an import restores what was exported ----------

  /** Every entry that has bytes keeps them at the sum of the lengths before it. */
  ghost predicate InEntryOrder(v: Snap)
    requires SlotsInRange(v)
  {
    forall p {:trigger EntryRanges(v)[p]} :: 0 <= p < |v.entries| && v.entries[p].length > 0 ==>
      EntryRanges(v)[p].offset == LengthBefore(v.entries, p)
  }

  /** Every entry's bytes equal those at the sum of the lengths before it. */
  ghost predicate SameBytes(es: seq<Entry>, rs: seq<Range>, data: seq<byte>)
    requires |es| == |rs| && Fits(rs, |data|) && LengthBefore(es, |es|) <= |data|
  {
    forall p :: 0 <= p < |es| ==> Slice(data, rs[p]) == Slice(data, PackedRange(es, p, |data|))
  }

  lemma {:induction false} InOrderSame(es: seq<Entry>, rs: seq<Range>, data: seq<byte>)
    requires |es| == |rs| && Fits(rs, |data|) && LengthBefore(es, |es|) <= |data|
    requires forall p :: 0 <= p < |es| ==> rs[p].length == es[p].length
    requires forall p {:trigger rs[p]} :: 0 <= p < |es| && es[p].length > 0 ==> rs[p].offset == LengthBefore(es, p)
    ensures SameBytes(es, rs, data)
  {
  }

  /** One byte that differs from all others tells the two places of entry p apart. */
  lemma {:induction false} OutOfOrderDiffers(es: seq<Entry>, rs: seq<Range>, data: seq<byte>, p: nat)
    requires |es| == |rs| && Fits(rs, |data|) && LengthBefore(es, |es|) <= |data|
    requires p < |es| && rs[p].length == es[p].length > 0 && rs[p].offset != LengthBefore(es, p)
    requires forall x :: 0 <= x < |data| ==> (data[x] == 1 <==> x == rs[p].offset)
    ensures !SameBytes(es, rs, data)
  {
    var r := PackedRange(es, p, |data|);
    assert Slice(data, r)[0] == data[r.offset] && Slice(data, rs[p])[0] == data[rs[p].offset];
  }

  lemma {:induction false} SoundIsWritable(v: Snap)
    requires Sound(v)
    ensures Writable(v.entries, v.data) && |v.entries| <= MAX_OFFSET
  {
    Conservation(v);
    hide TableOk, Cover;
    forall p, q | 0 <= p < q < |v.entries|
      ensures v.entries[p].slot != v.entries[q].slot && v.entries[p].id != v.entries[q].id
    {
      assert v.slotOf[v.entries[p].slot] == p && v.slotOf[v.entries[q].slot] == q;
      assert v.index[v.entries[p].id] == p && v.index[v.entries[q].id] == q;
    }
    WrittenSpec(v.entries, v.data);
  }

  lemma {:induction false} LookupAgrees(
    index: map<Word, int>, rs: seq<Range>, rs': seq<Range>, data: seq<byte>, ids: seq<Word>)
    requires Points(index, rs, |data|) && Points(index, rs', |data|) && |rs| == |rs'| == |ids|
    requires forall p :: 0 <= p < |ids| ==> ids[p] in index && index[ids[p]] == p
    ensures Lookup(index, rs, data) == Lookup(index, rs', data) <==>
      forall p :: 0 <= p < |rs| ==> Slice(data, rs[p]) == Slice(data, rs'[p])
  {
    var c, d := Lookup(index, rs, data), Lookup(index, rs', data);
    if c == d {
      forall p | 0 <= p < |rs|
        ensures Slice(data, rs[p]) == Slice(data, rs'[p])
      {
        assert c[ids[p]] == d[ids[p]];
      }
    }
  }

  /** An import restores the exported contents exactly when every entry's bytes equal those at its cumulative offset. */
  lemma {:induction false} RestoredExactly(v: Snap)
    requires Sound(v)
    ensures Writable(v.entries, v.data) && |v.entries| <= MAX_OFFSET && Sound(Written(v.entries, v.data))
    ensures Contents(Written(v.entries, v.data)) == Contents(v) <==> SameBytes(v.entries, EntryRanges(v), v.data)
  {
    SoundIsWritable(v);
    WrittenSpec(v.entries, v.data);
    WrittenTableOk(v.entries, v.data);
    SameIndex(v);
    var w := Written(v.entries, v.data);
    hide Sound, IndexOk, SlotsOk, SpaceOk, Written, Writable, Tiled, Packed, Cover, SlotMap, IdMap, LengthBefore,
      SameBytes;
    RestoredRanges(v, w);
  }

  lemma {:induction false} RestoredRanges(v: Snap, w: Snap)
    requires Sound(v) && Sound(w) && w.index == v.index && w.data == v.data && w.entries == v.entries
    requires LengthBefore(v.entries, |v.entries|) <= |v.data|
    requires forall p {:trigger EntryRanges(w)[p]} :: 0 <= p < |v.entries| ==>
      EntryRanges(w)[p] == Range(LengthBefore(v.entries, p), v.entries[p].length)
    ensures Contents(w) == Contents(v) <==> SameBytes(v.entries, EntryRanges(v), v.data)
  {
    hide *;
    RangesPoint(v);
    RangesPoint(w);
    var ids := seq(|v.entries|, p requires 0 <= p < |v.entries| => v.entries[p].id);
    LookupAgrees(v.index, EntryRanges(w), EntryRanges(v), v.data, ids);
    PackedAre(v.entries, EntryRanges(w), EntryRanges(v), v.data);
  }

  lemma {:induction false} RangesPoint(v: Snap)
    requires Sound(v)
    ensures SlotsInRange(v) && |EntryRanges(v)| == |v.entries| && Points(v.index, EntryRanges(v), |v.data|)
    ensures Fits(EntryRanges(v), |v.data|)
    ensures Contents(v) == Lookup(v.index, EntryRanges(v), v.data)
    ensures forall p :: 0 <= p < |v.entries| ==> v.entries[p].id in v.index && v.index[v.entries[p].id] == p
  {
  }

  lemma {:induction false} PackedAre(es: seq<Entry>, packed: seq<Range>, rs: seq<Range>, data: seq<byte>)
    requires |es| == |rs| == |packed| && Fits(rs, |data|) && Fits(packed, |data|) && LengthBefore(es, |es|) <= |data|
    requires forall p {:trigger packed[p]} :: 0 <= p < |es| ==> packed[p] == Range(LengthBefore(es, p), es[p].length)
    ensures SameBytes(es, rs, data) <==> forall p :: 0 <= p < |rs| ==> Slice(data, packed[p]) == Slice(data, rs[p])
  {
    assert forall p :: 0 <= p < |es| ==> PackedRange(es, p, |data|) == packed[p];
  }

  lemma {:induction false} SameIndex(v: Snap)
    requires IndexOk(v) && Writable(v.entries, v.data)
    ensures IdMap(v.entries, |v.entries|) == v.index
  {
    IdMapAt(v.entries, |v.entries|);
    hide IdMap;
    var m := IdMap(v.entries, |v.entries|);
    forall id
      ensures id in m <==> id in v.index
    {
      if id in v.index {
        assert v.entries[v.index[id]].id == id;
      }
      if id in m {
        assert v.entries[m[id]].id == id;
      }
    }
  }

  ghost predicate Restores(v: Snap) {
    && Sound(v)
    && LengthBefore(v.entries, |v.entries|) <= MAX_DATA && |v.entries| < TWO_32
    && Sound(Written(v.entries, v.data))
    && Contents(Written(v.entries, v.data)) == Contents(v)
  }

  /** Export then import restores the contents, whatever the bytes are, exactly when the entries lie in entry order. */
  lemma {:induction false} RestoresExactlyInOrder(v: Snap)
    requires Sound(v)
    ensures SlotsInRange(v)
    ensures InEntryOrder(v) <==> forall data: seq<byte> :: |data| == |v.data| ==> Restores(v.(data := data))
  {
    SoundSlots(v);
    hide Sound, Restores, Writable, EntryRanges;
    forall data: seq<byte> | |data| == |v.data|
      ensures InEntryOrder(v) ==> Restores(v.(data := data))
    {
      SameLengthSound(v, data);
      if InEntryOrder(v) {
        InOrderRestores(v.(data := data));
      }
    }
    if !InEntryOrder(v) {
      var p :| 0 <= p < |v.entries| && v.entries[p].length > 0 &&
        EntryRanges(v)[p].offset != LengthBefore(v.entries, p);
      var o := EntryRanges(v)[p].offset;
      var data := seq(|v.data|, x => if x == o then 1 else 0);
      SameLengthSound(v, data);
      OutOfOrderLoses(v.(data := data), p);
    }
  }

  lemma {:induction false} SameLengthSound(v: Snap, data: seq<byte>)
    requires Sound(v) && |data| == |v.data|
    ensures Sound(v.(data := data)) && SlotsInRange(v) && EntryRanges(v.(data := data)) == EntryRanges(v)
  {
    var w := v.(data := data);
    assert EntryRanges(w) == EntryRanges(v);
    hide TableOk, Cover;
    assert SlotsOk(w) && IndexOk(w);
    assert forall x: nat :: Coverage(w, x) == Coverage(v, x);
  }

  lemma {:induction false} InOrderRestores(v: Snap)
    requires Sound(v) && InEntryOrder(v)
    ensures Restores(v)
  {
    hide *;
    RestoredExactly(v);
    WritableBounds(v);
    OrderOffsets(v);
    InOrderSame(v.entries, EntryRanges(v), v.data);
    RestoresMeans(v);
  }

  lemma {:induction false} WritableBounds(v: Snap)
    requires Sound(v)
    ensures SlotsInRange(v) && Fits(EntryRanges(v), |v.data|) && |EntryRanges(v)| == |v.entries| < TWO_32
    ensures LengthBefore(v.entries, |v.entries|) <= |v.data| <= MAX_DATA
    ensures forall p :: 0 <= p < |v.entries| ==> EntryRanges(v)[p].length == v.entries[p].length
  {
    SoundIsWritable(v);
  }

  lemma {:induction false} OrderOffsets(v: Snap)
    requires SlotsInRange(v) && InEntryOrder(v)
    ensures forall p {:trigger EntryRanges(v)[p]} :: 0 <= p < |v.entries| && v.entries[p].length > 0 ==>
      EntryRanges(v)[p].offset == LengthBefore(v.entries, p)
  {
  }

  lemma {:induction false} RestoresMeans(v: Snap)
    requires Sound(v) && LengthBefore(v.entries, |v.entries|) <= MAX_DATA && |v.entries| < TWO_32
    requires Sound(Written(v.entries, v.data))
    ensures Restores(v) <==> Contents(Written(v.entries, v.data)) == Contents(v)
  {
    hide Sound, Contents, Written, LengthBefore;
  }

  lemma {:induction false} OutOfOrderLoses(v: Snap, p: nat)
    requires Sound(v) && p < |v.entries| && v.entries[p].length > 0
    requires EntryRanges(v)[p].offset != LengthBefore(v.entries, p)
    requires forall x :: 0 <= x < |v.data| ==> (v.data[x] == 1 <==> x == EntryRanges(v)[p].offset)
    ensures !Restores(v)
  {
    hide *;
    RestoredExactly(v);
    WritableBounds(v);
    OutOfOrderDiffers(v.entries, EntryRanges(v), v.data, p);
    RestoresMeans(v);
  }
}
