/**
 Defragmentation: the live byte ranges are copied, in entry order, to the front of a new buffer and
 the holes disappear. The denoted map, the slot indices and the generations stay.
*/
module Compaction {
  import opened Wrappers
  import opened Handles
  import opened LittleEndian
  import opened SlotHeader
  import opened FreeList
  import opened Snapshots

  // ---------- sums of lengths ----------

  /** Total length of the first k entries: where entry k starts when bytes are laid out in order. */
  function LengthBefore(es: seq<Entry>, k: nat): nat
    requires k <= |es|
  {
    if k == 0 then 0 else LengthBefore(es, k - 1) + es[k - 1].length
  }

  lemma {:induction false} LengthBeforeMonotone(es: seq<Entry>, j: nat, k: nat)
    requires j <= k <= |es|
    ensures LengthBefore(es, j) <= LengthBefore(es, k)
  {
    if j < k {
      LengthBeforeMonotone(es, j, k - 1);
    }
  }

  function SumLen(rs: seq<Range>): nat {
    if rs == [] then 0 else SumLen(rs[..|rs| - 1]) + rs[|rs| - 1].length
  }

  /** Coverage summed over the first n bytes. */
  function CoverSum(rs: seq<Range>, n: nat): nat {
    if n == 0 then 0 else CoverSum(rs, n - 1) + Cover(rs, n - 1)
  }

  function HitSum(r: Range, n: nat): nat {
    if n == 0 then 0 else HitSum(r, n - 1) + Hits(r, n - 1)
  }

  lemma {:induction false} HitSumIs(r: Range, n: nat)
    ensures HitSum(r, n) ==
      if n <= r.offset then 0 else if n <= r.offset + r.length then n - r.offset else r.length
  {
    if n > 0 {
      HitSumIs(r, n - 1);
    }
  }

  lemma {:induction false} CoverSumLast(rs: seq<Range>, n: nat)
    requires rs != []
    ensures CoverSum(rs, n) == CoverSum(rs[..|rs| - 1], n) + HitSum(rs[|rs| - 1], n)
  {
    if n > 0 {
      CoverSumLast(rs, n - 1);
    }
  }

  /** Double counting: within n bytes, coverage adds up to the lengths of the ranges. */
  lemma {:induction false} CoverSumIsLength(rs: seq<Range>, n: nat)
    requires Fits(rs, n)
    ensures CoverSum(rs, n) == SumLen(rs)
  {
    if rs == [] {
      CoverSumEmpty(n);
    } else {
      CoverSumLast(rs, n);
      HitSumIs(rs[|rs| - 1], n);
      CoverSumIsLength(rs[..|rs| - 1], n);
    }
  }

  lemma {:induction false} CoverSumEmpty(n: nat)
    ensures CoverSum([], n) == 0
  {
    if n > 0 {
      CoverSumEmpty(n - 1);
    }
  }

  lemma {:induction false} CoverSumBound(rs: seq<Range>, hs: seq<Range>, n: nat)
    requires forall x: nat :: x < n ==> Cover(rs, x) + Cover(hs, x) <= 1
    ensures CoverSum(rs, n) + CoverSum(hs, n) <= n
    ensures (forall x: nat :: x < n ==> Cover(rs, x) + Cover(hs, x) == 1) ==> CoverSum(rs, n) + CoverSum(hs, n) == n
  {
    if n > 0 {
      CoverSumBound(rs, hs, n - 1);
    }
  }

  lemma {:induction false} LengthBeforeIsSum(v: Snap, k: nat)
    requires SlotsInRange(v) && k <= |v.entries|
    ensures LengthBefore(v.entries, k) == SumLen(EntryRanges(v)[..k])
  {
    if k > 0 {
      LengthBeforeIsSum(v, k - 1);
      assert EntryRanges(v)[..k][..k - 1] == EntryRanges(v)[..k - 1];
    }
  }

  /** Live bytes and hole bytes never exceed the data; when the data is tiled they add up to it exactly. */
  lemma {:induction false} Conservation(v: Snap)
    requires Sound(v)
    ensures LengthBefore(v.entries, |v.entries|) + SumLen(HoleRanges(v.holes)) <= |v.data|
    ensures Tiled(v) ==> LengthBefore(v.entries, |v.entries|) + SumLen(HoleRanges(v.holes)) == |v.data|
  {
    var rs, hs, n := EntryRanges(v), HoleRanges(v.holes), |v.data|;
    LengthBeforeIsSum(v, |v.entries|);
    assert rs[..|v.entries|] == rs;
    CoverSumIsLength(rs, n);
    CoverSumIsLength(hs, n);
    assert forall x: nat :: Coverage(v, x) == Cover(rs, x) + Cover(hs, x);
    CoverSumBound(rs, hs, n);
  }

  // ---------- the defragmented snapshot ----------

  /** The bytes of the first k ranges, one after the other. */
  function Gathered(rs: seq<Range>, data: seq<byte>, k: nat): seq<byte>
    requires Fits(rs, |data|) && k <= |rs|
  {
    if k == 0 then [] else Gathered(rs, data, k - 1) + Slice(data, rs[k - 1])
  }

  /** The slots once the first k entries have been given their new offsets. */
  function Moved(es: seq<Entry>, slots: seq<Slot>, k: nat): (r: seq<Slot>)
    requires k <= |es| && LengthBefore(es, |es|) <= MAX_DATA
    requires forall p :: 0 <= p < |es| ==> es[p].slot < |slots|
    ensures |r| == |slots|
  {
    if k == 0 then slots
    else
      LengthBeforeMonotone(es, k - 1, |es|);
      var r := Moved(es, slots, k - 1);
      var i := es[k - 1].slot;
      r[i := Slot(LengthBefore(es, k - 1), r[i].generation, true)]
  }

  function Defragmented(v: Snap): Snap
    requires SlotsInRange(v) && Fits(EntryRanges(v), |v.data|)
    requires LengthBefore(v.entries, |v.entries|) <= MAX_DATA
  {
    if v.holes == [] then v
    else
      v.(data := Gathered(EntryRanges(v), v.data, |v.entries|),
         table := v.table.(slots := Moved(v.entries, v.table.slots, |v.entries|)),
         holes := [])
  }

  /** Entries lie one after the other from the start of the data, in entry order, and fill it. */
  ghost predicate Packed(v: Snap)
    requires SlotsInRange(v)
  {
    && v.holes == []
    && |v.data| == LengthBefore(v.entries, |v.entries|)
    && forall p {:trigger EntryRanges(v)[p]} :: 0 <= p < |v.entries| ==>
         EntryRanges(v)[p].offset == LengthBefore(v.entries, p)
  }

  lemma {:induction false} GatheredPrefix(rs: seq<Range>, data: seq<byte>, j: nat, k: nat)
    requires Fits(rs, |data|) && j <= k <= |rs|
    ensures Gathered(rs, data, j) <= Gathered(rs, data, k)
  {
    if j < k {
      GatheredPrefix(rs, data, j, k - 1);
    }
  }

  lemma {:induction false} GatheredLength(es: seq<Entry>, rs: seq<Range>, data: seq<byte>, k: nat)
    requires Fits(rs, |data|) && k <= |rs| == |es|
    requires forall p :: 0 <= p < |rs| ==> rs[p].length == es[p].length
    ensures |Gathered(rs, data, k)| == LengthBefore(es, k)
  {
    if k > 0 {
      GatheredLength(es, rs, data, k - 1);
    }
  }

  /** Piece p of the gathered bytes is what range p held. */
  lemma {:induction false} GatheredPiece(es: seq<Entry>, rs: seq<Range>, data: seq<byte>, p: nat)
    requires Fits(rs, |data|) && p < |rs| == |es|
    requires forall q :: 0 <= q < |rs| ==> rs[q].length == es[q].length
    ensures
      var g := Gathered(rs, data, |rs|);
      && LengthBefore(es, p) + es[p].length <= |g|
      && Slice(g, Range(LengthBefore(es, p), es[p].length)) == Slice(data, rs[p])
  {
    var g, h := Gathered(rs, data, |rs|), Gathered(rs, data, p + 1);
    GatheredPrefix(rs, data, p + 1, |rs|);
    GatheredLength(es, rs, data, p);
    assert h == g[..|h|];
    assert h == Gathered(rs, data, p) + Slice(data, rs[p]);
    assert Slice(g, Range(LengthBefore(es, p), es[p].length)) == h[LengthBefore(es, p)..];
  }

  /** Every moved entry's slot holds its new offset... */
  lemma {:induction false} MovedOffset(es: seq<Entry>, slots: seq<Slot>, at: map<nat, nat>, k: nat, p: nat)
    requires p < k <= |es| && LengthBefore(es, |es|) <= MAX_DATA
    requires forall q :: 0 <= q < |es| ==> es[q].slot < |slots| && es[q].slot in at && at[es[q].slot] == q
    ensures Moved(es, slots, k)[es[p].slot].offsetOrNext == LengthBefore(es, p)
  {
    LengthBeforeMonotone(es, k - 1, |es|);
    if p < k - 1 {
      MovedOffset(es, slots, at, k - 1, p);
      assert es[p].slot != es[k - 1].slot;
    }
  }

  /** ...the slots of entries not yet reached hold what they held... */
  lemma {:induction false} NotMovedYet(es: seq<Entry>, slots: seq<Slot>, at: map<nat, nat>, k: nat, p: nat)
    requires k <= p < |es| && LengthBefore(es, |es|) <= MAX_DATA
    requires forall q :: 0 <= q < |es| ==> es[q].slot < |slots| && es[q].slot in at && at[es[q].slot] == q
    ensures Moved(es, slots, k)[es[p].slot] == slots[es[p].slot]
  {
    if k > 0 {
      NotMovedYet(es, slots, at, k - 1, p);
      assert es[p].slot != es[k - 1].slot;
    }
  }

  /** ...and nothing else in the slots changes. */
  lemma {:induction false} MovedFlags(es: seq<Entry>, slots: seq<Slot>, k: nat, i: nat)
    requires k <= |es| && LengthBefore(es, |es|) <= MAX_DATA && i < |slots|
    requires forall q :: 0 <= q < |es| ==> es[q].slot < |slots| && slots[es[q].slot].alive
    ensures
      var m := Moved(es, slots, k)[i];
      && m.generation == slots[i].generation && m.alive == slots[i].alive
      && (!slots[i].alive ==> m == slots[i])
  {
    if k > 0 {
      MovedFlags(es, slots, k - 1, i);
      LengthBeforeMonotone(es, k - 1, |es|);
    }
  }

  lemma {:induction false} LiveSlotsSame(a: seq<Slot>, b: seq<Slot>)
    requires |a| == |b| && forall i :: 0 <= i < |a| ==> a[i].alive == b[i].alive
    ensures LiveSlots(a) == LiveSlots(b)
  {
    if a != [] {
      LiveSlotsSame(a[..|a| - 1], b[..|b| - 1]);
    }
  }

  /** Only offsets of live slots differ: no slot's generation or alive bit, and nothing of a dead slot. */
  ghost predicate OnlyOffsetsDiffer(t: Table, u: Table) {
    && |u.slots| == |t.slots| && u.freeHead == t.freeHead && u.liveCount == t.liveCount
    && forall i :: 0 <= i < |t.slots| ==>
         && u.slots[i].generation == t.slots[i].generation
         && u.slots[i].alive == t.slots[i].alive
         && (!t.slots[i].alive ==> u.slots[i] == t.slots[i])
  }

  lemma {:induction false} SlotsOkKept(v: Snap, w: Snap)
    requires SlotsOk(v) && TableOk(w.table) && OnlyOffsetsDiffer(v.table, w.table)
    requires w.entries == v.entries && w.slotOf == v.slotOf
    ensures SlotsOk(w)
  {
    hide TableOk;
  }

  /** A table that differs from a well-formed one only in the offsets of live slots is well formed. */
  lemma {:induction false} OffsetsOnly(t: Table, u: Table)
    requires TableOk(t) && OnlyOffsetsDiffer(t, u)
    ensures TableOk(u) && Leaked(u) == Leaked(t)
  {
    LiveSlotsSame(t.slots, u.slots);
    var c :| Linked(t, c);
    ChainInRange(t.slots, t.freeHead, c);
    ChainFrame(t.slots, u.slots, t.freeHead, c);
    assert Linked(u, c);
    LeakedIs(t, c);
    LeakedIs(u, c);
  }

  /** Consecutive ranges from zero cover each byte below their total once. */
  lemma {:induction false} PackedCover(es: seq<Entry>, rs: seq<Range>, k: nat, x: nat)
    requires |rs| == |es| && k <= |rs|
    requires forall p {:trigger rs[p]} :: 0 <= p < |rs| ==> rs[p] == Range(LengthBefore(es, p), es[p].length)
    ensures Cover(rs[..k], x) == if x < LengthBefore(es, k) then 1 else 0
  {
    if k > 0 {
      PackedCover(es, rs, k - 1, x);
      assert rs[..k] == rs[..k - 1] + [rs[k - 1]];
      CoverAppend(rs[..k - 1], rs[k - 1], x);
      hide Cover;
    }
  }

  lemma {:induction false} DefragmentedSpace(v: Snap, w: Snap)
    requires SlotsInRange(w) && w.entries == v.entries && Packed(w) && |w.data| <= MAX_DATA
    ensures SpaceOk(w) && Tiled(w)
  {
    var rs := EntryRanges(w);
    assert rs[..|rs|] == rs;
    forall x: nat
      ensures Coverage(w, x) == if x < |w.data| then 1 else 0
    {
      PackedCover(w.entries, rs, |rs|, x);
    }
    forall p | 0 <= p < |rs|
      ensures rs[p].offset + rs[p].length <= |w.data|
    {
      LengthBeforeMonotone(w.entries, p + 1, |rs|);
    }
  }

  /**
   Defragmentation keeps the denoted map, the entries, both lookups, every generation and every alive
   bit; when there were holes, the result is packed in entry order and its data is as long as the live
   entries together.
  */
  lemma {:induction false} DefragmentedSpec(v: Snap)
    requires Sound(v)
    ensures LengthBefore(v.entries, |v.entries|) <= |v.data|
    ensures
      var w := Defragmented(v);
      && Sound(w) && Contents(w) == Contents(v)
      && w.holes == [] && w.entries == v.entries && w.slotOf == v.slotOf && w.index == v.index
      && OnlyOffsetsDiffer(v.table, w.table)
      && Leaked(w.table) == Leaked(v.table)
      && (v.holes != [] ==> Packed(w))
      && (v.holes != [] || Tiled(v) ==> Tiled(w) && |w.data| == LengthBefore(v.entries, |v.entries|))
  {
    Conservation(v);
    if v.holes == [] {
      assert SumLen(HoleRanges([])) == 0;
    } else {
      DefragmentedHoles(v);
    }
  }

  lemma {:induction false} DefragmentedHoles(v: Snap)
    requires Sound(v) && v.holes != [] && LengthBefore(v.entries, |v.entries|) <= |v.data|
    ensures
      var w := Defragmented(v);
      && Sound(w) && Contents(w) == Contents(v) && Packed(w) && Tiled(w)
      && OnlyOffsetsDiffer(v.table, w.table)
      && Leaked(w.table) == Leaked(v.table)
  {
    hide *;
    DefragmentedFields(v);
    DefragmentedTable(v);
    DefragmentedSpace(v, Defragmented(v));
    Assemble(v, Defragmented(v));
    DefragmentedContents(v);
  }

  lemma {:induction false} DefragmentedFields(v: Snap)
    requires Sound(v) && v.holes != [] && LengthBefore(v.entries, |v.entries|) <= |v.data|
    ensures LengthBefore(v.entries, |v.entries|) <= MAX_DATA
    ensures SlotsInRange(v) && Fits(EntryRanges(v), |v.data|)
    ensures
      var w := Defragmented(v);
      && w.entries == v.entries && w.index == v.index && w.slotOf == v.slotOf
      && SlotsInRange(w) && (Packed(w) ==> |w.data| <= MAX_DATA)
  {
  }

  lemma {:induction false} Assemble(v: Snap, w: Snap)
    requires Sound(v) && w.entries == v.entries && w.index == v.index && SlotsOk(w) && SpaceOk(w)
    ensures Sound(w)
  {
    hide SlotsOk, SpaceOk;
  }

  lemma {:induction false} DefragmentedTable(v: Snap)
    requires Sound(v) && v.holes != [] && LengthBefore(v.entries, |v.entries|) <= |v.data|
    ensures
      var w := Defragmented(v);
      && SlotsOk(w) && Packed(w) && OnlyOffsetsDiffer(v.table, w.table)
      && Leaked(w.table) == Leaked(v.table)
  {
    var w := Defragmented(v);
    forall i | 0 <= i < |v.table.slots|
      ensures
        && w.table.slots[i].generation == v.table.slots[i].generation
        && w.table.slots[i].alive == v.table.slots[i].alive
        && (!v.table.slots[i].alive ==> w.table.slots[i] == v.table.slots[i])
    {
      MovedFlags(v.entries, v.table.slots, |v.entries|, i);
    }
    hide SlotsOk, TableOk, Gathered, Moved, LengthBefore, Cover;
    OffsetsOnly(v.table, w.table);
    SlotsOkKept(v, w);
    MovedPacked(v);
  }

  lemma {:induction false} MovedPacked(v: Snap)
    requires Sound(v) && v.holes != [] && LengthBefore(v.entries, |v.entries|) <= |v.data|
    ensures Packed(Defragmented(v))
  {
    GatheredLength(v.entries, EntryRanges(v), v.data, |v.entries|);
    forall p | 0 <= p < |v.entries|
      ensures EntryRanges(Defragmented(v))[p].offset == LengthBefore(v.entries, p)
    {
      MovedOffset(v.entries, v.table.slots, v.slotOf, |v.entries|, p);
    }
  }

  lemma {:induction false} MovedLookup(
    index: map<Word, int>, rs: seq<Range>, data: seq<byte>, rs': seq<Range>, data': seq<byte>)
    requires Points(index, rs, |data|) && Points(index, rs', |data'|) && |rs| == |rs'|
    requires forall p :: 0 <= p < |rs| ==> Slice(data', rs'[p]) == Slice(data, rs[p])
    ensures Lookup(index, rs', data') == Lookup(index, rs, data)
  {
  }

  lemma {:induction false} DefragmentedContents(v: Snap)
    requires Sound(v) && v.holes != [] && LengthBefore(v.entries, |v.entries|) <= |v.data|
    requires Sound(Defragmented(v)) && Packed(Defragmented(v))
    ensures Contents(Defragmented(v)) == Contents(v)
  {
    hide *;
    DefragmentedFields(v);
    var w := Defragmented(v);
    forall p | 0 <= p < |v.entries|
      ensures MovedSlice(v, w, p)
    {
      DefragmentedBytes(v, p);
    }
    SameLookup(v, w);
  }

  ghost predicate MovedSlice(v: Snap, w: Snap, p: nat)
    requires SlotsInRange(v) && SlotsInRange(w) && p < |v.entries| == |w.entries|
  {
    var a, b := EntryRanges(v)[p], EntryRanges(w)[p];
    && a.offset + a.length <= |v.data| && b.offset + b.length <= |w.data|
    && Slice(w.data, b) == Slice(v.data, a)
  }

  lemma {:induction false} DefragmentedBytes(v: Snap, p: nat)
    requires Sound(v) && v.holes != [] && LengthBefore(v.entries, |v.entries|) <= MAX_DATA && p < |v.entries|
    requires SlotsInRange(Defragmented(v)) && Packed(Defragmented(v))
    ensures MovedSlice(v, Defragmented(v), p)
  {
    GatheredPiece(v.entries, EntryRanges(v), v.data, p);
    hide TableOk, Cover, Gathered, Moved, LengthBefore, IndexOk, SlotsOk;
    assert EntryRanges(Defragmented(v))[p] == Range(LengthBefore(v.entries, p), v.entries[p].length);
  }

  lemma {:induction false} SameLookup(v: Snap, w: Snap)
    requires Sound(v) && Sound(w) && w.index == v.index && |w.entries| == |v.entries|
    requires forall p :: 0 <= p < |v.entries| ==> MovedSlice(v, w, p)
    ensures Contents(w) == Contents(v)
  {
    hide TableOk, Cover;
    forall p | 0 <= p < |v.entries|
      ensures Slice(w.data, EntryRanges(w)[p]) == Slice(v.data, EntryRanges(v)[p])
    {
      assert MovedSlice(v, w, p);
    }
    MovedLookup(v.index, EntryRanges(v), v.data, EntryRanges(w), w.data);
  }
}
