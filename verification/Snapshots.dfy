/**
 A registry snapshot as a value: the byte buffer, the decoded slot table, the dense entries, the slot
 lookup, the holes and the id index. `Sound` is the invariant every operation keeps; `Contents` is the
 finite map from ids to byte strings that a snapshot stands for.
*/
module Snapshots {
  import opened Wrappers
  import opened Handles
  import opened LittleEndian
  import opened SlotHeader
  import opened FreeList

  const MAX_DATA: nat := TWO_32 - 1

  datatype Hole = Hole(offset: U32, length: U32)

  /** The three fields of a live handle. */
  datatype Entry = Entry(slot: nat, length: U32, id: Word)

  datatype Snap = Snap(
    data: seq<byte>,
    table: Table,
    entries: seq<Entry>,
    slotOf: map<nat, nat>,
    holes: seq<Hole>,
    index: map<Word, int>)

  datatype Range = Range(offset: nat, length: nat)

  const EMPTY_SNAP := Snap([], EMPTY_TABLE, [], map[], [], map[])

  // ---------- who owns a byte ----------

  function Hits(r: Range, x: nat): nat {
    if r.offset <= x < r.offset + r.length then 1 else 0
  }

  /** How many of the ranges contain byte x. */
  function Cover(rs: seq<Range>, x: nat): nat {
    if rs == [] then 0 else Cover(rs[..|rs| - 1], x) + Hits(rs[|rs| - 1], x)
  }

  lemma {:induction false} CoverAppend(rs: seq<Range>, r: Range, x: nat)
    ensures Cover(rs + [r], x) == Cover(rs, x) + Hits(r, x)
  {
    assert (rs + [r])[..|rs|] == rs;
  }

  lemma {:induction false} CoverUpdate(rs: seq<Range>, i: nat, r: Range, x: nat)
    requires i < |rs|
    ensures Cover(rs[i := r], x) == Cover(rs, x) - Hits(rs[i], x) + Hits(r, x)
    ensures Cover(rs, x) >= Hits(rs[i], x)
  {
    var n := |rs| - 1;
    if i == n {
      assert rs[i := r][..n] == rs[..n];
    } else {
      assert rs[i := r][..n] == rs[..n][i := r];
      CoverUpdate(rs[..n], i, r, x);
    }
  }

  function SwapRemoved<T>(xs: seq<T>, i: nat): (r: seq<T>)
    requires i < |xs|
    ensures |r| == |xs| - 1
  {
    xs[i := xs[|xs| - 1]][..|xs| - 1]
  }

  lemma {:induction false} CoverSwapRemoved(rs: seq<Range>, i: nat, x: nat)
    requires i < |rs|
    ensures Cover(SwapRemoved(rs, i), x) == Cover(rs, x) - Hits(rs[i], x)
    ensures Cover(rs, x) >= Hits(rs[i], x)
  {
    var n := |rs| - 1;
    CoverUpdate(rs, i, rs[n], x);
    assert Cover(rs[i := rs[n]], x) == Cover(rs[i := rs[n]][..n], x) + Hits(rs[n], x);
  }

  /** Two ranges of one list that share a byte cover it twice. */
  lemma {:induction false} CoverTwice(rs: seq<Range>, i: nat, j: nat, x: nat)
    requires i < j < |rs|
    ensures Cover(rs, x) >= Hits(rs[i], x) + Hits(rs[j], x)
  {
    var n := |rs| - 1;
    if j == n {
      CoverUpdate(rs[..n], i, rs[i], x);
    } else {
      CoverTwice(rs[..n], i, j, x);
    }
  }

  // ---------- entries ----------

  predicate SlotsInRange(v: Snap) {
    forall p :: 0 <= p < |v.entries| ==> v.entries[p].slot < |v.table.slots|
  }

  function EntryRange(t: Table, e: Entry): Range
    requires e.slot < |t.slots|
  {
    Range(t.slots[e.slot].offsetOrNext, e.length)
  }

  function EntryRanges(v: Snap): (rs: seq<Range>)
    requires SlotsInRange(v)
    ensures |rs| == |v.entries|
    ensures forall p :: 0 <= p < |rs| ==> rs[p] == EntryRange(v.table, v.entries[p])
  {
    seq(|v.entries|, p requires 0 <= p < |v.entries| => EntryRange(v.table, v.entries[p]))
  }

  function HoleRange(h: Hole): Range {
    Range(h.offset, h.length)
  }

  function HoleRanges(hs: seq<Hole>): (rs: seq<Range>)
    ensures |rs| == |hs|
    ensures forall i :: 0 <= i < |rs| ==> rs[i] == HoleRange(hs[i])
  {
    seq(|hs|, i requires 0 <= i < |hs| => HoleRange(hs[i]))
  }

  ghost predicate Fits(rs: seq<Range>, n: nat) {
    forall i :: 0 <= i < |rs| ==> rs[i].offset + rs[i].length <= n
  }

  // ---------- the invariant ----------

  /** Entries and ids are in bijection through the index. */
  ghost predicate IndexOk(v: Snap) {
    && (forall p :: 0 <= p < |v.entries| ==> v.entries[p].id in v.index && v.index[v.entries[p].id] == p)
    && (forall id :: id in v.index ==> 0 <= v.index[id] < |v.entries| && v.entries[v.index[id]].id == id)
  }

  /** Entries and live slots are in bijection through the slot lookup. */
  ghost predicate SlotsOk(v: Snap) {
    && TableOk(v.table) && v.table.liveCount == |v.entries|
    && SlotsInRange(v)
    && (forall p :: 0 <= p < |v.entries| ==>
          && v.table.slots[v.entries[p].slot].alive
          && v.entries[p].slot in v.slotOf && v.slotOf[v.entries[p].slot] == p)
    && (forall x :: x in v.slotOf ==> v.slotOf[x] < |v.entries| && v.entries[v.slotOf[x]].slot == x)
    && (forall x :: 0 <= x < |v.table.slots| && v.table.slots[x].alive ==> x in v.slotOf)
  }

  function Coverage(v: Snap, x: nat): nat
    requires SlotsInRange(v)
  {
    Cover(EntryRanges(v), x) + Cover(HoleRanges(v.holes), x)
  }

  /** Live ranges and holes lie within the data and no byte belongs to two of them. */
  ghost predicate SpaceOk(v: Snap)
    requires SlotsInRange(v)
  {
    && |v.data| <= MAX_DATA
    && Fits(EntryRanges(v), |v.data|)
    && Fits(HoleRanges(v.holes), |v.data|)
    && forall x: nat :: Coverage(v, x) <= 1
  }

  ghost predicate Sound(v: Snap) {
    IndexOk(v) && SlotsOk(v) && SpaceOk(v)
  }

  /** Live ranges and holes tile the data exactly: every byte belongs to one of them. */
  ghost predicate Tiled(v: Snap)
    requires SlotsInRange(v)
  {
    forall x: nat :: x < |v.data| ==> Coverage(v, x) == 1
  }

  // ---------- what a snapshot stands for ----------

  function Slice(data: seq<byte>, r: Range): seq<byte>
    requires r.offset + r.length <= |data|
  {
    data[r.offset..r.offset + r.length]
  }

  ghost predicate Points(index: map<Word, int>, rs: seq<Range>, n: nat) {
    (forall id :: id in index ==> 0 <= index[id] < |rs|) && Fits(rs, n)
  }

  ghost function Lookup(index: map<Word, int>, rs: seq<Range>, data: seq<byte>): (m: map<Word, seq<byte>>)
    requires Points(index, rs, |data|)
    ensures m.Keys == index.Keys
    ensures forall id :: id in m ==> m[id] == Slice(data, rs[index[id]])
  {
    map id | id in index :: Slice(data, rs[index[id]])
  }

  ghost function Contents(v: Snap): (m: map<Word, seq<byte>>)
    requires Sound(v)
    ensures m.Keys == v.index.Keys
  {
    Lookup(v.index, EntryRanges(v), v.data)
  }

  ghost predicate InRange(index: map<Word, int>, n: nat) {
    forall id :: id in index ==> 0 <= index[id] < n
  }

  /** The entry of every id: with the bytes, all a reader gets to see. */
  ghost function EntriesById(index: map<Word, int>, es: seq<Entry>): (m: map<Word, Entry>)
    requires InRange(index, |es|)
  {
    map id | id in index :: es[index[id]]
  }

  ghost function EntryMap(v: Snap): (m: map<Word, Entry>)
    requires Sound(v)
    ensures m.Keys == v.index.Keys
  {
    EntriesById(v.index, v.entries)
  }

  lemma {:induction false} EmptySound()
    ensures Sound(EMPTY_SNAP) && Tiled(EMPTY_SNAP) && Leaked(EMPTY_SNAP.table) == {}
    ensures Contents(EMPTY_SNAP) == map[]
  {
    EmptyTableOk();
  }

  /** Distinct ranges that are not empty do not overlap, entries and holes alike. */
  lemma {:induction false} Disjoint(v: Snap, x: nat)
    requires Sound(v)
    ensures forall p, q :: 0 <= p < q < |v.entries| ==> Hits(EntryRanges(v)[p], x) + Hits(EntryRanges(v)[q], x) <= 1
    ensures forall i, j :: 0 <= i < j < |v.holes| ==>
      Hits(HoleRange(v.holes[i]), x) + Hits(HoleRange(v.holes[j]), x) <= 1
    ensures forall p, i :: 0 <= p < |v.entries| && 0 <= i < |v.holes| ==>
      Hits(EntryRanges(v)[p], x) + Hits(HoleRange(v.holes[i]), x) <= 1
  {
    var es, hs := EntryRanges(v), HoleRanges(v.holes);
    assert Coverage(v, x) <= 1;
    forall p, q | 0 <= p < q < |es|
      ensures Hits(es[p], x) + Hits(es[q], x) <= 1
    {
      CoverTwice(es, p, q, x);
    }
    forall i, j | 0 <= i < j < |hs|
      ensures Hits(hs[i], x) + Hits(hs[j], x) <= 1
    {
      CoverTwice(hs, i, j, x);
    }
    forall p, i | 0 <= p < |es| && 0 <= i < |hs|
      ensures Hits(es[p], x) + Hits(hs[i], x) <= 1
    {
      CoverUpdate(es, p, es[p], x);
      CoverUpdate(hs, i, hs[i], x);
    }
  }

  // ---------- deletion ----------

  /** The last entry moves into the deleted position, the slot is freed, its range becomes a hole. */
  function Deleted(v: Snap, p: nat): Snap
    requires SlotsInRange(v) && p < |v.entries|
  {
    var e, moved := v.entries[p], v.entries[|v.entries| - 1];
    var r := EntryRange(v.table, e);
    Snap(
      v.data,
      Freed(v.table, e.slot),
      SwapRemoved(v.entries, p),
      v.slotOf[moved.slot := p] - {e.slot},
      v.holes + [Hole(r.offset, r.length)],
      v.index[moved.id := p] - {e.id})
  }

  lemma {:induction false} DeletedIndex(v: Snap, p: nat)
    requires Sound(v) && p < |v.entries|
    ensures IndexOk(Deleted(v, p))
    ensures Deleted(v, p).index.Keys == v.index.Keys - {v.entries[p].id}
  {
    hide SlotsOk, SpaceOk, Freed;
    assert SlotsInRange(v) by {
      hide *;
      SoundSlots(v);
    }
    var w, last := Deleted(v, p), |v.entries| - 1;
    forall q | 0 <= q < last
      ensures w.entries[q].id in w.index && w.index[w.entries[q].id] == q
    {
      var q0 := if q == p then last else q;
      assert w.entries[q] == v.entries[q0] && v.index[v.entries[q0].id] == q0 != p;
    }
  }

  lemma {:induction false} SoundSlots(v: Snap)
    requires Sound(v)
    ensures SlotsInRange(v)
  {
  }

  lemma {:induction false} DeletedSlot(v: Snap, p: nat, x: nat)
    requires SlotsOk(v) && p < |v.entries| && x in Deleted(v, p).slotOf
    ensures
      var w := Deleted(v, p);
      w.slotOf[x] < |v.entries| - 1 && w.entries[w.slotOf[x]].slot == x
  {
    hide TableOk;
    var last := |v.entries| - 1;
    assert x != v.entries[p].slot;
    if x == v.entries[last].slot {
      assert v.slotOf[x] == last;
    }
  }

  lemma {:induction false} DeletedSlots(v: Snap, p: nat)
    requires SlotsOk(v) && p < |v.entries|
    ensures SlotsOk(Deleted(v, p))
    ensures forall q :: 0 <= q < |v.entries| - 1 ==> Deleted(v, p).entries[q].slot != v.entries[p].slot
  {
    FreedSpec(v.table, v.entries[p].slot);
    hide TableOk;
    var w, last := Deleted(v, p), |v.entries| - 1;
    forall q | 0 <= q < last
      ensures w.entries[q].slot != v.entries[p].slot
      ensures w.entries[q].slot in w.slotOf && w.slotOf[w.entries[q].slot] == q
      ensures w.entries[q].slot < |w.table.slots| && w.table.slots[w.entries[q].slot].alive
    {
      var q0 := if q == p then last else q;
      assert w.entries[q] == v.entries[q0] && v.slotOf[v.entries[q0].slot] == q0 != p;
    }
    forall x | x in w.slotOf
      ensures w.slotOf[x] < last && w.entries[w.slotOf[x]].slot == x
    {
      DeletedSlot(v, p, x);
    }
  }

  lemma {:induction false} DeletedRanges(v: Snap, p: nat)
    requires SlotsOk(v) && p < |v.entries|
    ensures SlotsInRange(Deleted(v, p))
    ensures EntryRanges(Deleted(v, p)) == SwapRemoved(EntryRanges(v), p)
  {
    DeletedSlots(v, p);
    hide TableOk;
  }

  lemma {:induction false} DeletedSpace(v: Snap, p: nat)
    requires Sound(v) && p < |v.entries|
    ensures SlotsInRange(Deleted(v, p)) && SpaceOk(Deleted(v, p))
    ensures forall x: nat :: Coverage(Deleted(v, p), x) == Coverage(v, x)
  {
    DeletedRanges(v, p);
    var w := Deleted(v, p);
    var r := EntryRanges(v)[p];
    assert HoleRanges(w.holes) == HoleRanges(v.holes) + [r];
    forall x: nat
      ensures Coverage(w, x) == Coverage(v, x)
    {
      CoverSwapRemoved(EntryRanges(v), p, x);
      CoverAppend(HoleRanges(v.holes), r, x);
    }
  }

  /** The index follows the swap: every other id still finds its own element. */
  lemma {:induction false} MovedIndex<T>(index: map<Word, int>, xs: seq<T>, p: nat, e: Word, moved: Word)
    requires InRange(index, |xs|) && p < |xs|
    requires e in index && index[e] == p && moved in index && index[moved] == |xs| - 1
    requires forall x, y :: x in index && y in index && index[x] == index[y] ==> x == y
    ensures InRange(index[moved := p] - {e}, |xs| - 1)
    ensures
      var index' := index[moved := p] - {e};
      forall id :: id in index' ==> SwapRemoved(xs, p)[index'[id]] == xs[index[id]]
  {
    var index' := index[moved := p] - {e};
    forall id | id in index'
      ensures 0 <= index'[id] < |xs| - 1 && SwapRemoved(xs, p)[index'[id]] == xs[index[id]]
    {
      assert index[id] != p;
      if index[id] == |xs| - 1 {
        assert id == moved;
      }
    }
  }

  lemma {:induction false} SwapRemovedFits(rs: seq<Range>, p: nat, n: nat)
    requires Fits(rs, n) && p < |rs|
    ensures Fits(SwapRemoved(rs, p), n)
  {
  }

  lemma {:induction false} DeletedLookup(
    index: map<Word, int>, rs: seq<Range>, data: seq<byte>, p: nat, e: Word, moved: Word)
    requires Points(index, rs, |data|) && p < |rs|
    requires e in index && index[e] == p && moved in index && index[moved] == |rs| - 1
    requires forall x, y :: x in index && y in index && index[x] == index[y] ==> x == y
    ensures
      var index' := index[moved := p] - {e};
      && Points(index', SwapRemoved(rs, p), |data|)
      && Lookup(index', SwapRemoved(rs, p), data) == Lookup(index, rs, data) - {e}
  {
    MovedIndex(index, rs, p, e, moved);
    SwapRemovedFits(rs, p, |data|);
    hide Slice, SwapRemoved, Fits;
    assert Lookup(index[moved := p] - {e}, SwapRemoved(rs, p), data).Keys == (Lookup(index, rs, data) - {e}).Keys;
  }

  lemma {:induction false} DeletedEntriesById(index: map<Word, int>, es: seq<Entry>, p: nat, e: Word, moved: Word)
    requires InRange(index, |es|) && p < |es|
    requires e in index && index[e] == p && moved in index && index[moved] == |es| - 1
    requires forall x, y :: x in index && y in index && index[x] == index[y] ==> x == y
    ensures InRange(index[moved := p] - {e}, |es| - 1)
    ensures EntriesById(index[moved := p] - {e}, SwapRemoved(es, p)) == EntriesById(index, es) - {e}
  {
    MovedIndex(index, es, p, e, moved);
    hide SwapRemoved;
  }

  lemma {:induction false} DeletedEntryMap(v: Snap, p: nat)
    requires Sound(v) && p < |v.entries| && Sound(Deleted(v, p))
    ensures EntryMap(Deleted(v, p)) == EntryMap(v) - {v.entries[p].id}
  {
    hide SlotsOk, SpaceOk;
    SoundSlots(v);
    DeletedEntriesById(v.index, v.entries, p, v.entries[p].id, v.entries[|v.entries| - 1].id);
  }

  lemma {:induction false} DeletedContents(v: Snap, p: nat)
    requires Sound(v) && p < |v.entries| && Sound(Deleted(v, p))
    ensures Contents(Deleted(v, p)) == Contents(v) - {v.entries[p].id}
  {
    DeletedRanges(v, p);
    hide SlotsOk;
    DeletedLookup(v.index, EntryRanges(v), v.data, p, v.entries[p].id, v.entries[|v.entries| - 1].id);
  }

  /** Deletion removes exactly one id and keeps the invariant, the tiling and the free list. */
  lemma {:induction false} DeletedSpec(v: Snap, p: nat)
    requires Sound(v) && p < |v.entries|
    ensures Sound(Deleted(v, p))
    ensures Contents(Deleted(v, p)) == Contents(v) - {v.entries[p].id}
    ensures EntryMap(Deleted(v, p)) == EntryMap(v) - {v.entries[p].id}
    ensures Tiled(v) ==> Tiled(Deleted(v, p))
    ensures Leaked(Deleted(v, p).table) == Leaked(v.table)
  {
    DeletedIndex(v, p);
    DeletedSlots(v, p);
    DeletedSpace(v, p);
    DeletedContents(v, p);
    DeletedEntryMap(v, p);
    LeakedKept(v.table, 0, v.entries[p].slot);
  }

  // ---------- insertion ----------

  datatype SetError = LengthExceedsBitSpace | MissingFunctions | TooManyEntries | DataExceedsCapacity

  /** A new entry at the end of the dense list, over the given table, data and holes. */
  function Inserted(v: Snap, e: Entry, table: Table, data: seq<byte>, holes: seq<Hole>): Snap {
    Snap(data, table, v.entries + [e], v.slotOf[e.slot := |v.entries|], holes, v.index[e.id := |v.entries|])
  }

  /** The new range takes its bytes from the holes, or from growth of the data, and from nowhere else. */
  ghost predicate TakesFrom(v: Snap, r: Range, data: seq<byte>, holes: seq<Hole>) {
    && |v.data| <= |data| <= MAX_DATA
    && r.offset + r.length <= |data|
    && Fits(HoleRanges(holes), |data|)
    && (forall x: nat :: Cover(HoleRanges(holes), x) + Hits(r, x) ==
          Cover(HoleRanges(v.holes), x) + if |v.data| <= x < |data| then 1 else 0)
    && (forall x: nat :: x < |v.data| && Hits(r, x) == 0 ==> data[x] == v.data[x])
  }

  lemma {:induction false} CoverOutside(rs: seq<Range>, n: nat, x: nat)
    requires Fits(rs, n) && n <= x
    ensures Cover(rs, x) == 0
  {
    if rs != [] {
      CoverOutside(rs[..|rs| - 1], n, x);
    }
  }

  lemma {:induction false} InsertedIndex(v: Snap, e: Entry, table: Table, data: seq<byte>, holes: seq<Hole>)
    requires IndexOk(v) && e.id !in v.index
    ensures IndexOk(Inserted(v, e, table, data, holes))
  {
  }

  lemma {:induction false} InsertedSlots(
    v: Snap, e: Entry, offset: U32, table: Table, data: seq<byte>, holes: seq<Hole>)
    requires SlotsOk(v) && TableOk(table) && Occupies(v.table, offset, e.slot, table)
    ensures SlotsOk(Inserted(v, e, table, data, holes))
    ensures EntryRanges(Inserted(v, e, table, data, holes)) == EntryRanges(v) + [Range(offset, e.length)]
  {
    hide TableOk;
    forall p | 0 <= p < |v.entries|
      ensures v.entries[p].slot != e.slot
    {
      assert v.table.slots[v.entries[p].slot].alive;
    }
  }

  lemma {:induction false} InsertedCover(
    rs: seq<Range>, hs: seq<Range>, r: Range, hs': seq<Range>, n: nat, n': nat, x: nat)
    requires Fits(rs, n) && Fits(hs, n)
    requires Cover(hs', x) + Hits(r, x) == Cover(hs, x) + if n <= x < n' then 1 else 0
    ensures Cover(rs + [r], x) + Cover(hs', x) == Cover(rs, x) + Cover(hs, x) + if n <= x < n' then 1 else 0
    ensures n <= x ==> Cover(rs, x) + Cover(hs, x) == 0
  {
    CoverAppend(rs, r, x);
    if n <= x {
      CoverOutside(rs, n, x);
      CoverOutside(hs, n, x);
    }
  }

  lemma {:induction false} InsertedSpace(
    v: Snap, e: Entry, offset: U32, table: Table, data: seq<byte>, holes: seq<Hole>)
    requires Sound(v) && TableOk(table) && Occupies(v.table, offset, e.slot, table)
    requires TakesFrom(v, Range(offset, e.length), data, holes)
    ensures
      var w := Inserted(v, e, table, data, holes);
      SlotsInRange(w) && SpaceOk(w) && (Tiled(v) ==> Tiled(w))
  {
    InsertedSlots(v, e, offset, table, data, holes);
    var w := Inserted(v, e, table, data, holes);
    var r := Range(offset, e.length);
    hide TableOk, LiveSlots, Cover, IndexOk, Occupies;
    assert SlotsInRange(v) && SlotsInRange(w);
    var rs, hs, hs' := EntryRanges(v), HoleRanges(v.holes), HoleRanges(holes);
    forall x: nat
      ensures Coverage(w, x) == Coverage(v, x) + if |v.data| <= x < |data| then 1 else 0
      ensures |v.data| <= x ==> Coverage(v, x) == 0
    {
      InsertedCover(rs, hs, r, hs', |v.data|, |data|, x);
    }
    hide SlotsOk;
    SpaceGrown(v, w, rs, r);
  }

  lemma {:induction false} SpaceGrown(v: Snap, w: Snap, rs: seq<Range>, r: Range)
    requires SlotsInRange(v) && SlotsInRange(w) && SpaceOk(v)
    requires rs == EntryRanges(v) && EntryRanges(w) == rs + [r]
    requires |v.data| <= |w.data| <= MAX_DATA && r.offset + r.length <= |w.data| && Fits(HoleRanges(w.holes), |w.data|)
    requires forall x: nat :: Coverage(w, x) == Coverage(v, x) + if |v.data| <= x < |w.data| then 1 else 0
    requires forall x: nat :: |v.data| <= x ==> Coverage(v, x) == 0
    ensures SpaceOk(w) && (Tiled(v) ==> Tiled(w))
  {
    hide Coverage;
  }

  /** The bytes of the old entries are untouched: the new range shares no byte with them. */
  lemma {:induction false} InsertedBytes(v: Snap, r: Range, data: seq<byte>, holes: seq<Hole>, p: nat)
    requires Sound(v) && TakesFrom(v, r, data, holes) && p < |v.entries|
    ensures Slice(data, EntryRanges(v)[p]) == Slice(v.data, EntryRanges(v)[p])
  {
    var rs := EntryRanges(v);
    forall x: nat | rs[p].offset <= x < rs[p].offset + rs[p].length
      ensures data[x] == v.data[x]
    {
      CoverUpdate(rs, p, rs[p], x);
      assert Coverage(v, x) <= 1;
      assert Cover(HoleRanges(holes), x) + Hits(r, x) == Cover(HoleRanges(v.holes), x);
    }
  }

  lemma {:induction false} InsertedLookup(
    index: map<Word, int>, rs: seq<Range>, before: seq<byte>, data: seq<byte>, id: Word, r: Range)
    requires Points(index, rs, |before|) && |before| <= |data| && id !in index && r.offset + r.length <= |data|
    requires forall p :: 0 <= p < |rs| ==> Slice(data, rs[p]) == Slice(before, rs[p])
    ensures Points(index[id := |rs|], rs + [r], |data|)
    ensures Lookup(index[id := |rs|], rs + [r], data) == Lookup(index, rs, before)[id := Slice(data, r)]
  {
  }

  lemma {:induction false} InsertedContents(
    v: Snap, e: Entry, offset: U32, table: Table, data: seq<byte>, holes: seq<Hole>)
    requires Sound(v) && TableOk(table) && Occupies(v.table, offset, e.slot, table)
    requires e.id !in v.index && TakesFrom(v, Range(offset, e.length), data, holes)
    requires Sound(Inserted(v, e, table, data, holes))
    ensures Contents(Inserted(v, e, table, data, holes)) ==
      Contents(v)[e.id := Slice(data, Range(offset, e.length))]
  {
    InsertedSlots(v, e, offset, table, data, holes);
    var r := Range(offset, e.length);
    forall p | 0 <= p < |v.entries|
      ensures Slice(data, EntryRanges(v)[p]) == Slice(v.data, EntryRanges(v)[p])
    {
      InsertedBytes(v, r, data, holes, p);
    }
    hide SlotsOk, Cover;
    InsertedLookup(v.index, EntryRanges(v), v.data, data, e.id, r);
  }

  lemma {:induction false} InsertedEntryMap(v: Snap, e: Entry, table: Table, data: seq<byte>, holes: seq<Hole>)
    requires Sound(v) && e.id !in v.index && Sound(Inserted(v, e, table, data, holes))
    ensures EntryMap(Inserted(v, e, table, data, holes)) == EntryMap(v)[e.id := e]
  {
    hide SlotsOk, SpaceOk;
  }

  /** An insertion maps exactly the new id to the bytes of its range, and keeps the invariant and the tiling. */
  lemma {:induction false} InsertedSpec(v: Snap, e: Entry, offset: U32, table: Table, data: seq<byte>, holes: seq<Hole>)
    requires Sound(v) && TableOk(table) && Occupies(v.table, offset, e.slot, table)
    requires e.id !in v.index && TakesFrom(v, Range(offset, e.length), data, holes)
    ensures
      var w := Inserted(v, e, table, data, holes);
      && Sound(w)
      && (Tiled(v) ==> Tiled(w))
      && Contents(w) == Contents(v)[e.id := Slice(data, Range(offset, e.length))]
      && EntryMap(w) == EntryMap(v)[e.id := e]
  {
    InsertedIndex(v, e, table, data, holes);
    InsertedSlots(v, e, offset, table, data, holes);
    InsertedSpace(v, e, offset, table, data, holes);
    InsertedContents(v, e, offset, table, data, holes);
    InsertedEntryMap(v, e, table, data, holes);
  }

  // ---------- choosing the bytes: first fit, or the end of the data ----------

  predicate IsFirstFit(holes: seq<Hole>, need: nat, i: nat) {
    i < |holes| && holes[i].length >= need && forall k :: 0 <= k < i ==> holes[k].length < need
  }

  predicate NoFit(holes: seq<Hole>, need: nat) {
    forall k :: 0 <= k < |holes| ==> holes[k].length < need
  }

  /** The chosen hole leaves the list, the last hole takes its place, and the unused rest is appended. */
  function HolesAfterFit(holes: seq<Hole>, i: nat, need: nat): seq<Hole>
    requires i < |holes| && holes[i].length >= need
    requires forall k :: 0 <= k < |holes| ==> holes[k].offset + holes[k].length < TWO_32
  {
    SwapRemoved(holes, i) +
    if holes[i].length > need then [Hole(holes[i].offset + need, holes[i].length - need)] else []
  }

  function Overwrite(data: seq<byte>, offset: nat, value: seq<byte>): (r: seq<byte>)
    requires offset + |value| <= |data|
    ensures |r| == |data|
  {
    data[..offset] + value + data[offset + |value|..]
  }

  /** Taking the front of a hole takes exactly its range out of the holes. */
  lemma {:induction false} FitCover(holes: seq<Hole>, i: nat, need: nat)
    requires i < |holes| && holes[i].length >= need
    requires forall k :: 0 <= k < |holes| ==> holes[k].offset + holes[k].length < TWO_32
    ensures forall x: nat ::
      Cover(HoleRanges(HolesAfterFit(holes, i, need)), x) + Hits(Range(holes[i].offset, need), x) ==
      Cover(HoleRanges(holes), x)
  {
    var h, hs, after := holes[i], HoleRanges(holes), HolesAfterFit(holes, i, need);
    assert HoleRanges(SwapRemoved(holes, i)) == SwapRemoved(hs, i);
    var rest := Range(h.offset + need, h.length - need);
    if h.length > need {
      assert HoleRanges(after) == SwapRemoved(hs, i) + [rest];
    } else {
      assert HoleRanges(after) == SwapRemoved(hs, i);
    }
    hide HoleRanges, SwapRemoved, HolesAfterFit, Cover;
    forall x: nat
      ensures Cover(HoleRanges(after), x) + Hits(Range(h.offset, need), x) == Cover(hs, x)
    {
      CoverSwapRemoved(hs, i, x);
      CoverAppend(SwapRemoved(hs, i), rest, x);
    }
  }

  lemma {:induction false} FitTakes(v: Snap, i: nat, value: seq<byte>)
    requires Sound(v) && i < |v.holes| && v.holes[i].length >= |value|
    ensures forall k :: 0 <= k < |v.holes| ==> v.holes[k].offset + v.holes[k].length < TWO_32
    ensures v.holes[i].offset + |value| <= |v.data|
    ensures
      var r := Range(v.holes[i].offset, |value|);
      var data := Overwrite(v.data, r.offset, value);
      TakesFrom(v, r, data, HolesAfterFit(v.holes, i, |value|)) && Slice(data, r) == value
  {
    var h, need := v.holes[i], |value|;
    assert forall k :: 0 <= k < |v.holes| ==> HoleRanges(v.holes)[k] == HoleRange(v.holes[k]);
    var r := Range(h.offset, need);
    FitCover(v.holes, i, need);
    hide Cover, HolesAfterFit;
  }

  lemma {:induction false} EndTakes(v: Snap, value: seq<byte>)
    requires Sound(v) && |v.data| + |value| <= MAX_DATA
    ensures
      var r := Range(|v.data|, |value|);
      TakesFrom(v, r, v.data + value, v.holes) && Slice(v.data + value, r) == value
  {
  }

  /** The conditions under which a placement of the value's bytes makes sense: a claimable slot and bytes in range. */
  ghost predicate StoreDefined(v: Snap, value: seq<byte>, fit: Option<nat>) {
    && (v.table.freeHead == FREE_LIST_NIL || v.table.freeHead < |v.table.slots|)
    && Allocated(v.table).Some? && |value| < TWO_32 && |v.data| < TWO_32
    && (forall k :: 0 <= k < |v.holes| ==> v.holes[k].offset + v.holes[k].length < TWO_32)
    && (fit.Some? ==>
          && fit.value < |v.holes| && v.holes[fit.value].length >= |value|
          && v.holes[fit.value].offset + |value| <= |v.data|)
  }

  /** The snapshot after storing a value under an id that has no entry, given where its bytes go. */
  ghost function StoredAt(v: Snap, id: Word, value: seq<byte>, fit: Option<nat>): Snap
    requires StoreDefined(v, value, fit)
  {
    var offset := if fit.Some? then v.holes[fit.value].offset else |v.data|;
    var (slot, table) := Occupied(v.table, offset).value;
    var data := if fit.Some? then Overwrite(v.data, offset, value) else v.data + value;
    var holes := if fit.Some? then HolesAfterFit(v.holes, fit.value, |value|) else v.holes;
    Inserted(v, Entry(slot, |value|, id), table, data, holes)
  }

  /** The entry a store creates: the claimed slot, the length, the id. */
  ghost function StoredEntry(v: Snap, id: Word, value: seq<byte>): Entry
    requires v.table.freeHead == FREE_LIST_NIL || v.table.freeHead < |v.table.slots|
    requires Allocated(v.table).Some? && |value| < TWO_32
  {
    Entry(Allocated(v.table).value.0, |value|, id)
  }

  ghost predicate CanStore(v: Snap, value: seq<byte>, fit: Option<nat>) {
    && |value| < TWO_32
    && (v.table.freeHead != FREE_LIST_NIL || |v.table.slots| < MAX_OFFSET)
    && match fit
       case Some(i) => IsFirstFit(v.holes, |value|, i)
       case None => NoFit(v.holes, |value|) && |v.data| + |value| <= MAX_DATA
  }

  /** Why a value of the given length cannot be stored: no slot can be claimed, or no bytes can be found. */
  function StoreFailure(v: Snap, need: nat): (e: Option<SetError>)
    ensures e.None? || e.value == TooManyEntries || e.value == DataExceedsCapacity
  {
    if v.table.freeHead == FREE_LIST_NIL && |v.table.slots| >= MAX_OFFSET then Some(TooManyEntries)
    else if NoFit(v.holes, need) && |v.data| + need > MAX_DATA then Some(DataExceedsCapacity)
    else None
  }

  lemma {:induction false} CanStoreDefined(v: Snap, value: seq<byte>, fit: Option<nat>)
    requires Sound(v) && CanStore(v, value, fit)
    ensures StoreDefined(v, value, fit)
  {
    HeadIsDead(v.table);
    assert forall k :: 0 <= k < |v.holes| ==> HoleRanges(v.holes)[k] == HoleRange(v.holes[k]);
  }

  /** Storing maps exactly the new id to the value and keeps the invariant, the tiling and the free list. */
  lemma {:induction false} StoredSpec(v: Snap, id: Word, value: seq<byte>, fit: Option<nat>)
    requires Sound(v) && CanStore(v, value, fit) && id !in v.index
    ensures StoreDefined(v, value, fit)
    ensures
      var w := StoredAt(v, id, value, fit);
      && Sound(w)
      && Contents(w) == Contents(v)[id := value]
      && EntryMap(w) == EntryMap(v)[id := StoredEntry(v, id, value)]
      && (Tiled(v) ==> Tiled(w))
      && Leaked(w.table) == Leaked(v.table)
  {
    CanStoreDefined(v, value, fit);
    var offset := if fit.Some? then v.holes[fit.value].offset else |v.data|;
    OccupiedSpec(v.table, offset);
    LeakedKept(v.table, offset, |v.table.slots|);
    var (slot, table) := Occupied(v.table, offset).value;
    var data := if fit.Some? then Overwrite(v.data, offset, value) else v.data + value;
    var holes := if fit.Some? then HolesAfterFit(v.holes, fit.value, |value|) else v.holes;
    if fit.Some? {
      FitTakes(v, fit.value, value);
    } else {
      EndTakes(v, value);
    }
    InsertedSpec(v, Entry(slot, |value|, id), offset, table, data, holes);
  }
}
