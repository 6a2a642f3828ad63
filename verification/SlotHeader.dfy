/**
 The binary header of a snapshot: three prefix words and one 64-bit word per slot, kept in a
 byte buffer. Dead slots are threaded into a free list through the words themselves.

 `Table` is the decoded form. Every function that writes the buffer in place is proved to do to
 the decoded form exactly what the corresponding function on tables does.
*/
module SlotHeader {
  import opened Wrappers
  import opened Handles
  import opened LittleEndian
  import opened PagedArrays

  const WORD_BYTES := 8
  const FORMAT_VERSION := 1
  const PREFIX_WORDS := 3
  const GEN_SPACE := 0x8000_0000
  const ALIVE_BIT := 0x8000_0000_0000_0000
  const FREE_LIST_NIL: U32 := 0xFFFF_FFFF

  type U32 = x: nat | x < TWO_32
  type Generation = x: nat | x < GEN_SPACE

  /** One slot word: the byte offset of a live entry or the next free slot, a generation, the alive bit. */
  datatype Slot = Slot(offsetOrNext: U32, generation: Generation, alive: bool)

  datatype Table = Table(slots: seq<Slot>, freeHead: U32, liveCount: U32)

  // ---------- words of the byte buffer ----------

  function ReadWord(h: seq<byte>, w: nat): (v: Word)
    requires WORD_BYTES * (w + 1) <= |h|
  {
    Decode64Bound(h[WORD_BYTES * w..WORD_BYTES * (w + 1)]);
    Decode(h[WORD_BYTES * w..WORD_BYTES * (w + 1)])
  }

  function Write(h: seq<byte>, w: nat, v: Word): (r: seq<byte>)
    requires WORD_BYTES * (w + 1) <= |h|
    ensures |r| == |h|
  {
    h[..WORD_BYTES * w] + Encode(v, WORD_BYTES) + h[WORD_BYTES * (w + 1)..]
  }

  /** Writing a word is seen by reading that word and by no other. */
  lemma {:induction false} ReadAfterWrite(h: seq<byte>, w: nat, v: Word, k: nat)
    requires WORD_BYTES * (w + 1) <= |h| && WORD_BYTES * (k + 1) <= |h|
    ensures ReadWord(Write(h, w, v), k) == if k == w then v else ReadWord(h, k)
  {
    Word64(v);
    var r := Write(h, w, v);
    if k == w {
      assert r[WORD_BYTES * w..WORD_BYTES * (w + 1)] == Encode(v, WORD_BYTES);
    } else if k < w {
      assert WORD_BYTES * (k + 1) <= WORD_BYTES * w;
      assert r[WORD_BYTES * k..WORD_BYTES * (k + 1)] == h[WORD_BYTES * k..WORD_BYTES * (k + 1)];
    } else {
      assert r[WORD_BYTES * k..WORD_BYTES * (k + 1)] == h[WORD_BYTES * k..WORD_BYTES * (k + 1)];
    }
  }

  method WriteWord(h: array<byte>, w: nat, v: Word)
    requires WORD_BYTES * (w + 1) <= h.Length
    modifies h
    ensures h[..] == Write(old(h[..]), w, v)
  {
    var bs := Encode(v, WORD_BYTES);
    for i := 0 to WORD_BYTES
      invariant h[..] == old(h[..])[..WORD_BYTES * w] + bs[..i] + old(h[..])[WORD_BYTES * w + i..]
    {
      h[WORD_BYTES * w + i] := bs[i];
      assert bs[..i + 1] == bs[..i] + [bs[i]];
    }
    assert bs[..WORD_BYTES] == bs;
  }

  // ---------- fields of the words ----------

  function SlotToWord(s: Slot): Word {
    s.offsetOrNext + TWO_32 * s.generation + if s.alive then ALIVE_BIT else 0
  }

  function WordToSlot(w: Word): Slot {
    Slot(w % TWO_32, (w / TWO_32) % GEN_SPACE, w / ALIVE_BIT % 2 == 1)
  }

  lemma {:induction false} SlotWordRoundTrip(s: Slot)
    ensures WordToSlot(SlotToWord(s)) == s
  {
  }

  function PrefixLen(h: seq<byte>): nat
    requires |h| >= WORD_BYTES
  {
    ReadWord(h, 0) % 4 + 1
  }

  function LiveCount(h: seq<byte>): U32
    requires |h| >= 2 * WORD_BYTES
  {
    ReadWord(h, 1) % TWO_32
  }

  function FreeHead(h: seq<byte>): U32
    requires |h| >= 2 * WORD_BYTES
  {
    ReadWord(h, 1) / TWO_32
  }

  function SlotCount(h: seq<byte>): U32
    requires |h| >= 3 * WORD_BYTES
  {
    ReadWord(h, 2) % TWO_32
  }

  // ---------- the decoded table ----------

  /** A buffer that newHeader and the operations below produce: prefix of three words, one word per slot. */
  ghost predicate WellFormed(h: seq<byte>) {
    && |h| >= PREFIX_WORDS * WORD_BYTES
    && PrefixLen(h) == PREFIX_WORDS
    && |h| == (PREFIX_WORDS + SlotCount(h)) * WORD_BYTES
  }

  ghost function SlotAt(h: seq<byte>, i: nat): Slot
    requires WellFormed(h) && i < SlotCount(h)
  {
    WordToSlot(ReadWord(h, PREFIX_WORDS + i))
  }

  ghost function Decoded(h: seq<byte>): (t: Table)
    requires WellFormed(h)
    ensures |t.slots| == SlotCount(h)
  {
    Table(seq(SlotCount(h), i requires 0 <= i < SlotCount(h) => SlotAt(h, i)), FreeHead(h), LiveCount(h))
  }

  const EMPTY_TABLE := Table([], FREE_LIST_NIL, 0)

  /** The slot word is overwritten with a byte offset and marked alive; the generation stays. */
  function WithOffset(t: Table, i: nat, offset: U32): Table
    requires i < |t.slots|
  {
    t.(slots := t.slots[i := Slot(offset, t.slots[i].generation, true)])
  }

  /** The slot is pushed on the free list with its generation advanced. */
  function Freed(t: Table, i: nat): Table
    requires i < |t.slots|
  {
    t.(slots := t.slots[i := Slot(t.freeHead, (t.slots[i].generation + 1) % GEN_SPACE, false)],
       freeHead := i % TWO_32,
       liveCount := (t.liveCount + TWO_32 - 1) % TWO_32)
  }

  /** The head of the free list is popped, or a new slot is appended when the list is empty. */
  function Allocated(t: Table): Option<(nat, Table)>
    requires t.freeHead == FREE_LIST_NIL || t.freeHead < |t.slots|
  {
    if t.freeHead != FREE_LIST_NIL then
      Some((t.freeHead, t.(freeHead := t.slots[t.freeHead].offsetOrNext, liveCount := (t.liveCount + 1) % TWO_32)))
    else if |t.slots| >= MAX_OFFSET then
      None
    else
      Some((|t.slots|, t.(slots := t.slots + [Slot(0, 0, false)], liveCount := (t.liveCount + 1) % TWO_32)))
  }

  // ---------- in-place operations on the buffer ----------

  /** A fresh header with the given number of zeroed slot words (newHeader itself has none). */
  method NewHeader(lengthBits: nat, slotCount: nat) returns (h: array<byte>)
    requires slotCount <= MAX_OFFSET
    ensures fresh(h) && WellFormed(h[..])
    ensures Decoded(h[..]) == Table(seq(slotCount, _ => Slot(0, 0, false)), FREE_LIST_NIL, 0)
  {
    h := new byte[(PREFIX_WORDS + slotCount) * WORD_BYTES](_ => 0);
    var word0 := (PREFIX_WORDS - 1) % 4 + FORMAT_VERSION % 0x100 * 4 + lengthBits % 0x100 * 0x400;
    ghost var zero := h[..];
    WriteWord(h, 0, word0);
    WriteWord(h, 1, FREE_LIST_NIL * TWO_32);
    WriteWord(h, 2, slotCount);
    NewHeaderDecoded(zero, word0, slotCount);
  }

  lemma {:induction false} NewHeaderDecoded(zero: seq<byte>, word0: Word, n: nat)
    requires n <= MAX_OFFSET && |zero| == (PREFIX_WORDS + n) * WORD_BYTES && word0 % 4 == PREFIX_WORDS - 1
    requires forall i :: 0 <= i < |zero| ==> zero[i] == 0
    ensures
      var r := Write(Write(Write(zero, 0, word0), 1, FREE_LIST_NIL * TWO_32), 2, n);
      WellFormed(r) && Decoded(r) == Table(seq(n, _ => Slot(0, 0, false)), FREE_LIST_NIL, 0)
  {
    var r := Write(Write(Write(zero, 0, word0), 1, FREE_LIST_NIL * TWO_32), 2, n);
    assert WordToSlot(0) == Slot(0, 0, false);
    hide ReadWord, Write, WordToSlot;
    PrefixReads(zero, word0, FREE_LIST_NIL * TWO_32, n, 0);
    PrefixReads(zero, word0, FREE_LIST_NIL * TWO_32, n, 1);
    PrefixReads(zero, word0, FREE_LIST_NIL * TWO_32, n, 2);
    assert WellFormed(r);
    forall i | 0 <= i < n
      ensures SlotAt(r, i) == Slot(0, 0, false)
    {
      PrefixReads(zero, word0, FREE_LIST_NIL * TWO_32, n, PREFIX_WORDS + i);
      ZeroWord(zero, PREFIX_WORDS + i);
    }
    assert Decoded(r).slots == seq(n, _ => Slot(0, 0, false));
  }

  lemma {:induction false} ZeroWord(zero: seq<byte>, k: nat)
    requires WORD_BYTES * (k + 1) <= |zero| && forall i :: 0 <= i < |zero| ==> zero[i] == 0
    ensures ReadWord(zero, k) == 0
  {
    DecodeZeros(zero[WORD_BYTES * k..WORD_BYTES * (k + 1)]);
  }

  lemma {:induction false} DecodeZeros(bs: seq<byte>)
    requires forall i :: 0 <= i < |bs| ==> bs[i] == 0
    ensures Decode(bs) == 0
  {
    if bs != [] {
      DecodeZeros(bs[1..]);
    }
  }

  lemma {:induction false} PrefixReads(z: seq<byte>, a: Word, b: Word, c: Word, k: nat)
    requires |z| >= PREFIX_WORDS * WORD_BYTES && WORD_BYTES * (k + 1) <= |z|
    ensures ReadWord(Write(Write(Write(z, 0, a), 1, b), 2, c), k) ==
      if k == 0 then a else if k == 1 then b else if k == 2 then c else ReadWord(z, k)
  {
    var z1 := Write(z, 0, a);
    var z2 := Write(z1, 1, b);
    ReadAfterWrite(z, 0, a, k);
    ReadAfterWrite(z1, 1, b, k);
    ReadAfterWrite(z2, 2, c, k);
  }

  /** Overwriting a slot word changes that slot of the decoded table only. */
  lemma {:induction false} DecodedAfterSlotWrite(h: seq<byte>, i: nat, s: Slot)
    requires WellFormed(h) && i < SlotCount(h)
    ensures WellFormed(Write(h, PREFIX_WORDS + i, SlotToWord(s)))
    ensures Decoded(Write(h, PREFIX_WORDS + i, SlotToWord(s))) == Decoded(h).(slots := Decoded(h).slots[i := s])
  {
    var w := SlotToWord(s);
    var r := Write(h, PREFIX_WORDS + i, w);
    SlotWordRoundTrip(s);
    hide ReadWord, Write, SlotToWord, WordToSlot;
    forall k | 0 <= k < PREFIX_WORDS + SlotCount(h)
      ensures ReadWord(r, k) == if k == PREFIX_WORDS + i then w else ReadWord(h, k)
    {
      ReadAfterWrite(h, PREFIX_WORDS + i, w, k);
    }
    assert ReadWord(r, 0) == ReadWord(h, 0) && ReadWord(r, 1) == ReadWord(h, 1) && ReadWord(r, 2) == ReadWord(h, 2);
    assert Decoded(r).slots == Decoded(h).slots[i := s];
  }

  /** A buffer decodes to a table with the slots, the free head and the live count its words say. */
  lemma {:induction false} DecodedIs(h: seq<byte>, t: Table)
    requires WellFormed(h) && |t.slots| == SlotCount(h) && FreeHead(h) == t.freeHead && LiveCount(h) == t.liveCount
    requires forall i :: 0 <= i < |t.slots| ==> SlotAt(h, i) == t.slots[i]
    ensures Decoded(h) == t
  {
    hide SlotCount, SlotAt, WellFormed, FreeHead, LiveCount;
    assert Decoded(h).slots == t.slots;
  }

  lemma {:induction false} SlotFromWord(a: seq<byte>, b: seq<byte>, i: nat)
    requires WellFormed(a) && WellFormed(b) && i < SlotCount(a) && i < SlotCount(b)
    requires ReadWord(a, PREFIX_WORDS + i) == ReadWord(b, PREFIX_WORDS + i)
    ensures SlotAt(a, i) == SlotAt(b, i)
  {
    hide ReadWord, WordToSlot;
  }

  lemma {:induction false} CountWord(live: U32, head: U32)
    ensures (live + TWO_32 * head) % TWO_32 == live && (live + TWO_32 * head) / TWO_32 == head
  {
  }

  lemma {:induction false} CountWritten(h: seq<byte>, live: U32, head: U32)
    requires WellFormed(h)
    ensures
      var r := Write(h, 1, live + TWO_32 * head);
      WellFormed(r) && SlotCount(r) == SlotCount(h) && LiveCount(r) == live && FreeHead(r) == head
  {
    var w := live + TWO_32 * head;
    var r := Write(h, 1, w);
    hide ReadWord, Write;
    ReadAfterWrite(h, 1, w, 0);
    ReadAfterWrite(h, 1, w, 1);
    ReadAfterWrite(h, 1, w, 2);
    CountWord(live, head);
  }

  lemma {:induction false} DecodedAfterCountWrite(h: seq<byte>, live: U32, head: U32)
    requires WellFormed(h)
    ensures WellFormed(Write(h, 1, live + TWO_32 * head))
    ensures Decoded(Write(h, 1, live + TWO_32 * head)) == Decoded(h).(liveCount := live, freeHead := head)
  {
    var w := live + TWO_32 * head;
    var r := Write(h, 1, w);
    CountWritten(h, live, head);
    hide ReadWord, Write, WordToSlot, SlotCount, SlotAt, FreeHead, LiveCount, WellFormed;
    forall i | 0 <= i < SlotCount(h)
      ensures SlotAt(r, i) == Decoded(h).slots[i]
    {
      WordWithin(h, i);
      ReadAfterWrite(h, 1, w, PREFIX_WORDS + i);
      SlotFromWord(r, h, i);
    }
    DecodedIs(r, Decoded(h).(liveCount := live, freeHead := head));
  }

  lemma {:induction false} WordWithin(h: seq<byte>, i: nat)
    requires WellFormed(h) && i < SlotCount(h)
    ensures (PREFIX_WORDS + i + 1) * WORD_BYTES <= |h| && 2 * WORD_BYTES <= |h|
  {
  }

  method SetLiveCount(h: array<byte>, v: U32)
    requires WellFormed(h[..])
    modifies h
    ensures WellFormed(h[..]) && Decoded(h[..]) == old(Decoded(h[..])).(liveCount := v)
  {
    var w := ReadWord(h[..], 1);
    DecodedAfterCountWrite(h[..], v, w / TWO_32);
    WriteWord(h, 1, w - w % TWO_32 + v);
  }

  method SetFreeHead(h: array<byte>, v: U32)
    requires WellFormed(h[..])
    modifies h
    ensures WellFormed(h[..]) && Decoded(h[..]) == old(Decoded(h[..])).(freeHead := v)
  {
    var w := ReadWord(h[..], 1);
    DecodedAfterCountWrite(h[..], w % TWO_32, v);
    WriteWord(h, 1, w % TWO_32 + TWO_32 * v);
  }

  method WriteSlot(h: array<byte>, i: nat, s: Slot)
    requires WellFormed(h[..]) && i < SlotCount(h[..])
    modifies h
    ensures WellFormed(h[..])
    ensures Decoded(h[..]) == old(Decoded(h[..])).(slots := old(Decoded(h[..])).slots[i := s])
  {
    DecodedAfterSlotWrite(h[..], i, s);
    WriteWord(h, PREFIX_WORDS + i, SlotToWord(s));
  }

  method ReadSlot(h: array<byte>, i: nat) returns (s: Slot)
    requires WellFormed(h[..]) && i < SlotCount(h[..])
    ensures s == Decoded(h[..]).slots[i]
  {
    s := WordToSlot(ReadWord(h[..], PrefixLen(h[..]) + i));
  }

  /** The byte offset of a live slot; nothing for a dead or out-of-range one. */
  method SlotOffset(h: array<byte>, i: int) returns (r: Option<U32>)
    requires WellFormed(h[..])
    ensures r.Some? <==> 0 <= i < |Decoded(h[..]).slots| && Decoded(h[..]).slots[i].alive
    ensures r.Some? ==> r.value == Decoded(h[..]).slots[i].offsetOrNext
  {
    if i < 0 || i >= SlotCount(h[..]) {
      return None;
    }
    var s := ReadSlot(h, i);
    return if s.alive then Some(s.offsetOrNext) else None;
  }

  method SetSlotOffset(h: array<byte>, i: nat, offset: U32)
    requires WellFormed(h[..]) && i < SlotCount(h[..])
    modifies h
    ensures WellFormed(h[..]) && Decoded(h[..]) == WithOffset(old(Decoded(h[..])), i, offset)
  {
    hide ReadWord, Write, SlotAt;
    var s := ReadSlot(h, i);
    WriteSlot(h, i, Slot(offset, s.generation, true));
  }

  method FreeSlot(h: array<byte>, i: nat)
    requires WellFormed(h[..]) && i < SlotCount(h[..])
    modifies h
    ensures WellFormed(h[..]) && Decoded(h[..]) == Freed(old(Decoded(h[..])), i)
  {
    hide ReadWord, Write, SlotAt;
    var s := ReadSlot(h, i);
    var freeHead := FreeHead(h[..]);
    WriteSlot(h, i, Slot(freeHead, (s.generation + 1) % GEN_SPACE, false));
    SetFreeHead(h, i % TWO_32);
    SetLiveCount(h, (LiveCount(h[..]) + TWO_32 - 1) % TWO_32);
  }

  /** The buffer one zero word longer, with the slot count raised. */
  function Grown(h: seq<byte>, zeros: seq<byte>): (g: seq<byte>)
    requires |h| >= PREFIX_WORDS * WORD_BYTES && SlotCount(h) < MAX_OFFSET && |zeros| == WORD_BYTES
    ensures |g| == |h| + WORD_BYTES
  {
    ReadWordOfPrefix(h, zeros);
    Write(h + zeros, 2, ReadWord(h + zeros, 2) + 1)
  }

  lemma {:induction false} ReadWordOfPrefix(h: seq<byte>, more: seq<byte>)
    requires |h| >= PREFIX_WORDS * WORD_BYTES
    ensures ReadWord(h + more, 2) == ReadWord(h, 2)
  {
    assert (h + more)[2 * WORD_BYTES..3 * WORD_BYTES] == h[2 * WORD_BYTES..3 * WORD_BYTES];
  }

  /** Growing adds one dead slot of generation zero to the decoded table. */
  lemma {:induction false} DecodedAfterGrow(h: seq<byte>, zeros: seq<byte>)
    requires WellFormed(h) && SlotCount(h) < MAX_OFFSET
    requires |zeros| == WORD_BYTES && Decode(zeros) == 0
    ensures WellFormed(Grown(h, zeros))
    ensures Decoded(Grown(h, zeros)) == Decoded(h).(slots := Decoded(h).slots + [Slot(0, 0, false)])
  {
    var n, g := SlotCount(h), Grown(h, zeros);
    GrownPrefix(h, zeros);
    hide ReadWord, Grown, Write, Decode, WordToSlot, SlotCount, SlotAt, FreeHead, LiveCount, WellFormed;
    forall i | 0 <= i <= n
      ensures SlotAt(g, i) == (Decoded(h).slots + [Slot(0, 0, false)])[i]
    {
      GrownWord(h, zeros, PREFIX_WORDS + i);
      if i < n {
        SlotFromWord(g, h, i);
      } else {
        ZeroSlot(g, i);
      }
    }
    DecodedIs(g, Decoded(h).(slots := Decoded(h).slots + [Slot(0, 0, false)]));
  }

  lemma {:induction false} ZeroSlot(h: seq<byte>, i: nat)
    requires WellFormed(h) && i < SlotCount(h) && ReadWord(h, PREFIX_WORDS + i) == 0
    ensures SlotAt(h, i) == Slot(0, 0, false)
  {
    hide ReadWord;
  }

  lemma {:induction false} GrownPrefix(h: seq<byte>, zeros: seq<byte>)
    requires WellFormed(h) && SlotCount(h) < MAX_OFFSET
    requires |zeros| == WORD_BYTES && Decode(zeros) == 0
    ensures
      var g := Grown(h, zeros);
      WellFormed(g) && SlotCount(g) == SlotCount(h) + 1 && FreeHead(g) == FreeHead(h) && LiveCount(g) == LiveCount(h)
  {
    hide ReadWord, Grown, Write, Decode;
    GrownWord(h, zeros, 0);
    GrownWord(h, zeros, 1);
    GrownWord(h, zeros, 2);
  }

  lemma {:induction false} GrownWord(h: seq<byte>, zeros: seq<byte>, k: nat)
    requires WellFormed(h) && SlotCount(h) < MAX_OFFSET
    requires |zeros| == WORD_BYTES && Decode(zeros) == 0
    requires k <= PREFIX_WORDS + SlotCount(h)
    ensures ReadWord(Grown(h, zeros), k) ==
      if k == 2 then ReadWord(h, 2) + 1 else if k == PREFIX_WORDS + SlotCount(h) then 0 else ReadWord(h, k)
  {
    var e := h + zeros;
    ReadWordOfPrefix(h, zeros);
    ReadAfterWrite(e, 2, ReadWord(e, 2) + 1, k);
    if k == PREFIX_WORDS + SlotCount(h) {
      assert e[WORD_BYTES * k..WORD_BYTES * (k + 1)] == zeros;
    } else {
      assert e[WORD_BYTES * k..WORD_BYTES * (k + 1)] == h[WORD_BYTES * k..WORD_BYTES * (k + 1)];
    }
  }

  method Grow(h: array<byte>) returns (g: array<byte>)
    requires WellFormed(h[..]) && SlotCount(h[..]) < MAX_OFFSET
    ensures fresh(g) && WellFormed(g[..])
    ensures Decoded(g[..]) == Decoded(h[..]).(slots := Decoded(h[..]).slots + [Slot(0, 0, false)])
  {
    hide Encode, ReadWord, SlotAt;
    var zeros := Encode(0, WORD_BYTES);
    Word64(0);
    DecodedAfterGrow(h[..], zeros);
    var src := h[..] + zeros;
    g := new byte[|src|](i requires 0 <= i < |src| => src[i]);
    assert g[..] == src;
    ReadWordOfPrefix(h[..], zeros);
    WriteWord(g, 2, ReadWord(src, 2) + 1);
    assert g[..] == Grown(h[..], zeros);
  }

  /** Pops the free list in place, or returns a longer copy of the buffer with a new dead slot at its end. */
  method AllocSlot(h: array<byte>) returns (r: Option<(nat, array<byte>)>)
    requires WellFormed(h[..])
    requires FreeHead(h[..]) == FREE_LIST_NIL || FreeHead(h[..]) < SlotCount(h[..])
    modifies h
    ensures
      var t := old(Decoded(h[..]));
      match r
      case None => Allocated(t).None? && h[..] == old(h[..])
      case Some((index, g)) =>
        && (g == h || fresh(g))
        && WellFormed(g[..])
        && Allocated(t) == Some((index, Decoded(g[..])))
  {
    hide ReadWord, SlotAt;
    var freeHead := FreeHead(h[..]);
    if freeHead != FREE_LIST_NIL {
      var s := ReadSlot(h, freeHead);
      SetFreeHead(h, s.offsetOrNext);
      SetLiveCount(h, (LiveCount(h[..]) + 1) % TWO_32);
      return Some((freeHead, h));
    }
    var count := SlotCount(h[..]);
    if count >= MAX_OFFSET {
      return None;
    }
    var g := Grow(h);
    SetLiveCount(g, (LiveCount(g[..]) + 1) % TWO_32);
    return Some((count, g));
  }
}
