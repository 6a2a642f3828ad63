/**
 The intrusive free list of the slot table, over every state the allocator can reach: an acyclic,
 duplicate-free chain of dead in-range slots that ends at the sentinel, with the live count equal
 to the number of live slots.
*/
module FreeList {
  import opened Wrappers
  import opened Handles
  import opened SlotHeader

  /** Following `offsetOrNext` from `head` visits exactly the slots of `c`, all dead, and stops at the sentinel. */
  ghost predicate IsChain(slots: seq<Slot>, head: U32, c: seq<nat>)
    decreases c
  {
    if c == [] then head == FREE_LIST_NIL
    else c[0] == head < |slots| && !slots[head].alive && IsChain(slots, slots[head].offsetOrNext, c[1..])
  }

  ghost predicate Distinct(c: seq<nat>) {
    forall i, j :: 0 <= i < j < |c| ==> c[i] != c[j]
  }

  ghost predicate Linked(t: Table, c: seq<nat>) {
    IsChain(t.slots, t.freeHead, c) && Distinct(c)
  }

  function LiveSlots(slots: seq<Slot>): nat {
    if slots == [] then 0
    else LiveSlots(slots[..|slots| - 1]) + if slots[|slots| - 1].alive then 1 else 0
  }

  ghost predicate TableOk(t: Table) {
    && |t.slots| <= MAX_OFFSET
    && t.liveCount == LiveSlots(t.slots)
    && exists c :: Linked(t, c)
  }

  ghost predicate OnFreeList(t: Table, i: nat) {
    exists c :: Linked(t, c) && i in c
  }

  /** The dead slots that have dropped out of the free list: no allocation will ever find them. */
  ghost function Leaked(t: Table): set<nat> {
    set i: nat | i < |t.slots| && !t.slots[i].alive && !OnFreeList(t, i)
  }

  lemma {:induction false} LiveSlotsBound(slots: seq<Slot>)
    ensures LiveSlots(slots) <= |slots|
    ensures LiveSlots(slots) == |slots| <==> forall i :: 0 <= i < |slots| ==> slots[i].alive
  {
    if slots != [] {
      var n := |slots| - 1;
      LiveSlotsBound(slots[..n]);
      if LiveSlots(slots) == |slots| {
        forall i | 0 <= i < |slots|
          ensures slots[i].alive
        {
          if i < n { assert slots[..n][i].alive; }
        }
      }
    }
  }

  lemma {:induction false} LiveSlotsUpdate(slots: seq<Slot>, i: nat, s: Slot)
    requires i < |slots|
    ensures LiveSlots(slots[i := s]) ==
      LiveSlots(slots) - (if slots[i].alive then 1 else 0) + (if s.alive then 1 else 0)
  {
    var n := |slots| - 1;
    if i == n {
      assert slots[i := s][..n] == slots[..n];
    } else {
      assert slots[i := s][..n] == slots[..n][i := s];
      LiveSlotsUpdate(slots[..n], i, s);
    }
  }

  lemma {:induction false} LiveSlotsAppend(slots: seq<Slot>, s: Slot)
    ensures LiveSlots(slots + [s]) == LiveSlots(slots) + if s.alive then 1 else 0
  {
    assert (slots + [s])[..|slots|] == slots;
  }

  lemma {:induction false} ChainInRange(slots: seq<Slot>, head: U32, c: seq<nat>)
    requires IsChain(slots, head, c)
    ensures forall x :: x in c ==> x < |slots| && !slots[x].alive
    decreases c
  {
    if c != [] {
      ChainInRange(slots, slots[head].offsetOrNext, c[1..]);
      assert forall x :: x in c ==> x == c[0] || x in c[1..];
    }
  }

  /** A chain survives any change of slots outside it. */
  lemma {:induction false} ChainFrame(slots: seq<Slot>, slots': seq<Slot>, head: U32, c: seq<nat>)
    requires IsChain(slots, head, c)
    requires forall x :: x in c && x < |slots| ==> x < |slots'| && slots'[x] == slots[x]
    ensures IsChain(slots', head, c)
    decreases c
  {
    if c != [] {
      assert c[0] in c;
      forall x | x in c[1..] && x < |slots|
        ensures x < |slots'| && slots'[x] == slots[x]
      {
        assert x in c;
      }
      ChainFrame(slots, slots', slots[head].offsetOrNext, c[1..]);
    }
  }

  lemma {:induction false} EmptyTableOk()
    ensures TableOk(EMPTY_TABLE) && Leaked(EMPTY_TABLE) == {}
  {
    assert Linked(EMPTY_TABLE, []);
  }

  /** In a well-formed table the head of the free list is the sentinel or a dead slot, so allocation cannot panic. */
  lemma {:induction false} HeadIsDead(t: Table)
    requires TableOk(t)
    ensures t.freeHead == FREE_LIST_NIL || (t.freeHead < |t.slots| && !t.slots[t.freeHead].alive)
  {
    var c :| Linked(t, c);
  }

  /** Allocates a slot and stores a byte offset in it: what Set does to the header. */
  function Occupied(t: Table, offset: U32): Option<(nat, Table)>
    requires t.freeHead == FREE_LIST_NIL || t.freeHead < |t.slots|
  {
    match Allocated(t)
    case None => None
    case Some((i, u)) => Some((i, WithOffset(u, i, offset)))
  }

  ghost predicate Occupies(t: Table, offset: U32, i: nat, u: Table) {
    && |u.slots| == (if i < |t.slots| then |t.slots| else |t.slots| + 1)
    && i < |u.slots| <= MAX_OFFSET
    && (i < |t.slots| ==> !t.slots[i].alive && u.slots[i].generation == t.slots[i].generation)
    && u.slots[i].alive && u.slots[i].offsetOrNext == offset
    && (forall j :: 0 <= j < |t.slots| && j != i ==> u.slots[j] == t.slots[j])
    && u.liveCount == t.liveCount + 1
  }

  /** Allocation takes a dead slot (or a new one), touches no other slot and keeps the invariant. */
  lemma {:induction false} OccupiedSpec(t: Table, offset: U32)
    requires TableOk(t)
    ensures t.freeHead == FREE_LIST_NIL || t.freeHead < |t.slots|
    ensures Occupied(t, offset).None? <==> t.freeHead == FREE_LIST_NIL && |t.slots| == MAX_OFFSET
    ensures Occupied(t, offset).Some? ==>
      var (i, u) := Occupied(t, offset).value;
      Occupies(t, offset, i, u) && TableOk(u)
  {
    HeadIsDead(t);
    LiveSlotsBound(t.slots);
    if Occupied(t, offset).Some? {
      var c :| Linked(t, c);
      var d := OccupiedChain(t, offset, c);
      OccupiedCounts(t, offset);
    }
  }

  lemma {:induction false} OccupiedCounts(t: Table, offset: U32)
    requires |t.slots| <= MAX_OFFSET && t.liveCount == LiveSlots(t.slots)
    requires t.freeHead == FREE_LIST_NIL || (t.freeHead < |t.slots| && !t.slots[t.freeHead].alive)
    requires Occupied(t, offset).Some?
    ensures
      var (i, u) := Occupied(t, offset).value;
      Occupies(t, offset, i, u) && u.liveCount == LiveSlots(u.slots)
  {
    LiveSlotsBound(t.slots);
    var (i, u) := Occupied(t, offset).value;
    if t.freeHead != FREE_LIST_NIL {
      LiveSlotsUpdate(t.slots, i, u.slots[i]);
      assert u.slots == t.slots[i := u.slots[i]];
    } else {
      LiveSlotsAppend(t.slots, u.slots[i]);
      assert u.slots == t.slots + [u.slots[i]];
    }
  }

  lemma {:induction false} OccupiedChain(t: Table, offset: U32, c: seq<nat>) returns (d: seq<nat>)
    requires |t.slots| <= MAX_OFFSET && Linked(t, c)
    requires t.freeHead == FREE_LIST_NIL || t.freeHead < |t.slots|
    requires Occupied(t, offset).Some?
    ensures Linked(Occupied(t, offset).value.1, d)
    ensures forall x :: x in d <==> x in c && x != Occupied(t, offset).value.0
  {
    var (i, u) := Occupied(t, offset).value;
    ChainInRange(t.slots, t.freeHead, c);
    if c == [] {
      d := [];
    } else {
      d := c[1..];
      forall x | x in d
        ensures x in c && x != i
      {
        var k :| 0 <= k < |d| && d[k] == x;
        assert c[k + 1] == x && c[0] == i;
      }
      forall x | x in c && x != i
        ensures x in d
      {
        var k :| 0 <= k < |c| && c[k] == x;
        assert d[k - 1] == x;
      }
      ChainFrame(t.slots, u.slots, u.freeHead, d);
    }
  }

  /** Freeing a live slot advances its generation, touches no other slot and keeps the invariant. */
  lemma {:induction false} FreedSpec(t: Table, i: nat)
    requires TableOk(t) && i < |t.slots| && t.slots[i].alive
    ensures TableOk(Freed(t, i))
    ensures Freed(t, i).liveCount == t.liveCount - 1
  {
    var c :| Linked(t, c);
    FreedChain(t, i, c);
    LiveSlotsUpdate(t.slots, i, Freed(t, i).slots[i]);
  }

  lemma {:induction false} FreedChain(t: Table, i: nat, c: seq<nat>)
    requires |t.slots| <= MAX_OFFSET && Linked(t, c) && i < |t.slots| && t.slots[i].alive
    ensures Linked(Freed(t, i), [i] + c)
  {
    ChainInRange(t.slots, t.freeHead, c);
    ChainFrame(t.slots, Freed(t, i).slots, t.freeHead, c);
    assert ([i] + c)[1..] == c;
  }

  lemma {:induction false} ChainUnique(slots: seq<Slot>, head: U32, c: seq<nat>, d: seq<nat>)
    requires |slots| <= MAX_OFFSET && IsChain(slots, head, c) && IsChain(slots, head, d)
    ensures c == d
    decreases c
  {
    if c != [] {
      ChainUnique(slots, slots[head].offsetOrNext, c[1..], d[1..]);
      assert c == [c[0]] + c[1..] && d == [d[0]] + d[1..];
    }
  }

  lemma {:induction false} LeakedIs(t: Table, c: seq<nat>)
    requires |t.slots| <= MAX_OFFSET && Linked(t, c)
    ensures Leaked(t) == set i: nat | i < |t.slots| && !t.slots[i].alive && i !in c
  {
    forall i: nat
      ensures OnFreeList(t, i) <==> i in c
    {
      if d :| Linked(t, d) && i in d {
        ChainUnique(t.slots, t.freeHead, c, d);
      }
    }
  }

  /** Allocation and freeing leak no slot, and recover none. */
  lemma {:induction false} LeakedKept(t: Table, offset: U32, i: nat)
    requires TableOk(t)
    ensures t.freeHead == FREE_LIST_NIL || t.freeHead < |t.slots|
    ensures Occupied(t, offset).Some? ==> Leaked(Occupied(t, offset).value.1) == Leaked(t)
    ensures i < |t.slots| && t.slots[i].alive ==> Leaked(Freed(t, i)) == Leaked(t)
  {
    HeadIsDead(t);
    var c :| Linked(t, c);
    LeakedIs(t, c);
    ChainInRange(t.slots, t.freeHead, c);
    if Occupied(t, offset).Some? {
      OccupiedSpec(t, offset);
      var d := OccupiedChain(t, offset, c);
      LeakedIs(Occupied(t, offset).value.1, d);
    }
    if i < |t.slots| && t.slots[i].alive {
      FreedChain(t, i, c);
      LeakedIs(Freed(t, i), [i] + c);
    }
  }

  function DeadSlots(slots: seq<Slot>): set<nat> {
    set i: nat | i < |slots| && !slots[i].alive
  }

  lemma {:induction false} LiveOrDead(slots: seq<Slot>)
    ensures LiveSlots(slots) + |DeadSlots(slots)| == |slots|
  {
    if slots != [] {
      var n := |slots| - 1;
      LiveOrDead(slots[..n]);
      assert DeadSlots(slots) == DeadSlots(slots[..n]) + if slots[n].alive then {} else {n};
    }
  }

  ghost function Members(c: seq<nat>): set<nat> {
    set x | x in c
  }

  lemma {:induction false} DistinctSize(c: seq<nat>)
    requires Distinct(c)
    ensures |Members(c)| == |c|
  {
    if c != [] {
      var n := |c| - 1;
      DistinctSize(c[..n]);
      assert c == c[..n] + [c[n]];
      assert c[n] !in Members(c[..n]);
      assert Members(c) == Members(c[..n]) + {c[n]};
    }
  }

  /** Every slot is live, on the free list, or leaked, and only one of these. */
  lemma {:induction false} SlotsAddUp(t: Table, c: seq<nat>)
    requires TableOk(t) && Linked(t, c)
    ensures t.liveCount + |c| + |Leaked(t)| == |t.slots|
  {
    LeakedIs(t, c);
    LiveOrDead(t.slots);
    DistinctSize(c);
    ChainInRange(t.slots, t.freeHead, c);
    assert DeadSlots(t.slots) == Members(c) + Leaked(t) && Members(c) !! Leaked(t);
  }

  /** Allocation fails exactly when live and leaked slots together are all 65536 there can be. */
  lemma {:induction false} FullExactly(t: Table, offset: U32)
    requires TableOk(t)
    ensures t.freeHead == FREE_LIST_NIL || t.freeHead < |t.slots|
    ensures Occupied(t, offset).None? <==> t.liveCount + |Leaked(t)| == MAX_OFFSET
  {
    HeadIsDead(t);
    OccupiedSpec(t, offset);
    var c :| Linked(t, c);
    SlotsAddUp(t, c);
    hide Leaked;
  }

  /**
   Freeing a slot and allocating again returns that slot, with its generation advanced by one and everything else as
   before.
  */
  lemma {:induction false} FreeThenOccupy(t: Table, i: nat, offset: U32)
    requires TableOk(t) && i < |t.slots| && t.slots[i].alive
    ensures Occupied(Freed(t, i), offset) ==
      Some((i, t.(slots := t.slots[i := Slot(offset, (t.slots[i].generation + 1) % 0x8000_0000, true)])))
  {
    FreedSpec(t, i);
    LiveSlotsBound(t.slots);
    LiveSlotsUpdate(t.slots, i, Freed(t, i).slots[i]);
    var s := Slot(offset, (t.slots[i].generation + 1) % GEN_SPACE, true);
    assert Freed(t, i).slots[i := s] == t.slots[i := s];
  }
}
