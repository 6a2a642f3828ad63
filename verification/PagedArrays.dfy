/**
 The two paged copy-on-write arrays of a snapshot. An update copies the page list and one page and
 returns a new value, so older snapshots never change. Entries refine a plain sequence of handles;
 the slot lookup refines a finite map whose absent keys read as -1.
*/
module PagedArrays {
  import opened Handles

  const PAGE_SIZE := 256

  datatype PersistentEntries = PersistentEntries(pages: seq<seq<Handle>>, length: nat) {

    /**
     Every page but the last is full, and the last one reaches `length`; one page may remain after popping everything.
    */
    ghost predicate Valid() {
      && (forall p :: 0 <= p < |pages| - 1 ==> |pages[p]| == PAGE_SIZE)
      && (pages != [] ==> |pages[|pages| - 1]| <= PAGE_SIZE)
      && if length == 0 then |pages| <= 1
         else |pages| == (length - 1) / PAGE_SIZE + 1 && |pages[|pages| - 1]| > (length - 1) % PAGE_SIZE
    }

    lemma {:induction false} InPage(i: nat)
      requires Valid() && i < length
      ensures i / PAGE_SIZE < |pages| && i % PAGE_SIZE < |pages[i / PAGE_SIZE]|
    {
      assert i / PAGE_SIZE <= (length - 1) / PAGE_SIZE;
    }

    function Get(i: nat): Handle
      requires Valid() && i < length
    {
      InPage(i);
      pages[i / PAGE_SIZE][i % PAGE_SIZE]
    }

    ghost function View(): (v: seq<Handle>)
      requires Valid()
      ensures |v| == length
      ensures forall i :: 0 <= i < length ==> v[i] == Get(i)
    {
      seq(length, i requires 0 <= i < length => Get(i))
    }

    function Set(i: nat, h: Handle): (r: PersistentEntries)
      requires Valid() && i < length
      ensures r.Valid() && r.View() == View()[i := h]
    {
      InPage(i);
      var p := i / PAGE_SIZE;
      var page: seq<Handle> := pages[p][i % PAGE_SIZE := h];
      var r := PersistentEntries(pages[p := page], length);
      assert forall k :: 0 <= k < length ==> r.Get(k) == if k == i then h else Get(k) by {
        forall k | 0 <= k < length
          ensures r.Get(k) == if k == i then h else Get(k)
        {
          InPage(k);
        }
      }
      r
    }

    function Append(h: Handle): (r: PersistentEntries)
      requires Valid()
      ensures r.Valid() && r.View() == View() + [h]
    {
      var p, off := length / PAGE_SIZE, length % PAGE_SIZE;
      var newPages :=
        if p < |pages| then
          var page: seq<Handle> := if off < |pages[p]| then pages[p][off := h] else pages[p] + [h];
          pages[p := page]
        else
          pages + [[h]];
      var r := PersistentEntries(newPages, length + 1);
      assert r.Valid();
      assert forall k :: 0 <= k <= length ==> r.Get(k) == (View() + [h])[k] by {
        forall k | 0 <= k <= length
          ensures r.Get(k) == (View() + [h])[k]
        {
          if k < length {
            InPage(k);
          }
        }
      }
      assert r.View() == View() + [h];
      r
    }

    function Pop(): (r: PersistentEntries)
      requires Valid()
      ensures r.Valid() && r.View() == if length == 0 then [] else View()[..length - 1]
    {
      if length == 0 then this
      else
        var newLength := length - 1;
        var p, off := newLength / PAGE_SIZE, newLength % PAGE_SIZE;
        InPage(newLength);
        var page := pages[p][..off];
        var r := PersistentEntries(if page == [] && |pages| > 1 then pages[..p] else pages[p := page], newLength);
        assert r.Valid();
        assert forall k :: 0 <= k < newLength ==> r.Get(k) == Get(k) by {
          forall k | 0 <= k < newLength
            ensures r.Get(k) == Get(k)
          {
            InPage(k);
            r.InPage(k);
          }
        }
        r
    }

    method ToSlice() returns (res: seq<Handle>)
      requires Valid()
      ensures res == View()
    {
      if length == 0 {
        return [];
      }
      var buf := new Handle[length](_ => 0);
      for i := 0 to length
        invariant buf[..i] == View()[..i]
      {
        buf[i] := Get(i);
      }
      return buf[..];
    }
  }

  type EntryPos = i: int | -1 <= i < 0x8000_0000

  datatype PersistentSlots = PersistentSlots(pages: seq<seq<EntryPos>>, length: nat) {

    /** Pages are full, and no cell beyond `length` has been written. */
    ghost predicate Valid() {
      && (forall p :: 0 <= p < |pages| ==> |pages[p]| == PAGE_SIZE)
      && length <= PAGE_SIZE * |pages|
      && forall p, k :: 0 <= p < |pages| && 0 <= k < PAGE_SIZE && PAGE_SIZE * p + k >= length ==> pages[p][k] == -1
    }

    function Get(i: nat): (pos: EntryPos)
      requires Valid()
    {
      if i >= length then -1
      else
        assert i / PAGE_SIZE < |pages|;
        pages[i / PAGE_SIZE][i % PAGE_SIZE]
    }

    /** The slots that have an entry, with the entry's position. */
    ghost function View(): (m: map<nat, nat>)
      requires Valid()
      ensures forall i: nat :: i in m <==> Get(i) != -1
      ensures forall i: nat :: i in m ==> m[i] == Get(i)
    {
      var m := map i: nat | i < length && Get(i) != -1 :: Get(i);
      m
    }

    method Set(i: nat, val: EntryPos) returns (r: PersistentSlots)
      requires Valid()
      ensures r.Valid()
      ensures r.View() == if val == -1 then View() - {i} else View()[i := val]
    {
      var p, off := i / PAGE_SIZE, i % PAGE_SIZE;
      var newPages := pages;
      while |newPages| <= p
        invariant |pages| <= |newPages|
        invariant newPages[..|pages|] == pages
        invariant forall k :: |pages| <= k < |newPages| ==> newPages[k] == seq(PAGE_SIZE, _ => -1)
      {
        newPages := newPages + [seq(PAGE_SIZE, _ => -1)];
      }
      forall k | 0 <= k < |newPages|
        ensures |newPages[k]| == PAGE_SIZE
        ensures k < |pages| ==> newPages[k] == pages[k]
      {
        if k < |pages| {
          assert newPages[k] == newPages[..|pages|][k];
        }
      }
      ghost var mid := PersistentSlots(newPages, length);
      assert mid.Valid();
      assert forall k: nat :: mid.Get(k) == Get(k);
      var page: seq<EntryPos> := newPages[p][off := val];
      r := PersistentSlots(newPages[p := page], if i + 1 > length then i + 1 else length);
      SetView(mid, i, val, page, r);
      assert r.View() == if val == -1 then View() - {i} else View()[i := val];
    }
  }

  lemma {:induction false} SetView(s: PersistentSlots, i: nat, val: EntryPos, page: seq<EntryPos>, r: PersistentSlots)
    requires s.Valid() && i / PAGE_SIZE < |s.pages|
    requires |s.pages[i / PAGE_SIZE]| == PAGE_SIZE && page == s.pages[i / PAGE_SIZE][i % PAGE_SIZE := val]
    requires r.pages == s.pages[i / PAGE_SIZE := page]
    requires r.length == if i + 1 > s.length then i + 1 else s.length
    ensures r.Valid()
    ensures forall k: nat :: r.Get(k) == if k == i then val else s.Get(k)
  {
    assert i == PAGE_SIZE * (i / PAGE_SIZE) + i % PAGE_SIZE;
    assert r.Valid();
    forall k: nat
      ensures r.Get(k) == if k == i then val else s.Get(k)
    {
      assert k == PAGE_SIZE * (k / PAGE_SIZE) + k % PAGE_SIZE;
    }
  }
}
