/**
 One shard of the cache as it is kept in memory: a map from keys to list elements, the traversal list, the clock
 hand pointing into the list, and a size counter shared with the other shards. The list is a sequence of the
 entry objects, front first; each operation runs as one step under the shard's lock.
*/
module CacheShards {
  import opened Wrappers
  import opened ClockShards

  /** The size shared by all shards. */
  class Counter {
    var value: int

    constructor ()
      ensures value == 0
    {
      value := 0;
    }
  }

  class CacheItem<T> {
    const key: string
    var entry: Entry<T>
    var accessed: bool

    constructor (key: string, entry: Entry<T>)
      ensures this.key == key && this.entry == entry && !this.accessed
    {
      this.key, this.entry, this.accessed := key, entry, false;
    }
  }

  /** The index of an element, or the length of the list. */
  function IndexIn<T>(order: seq<CacheItem<T>>, el: CacheItem<T>): (i: nat)
    ensures i <= |order|
    ensures i < |order| ==> order[i] == el
    ensures i == |order| ==> el !in order
  {
    if order == [] then 0 else if order[0] == el then 0 else IndexIn(order[1..], el) + 1
  }

  /** Where in the list the clock hand is. */
  function HandIn<T>(order: seq<CacheItem<T>>, hand: CacheItem?<T>): Option<nat> {
    if hand == null then None else Some(IndexIn(order, hand))
  }

  /** The entries of a list as values. */
  ghost function ItemsOf<T>(order: seq<CacheItem<T>>): (r: seq<Item<T>>)
    reads order
    ensures |r| == |order|
    ensures forall i :: 0 <= i < |order| ==> r[i] == Item(order[i].key, order[i].entry, order[i].accessed)
  {
    seq(|order|, i requires 0 <= i < |order| reads order => Item(order[i].key, order[i].entry, order[i].accessed))
  }

  ghost predicate DistinctItems<T>(order: seq<CacheItem<T>>) {
    forall i, j :: 0 <= i < j < |order| ==> order[i].key != order[j].key
  }

  /** The map and the list hold the same elements, one to one. */
  ghost predicate InStep<T>(items: map<string, CacheItem<T>>, order: seq<CacheItem<T>>) {
    && DistinctItems(order)
    && (forall i :: 0 <= i < |order| ==> order[i].key in items && items[order[i].key] == order[i])
    && (forall k :: k in items ==> items[k] in order && items[k].key == k)
  }

  lemma {:induction false} IndexAt<T>(order: seq<CacheItem<T>>, i: nat)
    requires DistinctItems(order) && i < |order|
    ensures IndexIn(order, order[i]) == i
  {
    hide IndexIn;
  }

  lemma {:induction false} FindIn<T>(
    items: map<string, CacheItem<T>>, order: seq<CacheItem<T>>, view: seq<Item<T>>, key: string)
    requires InStep(items, order)
    requires |view| == |order| && forall i :: 0 <= i < |order| ==> view[i].key == order[i].key
    ensures key in items <==> Find(view, key) < |view|
    ensures key in items ==> order[Find(view, key)] == items[key] && IndexIn(order, items[key]) == Find(view, key)
  {
    hide Find, IndexIn;
    if key in items {
      var j :| 0 <= j < |order| && order[j] == items[key];
      assert view[j].key == key;
    }
    if Find(view, key) < |view| {
      IndexAt(order, Find(view, key));
    }
  }

  lemma {:induction false} InStepRemove<T>(items: map<string, CacheItem<T>>, order: seq<CacheItem<T>>, i: nat)
    requires InStep(items, order) && i < |order|
    ensures InStep(items - {order[i].key}, order[..i] + order[i + 1..])
  {
    var rest := order[..i] + order[i + 1..];
    assert forall j :: 0 <= j < |rest| ==> rest[j] == order[if j < i then j else j + 1];
    forall k | k in items - {order[i].key}
      ensures items[k] in rest
    {
      var j :| 0 <= j < |order| && order[j] == items[k];
      assert rest[if j < i then j else j - 1] == items[k];
    }
  }

  lemma {:induction false} InStepCount<T>(items: map<string, CacheItem<T>>, order: seq<CacheItem<T>>)
    requires InStep(items, order)
    ensures |items| == |order|
  {
    hide *;
    InStepHead(items, order);
    if order != [] {
      InStepRemove(items, order, 0);
      assert order[..0] + order[1..] == order[1..];
      InStepCount(items - {order[0].key}, order[1..]);
    }
  }

  lemma {:induction false} InStepHead<T>(items: map<string, CacheItem<T>>, order: seq<CacheItem<T>>)
    requires InStep(items, order)
    ensures order == [] ==> |items| == 0
    ensures order != [] ==> |items - {order[0].key}| == |items| - 1
  {
    if order == [] {
      assert items.Keys == {};
    } else {
      assert order[0].key in items;
      assert items.Keys == (items - {order[0].key}).Keys + {order[0].key};
    }
  }

  lemma {:induction false} InStepDistinct<T>(items: map<string, CacheItem<T>>, order: seq<CacheItem<T>>)
    requires InStep(items, order)
    ensures DistinctItems(order)
    ensures forall i :: 0 <= i < |order| ==> IndexIn(order, order[i]) == i
  {
    hide IndexIn;
    forall i | 0 <= i < |order|
      ensures IndexIn(order, order[i]) == i
    {
      IndexAt(order, i);
    }
  }

  lemma {:induction false} InStepPush<T>(items: map<string, CacheItem<T>>, order: seq<CacheItem<T>>, el: CacheItem<T>)
    requires InStep(items, order) && el.key !in items
    ensures InStep(items[el.key := el], [el] + order)
  {
    var longer := [el] + order;
    forall k | k in items
      ensures items[k] in longer
    {
      var j :| 0 <= j < |order| && order[j] == items[k];
      assert longer[j + 1] == items[k];
    }
    assert longer[0] == el;
    assert forall i :: 0 < i < |longer| ==> longer[i] == order[i - 1] && longer[i].key in items;
    assert DistinctItems(longer);
  }

  lemma {:induction false} InStepToFront<T>(items: map<string, CacheItem<T>>, order: seq<CacheItem<T>>, i: nat)
    requires InStep(items, order) && i < |order|
    ensures InStep(items, [order[i]] + (order[..i] + order[i + 1..]))
  {
    InStepRemove(items, order, i);
    InStepPush(items - {order[i].key}, order[..i] + order[i + 1..], order[i]);
    assert (items - {order[i].key})[order[i].key := order[i]] == items;
  }

  class CacheShard<T> {
    var items: map<string, CacheItem<T>>
    var order: seq<CacheItem<T>>
    var clockHand: CacheItem?<T>
    const maxEntries: int
    const compactAt: int
    var tombstones: nat
    const globalSize: Counter

    /** Map, list and hand are in step. */
    ghost predicate Consistent()
      reads this
    {
      InStep(items, order) && (clockHand != null ==> clockHand in order)
    }

    /** Between operations the cap is kept as well. */
    ghost predicate Valid()
      reads this
    {
      Consistent() && (maxEntries > 0 ==> |order| <= maxEntries)
    }

    /** The shard as a value. */
    ghost function View(): Shard<T>
      reads this, order
    {
      Shard(ItemsOf(order), HandIn(order, clockHand))
    }

    constructor (maxEntries: int, compactAt: int, globalSize: Counter)
      ensures Valid() && View() == Shard([], None) && order == []
      ensures this.maxEntries == maxEntries && this.compactAt == compactAt && this.globalSize == globalSize
    {
      this.items, this.order, this.clockHand, this.tombstones := map[], [], null, 0;
      this.maxEntries, this.compactAt, this.globalSize := maxEntries, compactAt, globalSize;
    }

    function Prev(el: CacheItem<T>): CacheItem?<T>
      reads this
    {
      var i := IndexIn(order, el);
      if 0 < i < |order| then order[i - 1] else null
    }

    function Next(el: CacheItem<T>): CacheItem?<T>
      reads this
    {
      var i := IndexIn(order, el);
      if i + 1 < |order| then order[i + 1] else null
    }

    function Back(): CacheItem?<T>
      reads this
    {
      if order == [] then null else order[|order| - 1]
    }

    lemma {:induction false} ConsistentLinked()
      requires Consistent()
      ensures Linked(View())
      ensures forall i :: 0 <= i < |order| ==> IndexIn(order, order[i]) == i
    {
      hide IndexIn;
      InStepDistinct(items, order);
    }

    /** Removes an element from the list and the map, moving a hand that points at it. */
    method RemoveElementLocked(el: CacheItem<T>)
      requires Consistent() && el in order
      modifies this, globalSize
      ensures Consistent() && View() == Removed(old(View()), IndexIn(old(order), el))
      ensures order == old(order)[..IndexIn(old(order), el)] + old(order)[IndexIn(old(order), el) + 1..]
      ensures globalSize.value == old(globalSize.value) - 1 && |order| == |old(order)| - 1
      ensures tombstones == old(tombstones) + 1
    {
      hide InStep, IndexIn, DistinctItems, ItemsOf, HandIn, Removed, HandAfter;
      var i := IndexIn(order, el);
      HandAfterIs(order, i, clockHand);
      RemovedIs(View(), i);
      NeighboursOf(order, i);
      RemovedInStep(items, order, i);
      RemovedItems(order, i);
      RemovedHand(items, order, i, clockHand);
      if clockHand == el {
        clockHand := Prev(el);
        if clockHand == null {
          clockHand := Next(el);
        }
        clockHand := if clockHand == el then null else clockHand;
      }
      assert clockHand == HandAfter(old(order), old(clockHand), i);
      items := items - {el.key};
      order := order[..i] + order[i + 1..];
      tombstones := tombstones + 1;
      globalSize.value := globalSize.value - 1;
    }

    /**
     Second-chance eviction from the hand: an accessed entry loses its bit and is passed, the first other one is
     removed; after a full round of accessed entries the one the hand is back at is removed.
    */
    method EvictOneCLOCK() returns (evicted: bool)
      requires Consistent()
      modifies this, order, globalSize
      ensures Linked(old(View()))
      ensures Consistent() && View() == EvictedOne(old(View()))
      ensures evicted <==> old(order) != []
      ensures forall x :: x in order ==> x in old(order)
      ensures globalSize.value - |order| == old(globalSize.value - |order|)
      ensures |order| == |old(order)| - if evicted then 1 else 0
    {
      hide *;
      ConsistentLinked();
      ViewParts();
      if |order| == 0 {
        EvictedFromNone(View());
        return false;
      }
      ghost var v := View();
      PlaceHand();
      GiveSecondChances(v);
      EvictedIs(v, Chances(v.order, Start(v), 0));
      ViewParts();
      RemoveElementLocked(clockHand);
      return true;
    }

    /** The scan: passes accessed entries until the hand is at one that is not, or one round is over. */
    method GiveSecondChances(ghost v: Shard<T>)
      requires Consistent() && clockHand != null && order != []
      requires v.order != [] && Start(v) < |v.order| && View() == Shard(v.order, Some(Start(v)))
      modifies `clockHand, order
      ensures Consistent() && clockHand != null
      ensures
        var h, n := Start(v), |v.order|;
        var k := Chances(v.order, h, 0);
        View() == Shard(Cleared(v.order, h, k), Some(Position(h, n, k)))
    {
      hide *;
      ghost var h := Start(v);
      var maxScan := |order|;
      ViewParts();
      ClearedNone(v.order, h);
      for scanned := 0 to maxScan
        invariant Consistent() && clockHand != null && |v.order| == maxScan
        invariant View() == Shard(Cleared(v.order, h, scanned), Some(Position(h, maxScan, scanned)))
        invariant Chances(v.order, h, 0) == Chances(v.order, h, scanned)
      {
        ViewParts();
        ChancesStep(v.order, h, scanned);
        if !clockHand.accessed {
          return;
        }
        PassHand();
      }
      ChancesStep(v.order, h, maxScan);
    }

    /** Takes the accessed bit of the entry at the hand and moves the hand one towards the front, or around. */
    method PassHand()
      requires Consistent() && clockHand != null
      modifies `clockHand, clockHand`accessed
      ensures Consistent() && clockHand != null && old(View()).hand.Some?
      ensures old(View()).hand.value < |old(View()).order| && View() == Handed(old(View()))
    {
      hide *;
      ViewParts();
      HandAround();
      var candidate := clockHand;
      ghost var p := IndexIn(order, candidate);
      candidate.accessed := false;
      var next := Prev(candidate);
      if next == null {
        next := Back();
      }
      clockHand := next;
      HandedIs(old(View()), p);
      BitTaken(order, old(ItemsOf(order)), p);
      HandIs(order, clockHand);
      ConsistentIf(Handed(old(View())));
    }

    /** Where the hand goes from its element, and that the list finds every element where it is. */
    lemma {:induction false} HandAround()
      requires Consistent() && clockHand != null
      ensures
        var p := IndexIn(order, clockHand);
        && p < |order| && order[p] == clockHand
        && Prev(clockHand) == (if p > 0 then order[p - 1] else null)
        && Back() == order[|order| - 1]
      ensures forall i :: 0 <= i < |order| ==> IndexIn(order, order[i]) == i
    {
      hide IndexIn;
      InStepDistinct(items, order);
    }

    /** A scan with no hand starts at the back. */
    method PlaceHand()
      requires Consistent() && order != []
      modifies `clockHand
      ensures Consistent() && clockHand != null && old(View()).order != []
      ensures Start(old(View())) < |old(View()).order|
      ensures View() == Shard(old(View()).order, Some(Start(old(View()))))
    {
      hide InStep, DistinctItems, IndexIn, ItemsOf;
      ConsistentLinked();
      if clockHand == null {
        clockHand := Back();
      }
    }

    /** Looks a key up; only the accessed bit of a live entry changes. */
    method GetStatus(key: string, now: Time) returns (status: CacheStatus<T>)
      requires Valid()
      modifies order
      ensures Valid() && View() == AfterRead(old(View()), key, now)
      ensures status == Answer(Entries(old(View()).order), key, now)
    {
      hide InStep, DistinctItems, IndexIn, Find, Entries;
      LookupFacts(key);
      if key !in items {
        return CacheMiss;
      }
      var it := items[key];
      if Expired(it.entry, now) {
        return CacheMiss;
      }
      ghost var i := IndexIn(order, it);
      it.accessed := true;
      assert ItemsOf(order) == old(ItemsOf(order))[i := old(ItemsOf(order))[i].(accessed := true)];
      return if it.entry.artifact.None? then CacheHitNegative else CacheHitPositive(it.entry.artifact.value);
    }

    /** A key is in the map exactly when the list has it, at the element the map names. */
    lemma {:induction false} LookupFacts(key: string)
      requires Consistent()
      ensures key in items <==> Find(View().order, key) < |order|
      ensures key in items ==> items[key] in order && items[key].key == key
      ensures key in items ==> IndexIn(order, items[key]) == Find(View().order, key)
      ensures key in Entries(View().order) <==> key in items
      ensures key in items ==> Entries(View().order)[key] == items[key].entry
      ensures forall i :: 0 <= i < |order| ==> IndexIn(order, order[i]) == i
      ensures Linked(View())
    {
      hide Find, IndexIn, Entries;
      FindIn(items, order, ItemsOf(order), key);
      ConsistentLinked();
    }

    /** Creates or rewrites an entry at the front; a new entry beyond the cap evicts one, possibly itself. */
    method UpsertLocked(key: string, entry: Entry<T>) returns (evicted: bool)
      requires Valid()
      modifies this, order, globalSize
      ensures Linked(old(View()))
      ensures Valid() && View() == Stored(old(View()), maxEntries, key, entry)
      ensures evicted <==> OverCap(old(View()), maxEntries, key)
      ensures forall x :: x in order ==> x in old(order) || (fresh(x) && x.key == key)
      ensures globalSize.value - |order| == old(globalSize.value - |order|)
    {
      hide *;
      ValidParts();
      LookupFacts(key);
      ViewParts();
      ghost var v := View();
      StoredIs(v, maxEntries, key, entry);
      if key in items {
        MoveToFront(key, entry);
        ValidIf();
        return false;
      }
      PushFront(key, entry);
      UpsertedSpec(v, key, entry);
      ViewParts();
      InStepCount(items, order);
      if maxEntries > 0 && |items| > maxEntries {
        var removed := EvictOneCLOCK();
        ValidIf();
        return true;
      }
      ValidIf();
      return false;
    }

    lemma {:induction false} ValidParts()
      requires Valid()
      ensures Consistent() && (maxEntries > 0 ==> |order| <= maxEntries)
    {
    }

    lemma {:induction false} ValidIf()
      requires Consistent()
      ensures maxEntries <= 0 || |order| <= maxEntries ==> Valid()
    {
    }

    /** Rewrites the entry of a key that is present and moves it to the front. */
    method MoveToFront(key: string, entry: Entry<T>)
      requires Consistent() && key in items
      modifies `order, order
      ensures Consistent() && View() == Upserted(old(View()), key, entry)
      ensures |order| == |old(order)| && forall x :: x in order ==> x in old(order)
    {
      hide *;
      LookupFacts(key);
      ViewParts();
      var it := items[key];
      var i := IndexIn(order, it);
      var moved := [it] + (order[..i] + order[i + 1..]);
      MovedToFront(items, order, i, clockHand, moved);
      UpsertedFound(View(), key, entry);
      Rewrite(i, entry);
      MovedItems(order, i, old(ItemsOf(order)), Item(key, entry, false), moved);
      ghost var after := Shard(ItemsOf(moved), HandIn(moved, clockHand));
      assert after.order == Upserted(old(View()), key, entry).order;
      assert after.hand == Upserted(old(View()), key, entry).hand;
      order := moved;
      ConsistentIf(after);
    }

    /** Gives an element a new entry; a write is not a read, so its accessed bit is cleared. */
    method Rewrite(i: nat, entry: Entry<T>)
      requires Consistent() && i < |order|
      modifies order[i]
      ensures ItemsOf(order) == old(ItemsOf(order))[i := Item(order[i].key, entry, false)]
    {
      hide ItemsOf;
      ConsistentLinked();
      order[i].entry := entry;
      order[i].accessed := false;
    }

    lemma {:induction false} ConsistentIf(v: Shard<T>)
      requires InStep(items, order) && (clockHand != null ==> clockHand in order)
      requires v == Shard(ItemsOf(order), HandIn(order, clockHand))
      ensures Consistent() && View() == v
    {
    }

    /** Adds an entry for a key that is absent. */
    method PushFront(key: string, entry: Entry<T>)
      requires Consistent() && key !in items
      modifies `order, `items, globalSize
      ensures Consistent() && View() == Upserted(old(View()), key, entry)
      ensures |order| == |old(order)| + 1 && fresh(order[0]) && order[0].key == key && order[1..] == old(order)
      ensures globalSize.value == old(globalSize.value) + 1
    {
      hide InStep, DistinctItems, IndexIn, Find, ItemsOf, HandIn;
      LookupFacts(key);
      var el := new CacheItem(key, entry);
      InStepPush(items, order, el);
      order := [el] + order;
      items := items[key := el];
      globalSize.value := globalSize.value + 1;
      PushedItems(old(order), el);
      PushedHand(old(order), el, clockHand);
      assert ItemsOf(old(order)) == old(ItemsOf(order));
    }

    method Set(key: string, artifact: T, expiresAt: Option<Time>) returns (evicted: bool)
      requires Valid()
      modifies this, order, globalSize
      ensures Linked(old(View()))
      ensures Valid() && View() == Stored(old(View()), maxEntries, key, Entry(Some(artifact), expiresAt))
      ensures evicted <==> OverCap(old(View()), maxEntries, key)
      ensures forall x :: x in order ==> x in old(order) || (fresh(x) && x.key == key)
      ensures globalSize.value - |order| == old(globalSize.value - |order|)
    {
      evicted := UpsertLocked(key, Entry(Some(artifact), expiresAt));
    }

    method Nullify(key: string, expiresAt: Option<Time>) returns (evicted: bool)
      requires Valid()
      modifies this, order, globalSize
      ensures Linked(old(View()))
      ensures Valid() && View() == Stored(old(View()), maxEntries, key, Entry(None, expiresAt))
      ensures evicted <==> OverCap(old(View()), maxEntries, key)
      ensures forall x :: x in order ==> x in old(order) || (fresh(x) && x.key == key)
      ensures globalSize.value - |order| == old(globalSize.value - |order|)
    {
      evicted := UpsertLocked(key, Entry(None, expiresAt));
    }

    method Evict(key: string)
      requires Valid()
      modifies this, globalSize
      ensures Valid() && View() == WithoutKey(old(View()), key)
      ensures forall x :: x in order ==> x in old(order)
      ensures globalSize.value - |order| == old(globalSize.value - |order|)
    {
      hide InStep, DistinctItems, IndexIn, Find, Entries, Removed, ItemsOf;
      LookupFacts(key);
      if key in items {
        RemoveElementLocked(items[key]);
      }
    }

    method Clear()
      requires Valid()
      modifies this, globalSize
      ensures Valid() && View() == Shard([], None) && order == []
      ensures globalSize.value - |order| == old(globalSize.value - |order|)
    {
      InStepCount(items, order);
      globalSize.value := globalSize.value - |items|;
      items, order, clockHand, tombstones := map[], [], null, 0;
    }

    /** Takes the expiry off a live entry; an expired one is removed. */
    method Persist(key: string, now: Time) returns (live: bool)
      requires Valid()
      modifies this, order, globalSize
      ensures Valid() && View() == Persisted(old(View()), key, now)
      ensures live <==> Answer(Entries(old(View()).order), key, now) != CacheMiss
      ensures forall x :: x in order ==> x in old(order)
      ensures globalSize.value - |order| == old(globalSize.value - |order|)
    {
      hide InStep, DistinctItems, IndexIn, Find, Entries, Removed;
      LookupFacts(key);
      if key !in items {
        return false;
      }
      var it := items[key];
      if Expired(it.entry, now) {
        RemoveElementLocked(it);
        return false;
      }
      ghost var i := IndexIn(order, it);
      it.entry := it.entry.(expiresAt := None);
      assert ItemsOf(order) == old(ItemsOf(order))[i := old(ItemsOf(order))[i].(entry := it.entry)];
      return true;
    }

    /** Removes the expired entries among the last ones, at most limit of them when it is positive. */
    method SweepExpiredBounded(now: Time, limit: int) returns (expired: nat)
      requires Valid()
      modifies this, globalSize
      ensures Valid() && View() == Swept(old(View()), now, SweepEnd(|old(order)|, limit), |old(order)|)
      ensures expired == |old(order)| - |order|
      ensures forall x :: x in order ==> x in old(order)
      ensures globalSize.value - |order| == old(globalSize.value - |order|)
    {
      hide *;
      ValidParts();
      SweepPoint(|order|, now, 0);
      expired := 0;
      var examined := 0;
      ghost var n, v := |order|, View();
      ghost var low := SweepEnd(n, limit);
      SweepRange(n, limit);
      ghost var i := n;
      var e := Back();
      while e != null && (limit <= 0 || examined < limit)
        invariant i <= |order| && examined == n - i && low <= i && (e == null <==> i == 0)
        invariant e != null ==> e == order[i - 1]
        invariant Consistent() && |order| <= n && |View().order| == |order|
        invariant Swept(v, now, low, n) == Swept(View(), now, low, i)
        invariant expired == n - |order| && forall x :: x in order ==> x in old(order)
        invariant globalSize.value - |order| == old(globalSize.value) - n
        decreases i
      {
        SweepPoint(i, now, low);
        var next := Prev(e);
        examined := examined + 1;
        if Expired(e.entry, now) {
          RemoveElementLocked(e);
          expired := expired + 1;
        }
        SweepPoint(i - 1, now, low);
        i := i - 1;
        e := next;
      }
      SweepPoint(i, now, low);
      ValidIf();
    }

    /** What the sweep needs at position i: the element there, its predecessor, and the sweep of the rest. */
    lemma {:induction false} SweepPoint(i: nat, now: Time, low: nat)
      requires Consistent() && i <= |order|
      ensures |View().order| == |order| && Back() == (if order == [] then null else order[|order| - 1])
      ensures i <= low ==> Swept(View(), now, low, i) == View()
      ensures 0 < i ==>
        && IndexIn(order, order[i - 1]) == i - 1
        && Prev(order[i - 1]) == (if i > 1 then order[i - 2] else null)
        && View().order[i - 1].entry == order[i - 1].entry
      ensures low < i ==>
        Swept(View(), now, low, i) ==
        Swept(if Expired(order[i - 1].entry, now) then Removed(View(), i - 1) else View(), now, low, i - 1)
    {
      hide InStep, IndexIn, DistinctItems, HandIn;
      InStepDistinct(items, order);
    }

    /** Rebuilds the map once enough deletions have accumulated; nothing observable changes. */
    method CompactIfNeeded() returns (compacted: bool)
      requires Valid()
      modifies `items, `tombstones
      ensures Valid() && items == old(items) && View() == old(View())
      ensures compacted <==> old(tombstones) >= compactAt
      ensures tombstones == if compacted then 0 else old(tombstones)
    {
      hide InStep, DistinctItems, ItemsOf, HandIn;
      RebuiltNone(items);
      if tombstones < compactAt {
        return false;
      }
      var rebuilt := map[];
      var todo := items.Keys;
      while todo != {}
        invariant unchanged(this) && todo <= items.Keys && rebuilt == items - todo
        decreases |todo|
      {
        var k :| k in todo;
        RebuiltStep(items, todo, k);
        rebuilt := rebuilt[k := items[k]];
        todo := todo - {k};
      }
      RebuiltAll(items, todo);
      assert rebuilt == items;
      items := rebuilt;
      tombstones := 0;
      return true;
    }

    lemma {:induction false} ViewParts()
      requires Consistent()
      ensures View().order == ItemsOf(order) && View().hand == HandIn(order, clockHand)
      ensures clockHand != null ==>
        && View().hand == Some(IndexIn(order, clockHand)) && IndexIn(order, clockHand) < |order|
        && View().order[IndexIn(order, clockHand)].accessed == clockHand.accessed
        && clockHand in order
      ensures clockHand == null ==> View().hand == None
      ensures InStep(items, order)
    {
    }
  }

  lemma {:induction false} UpsertedFound<T>(v: Shard<T>, key: string, entry: Entry<T>)
    ensures
      var i := Find(v.order, key);
      i < |v.order| ==>
        Upserted(v, key, entry) ==
        Shard([Item(key, entry, false)] + (v.order[..i] + v.order[i + 1..]), HandAfterMove(v.hand, i))
  {
  }

  lemma {:induction false} StoredIs<T>(v: Shard<T>, cap: int, key: string, entry: Entry<T>)
    requires Linked(v)
    ensures OverCap(v, cap, key) <==> Find(v.order, key) == |v.order| && cap > 0 && |v.order| + 1 > cap
    ensures Linked(Upserted(v, key, entry))
    ensures Stored(v, cap, key, entry) ==
            if OverCap(v, cap, key) then EvictedOne(Upserted(v, key, entry)) else Upserted(v, key, entry)
  {
    hide Find, Upserted, EvictedOne;
    UpsertedSpec(v, key, entry);
  }

  lemma {:induction false} MovedToFront<T>(
    items: map<string, CacheItem<T>>, order: seq<CacheItem<T>>, i: nat, hand: CacheItem?<T>, moved: seq<CacheItem<T>>)
    requires InStep(items, order) && i < |order| && (hand != null ==> hand in order)
    requires moved == [order[i]] + (order[..i] + order[i + 1..])
    ensures InStep(items, moved) && (hand != null ==> hand in moved)
    ensures |moved| == |order| && forall x :: x in moved ==> x in order
    ensures HandIn(moved, hand) == HandAfterMove(HandIn(order, hand), i)
  {
    hide IndexIn, InStep, DistinctItems;
    InStepToFront(items, order, i);
    InStepDistinct(items, order);
    InStepDistinct(items, moved);
    if hand != null {
      var h :| 0 <= h < |order| && order[h] == hand;
      assert moved[if h == i then 0 else if h < i then h + 1 else h] == hand;
    }
  }

  lemma {:induction false} MovedItems<T>(
    order: seq<CacheItem<T>>, i: nat, before: seq<Item<T>>, item: Item<T>, moved: seq<CacheItem<T>>)
    requires i < |order| && |before| == |order| && ItemsOf(order) == before[i := item]
    requires moved == [order[i]] + (order[..i] + order[i + 1..])
    ensures ItemsOf(moved) == [item] + (before[..i] + before[i + 1..])
  {
    assert forall j :: 0 <= j < |order| && j != i ==> ItemsOf(order)[j] == before[j];
  }

  lemma {:induction false} BitTaken<T>(order: seq<CacheItem<T>>, before: seq<Item<T>>, p: nat)
    requires p < |order| && |before| == |order| && !order[p].accessed
    requires forall j :: 0 <= j < |order| ==>
      before[j] == Item(order[j].key, order[j].entry, if j == p then before[p].accessed else order[j].accessed)
    ensures ItemsOf(order) == before[p := before[p].(accessed := false)]
  {
  }

  lemma {:induction false} HandIs<T>(order: seq<CacheItem<T>>, el: CacheItem<T>)
    ensures HandIn(order, el) == Some(IndexIn(order, el))
  {
  }

  lemma {:induction false} HandedIs<T>(v: Shard<T>, p: nat)
    requires v.hand == Some(p) && p < |v.order|
    ensures Handed(v) ==
            Shard(v.order[p := v.order[p].(accessed := false)], Some(if p > 0 then p - 1 else |v.order| - 1))
  {
  }

  lemma {:induction false} PushedItems<T>(order: seq<CacheItem<T>>, el: CacheItem<T>)
    ensures ItemsOf([el] + order) == [Item(el.key, el.entry, el.accessed)] + ItemsOf(order)
  {
  }

  lemma {:induction false} PushedHand<T>(order: seq<CacheItem<T>>, el: CacheItem<T>, hand: CacheItem?<T>)
    requires el !in order && (hand != null ==> hand in order)
    ensures hand != null ==> hand in [el] + order
    ensures HandIn([el] + order, hand) == match HandIn(order, hand) case None => None case Some(h) => Some(h + 1)
  {
    assert ([el] + order)[1..] == order;
  }

  lemma {:induction false} EvictedFromNone<T>(v: Shard<T>)
    requires Linked(v) && v.order == []
    ensures EvictedOne(v) == v
  {
  }

  lemma {:induction false} EvictedIs<T>(v: Shard<T>, k: nat)
    requires Linked(v) && v.order != [] && k == Chances(v.order, Start(v), 0)
    ensures
      var h, n := Start(v), |v.order|;
      EvictedOne(v) == Removed(Shard(Cleared(v.order, h, k), Some(Position(h, n, k))), Position(h, n, k))
  {
    hide Chances, Cleared, Position, Removed;
  }

  /** A second chance for the entry at the hand. */
  function Handed<T>(v: Shard<T>): Shard<T>
    requires v.hand.Some? && v.hand.value < |v.order|
  {
    var p := v.hand.value;
    Shard(v.order[p := v.order[p].(accessed := false)], Some(if p > 0 then p - 1 else |v.order| - 1))
  }

  lemma {:induction false} ClearedNone<T>(order: seq<Item<T>>, h: nat)
    requires h < |order|
    ensures Cleared(order, h, 0) == order
    ensures Position(h, |order|, 0) == h
  {
  }

  lemma {:induction false} ChancesStep<T>(order: seq<Item<T>>, h: nat, k: nat)
    requires h < |order| && k <= |order|
    ensures
      var n := |order|;
      var p := Position(h, n, k);
      && (k == n ==> p == h && Chances(order, h, k) == n)
      && (k < n ==>
        && Cleared(order, h, k)[p] == order[p]
        && (!order[p].accessed ==> Chances(order, h, k) == k)
        && (order[p].accessed ==>
          && Chances(order, h, k) == Chances(order, h, k + 1)
          && Handed(Shard(Cleared(order, h, k), Some(p))) ==
            Shard(Cleared(order, h, k + 1), Some(Position(h, n, k + 1)))))
  {
  }

  // ---------- facts about lists of elements ----------

  function HandAfter<T>(order: seq<CacheItem<T>>, hand: CacheItem?<T>, i: nat): CacheItem?<T>
    requires i < |order|
  {
    if hand != order[i] then hand else if i > 0 then order[i - 1] else if |order| > 1 then order[1] else null
  }

  lemma {:induction false} RebuiltNone<T>(items: map<string, CacheItem<T>>)
    ensures items - items.Keys == map[]
  {
  }

  lemma {:induction false} RebuiltStep<T>(items: map<string, CacheItem<T>>, todo: set<string>, k: string)
    requires k in todo && k in items
    ensures (items - todo)[k := items[k]] == items - (todo - {k})
  {
  }

  lemma {:induction false} RebuiltAll<T>(items: map<string, CacheItem<T>>, todo: set<string>)
    requires todo == {}
    ensures items - todo == items
  {
  }

  lemma {:induction false} RemovedIs<T>(v: Shard<T>, i: nat)
    requires i < |v.order|
    ensures Removed(v, i) == Shard(v.order[..i] + v.order[i + 1..], Removed(v, i).hand)
  {
  }

  lemma {:induction false} HandAfterIs<T>(order: seq<CacheItem<T>>, i: nat, hand: CacheItem?<T>)
    requires i < |order|
    ensures hand != order[i] ==> HandAfter(order, hand, i) == hand
    ensures hand == order[i] ==>
      HandAfter(order, hand, i) == if i > 0 then order[i - 1] else if |order| > 1 then order[1] else null
  {
  }

  lemma {:induction false} NeighboursOf<T>(order: seq<CacheItem<T>>, i: nat)
    requires i < |order| && IndexIn(order, order[i]) == i
    ensures i > 0 ==> order[i - 1] != order[i]
  {
    if i > 0 {
      NeighboursOf(order[1..], i - 1);
    }
  }

  lemma {:induction false} RemovedItems<T>(order: seq<CacheItem<T>>, i: nat)
    requires i < |order|
    ensures ItemsOf(order[..i] + order[i + 1..]) == ItemsOf(order)[..i] + ItemsOf(order)[i + 1..]
    ensures forall x :: x in order[..i] + order[i + 1..] ==> x in order
  {
  }

  lemma {:induction false} RemovedInStep<T>(items: map<string, CacheItem<T>>, order: seq<CacheItem<T>>, i: nat)
    requires InStep(items, order) && i < |order|
    ensures InStep(items - {order[i].key}, order[..i] + order[i + 1..])
    ensures i + 1 < |order| ==> order[i + 1] != order[i]
  {
    InStepRemove(items, order, i);
  }

  lemma {:induction false} RemovedHand<T>(
    items: map<string, CacheItem<T>>, order: seq<CacheItem<T>>, i: nat, hand: CacheItem?<T>)
    requires InStep(items, order) && i < |order| && (hand != null ==> hand in order)
    ensures
      var rest, after := order[..i] + order[i + 1..], HandAfter(order, hand, i);
      && (after != null ==> after in rest)
      && HandIn(rest, after) == Removed(Shard(ItemsOf(order), HandIn(order, hand)), i).hand
  {
    hide IndexIn, InStep, DistinctItems, ItemsOf;
    InStepDistinct(items, order);
    InStepRemove(items, order, i);
    var rest, after := order[..i] + order[i + 1..], HandAfter(order, hand, i);
    InStepDistinct(items - {order[i].key}, rest);
    if after != null {
      var j :| 0 <= j < |order| && order[j] == after;
      assert rest[if j < i then j else j - 1] == order[j];
    }
  }
}
