/**
 One shard of the cache on values: the entries in traversal order and the position of the clock hand. Position 0
 is the front of the list, where writes go; eviction scans from the hand towards the front and wraps around.
*/
module ClockShards {
  import opened Wrappers

  /** Nanoseconds on the cache's clock. */
  type Time = int

  /** A cached artifact, or None for the marker "known to be absent"; without an expiry it never expires. */
  datatype Entry<T> = Entry(artifact: Option<T>, expiresAt: Option<Time>)

  datatype Item<T> = Item(key: string, entry: Entry<T>, accessed: bool)

  datatype Shard<T> = Shard(order: seq<Item<T>>, hand: Option<nat>)

  datatype CacheStatus<T> = CacheMiss | CacheHitPositive(artifact: T) | CacheHitNegative

  predicate Expired<T>(e: Entry<T>, now: Time) {
    e.expiresAt.Some? && now > e.expiresAt.value
  }

  predicate DistinctKeys<T>(order: seq<Item<T>>) {
    forall i, j :: 0 <= i < j < |order| ==> order[i].key != order[j].key
  }

  /** Keys are unique and the hand, if any, is at an entry. */
  predicate Linked<T>(st: Shard<T>) {
    DistinctKeys(st.order) && (st.hand.Some? ==> st.hand.value < |st.order|)
  }

  /** The position of a key, or the length of the list. */
  function Find<T>(order: seq<Item<T>>, key: string): (i: nat)
    ensures i <= |order|
    ensures i < |order| ==> order[i].key == key
    ensures i == |order| ==> forall j :: 0 <= j < |order| ==> order[j].key != key
  {
    if order == [] then 0 else if order[0].key == key then 0 else Find(order[1..], key) + 1
  }

  /** The map a shard stands for. */
  function Entries<T>(order: seq<Item<T>>): (m: map<string, Entry<T>>)
    ensures forall k :: k in m <==> Find(order, k) < |order|
    ensures forall k :: k in m ==> m[k] == order[Find(order, k)].entry
  {
    if order == [] then map[] else Entries(order[1..])[order[0].key := order[0].entry]
  }

  /** What a lookup at a time answers. */
  function Answer<T>(m: map<string, Entry<T>>, key: string, now: Time): CacheStatus<T> {
    if key !in m || Expired(m[key], now) then CacheMiss
    else if m[key].artifact.None? then CacheHitNegative
    else CacheHitPositive(m[key].artifact.value)
  }

  lemma {:induction false} EntriesAre<T>(order: seq<Item<T>>, m: map<string, Entry<T>>)
    requires forall k :: k in m <==> Find(order, k) < |order|
    requires forall k :: k in m ==> m[k] == order[Find(order, k)].entry
    ensures Entries(order) == m
  {
    hide *;
  }

  lemma {:induction false} FindAt<T>(order: seq<Item<T>>, i: nat)
    requires DistinctKeys(order) && i < |order|
    ensures Find(order, order[i].key) == i
  {
    hide Find;
  }

  lemma {:induction false} EntryCount<T>(order: seq<Item<T>>)
    requires DistinctKeys(order)
    ensures |Entries(order)| == |order|
  {
    if order != [] {
      EntryCount(order[1..]);
      var rest := Entries(order[1..]);
      assert order[0].key !in rest;
      assert Entries(order).Keys == rest.Keys + {order[0].key};
    }
  }

  // ---------- removal ----------

  /** Removing an entry moves a hand that points at it to the entry before, or else after, or to none. */
  function Removed<T>(st: Shard<T>, i: nat): Shard<T>
    requires i < |st.order|
  {
    var hand := match st.hand
      case None => None
      case Some(h) =>
        if h == i then (if i > 0 then Some(i - 1) else if |st.order| > 1 then Some(0) else None)
        else if h > i then Some(h - 1)
        else Some(h);
    Shard(st.order[..i] + st.order[i + 1..], hand)
  }

  lemma {:induction false} RemovedFind<T>(order: seq<Item<T>>, i: nat, rest: seq<Item<T>>, k: string)
    requires DistinctKeys(order) && i < |order| && rest == order[..i] + order[i + 1..]
    ensures Find(rest, k) < |rest| <==> Find(order, k) < |order| && k != order[i].key
    ensures Find(rest, k) < |rest| ==> rest[Find(rest, k)] == order[Find(order, k)]
  {
    hide Find;
    assert forall j :: 0 <= j < |rest| ==> rest[j] == order[if j < i then j else j + 1];
    var j, r := Find(order, k), Find(rest, k);
    assert j < |order| && j != i ==> rest[if j < i then j else j - 1].key == k;
    if r < |rest| {
      FindAt(order, if r < i then r else r + 1);
    }
  }

  lemma {:induction false} RemovedLinked<T>(st: Shard<T>, i: nat)
    requires Linked(st) && i < |st.order|
    ensures Linked(Removed(st, i))
  {
    var rest := Removed(st, i).order;
    assert forall j :: 0 <= j < |rest| ==> rest[j] == st.order[if j < i then j else j + 1];
  }

  lemma {:induction false} RemovedSpec<T>(st: Shard<T>, i: nat)
    requires Linked(st) && i < |st.order|
    ensures Linked(Removed(st, i)) && |Removed(st, i).order| == |st.order| - 1
    ensures Entries(Removed(st, i).order) == Entries(st.order) - {st.order[i].key}
  {
    RemovedLinked(st, i);
    var order, m := Removed(st, i).order, Entries(st.order) - {st.order[i].key};
    hide Entries, Find;
    forall k
      ensures k in m <==> Find(order, k) < |order|
      ensures k in m ==> m[k] == order[Find(order, k)].entry
    {
      RemovedFind(st.order, i, order, k);
    }
    EntriesAre(order, m);
  }

  // ---------- second-chance eviction ----------

  /** How many entries the scan from h has passed when it reaches i. */
  function Behind(h: nat, n: nat, i: nat): nat
    requires h < n && i < n
  {
    if i <= h then h - i else h + n - i
  }

  /** Where the scan from h is after k steps. */
  function Position(h: nat, n: nat, k: nat): (i: nat)
    requires h < n && k <= n
    ensures i < n
    ensures k < n ==> Behind(h, n, i) == k
    ensures k == n ==> i == h
  {
    if k <= h then h - k else h + n - k
  }

  /** The list after the scan from h has passed k entries and cleared their bits. */
  function Cleared<T>(order: seq<Item<T>>, h: nat, k: nat): (r: seq<Item<T>>)
    requires h < |order|
    ensures |r| == |order|
  {
    seq(|order|, i requires 0 <= i < |order| =>
      if Behind(h, |order|, i) < k then order[i].(accessed := false) else order[i])
  }

  /** How many accessed entries the scan passes, having passed k: all n of them when every bit is set. */
  function Chances<T>(order: seq<Item<T>>, h: nat, k: nat): (r: nat)
    requires h < |order| && k <= |order|
    ensures k <= r <= |order|
    decreases |order| - k
  {
    if k == |order| || !order[Position(h, |order|, k)].accessed then k else Chances(order, h, k + 1)
  }

  lemma {:induction false} ChancesSpec<T>(order: seq<Item<T>>, h: nat, k: nat)
    requires h < |order| && k <= |order|
    ensures
      var r := Chances(order, h, k);
      && (r < |order| ==> !order[Position(h, |order|, r)].accessed)
      && forall j {:trigger Position(h, |order|, j)} :: k <= j < r ==> order[Position(h, |order|, j)].accessed
    decreases |order| - k
  {
    if k < |order| && order[Position(h, |order|, k)].accessed {
      ChancesSpec(order, h, k + 1);
    }
  }

  /** The hand, or the back of the list when there is none. */
  function Start<T>(st: Shard<T>): nat
    requires st.order != []
  {
    match st.hand case Some(h) => h case None => |st.order| - 1
  }

  function Victim<T>(st: Shard<T>): (v: nat)
    requires Linked(st) && st.order != []
    ensures v < |st.order|
  {
    Position(Start(st), |st.order|, Chances(st.order, Start(st), 0))
  }

  function EvictedOne<T>(st: Shard<T>): Shard<T>
    requires Linked(st)
  {
    if st.order == [] then st
    else
      var h := Start(st);
      Removed(Shard(Cleared(st.order, h, Chances(st.order, h, 0)), Some(Victim(st))), Victim(st))
  }

  /**
   Second chance: the victim is the first entry without the accessed bit in cyclic order from the hand, or the
   starting entry when all had it.
  */
  lemma {:induction false} VictimSpec<T>(st: Shard<T>)
    requires Linked(st) && st.order != []
    ensures
      var n, h, v := |st.order|, Start(st), Victim(st);
      || (!st.order[v].accessed && forall i :: 0 <= i < n && Behind(h, n, i) < Behind(h, n, v) ==> st.order[i].accessed)
      || (v == h && forall i :: 0 <= i < n ==> st.order[i].accessed)
  {
    var n, h := |st.order|, Start(st);
    var k := Chances(st.order, h, 0);
    ChancesSpec(st.order, h, 0);
    forall i | 0 <= i < n && Behind(h, n, i) < k
      ensures st.order[i].accessed
    {
      assert Position(h, n, Behind(h, n, i)) == i;
    }
  }

  /** Lists with the same keys and entries, whatever their accessed bits, stand for the same map. */
  lemma {:induction false} SameEntries<T>(a: seq<Item<T>>, b: seq<Item<T>>)
    requires |a| == |b| && forall i :: 0 <= i < |a| ==> a[i].key == b[i].key && a[i].entry == b[i].entry
    ensures Entries(a) == Entries(b)
  {
    if a != [] {
      SameEntries(a[1..], b[1..]);
      assert a[0].key == b[0].key && a[0].entry == b[0].entry;
    }
  }

  lemma {:induction false} ClearedEntries<T>(order: seq<Item<T>>, h: nat, k: nat)
    requires DistinctKeys(order) && h < |order|
    ensures DistinctKeys(Cleared(order, h, k)) && Entries(Cleared(order, h, k)) == Entries(order)
  {
    hide Entries, Behind;
    SameEntries(Cleared(order, h, k), order);
  }

  /** Which entries lose their accessed bit: those between the hand and the victim, or all when all had it. */
  predicate Passed<T>(st: Shard<T>, i: nat)
    requires Linked(st) && i < |st.order|
  {
    var n, h, v := |st.order|, Start(st), Victim(st);
    st.order[v].accessed || Behind(h, n, i) < Behind(h, n, v)
  }

  lemma {:induction false} RemovedAt<T>(st: Shard<T>, v: nat, i: nat)
    requires v < |st.order| && i < |st.order| && i != v
    ensures |Removed(st, v).order| == |st.order| - 1
    ensures Removed(st, v).order[if i < v then i else i - 1] == st.order[i]
  {
  }

  /** The list when the victim is reached: the entries passed have lost their accessed bit. */
  function AtVictim<T>(st: Shard<T>): Shard<T>
    requires Linked(st) && st.order != []
  {
    var h := Start(st);
    Shard(Cleared(st.order, h, Chances(st.order, h, 0)), Some(Victim(st)))
  }

  lemma {:induction false} EvictedAtVictim<T>(st: Shard<T>)
    requires Linked(st) && st.order != []
    ensures |AtVictim(st).order| == |st.order| && EvictedOne(st) == Removed(AtVictim(st), Victim(st))
    ensures Linked(AtVictim(st)) && Entries(AtVictim(st).order) == Entries(st.order)
    ensures AtVictim(st).order[Victim(st)].key == st.order[Victim(st)].key
  {
    ClearedEntries(st.order, Start(st), Chances(st.order, Start(st), 0));
    hide Entries, Chances;
  }

  /** Eviction removes exactly the victim. */
  lemma {:induction false} EvictedOneSpec<T>(st: Shard<T>)
    requires Linked(st) && st.order != []
    ensures Linked(EvictedOne(st)) && |EvictedOne(st).order| == |st.order| - 1
    ensures Entries(EvictedOne(st).order) == Entries(st.order) - {st.order[Victim(st)].key}
  {
    hide *;
    EvictedAtVictim(st);
    RemovedSpec(AtVictim(st), Victim(st));
  }

  lemma {:induction false} AtVictimKeeps<T>(st: Shard<T>, i: nat)
    requires Linked(st) && i < |st.order| && i != Victim(st)
    ensures |AtVictim(st).order| == |st.order|
    ensures AtVictim(st).order[i] == if Passed(st, i) then st.order[i].(accessed := false) else st.order[i]
  {
    hide Entries, Chances, DistinctKeys, Passed, Behind;
    PassedIs(st);
  }

  /** The entries that stay keep their order and contents; only those passed lose their accessed bit. */
  lemma {:induction false} EvictedOneKeeps<T>(st: Shard<T>, i: nat)
    requires Linked(st) && i < |st.order| && i != Victim(st)
    ensures |EvictedOne(st).order| == |st.order| - 1
    ensures EvictedOne(st).order[if i < Victim(st) then i else i - 1] ==
            if Passed(st, i) then st.order[i].(accessed := false) else st.order[i]
  {
    hide *;
    EvictedAtVictim(st);
    RemovedAt(AtVictim(st), Victim(st), i);
    AtVictimKeeps(st, i);
  }

  lemma {:induction false} PassedIs<T>(st: Shard<T>)
    requires Linked(st) && st.order != []
    ensures forall i {:trigger Passed(st, i)} :: 0 <= i < |st.order| && i != Victim(st) ==>
      (Passed(st, i) <==> Behind(Start(st), |st.order|, i) < Chances(st.order, Start(st), 0))
  {
    var n, h := |st.order|, Start(st);
    ChancesSpec(st.order, h, 0);
    hide Chances, DistinctKeys;
    if Chances(st.order, h, 0) == n {
      assert Position(h, n, 0) == h;
    }
  }

  // ---------- writes ----------

  /** The position of the hand when the entry at i has moved to the front. */
  function HandAfterMove(hand: Option<nat>, i: nat): Option<nat> {
    match hand
    case None => None
    case Some(h) => Some(if h == i then 0 else if h < i then h + 1 else h)
  }

  /**
   A write puts the entry at the front with its accessed bit clear, whether the key is new or moved there; the
   hand stays at the entry it was at.
  */
  function Upserted<T>(st: Shard<T>, key: string, entry: Entry<T>): Shard<T> {
    var i := Find(st.order, key);
    var item := Item(key, entry, false);
    if i < |st.order| then
      Shard([item] + (st.order[..i] + st.order[i + 1..]), HandAfterMove(st.hand, i))
    else
      Shard([item] + st.order, match st.hand case None => None case Some(h) => Some(h + 1))
  }

  predicate OverCap<T>(st: Shard<T>, cap: int, key: string) {
    Find(st.order, key) == |st.order| && cap > 0 && |st.order| + 1 > cap
  }

  /** A write of a new key that exceeds the cap evicts one entry. */
  function Stored<T>(st: Shard<T>, cap: int, key: string, entry: Entry<T>): Shard<T>
    requires Linked(st)
  {
    UpsertedSpec(st, key, entry);
    if OverCap(st, cap, key) then EvictedOne(Upserted(st, key, entry)) else Upserted(st, key, entry)
  }

  lemma {:induction false} ConsEntries<T>(item: Item<T>, rest: seq<Item<T>>)
    ensures Entries([item] + rest) == Entries(rest)[item.key := item.entry]
  {
    assert ([item] + rest)[1..] == rest;
  }

  lemma {:induction false} PushedDistinct<T>(item: Item<T>, rest: seq<Item<T>>)
    requires DistinctKeys(rest) && forall j :: 0 <= j < |rest| ==> rest[j].key != item.key
    ensures DistinctKeys([item] + rest)
  {
  }

  lemma {:induction false} UpsertedSpec<T>(st: Shard<T>, key: string, entry: Entry<T>)
    requires Linked(st)
    ensures
      var w := Upserted(st, key, entry);
      && Linked(w) && Entries(w.order) == Entries(st.order)[key := entry]
      && |w.order| == |st.order| + (if Find(st.order, key) < |st.order| then 0 else 1)
      && w.order[0] == Item(key, entry, false)
  {
    hide Find, Entries, DistinctKeys;
    var i, item := Find(st.order, key), Item(key, entry, false);
    if i < |st.order| {
      RemovedSpec(st, i);
      ConsEntries(item, Removed(st, i).order);
      assert (Entries(st.order) - {key})[key := entry] == Entries(st.order)[key := entry];
      RemovedLacks(st, i);
      PushedDistinct(item, Removed(st, i).order);
    } else {
      ConsEntries(item, st.order);
      PushedDistinct(item, st.order);
    }
  }

  lemma {:induction false} RemovedLacks<T>(st: Shard<T>, i: nat)
    requires Linked(st) && i < |st.order|
    ensures forall j :: 0 <= j < |Removed(st, i).order| ==> Removed(st, i).order[j].key != st.order[i].key
  {
    var rest := Removed(st, i).order;
    assert forall j :: 0 <= j < |rest| ==> rest[j] == st.order[if j < i then j else j + 1];
  }

  /** A write puts its entry at the front; the others keep their order and their bits. */
  lemma {:induction false} WritesToFront<T>(st: Shard<T>, key: string, entry: Entry<T>)
    requires Linked(st)
    ensures
      var w := Upserted(st, key, entry).order;
      && (key !in Entries(st.order) ==> w == [Item(key, entry, false)] + st.order)
      && forall i :: 0 <= i < |st.order| && st.order[i].key == key ==>
           w == [Item(key, entry, false)] + (st.order[..i] + st.order[i + 1..])
  {
    forall i | 0 <= i < |st.order| && st.order[i].key == key
      ensures i == Find(st.order, key)
    {
      FindAt(st.order, i);
    }
    hide Find, Entries;
  }

  /** A write maps the key to the entry, except that a new key in a full shard costs exactly the victim. */
  lemma {:induction false} StoredSpec<T>(st: Shard<T>, cap: int, key: string, entry: Entry<T>)
    requires Linked(st) && (cap > 0 ==> |st.order| <= cap)
    ensures
      var up, w := Upserted(st, key, entry), Stored(st, cap, key, entry);
      && Linked(up) && up.order != [] && Linked(w) && (cap > 0 ==> |w.order| <= cap)
      && |w.order| == |st.order| + (if key in Entries(st.order) || (cap > 0 && |st.order| == cap) then 0 else 1)
      && Entries(w.order) ==
         if OverCap(st, cap, key) then Entries(st.order)[key := entry] - {up.order[Victim(up)].key}
         else Entries(st.order)[key := entry]
  {
    UpsertedSpec(st, key, entry);
    if OverCap(st, cap, key) {
      EvictedOneSpec(Upserted(st, key, entry));
    }
    hide Find, Entries, Upserted, EvictedOne, Victim, DistinctKeys;
  }

  /**
   The newcomer itself is what an overfull shard evicts exactly when the scan finds no entry without its accessed
   bit between the hand and the front: a new entry starts at the front with its bit clear.
  */
  lemma {:induction false} NewcomerEvicted<T>(st: Shard<T>, cap: int, key: string, entry: Entry<T>)
    requires Linked(st) && OverCap(st, cap, key) && st.order != []
    ensures
      key !in Entries(Stored(st, cap, key, entry).order) <==>
      forall i :: 0 <= i <= Start(st) ==> st.order[i].accessed
  {
    var up := Upserted(st, key, entry);
    UpsertedSpec(st, key, entry);
    EvictedOneSpec(up);
    assert Start(up) == Start(st) + 1 && up.order[0].key == key;
    assert forall i :: 0 <= i < |st.order| ==> up.order[i + 1] == st.order[i];
    hide Find, Entries, EvictedOne, Victim, Upserted;
    FrontIsVictim(up);
    var v := Victim(up);
    assert v != 0 ==> up.order[v].key != up.order[0].key;
    if forall i :: 1 <= i <= Start(up) ==> up.order[i].accessed {
      forall i | 0 <= i <= Start(st)
        ensures st.order[i].accessed
      {
        assert up.order[i + 1].accessed;
      }
    }
  }

  lemma {:induction false} FrontIsVictim<T>(st: Shard<T>)
    requires Linked(st) && st.order != [] && !st.order[0].accessed
    ensures Victim(st) == 0 <==> forall i :: 1 <= i <= Start(st) ==> st.order[i].accessed
  {
    VictimSpec(st);
    hide Victim, DistinctKeys;
    var n, h, v := |st.order|, Start(st), Victim(st);
    if v == 0 {
      forall i | 1 <= i <= h
        ensures st.order[i].accessed
      {
        assert Behind(h, n, i) < Behind(h, n, 0);
      }
    }
  }

  // ---------- reads ----------

  function Touched<T>(st: Shard<T>, i: nat): Shard<T>
    requires i < |st.order|
  {
    Shard(st.order[i := st.order[i].(accessed := true)], st.hand)
  }

  /** A read marks a live entry as accessed and changes nothing else. */
  function AfterRead<T>(st: Shard<T>, key: string, now: Time): Shard<T> {
    var i := Find(st.order, key);
    if i < |st.order| && !Expired(st.order[i].entry, now) then Touched(st, i) else st
  }

  lemma {:induction false} AfterReadSpec<T>(st: Shard<T>, key: string, now: Time)
    requires Linked(st)
    ensures Linked(AfterRead(st, key, now))
    ensures Entries(AfterRead(st, key, now).order) == Entries(st.order)
  {
    hide Find, Entries;
    SameEntries(AfterRead(st, key, now).order, st.order);
  }

  /** A read that does not miss marks its entry; keys, entries, the other bits and the hand are as before. */
  lemma {:induction false} ReadMarks<T>(st: Shard<T>, key: string, now: Time)
    requires Linked(st)
    ensures
      var r := AfterRead(st, key, now);
      && r.hand == st.hand && |r.order| == |st.order|
      && forall i {:trigger r.order[i]} :: 0 <= i < |st.order| ==>
           && r.order[i].key == st.order[i].key && r.order[i].entry == st.order[i].entry
           && (r.order[i].accessed <==>
                 st.order[i].accessed ||
                 (st.order[i].key == key && Answer(Entries(st.order), key, now) != CacheMiss))
  {
    forall i | 0 <= i < |st.order| && st.order[i].key == key
      ensures i == Find(st.order, key)
    {
      FindAt(st.order, i);
    }
    hide Find, Entries;
  }

  // ---------- evict, persist, sweep ----------

  function WithoutKey<T>(st: Shard<T>, key: string): Shard<T> {
    var i := Find(st.order, key);
    if i < |st.order| then Removed(st, i) else st
  }

  lemma {:induction false} WithoutKeySpec<T>(st: Shard<T>, key: string)
    requires Linked(st)
    ensures Linked(WithoutKey(st, key)) && |WithoutKey(st, key).order| <= |st.order|
    ensures Entries(WithoutKey(st, key).order) == Entries(st.order) - {key}
  {
    hide Find, Entries;
    var i := Find(st.order, key);
    if i < |st.order| {
      RemovedSpec(st, i);
    } else {
      assert Entries(st.order) - {key} == Entries(st.order);
    }
  }

  // ---------- where the hand is ----------

  /** The key of the entry the hand is at. */
  function AtHand<T>(st: Shard<T>): Option<string> {
    match st.hand
    case Some(h) => if h < |st.order| then Some(st.order[h].key) else None
    case None => None
  }

  /**
   Removing an entry leaves the hand at the entry it was at. At the removed one itself it moves to the entry before
   it, or from the front to the one behind; in an empty shard it is nowhere.
  */
  lemma {:induction false} HandAfterRemoval<T>(st: Shard<T>, i: nat)
    requires Linked(st) && i < |st.order|
    ensures
      var key := st.order[i].key;
      && (AtHand(st) != Some(key) ==> AtHand(WithoutKey(st, key)) == AtHand(st))
      && (AtHand(st) == Some(key) ==>
            AtHand(WithoutKey(st, key)) ==
              if |st.order| == 1 then None else Some(st.order[if i > 0 then i - 1 else 1].key))
  {
    FindAt(st.order, i);
    hide Find;
    var rest := st.order[..i] + st.order[i + 1..];
    assert forall j :: 0 <= j < |rest| ==> rest[j] == st.order[if j < i then j else j + 1];
  }

  /**
   An eviction removes the entry the scan stopped at, so the hand moves to the one before it, or from the front to
   the one behind.
  */
  lemma {:induction false} HandAfterEviction<T>(st: Shard<T>)
    requires Linked(st) && st.order != []
    ensures
      var v := Victim(st);
      AtHand(EvictedOne(st)) ==
        if |st.order| == 1 then None else Some(st.order[if v > 0 then v - 1 else 1].key)
  {
    var v := Victim(st);
    var order := Cleared(st.order, Start(st), Chances(st.order, Start(st), 0));
    ClearedKeys(st.order, Start(st), Chances(st.order, Start(st), 0));
    hide Victim, Cleared, Chances;
    var rest := order[..v] + order[v + 1..];
    assert forall j :: 0 <= j < |rest| ==> rest[j] == order[if j < v then j else j + 1];
  }

  lemma {:induction false} ClearedKeys<T>(order: seq<Item<T>>, h: nat, k: nat)
    requires h < |order| && k <= |order|
    ensures |Cleared(order, h, k)| == |order|
    ensures forall i :: 0 <= i < |order| ==> Cleared(order, h, k)[i].key == order[i].key
  {
  }

  /** A write moves its entry to the front; the hand stays at the entry it was at. */
  lemma {:induction false} HandAfterWrite<T>(st: Shard<T>, key: string, entry: Entry<T>)
    requires Linked(st)
    ensures AtHand(Upserted(st, key, entry)) == AtHand(st)
    ensures Upserted(st, key, entry).order != [] && Upserted(st, key, entry).order[0] == Item(key, entry, false)
  {
    var p := Find(st.order, key);
    hide Find;
    var item := Item(key, entry, false);
    if p < |st.order| {
      var order := [item] + (st.order[..p] + st.order[p + 1..]);
      assert forall j :: 0 < j < |order| ==> order[j] == st.order[if j - 1 < p then j - 1 else j];
    } else {
      assert forall j :: 0 <= j < |st.order| ==> ([item] + st.order)[j + 1] == st.order[j];
    }
  }

  /** Persist drops an expired entry and takes the expiry off a live one. */
  function Persisted<T>(st: Shard<T>, key: string, now: Time): Shard<T> {
    var i := Find(st.order, key);
    if i == |st.order| then st
    else if Expired(st.order[i].entry, now) then Removed(st, i)
    else Shard(st.order[i := st.order[i].(entry := st.order[i].entry.(expiresAt := None))], st.hand)
  }

  lemma {:induction false} UpdatedEntries<T>(order: seq<Item<T>>, i: nat, entry: Entry<T>)
    requires DistinctKeys(order) && i < |order|
    ensures
      var r := order[i := order[i].(entry := entry)];
      DistinctKeys(r) && Entries(r) == Entries(order)[order[i].key := entry]
  {
    var r, m := order[i := order[i].(entry := entry)], Entries(order)[order[i].key := entry];
    FindAt(order, i);
    hide Entries, Find;
    forall k
      ensures Find(r, k) == Find(order, k)
    {
      SameFind(r, order, k);
    }
    EntriesAre(r, m);
  }

  lemma {:induction false} SameFind<T>(a: seq<Item<T>>, b: seq<Item<T>>, k: string)
    requires |a| == |b| && forall i :: 0 <= i < |a| ==> a[i].key == b[i].key
    ensures Find(a, k) == Find(b, k)
  {
    if a != [] {
      assert a[0].key == b[0].key;
      SameFind(a[1..], b[1..], k);
    }
  }

  /**
   After Persist the key answers what it answered at the time of the call, and does so for ever; every other key
   is untouched.
  */
  lemma {:induction false} PersistedSpec<T>(st: Shard<T>, key: string, now: Time)
    requires Linked(st)
    ensures Linked(Persisted(st, key, now)) && |Persisted(st, key, now).order| <= |st.order|
    ensures
      var before, after := Entries(st.order), Entries(Persisted(st, key, now).order);
      && after.Keys <= before.Keys
      && forall k, t :: t >= now ==>
        Answer(after, k, t) == if k == key then Answer(before, key, now) else Answer(before, k, t)
  {
    hide Find, Entries;
    var i := Find(st.order, key);
    if i < |st.order| {
      if Expired(st.order[i].entry, now) {
        RemovedSpec(st, i);
      } else {
        UpdatedEntries(st.order, i, st.order[i].entry.(expiresAt := None));
      }
    }
  }

  /** The sweep examines positions below i down to low, from the back towards the front. */
  function Swept<T>(st: Shard<T>, now: Time, low: nat, i: nat): Shard<T>
    requires i <= |st.order|
    decreases i
  {
    if i <= low then st
    else Swept(if Expired(st.order[i - 1].entry, now) then Removed(st, i - 1) else st, now, low, i - 1)
  }

  /** Where a full sweep of a list of n entries with a limit stops; no limit when it is not positive. */
  function SweepEnd(n: nat, limit: int): nat {
    if limit <= 0 || limit >= n then 0 else n - limit
  }

  lemma {:induction false} SweepRange(n: nat, limit: int)
    ensures SweepEnd(n, limit) == if limit <= 0 || limit >= n then 0 else n - limit
  {
  }

  lemma {:induction false} RemovedPositions<T>(st: Shard<T>, i: nat)
    requires Linked(st) && i < |st.order|
    ensures st.order[i].key in Entries(st.order)
    ensures Find(st.order, st.order[i].key) == i && Entries(st.order)[st.order[i].key] == st.order[i].entry
    ensures forall k :: Find(Removed(st, i).order, k) < i ==> Find(st.order, k) == Find(Removed(st, i).order, k)
  {
    hide Find, Entries;
    FindAt(st.order, i);
    var rest := Removed(st, i).order;
    forall k | Find(rest, k) < i
      ensures Find(st.order, k) == Find(rest, k)
    {
      assert rest[Find(rest, k)] == st.order[Find(rest, k)];
      FindAt(st.order, Find(rest, k));
    }
  }

  /** What a sweep leaves: entries before low, and those after it that are not expired. */
  lemma {:induction false} SweptSpec<T>(st: Shard<T>, now: Time, low: nat, i: nat)
    requires Linked(st) && i <= |st.order|
    ensures
      var w := Swept(st, now, low, i);
      && Linked(w) && |w.order| <= |st.order|
      && (forall k :: k in Entries(w.order) ==> k in Entries(st.order) && Entries(w.order)[k] == Entries(st.order)[k])
      && forall k :: k in Entries(st.order) && k !in Entries(w.order) ==>
        Expired(Entries(st.order)[k], now) && low <= Find(st.order, k) < i
    decreases i
  {
    hide Find, Entries, Removed, DistinctKeys;
    if i > low {
      if Expired(st.order[i - 1].entry, now) {
        var rest := Removed(st, i - 1);
        RemovedSpec(st, i - 1);
        SweptSpec(rest, now, low, i - 1);
        RemovedPositions(st, i - 1);
      } else {
        SweptSpec(st, now, low, i - 1);
      }
    }
  }

  /** Everything the sweep reached that was expired is gone. */
  lemma {:induction false} SweptComplete<T>(st: Shard<T>, now: Time, low: nat, i: nat)
    requires Linked(st) && i <= |st.order|
    ensures |Swept(st, now, low, i).order| == |st.order| - ExpiredCount(st.order, now, low, i)
    decreases i
  {
    if i > low {
      if Expired(st.order[i - 1].entry, now) {
        var rest := Removed(st, i - 1);
        RemovedLinked(st, i - 1);
        SweptComplete(rest, now, low, i - 1);
        SamePrefixCount(st.order, rest.order, now, low, i - 1);
      } else {
        SweptComplete(st, now, low, i - 1);
      }
    }
  }

  /** A sweep removes every expired key within its reach, whatever else it removes. */
  lemma {:induction false} SweptGone<T>(st: Shard<T>, now: Time, low: nat, i: nat, k: string)
    requires Linked(st) && i <= |st.order| && k in Entries(st.order)
    requires low <= Find(st.order, k) < i && Expired(Entries(st.order)[k], now)
    ensures k !in Entries(Swept(st, now, low, i).order)
    decreases i
  {
    hide Find, Entries, Removed, DistinctKeys, Expired;
    var p := Find(st.order, k);
    if Expired(st.order[i - 1].entry, now) {
      var rest := Removed(st, i - 1);
      RemovedSpec(st, i - 1);
      SweptSpec(rest, now, low, i - 1);
      if p < i - 1 {
        RemovedBehind(st, i - 1, p);
        FindAt(rest.order, p);
        SweptGone(rest, now, low, i - 1, k);
      }
    } else {
      SweptGone(st, now, low, i - 1, k);
    }
  }

  lemma {:induction false} RemovedBehind<T>(st: Shard<T>, i: nat, p: nat)
    requires Linked(st) && p < i < |st.order|
    ensures |Removed(st, i).order| == |st.order| - 1 && Removed(st, i).order[p] == st.order[p]
  {
  }

  function ExpiredCount<T>(order: seq<Item<T>>, now: Time, low: nat, i: nat): nat
    requires i <= |order|
    decreases i
  {
    if i <= low then 0
    else ExpiredCount(order, now, low, i - 1) + if Expired(order[i - 1].entry, now) then 1 else 0
  }

  lemma {:induction false} SamePrefixCount<T>(a: seq<Item<T>>, b: seq<Item<T>>, now: Time, low: nat, i: nat)
    requires i <= |a| && i <= |b| && a[..i] == b[..i]
    ensures ExpiredCount(a, now, low, i) == ExpiredCount(b, now, low, i)
    decreases i
  {
    if i > low {
      assert a[i - 1] == a[..i][i - 1] == b[..i][i - 1] == b[i - 1];
      assert a[..i - 1] == a[..i][..i - 1] && b[..i - 1] == b[..i][..i - 1];
      SamePrefixCount(a, b, now, low, i - 1);
    }
  }

  /** A sweep is invisible: every lookup at or after the sweep time answers as before. */
  lemma {:induction false} SweepInvisible<T>(st: Shard<T>, now: Time, low: nat, key: string, t: Time)
    requires Linked(st) && t >= now
    ensures Answer(Entries(Swept(st, now, low, |st.order|).order), key, t) == Answer(Entries(st.order), key, t)
  {
    SweptSpec(st, now, low, |st.order|);
    hide Find, Entries, Swept, Linked;
  }
}
