/**
 All shards of a cache together, on values: the one map they stand for, its size against the configured bound, and
 its agreement with the plain in-memory cache over every history.
*/
module CacheModels {
  import opened Wrappers
  import opened ClockShards

  type Home = string -> nat

  /** Every key lies in its home shard. */
  ghost predicate Homed<T>(views: seq<Shard<T>>, home: Home) {
    forall i, j {:trigger views[i].order[j]} ::
      0 <= i < |views| && 0 <= j < |views[i].order| ==> home(views[i].order[j].key) == i
  }

  ghost predicate AllLinked<T>(views: seq<Shard<T>>) {
    forall i :: 0 <= i < |views| ==> Linked(views[i])
  }

  /** The map the shards stand for together. */
  function Merged<T>(views: seq<Shard<T>>): map<string, Entry<T>> {
    if views == [] then map[] else Merged(views[..|views| - 1]) + Entries(views[|views| - 1].order)
  }

  function TotalSize<T>(views: seq<Shard<T>>): nat {
    if views == [] then 0 else TotalSize(views[..|views| - 1]) + |views[|views| - 1].order|
  }

  lemma {:induction false} HomeOf<T>(views: seq<Shard<T>>, home: Home, i: nat, key: string)
    requires Homed(views, home) && i < |views| && key in Entries(views[i].order)
    ensures home(key) == i
  {
    hide Entries, Find;
    assert views[i].order[Find(views[i].order, key)].key == key;
  }

  lemma {:induction false} NotHome<T>(views: seq<Shard<T>>, home: Home, i: nat, key: string)
    requires Homed(views, home) && i < |views| && home(key) != i
    ensures key !in Entries(views[i].order)
  {
    hide Entries, Homed;
    if key in Entries(views[i].order) {
      HomeOf(views, home, i, key);
    }
  }

  /** A key is in the map exactly when its home shard has it. */
  lemma {:induction false} MergedAt<T>(views: seq<Shard<T>>, home: Home, key: string)
    requires Homed(views, home)
    ensures key in Merged(views) <==> home(key) < |views| && key in Entries(views[home(key)].order)
    ensures key in Merged(views) ==> Merged(views)[key] == Entries(views[home(key)].order)[key]
  {
    hide Entries;
    if views != [] {
      var init, last := views[..|views| - 1], views[|views| - 1];
      assert Homed(init, home);
      MergedAt(init, home, key);
      if key in Entries(last.order) {
        HomeOf(views, home, |views| - 1, key);
      }
    }
  }

  lemma {:induction false} SizeUpdate<T>(views: seq<Shard<T>>, i: nat, w: Shard<T>)
    requires i < |views|
    ensures TotalSize(views[i := w]) == TotalSize(views) - |views[i].order| + |w.order|
  {
    var after := views[i := w];
    if i < |views| - 1 {
      SizeUpdate(views[..|views| - 1], i, w);
      assert after[..|views| - 1] == views[..|views| - 1][i := w];
    } else {
      assert after[..|views| - 1] == views[..|views| - 1];
    }
  }

  lemma {:induction false} DisjointUnion<T>(a: map<string, Entry<T>>, b: map<string, Entry<T>>)
    requires forall k :: k in a ==> k !in b
    ensures |a + b| == |a| + |b|
  {
    assert (a + b).Keys == a.Keys + b.Keys;
    assert a.Keys !! b.Keys;
  }

  /** The map has as many keys as the shards have entries. */
  lemma {:induction false} MergedSize<T>(views: seq<Shard<T>>, home: Home)
    requires Homed(views, home) && AllLinked(views)
    ensures |Merged(views)| == TotalSize(views)
  {
    if views != [] {
      var init, last := views[..|views| - 1], views[|views| - 1];
      assert Homed(init, home) && AllLinked(init);
      MergedSize(init, home);
      EntryCount(last.order);
      hide Entries;
      forall key | key in Merged(init)
        ensures key !in Entries(last.order)
      {
        MergedAt(init, home, key);
        NotHome(views, home, |init|, key);
      }
      DisjointUnion(Merged(init), Entries(last.order));
    }
  }

  // ---------- the capacity bound ----------

  /** The hard cap of each of n shards; 0 is no cap. */
  function PerShard(maxEntries: int, n: nat): int
    requires n > 0
  {
    if maxEntries <= 0 then 0 else if maxEntries / n < 1 then 1 else maxEntries / n
  }

  lemma {:induction false} SizeBound<T>(views: seq<Shard<T>>, cap: nat)
    requires forall i :: 0 <= i < |views| ==> |views[i].order| <= cap
    ensures TotalSize(views) <= |views| * cap
  {
    if views != [] {
      SizeBound(views[..|views| - 1], cap);
      assert TotalSize(views) <= (|views| - 1) * cap + cap;
      assert (|views| - 1) * cap + cap == |views| * cap;
    }
  }

  /** When every shard keeps its cap, the total never exceeds the larger of the limit and the number of shards. */
  lemma {:induction false} TotalBound<T>(views: seq<Shard<T>>, maxEntries: int)
    requires |views| > 0 && maxEntries > 0
    requires forall i :: 0 <= i < |views| ==> |views[i].order| <= PerShard(maxEntries, |views|)
    ensures TotalSize(views) <= if maxEntries > |views| then maxEntries else |views|
  {
    var n, cap := |views|, PerShard(maxEntries, |views|);
    SizeBound(views, cap);
    assert maxEntries == n * (maxEntries / n) + maxEntries % n;
    if cap != 1 {
      assert n * cap == n * (maxEntries / n) <= maxEntries;
    }
  }

  // ---------- one shard changes ----------

  lemma {:induction false} HomedUpdate<T>(views: seq<Shard<T>>, home: Home, i: nat, w: Shard<T>)
    requires Homed(views, home) && i < |views|
    requires forall k :: k in Entries(w.order) && k !in Entries(views[i].order) ==> home(k) == i
    ensures Homed(views[i := w], home)
    ensures forall k :: k in Entries(w.order) || k in Entries(views[i].order) ==> home(k) == i
  {
    hide Entries, Find;
    forall k | k in Entries(w.order) || k in Entries(views[i].order)
      ensures home(k) == i
    {
      if k in Entries(views[i].order) {
        HomeOf(views, home, i, k);
      }
    }
    forall j | 0 <= j < |w.order|
      ensures home(w.order[j].key) == i
    {
      InEntries(w.order, j);
    }
  }

  predicate ReplacedAt<V(==)>(m: map<string, V>, m': map<string, V>, e: map<string, V>, e': map<string, V>, k: string) {
    && (k in m' <==> k in e' || (k in m && k !in e))
    && (k in m' ==> m'[k] == if k in e' then e'[k] else m[k])
    && (k in e ==> k in m && m[k] == e[k])
  }

  lemma {:induction false} Replaced<V>(m: map<string, V>, m': map<string, V>, e: map<string, V>, e': map<string, V>)
    requires forall k :: ReplacedAt(m, m', e, e', k)
    ensures m' == m - e.Keys + e'
    ensures forall k :: k in e ==> k in m && m[k] == e[k]
  {
    var r := m - e.Keys + e';
    forall k
      ensures k in m' <==> k in r
      ensures k in m' ==> m'[k] == r[k]
      ensures k in e ==> k in m && m[k] == e[k]
    {
      assert ReplacedAt(m, m', e, e', k);
    }
  }

  lemma {:induction false} MergedUpdateAt<T>(views: seq<Shard<T>>, home: Home, i: nat, w: Shard<T>, k: string)
    requires i < |views| && Homed(views, home) && Homed(views[i := w], home)
    requires k in Entries(w.order) || k in Entries(views[i].order) ==> home(k) == i
    ensures
      var m, m', e, e' := Merged(views), Merged(views[i := w]), Entries(views[i].order), Entries(w.order);
      ReplacedAt(m, m', e, e', k) && (k in m && home(k) == i ==> k in e)
  {
    hide Merged, Entries, Homed;
    MergedAt(views, home, k);
    MergedAt(views[i := w], home, k);
  }

  /** Replacing a shard replaces its part of the whole map. */
  lemma {:induction false} MergedUpdate<T>(views: seq<Shard<T>>, home: Home, i: nat, w: Shard<T>)
    requires Homed(views, home) && i < |views|
    requires forall k :: k in Entries(w.order) && k !in Entries(views[i].order) ==> home(k) == i
    ensures Homed(views[i := w], home)
    ensures Merged(views[i := w]) == Merged(views) - Entries(views[i].order).Keys + Entries(w.order)
    ensures forall k :: k in Entries(views[i].order) ==>
      k in Merged(views) && Merged(views)[k] == Entries(views[i].order)[k]
    ensures forall k :: k in Merged(views) && home(k) == i ==> k in Entries(views[i].order)
  {
    HomedUpdate(views, home, i, w);
    hide *;
    var after := views[i := w];
    var m, m', e, e' := Merged(views), Merged(after), Entries(views[i].order), Entries(w.order);
    forall k
      ensures ReplacedAt(m, m', e, e', k)
      ensures k in m && home(k) == i ==> k in e
    {
      MergedUpdateAt(views, home, i, w, k);
    }
    Replaced(m, m', e, e');
  }

  /** A part of a map is written at one key and loses some others: so does the map. */
  lemma {:induction false} PartWritten<T>(
    m: map<string, Entry<T>>, e: map<string, Entry<T>>, key: string, entry: Entry<T>, lost: set<string>)
    requires forall k :: k in e ==> k in m && m[k] == e[k]
    requires key in m ==> key in e
    requires forall k :: k in lost && k in m ==> k in e
    ensures m - e.Keys + (e[key := entry] - lost) == m[key := entry] - lost
  {
  }

  lemma {:induction false} PartRemoved<T>(m: map<string, Entry<T>>, e: map<string, Entry<T>>, key: string)
    requires forall k :: k in e ==> k in m && m[k] == e[k]
    requires key in m ==> key in e
    ensures m - e.Keys + (e - {key}) == m - {key}
  {
  }

  lemma {:induction false} InEntries<T>(order: seq<Item<T>>, j: nat)
    requires j < |order|
    ensures order[j].key in Entries(order)
  {
    hide Entries, Find;
    assert Find(order, order[j].key) < |order|;
  }

  lemma {:induction false} MergedStored<T>(views: seq<Shard<T>>, home: Home, cap: int, key: string, entry: Entry<T>)
    requires Homed(views, home) && AllLinked(views) && home(key) < |views|
    requires cap > 0 ==> |views[home(key)].order| <= cap
    ensures
      var i := home(key);
      var v := views[i];
      var after := views[i := Stored(v, cap, key, entry)];
      var up := Upserted(v, key, entry);
      && Homed(after, home) && AllLinked(after) && Linked(up) && up.order != []
      && Merged(after) ==
         if OverCap(v, cap, key) then Merged(views)[key := entry] - {up.order[Victim(up)].key}
         else Merged(views)[key := entry]
  {
    var i := home(key);
    StoredSpec(views[i], cap, key, entry);
    UpsertedSpec(views[i], key, entry);
    var up, w := Upserted(views[i], key, entry), Stored(views[i], cap, key, entry);
    var v := Victim(up);
    InEntries(up.order, v);
    NoneLost(Entries(views[i].order)[key := entry]);
    NoneLost(Merged(views)[key := entry]);
    hide *;
    HomeOfUpserted(views, home, key, entry, v);
    MergedWritten(views, home, w, key, entry, if OverCap(views[i], cap, key) then {up.order[v].key} else {});
    LinkedUpdate(views, i, w);
  }

  lemma {:induction false} NoneLost<T>(m: map<string, Entry<T>>)
    ensures m - {} == m
  {
  }

  lemma {:induction false} LinkedUpdate<T>(views: seq<Shard<T>>, i: nat, w: Shard<T>)
    requires AllLinked(views) && Linked(w) && i < |views|
    ensures AllLinked(views[i := w])
  {
    hide Linked;
  }

  lemma {:induction false} HomeOfUpserted<T>(views: seq<Shard<T>>, home: Home, key: string, entry: Entry<T>, j: nat)
    requires Homed(views, home) && AllLinked(views) && home(key) < |views|
    requires j < |Upserted(views[home(key)], key, entry).order|
    ensures home(Upserted(views[home(key)], key, entry).order[j].key) == home(key)
  {
    var i := home(key);
    UpsertedSpec(views[i], key, entry);
    InEntries(Upserted(views[i], key, entry).order, j);
    hide Entries, Upserted, Linked;
    HomedUpdate(views, home, i, Upserted(views[i], key, entry));
  }

  lemma {:induction false} MergedWritten<T>(
    views: seq<Shard<T>>, home: Home, w: Shard<T>, key: string, entry: Entry<T>, lost: set<string>)
    requires Homed(views, home) && home(key) < |views|
    requires Entries(w.order) == Entries(views[home(key)].order)[key := entry] - lost
    requires forall k :: k in lost ==> home(k) == home(key)
    ensures Homed(views[home(key) := w], home)
    ensures Merged(views[home(key) := w]) == Merged(views)[key := entry] - lost
  {
    hide *;
    MergedUpdate(views, home, home(key), w);
    PartWritten(Merged(views), Entries(views[home(key)].order), key, entry, lost);
  }

  lemma {:induction false} MergedWithout<T>(views: seq<Shard<T>>, home: Home, key: string)
    requires Homed(views, home) && AllLinked(views) && home(key) < |views|
    ensures
      var after := views[home(key) := WithoutKey(views[home(key)], key)];
      Homed(after, home) && AllLinked(after) && Merged(after) == Merged(views) - {key}
  {
    var i := home(key);
    WithoutKeySpec(views[i], key);
    hide Entries, Merged, WithoutKey, Linked, Homed;
    MergedUpdate(views, home, i, WithoutKey(views[i], key));
    PartRemoved(Merged(views), Entries(views[i].order), key);
  }

  /** A shard that stands for the same map leaves the whole map alone. */
  lemma {:induction false} MergedSame<T>(views: seq<Shard<T>>, home: Home, i: nat, w: Shard<T>)
    requires Homed(views, home) && AllLinked(views) && i < |views| && Linked(w)
    requires Entries(w.order) == Entries(views[i].order)
    ensures Homed(views[i := w], home) && AllLinked(views[i := w]) && Merged(views[i := w]) == Merged(views)
  {
    hide Entries, Merged, Linked, Homed;
    MergedUpdate(views, home, i, w);
    assert Merged(views) - Entries(w.order).Keys + Entries(w.order) == Merged(views);
  }

  /** Persist is invisible at its own time, keeps a live key's answer for ever, and leaves the other keys alone. */
  lemma {:induction false} MergedPersisted<T>(
    views: seq<Shard<T>>, home: Home, key: string, now: Time, after: seq<Shard<T>>)
    requires Homed(views, home) && AllLinked(views) && home(key) < |views|
    requires after == views[home(key) := Persisted(views[home(key)], key, now)]
    ensures Homed(after, home) && AllLinked(after)
    ensures forall k, t :: t >= now ==>
      Answer(Merged(after), k, t) == if k == key then Answer(Merged(views), key, now) else Answer(Merged(views), k, t)
  {
    hide *;
    PersistedHomed(views, home, key, now);
    forall k, t | t >= now
      ensures Answer(Merged(after), k, t) ==
              if k == key then Answer(Merged(views), key, now) else Answer(Merged(views), k, t)
    {
      PersistedAnswer(views, home, key, now, k, t);
    }
  }

  lemma {:induction false} PersistedHomed<T>(views: seq<Shard<T>>, home: Home, key: string, now: Time)
    requires Homed(views, home) && AllLinked(views) && home(key) < |views|
    ensures
      var after := views[home(key) := Persisted(views[home(key)], key, now)];
      Homed(after, home) && AllLinked(after)
  {
    var w := Persisted(views[home(key)], key, now);
    PersistedSpec(views[home(key)], key, now);
    LinkedUpdate(views, home(key), w);
    hide *;
    HomedUpdate(views, home, home(key), w);
  }

  lemma {:induction false} PersistedAnswer<T>(
    views: seq<Shard<T>>, home: Home, key: string, now: Time, k: string, t: Time)
    requires Homed(views, home) && AllLinked(views) && home(key) < |views| && t >= now
    ensures Answer(Merged(views[home(key) := Persisted(views[home(key)], key, now)]), k, t) ==
            if k == key then Answer(Merged(views), key, now) else Answer(Merged(views), k, t)
  {
    var after := views[home(key) := Persisted(views[home(key)], key, now)];
    PersistedHomed(views, home, key, now);
    PersistedSpec(views[home(key)], key, now);
    hide *;
    AnswerAt(views, home, k, t);
    AnswerAt(views, home, key, now);
    AnswerAt(after, home, k, t);
  }

  /** A lookup is answered by the key's home shard. */
  lemma {:induction false} AnswerAt<T>(views: seq<Shard<T>>, home: Home, key: string, t: Time)
    requires Homed(views, home)
    ensures Answer(Merged(views), key, t) ==
            if home(key) < |views| then Answer(Entries(views[home(key)].order), key, t) else CacheMiss
  {
    hide Entries, Merged, Homed;
    MergedAt(views, home, key);
  }

  /** Every shard swept at one time: no lookup at or after that time can tell. */
  lemma {:induction false} MergedSwept<T>(views: seq<Shard<T>>, after: seq<Shard<T>>, home: Home, now: Time, limit: int)
    requires Homed(views, home) && AllLinked(views) && |after| == |views|
    requires forall i :: 0 <= i < |views| ==>
      after[i] == Swept(views[i], now, SweepEnd(|views[i].order|, limit), |views[i].order|)
    ensures Homed(after, home) && AllLinked(after)
    ensures forall key, t :: t >= now ==> Answer(Merged(after), key, t) == Answer(Merged(views), key, t)
  {
    hide Homed, Swept, Entries, Merged, Linked;
    forall i | 0 <= i < |views|
      ensures Linked(after[i]) && Entries(after[i].order).Keys <= Entries(views[i].order).Keys
    {
      SweptSpec(views[i], now, SweepEnd(|views[i].order|, limit), |views[i].order|);
    }
    SweptHomed(views, after, home);
    forall key, t | t >= now
      ensures Answer(Merged(after), key, t) == Answer(Merged(views), key, t)
    {
      AnswerAt(views, home, key, t);
      AnswerAt(after, home, key, t);
      if home(key) < |views| {
        var v := views[home(key)];
        SweepInvisible(v, now, SweepEnd(|v.order|, limit), key, t);
      }
    }
  }

  /**
   What sweeping all shards removes: only keys a lookup at that time would miss, and all of those when no shard is
   longer than the limit.
  */
  lemma {:induction false} MergedSweptExactly<T>(
    views: seq<Shard<T>>, after: seq<Shard<T>>, home: Home, now: Time, limit: int, key: string)
    requires Homed(views, home) && AllLinked(views) && |after| == |views| && Homed(after, home)
    requires forall i :: 0 <= i < |views| ==>
      after[i] == Swept(views[i], now, SweepEnd(|views[i].order|, limit), |views[i].order|)
    ensures key in Merged(after) ==> key in Merged(views) && Merged(after)[key] == Merged(views)[key]
    ensures key in Merged(views) && key !in Merged(after) ==> Answer(Merged(views), key, now) == CacheMiss
    ensures limit <= 0 || (forall i :: 0 <= i < |views| ==> |views[i].order| <= limit) ==>
      (Answer(Merged(views), key, now) == CacheMiss ==> key !in Merged(after))
  {
    hide Homed, Swept, Entries, Merged, Linked, Find;
    MergedAt(views, home, key);
    MergedAt(after, home, key);
    if home(key) < |views| {
      var v := views[home(key)];
      var low := SweepEnd(|v.order|, limit);
      SweptSpec(v, now, low, |v.order|);
      if key in Entries(v.order) && Expired(Entries(v.order)[key], now) && low == 0 {
        SweptGone(v, now, low, |v.order|, key);
      }
    }
  }

  lemma {:induction false} SweptHomed<T>(views: seq<Shard<T>>, after: seq<Shard<T>>, home: Home)
    requires Homed(views, home) && |after| == |views|
    requires forall i :: 0 <= i < |views| ==> Entries(after[i].order).Keys <= Entries(views[i].order).Keys
    ensures Homed(after, home)
  {
    hide Entries;
    forall i, j | 0 <= i < |after| && 0 <= j < |after[i].order|
      ensures home(after[i].order[j].key) == i
    {
      InEntries(after[i].order, j);
      HomeOf(views, home, i, after[i].order[j].key);
    }
  }

  // ---------- agreement with the in-memory cache ----------

  /** What a client and the janitor do, one step at a time. */
  datatype CacheOp<T> =
    | OpSet(key: string, value: T)
    | OpNullify(key: string)
    | OpEvict(key: string)
    | OpClear
    | OpGet(key: string, at: Time)
    | OpSweep(at: Time, limit: int)

  /** The in-memory cache: no bound, no expiry. */
  function SimpleStep<T>(entries: map<string, Option<T>>, op: CacheOp<T>): map<string, Option<T>> {
    match op
    case OpSet(k, v) => entries[k := Some(v)]
    case OpNullify(k) => entries[k := None]
    case OpEvict(k) => entries - {k}
    case OpClear => map[]
    case OpGet(_, _) => entries
    case OpSweep(_, _) => entries
  }

  function SimpleAnswer<T>(entries: map<string, Option<T>>, key: string): CacheStatus<T> {
    if key !in entries then CacheMiss
    else if entries[key].None? then CacheHitNegative
    else CacheHitPositive(entries[key].value)
  }

  /** The shards without a cap and without expiry; writes with an overlong key are dropped. */
  function ShardStep<T>(views: seq<Shard<T>>, home: Home, maxKeyLength: int, op: CacheOp<T>): (r: seq<Shard<T>>)
    requires forall k :: home(k) < |views|
    ensures |r| == |views|
  {
    match op
    case OpSet(k, v) =>
      if |k| > maxKeyLength then views
      else views[home(k) := Upserted(views[home(k)], k, Entry(Some(v), None))]
    case OpNullify(k) =>
      if |k| > maxKeyLength then views
      else views[home(k) := Upserted(views[home(k)], k, Entry(None, None))]
    case OpEvict(k) => views[home(k) := WithoutKey(views[home(k)], k)]
    case OpClear => seq(|views|, i => Shard([], None))
    case OpGet(k, t) => views[home(k) := AfterRead(views[home(k)], k, t)]
    case OpSweep(t, limit) =>
      seq(|views|, i requires 0 <= i < |views| =>
        Swept(views[i], t, SweepEnd(|views[i].order|, limit), |views[i].order|))
  }

  lemma {:induction false} StepsAre<T>(views: seq<Shard<T>>, home: Home, maxKeyLength: int, key: string, t: Time)
    requires forall k :: home(k) < |views|
    ensures ShardStep(views, home, maxKeyLength, OpEvict(key)) == views[home(key) := WithoutKey(views[home(key)], key)]
    ensures ShardStep(views, home, maxKeyLength, OpGet(key, t)) ==
      views[home(key) := AfterRead(views[home(key)], key, t)]
  {
    hide WithoutKey, AfterRead;
  }

  lemma {:induction false} ClearStep<T>(views: seq<Shard<T>>, after: seq<Shard<T>>, home: Home, maxKeyLength: int)
    requires (forall k :: home(k) < |views|) && |after| == |views|
    requires forall i :: 0 <= i < |views| ==> after[i] == Shard([], None)
    ensures after == ShardStep(views, home, maxKeyLength, OpClear)
  {
  }

  lemma {:induction false} SweepStep<T>(
    views: seq<Shard<T>>, after: seq<Shard<T>>, home: Home, maxKeyLength: int, t: Time, limit: int)
    requires (forall k :: home(k) < |views|) && |after| == |views|
    requires forall i :: 0 <= i < |views| ==>
      after[i] == Swept(views[i], t, SweepEnd(|views[i].order|, limit), |views[i].order|)
    ensures after == ShardStep(views, home, maxKeyLength, OpSweep(t, limit))
  {
    hide Swept;
  }

  predicate Bypassed<T>(op: CacheOp<T>, maxKeyLength: int) {
    (op.OpSet? || op.OpNullify?) && |op.key| > maxKeyLength
  }

  function SimpleRun<T>(ops: seq<CacheOp<T>>, maxKeyLength: int): map<string, Option<T>> {
    if ops == [] then map[]
    else
      var op := ops[|ops| - 1];
      var before := SimpleRun(ops[..|ops| - 1], maxKeyLength);
      if Bypassed(op, maxKeyLength) then before else SimpleStep(before, op)
  }

  function ShardRun<T>(ops: seq<CacheOp<T>>, n: nat, home: Home, maxKeyLength: int): (r: seq<Shard<T>>)
    requires forall k :: home(k) < n
    ensures |r| == n
  {
    if ops == [] then seq(n, i => Shard([], None))
    else ShardStep(ShardRun(ops[..|ops| - 1], n, home, maxKeyLength), home, maxKeyLength, ops[|ops| - 1])
  }

  /** The shards hold the in-memory cache's entries, none of them expiring. */
  ghost predicate Mirrors<T>(views: seq<Shard<T>>, home: Home, entries: map<string, Option<T>>) {
    && Homed(views, home) && AllLinked(views)
    && Merged(views) == map k | k in entries :: Entry(entries[k], None)
  }

  lemma {:induction false} EmptyMirrors<T>(n: nat, home: Home)
    ensures Mirrors(seq(n, i => Shard<T>.Shard([], None)), home, map[])
  {
    var views := seq(n, i => Shard<T>.Shard([], None));
    if n > 0 {
      EmptyMirrors<T>(n - 1, home);
      assert views[..n - 1] == seq(n - 1, i => Shard<T>.Shard([], None));
    }
  }

  lemma {:induction false} UpsertMirrors<T>(
    views: seq<Shard<T>>, home: Home, entries: map<string, Option<T>>, key: string, e: Option<T>)
    requires Mirrors(views, home, entries) && home(key) < |views|
    ensures Mirrors(views[home(key) := Upserted(views[home(key)], key, Entry(e, None))], home, entries[key := e])
  {
    hide *;
    MirrorsParts(views, home, entries);
    MergedStored(views, home, 0, key, Entry(e, None));
    StoredIsUpserted(views[home(key)], key, Entry(e, None));
    MirrorsIf(views[home(key) := Upserted(views[home(key)], key, Entry(e, None))], home, entries[key := e]);
  }

  lemma {:induction false} MirrorsParts<T>(views: seq<Shard<T>>, home: Home, entries: map<string, Option<T>>)
    requires Mirrors(views, home, entries)
    ensures Homed(views, home) && AllLinked(views)
    ensures Merged(views) == map k | k in entries :: Entry(entries[k], None)
    ensures forall i :: 0 <= i < |views| ==> Linked(views[i])
  {
    hide Homed, Linked, Merged;
  }

  lemma {:induction false} MirrorsIf<T>(views: seq<Shard<T>>, home: Home, entries: map<string, Option<T>>)
    requires Homed(views, home) && AllLinked(views)
    requires Merged(views).Keys == entries.Keys
    requires forall k :: k in entries ==> Merged(views)[k] == Entry(entries[k], None)
    ensures Mirrors(views, home, entries)
  {
    hide Homed, AllLinked, Merged;
  }

  lemma {:induction false} StoredIsUpserted<T>(v: Shard<T>, key: string, entry: Entry<T>)
    requires Linked(v)
    ensures Stored(v, 0, key, entry) == Upserted(v, key, entry) && !OverCap(v, 0, key)
  {
  }

  lemma {:induction false} EvictMirrors<T>(
    views: seq<Shard<T>>, home: Home, entries: map<string, Option<T>>, key: string)
    requires Mirrors(views, home, entries) && home(key) < |views|
    ensures Mirrors(views[home(key) := WithoutKey(views[home(key)], key)], home, entries - {key})
  {
    MergedWithout(views, home, key);
    hide Merged, WithoutKey, Linked, Entries;
  }

  lemma {:induction false} ReadMirrors<T>(
    views: seq<Shard<T>>, home: Home, entries: map<string, Option<T>>, key: string, t: Time)
    requires Mirrors(views, home, entries) && home(key) < |views|
    ensures Mirrors(views[home(key) := AfterRead(views[home(key)], key, t)], home, entries)
  {
    AfterReadSpec(views[home(key)], key, t);
    MergedSame(views, home, home(key), AfterRead(views[home(key)], key, t));
    hide Merged, AfterRead, Linked, Entries;
  }

  /** Without expiry a sweep removes nothing. */
  lemma {:induction false} SweepKeeps<T>(st: Shard<T>, now: Time, low: nat, i: nat)
    requires i <= |st.order| && forall j :: 0 <= j < i ==> st.order[j].entry.expiresAt.None?
    ensures Swept(st, now, low, i) == st
    decreases i
  {
    if i > low {
      SweepKeeps(st, now, low, i - 1);
    }
  }

  lemma {:induction false} SweepMirrors<T>(
    views: seq<Shard<T>>, home: Home, entries: map<string, Option<T>>, t: Time, limit: int)
    requires Mirrors(views, home, entries)
    ensures seq(|views|, i requires 0 <= i < |views| =>
              Swept(views[i], t, SweepEnd(|views[i].order|, limit), |views[i].order|)) == views
  {
    hide Entries, Merged, Linked;
    forall i | 0 <= i < |views|
      ensures Swept(views[i], t, SweepEnd(|views[i].order|, limit), |views[i].order|) == views[i]
    {
      forall j | 0 <= j < |views[i].order|
        ensures views[i].order[j].entry.expiresAt.None?
      {
        NeverExpires(views, home, entries, i, j);
      }
      SweepKeeps(views[i], t, SweepEnd(|views[i].order|, limit), |views[i].order|);
    }
  }

  lemma {:induction false} NeverExpires<T>(
    views: seq<Shard<T>>, home: Home, entries: map<string, Option<T>>, i: nat, j: nat)
    requires Mirrors(views, home, entries) && i < |views| && j < |views[i].order|
    ensures views[i].order[j].entry.expiresAt.None?
  {
    hide Entries, Merged, Find;
    var key := views[i].order[j].key;
    FindAt(views[i].order, j);
    InEntries(views[i].order, j);
    MergedAt(views, home, key);
    assert home(key) == i;
  }

  lemma {:induction false} StepMirrors<T>(
    views: seq<Shard<T>>, home: Home, entries: map<string, Option<T>>, maxKeyLength: int, op: CacheOp<T>)
    requires (forall k :: home(k) < |views|) && Mirrors(views, home, entries)
    ensures Mirrors(ShardStep(views, home, maxKeyLength, op), home,
                    if Bypassed(op, maxKeyLength) then entries else SimpleStep(entries, op))
  {
    hide Mirrors, Upserted, WithoutKey, AfterRead, Swept;
    match op {
      case OpSet(k, v) => UpsertMirrors(views, home, entries, k, Some(v));
      case OpNullify(k) => UpsertMirrors(views, home, entries, k, None);
      case OpEvict(k) => EvictMirrors(views, home, entries, k);
      case OpClear => EmptyMirrors<T>(|views|, home);
      case OpGet(k, t) => ReadMirrors(views, home, entries, k, t);
      case OpSweep(t, limit) => SweepMirrors(views, home, entries, t, limit);
    }
  }

  lemma {:induction false} RunMirrors<T>(ops: seq<CacheOp<T>>, n: nat, home: Home, maxKeyLength: int)
    requires forall k :: home(k) < n
    ensures Mirrors(ShardRun(ops, n, home, maxKeyLength), home, SimpleRun(ops, maxKeyLength))
  {
    hide Mirrors, ShardStep, SimpleStep, Bypassed;
    if ops == [] {
      EmptyMirrors<T>(n, home);
    } else {
      var init := ops[..|ops| - 1];
      RunMirrors(init, n, home, maxKeyLength);
      StepMirrors(ShardRun(init, n, home, maxKeyLength), home, SimpleRun(init, maxKeyLength), maxKeyLength,
        ops[|ops| - 1]);
    }
  }

  /**
   Without a cap and without expiry, after any history of writes, evictions, clears, reads and sweeps, every
   lookup at every time answers as the in-memory cache does after the same history without the writes whose key
   is too long.
  */
  lemma {:induction false} AgreesWithInMemory<T>(
    ops: seq<CacheOp<T>>, n: nat, home: Home, maxKeyLength: int, key: string, t: Time)
    requires forall k :: home(k) < n
    ensures Answer(Merged(ShardRun(ops, n, home, maxKeyLength)), key, t) ==
            SimpleAnswer(SimpleRun(ops, maxKeyLength), key)
  {
    RunMirrors(ops, n, home, maxKeyLength);
    hide ShardRun, SimpleRun, Merged;
  }
}
