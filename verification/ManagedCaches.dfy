/**
 The sharded cache with its sizing, its expiry defaults, the janitor's sweep and the watermark evictor's batch,
 and the plain in-memory cache. Every operation, and every shard step of the background loops, runs as one step.
*/
module ManagedCaches {
  import opened Wrappers
  import opened Handles
  import opened ClockShards
  import opened CacheShards
  import opened CacheModels

  datatype CacheConfig = CacheConfig(
    maxEntries: int,
    positiveTTL: int,
    negativeTTL: int,
    janitorBatchSize: int,
    shardCount: int,
    maxKeyLength: int,
    compactionThreshold: int)

  /** The largest machine-word power of two. */
  const MAX_SHARDS := 0x4000_0000_0000_0000

  /** Doubles from one until the bound is reached. */
  method NextPowerOfTwo(n: int) returns (p: nat)
    requires n <= MAX_SHARDS
    ensures n <= p && (p == 1 || p < 2 * n)
    ensures exists k: nat :: p == Pow2(k)
  {
    p := 1;
    ghost var k: nat := 0;
    assert Pow2(0) == 1;
    if n <= 1 {
      return;
    }
    while p < n
      invariant 1 <= p && p == Pow2(k) && (p == 1 || p < 2 * n)
      decreases n - p
    {
      assert Pow2(k + 1) == 2 * Pow2(k);
      p := p * 2;
      k := k + 1;
    }
  }

  /** Fills in the defaults and rounds the number of shards up to a power of two. */
  method Normalize(cfg: CacheConfig) returns (r: CacheConfig)
    requires cfg.shardCount <= MAX_SHARDS
    ensures r.shardCount >= 1 && exists k: nat :: r.shardCount == Pow2(k)
    ensures if cfg.shardCount <= 0 then r.shardCount == 16
            else cfg.shardCount <= r.shardCount && (r.shardCount == 1 || r.shardCount < 2 * cfg.shardCount)
    ensures r.maxKeyLength == if cfg.maxKeyLength <= 0 then 512 else cfg.maxKeyLength
    ensures r.compactionThreshold == if cfg.compactionThreshold <= 0 then 256 else cfg.compactionThreshold
    ensures r.janitorBatchSize == if cfg.janitorBatchSize <= 0 then 1000 else cfg.janitorBatchSize
    ensures r.maxEntries == cfg.maxEntries && r.positiveTTL == cfg.positiveTTL && r.negativeTTL == cfg.negativeTTL
  {
    r := cfg;
    if r.shardCount <= 0 {
      assert Pow2(1) == 2 && Pow2(2) == 4 && Pow2(3) == 8 && Pow2(4) == 16;
      r := r.(shardCount := 16);
    } else {
      var p := NextPowerOfTwo(r.shardCount);
      r := r.(shardCount := p);
    }
    if r.maxKeyLength <= 0 {
      r := r.(maxKeyLength := 512);
    }
    if r.compactionThreshold <= 0 {
      r := r.(compactionThreshold := 256);
    }
    if r.janitorBatchSize <= 0 {
      r := r.(janitorBatchSize := 1000);
    }
  }

  /** The lifetime to apply: a positive number of nanoseconds, or 0 for never expiring. */
  function ResolveTTL(requested: int, configuredDefault: int): (ttl: nat)
    ensures ttl > 0 <==> requested > 0 || (requested == 0 && configuredDefault > 0)
    ensures requested > 0 ==> ttl == requested
  {
    if requested < 0 then 0
    else if requested == 0 then (if configuredDefault < 0 then 0 else configuredDefault)
    else requested
  }

  function ExpiresAt(requested: int, configuredDefault: int, now: Time): Option<Time> {
    var resolved := ResolveTTL(requested, configuredDefault);
    if resolved > 0 then Some(now + resolved) else None
  }

  class ManagedCache<T> {
    const cfg: CacheConfig
    const shards: seq<CacheShard<T>>
    const size: Counter
    const hash: string -> nat

    function HomeOf(key: string): (i: nat)
      requires shards != []
      ensures i < |shards|
    {
      hash(key) % |shards|
    }

    ghost function HomeFun(): (f: Home)
      requires shards != []
      ensures forall key :: f(key) == HomeOf(key)
    {
      (key: string) => HomeOf(key)
    }

    /** Every shard is well formed and sized alike, and every entry lies in the home shard of its key. */
    ghost predicate ShardsOk()
      reads shards
    {
      && shards != []
      && (forall i, j :: 0 <= i < j < |shards| ==> shards[i] != shards[j])
      && (forall i :: 0 <= i < |shards| ==>
        shards[i].Valid() && shards[i].maxEntries == PerShard(cfg.maxEntries, |shards|) && shards[i].globalSize == size)
      && (forall i, x :: 0 <= i < |shards| && x in shards[i].order ==> HomeOf(x.key) == i)
    }

    ghost function Elements(): set<CacheItem<T>>
      reads shards
    {
      set i, x | 0 <= i < |shards| && x in shards[i].order :: x
    }

    ghost function ViewOf(i: nat): Shard<T>
      requires i < |shards|
      reads shards, Elements()
    {
      assert forall x :: x in shards[i].order ==> x in Elements();
      shards[i].View()
    }

    ghost function Views(): (v: seq<Shard<T>>)
      reads shards, Elements()
      ensures |v| == |shards| && forall i :: 0 <= i < |shards| ==> v[i] == shards[i].View()
    {
      seq(|shards|, i requires 0 <= i < |shards| reads shards, Elements() => ViewOf(i))
    }

    /** Between operations the shared counter is the number of entries. */
    ghost predicate Valid()
      reads size, shards, Elements()
    {
      ShardsOk() && size.value == TotalSize(Views())
    }

    /** The map from keys to entries the cache stands for. */
    ghost function Contents(): map<string, Entry<T>>
      reads shards, Elements()
    {
      Merged(Views())
    }

    lemma {:induction false} ViewsOk()
      requires ShardsOk()
      ensures Homed(Views(), HomeFun()) && AllLinked(Views())
      ensures cfg.maxEntries > 0 ==>
        forall i :: 0 <= i < |shards| ==> |Views()[i].order| <= PerShard(cfg.maxEntries, |shards|)
    {
      forall i | 0 <= i < |shards|
        ensures Linked(Views()[i])
      {
        shards[i].ConsistentLinked();
      }
    }

    /** The counter counts the keys, and the limit holds up to one entry per shard. */
    lemma {:induction false} SizeIsBounded()
      requires Valid()
      ensures |Contents()| == size.value
      ensures cfg.maxEntries > 0 ==>
        |Contents()| <= if cfg.maxEntries > |shards| then cfg.maxEntries else |shards|
    {
      ViewsOk();
      hide ShardsOk, Merged;
      MergedSize(Views(), HomeFun());
      if cfg.maxEntries > 0 {
        TotalBound(Views(), cfg.maxEntries);
      }
    }

    /** One shard's step leaves the other shards and the homes alone. */
    twostate lemma OneChanged(i: nat)
      requires old(ShardsOk()) && i < |shards| && shards[i].Valid()
      requires forall x :: x in shards[i].order ==> HomeOf(x.key) == i
      requires forall j :: 0 <= j < |shards| && j != i ==> unchanged(shards[j])
      requires forall j, x :: 0 <= j < |shards| && j != i && x in old(shards[j].order) ==> unchanged(x)
      ensures ShardsOk() && Views() == old(Views())[i := shards[i].View()]
    {
      forall j | 0 <= j < |shards| && j != i
        ensures shards[j].Valid() && shards[j].View() == old(shards[j].View())
      {
        assert forall x :: x in shards[j].order ==> x in old(shards[j].order);
      }
    }

    twostate lemma ElementsKept(i: nat)
      requires i < |shards| && forall x :: x in shards[i].order ==> x in old(shards[i].order) || fresh(x)
      requires forall j :: 0 <= j < |shards| && j != i ==> unchanged(shards[j])
      ensures forall x :: x in Elements() ==> x in old(Elements()) || fresh(x)
      ensures (forall x :: x in shards[i].order ==> x in old(shards[i].order)) ==> Elements() <= old(Elements())
    {
    }

    lemma {:induction false} ShardParts(i: nat)
      requires ShardsOk() && i < |shards|
      ensures shards[i].Valid() && shards[i].globalSize == size && shards[i].Consistent()
      ensures shards[i].maxEntries == PerShard(cfg.maxEntries, |shards|)
      ensures shards[i].maxEntries <= 0 || |shards[i].order| <= shards[i].maxEntries
      ensures forall x :: x in shards[i].order ==> x in Elements() && HomeOf(x.key) == i
      ensures Views()[i] == shards[i].View() && |Views()[i].order| == |shards[i].order|
      ensures forall j :: 0 <= j < |shards| && j != i ==> shards[j] != shards[i]
      ensures forall j, x :: 0 <= j < |shards| && j != i && x in shards[j].order ==> x !in shards[i].order
      ensures Linked(shards[i].View())
    {
      ViewsOk();
    }

    lemma {:induction false} ValidParts()
      requires Valid()
      ensures ShardsOk() && shards != [] && size.value == TotalSize(Views())
      ensures forall key :: HomeOf(key) < |shards| && HomeFun()(key) == HomeOf(key)
    {
    }

    lemma {:induction false} ValidIf()
      requires ShardsOk() && size.value == TotalSize(Views())
      ensures Valid()
    {
    }

    /** A write to the home shard of a key. */
    method Write(key: string, entry: Entry<T>)
      requires Valid()
      modifies shards, Elements(), size
      ensures Valid() && shards != []
      ensures
        var i, v := HomeOf(key), old(Views());
        Linked(v[i]) && Views() == v[i := Stored(v[i], PerShard(cfg.maxEntries, |shards|), key, entry)]
      ensures forall x :: x in Elements() ==> x in old(Elements()) || fresh(x)
    {
      hide *;
      ValidParts();
      var i := HomeOf(key);
      ShardParts(i);
      var evicted := shards[i].UpsertLocked(key, entry);
      forall j, x | 0 <= j < |shards| && j != i && x in old(shards[j].order)
        ensures unchanged(x)
      {
        assert x !in old(shards[i].order);
      }
      OneChanged(i);
      ElementsKept(i);
      SizeUpdate(old(Views()), i, shards[i].View());
      ShardParts(i);
      ValidIf();
    }

    /** What a write does to the whole map: at most the victim of a full shard is lost with it. */
    ghost predicate Wrote(before: seq<Shard<T>>, key: string, entry: Entry<T>, after: map<string, Entry<T>>) {
      shards != [] && HomeOf(key) < |before| && Linked(before[HomeOf(key)]) &&
      var v := before[HomeOf(key)];
      var up := Upserted(v, key, entry);
      Linked(up) && up.order != [] &&
      after == if OverCap(v, PerShard(cfg.maxEntries, |shards|), key)
               then Merged(before)[key := entry] - {up.order[Victim(up)].key}
               else Merged(before)[key := entry]
    }

    lemma {:induction false} WriteMeans(before: seq<Shard<T>>, key: string, entry: Entry<T>)
      requires shards != [] && |before| == |shards| && Homed(before, HomeFun()) && AllLinked(before)
      requires cfg.maxEntries > 0 ==> |before[HomeOf(key)].order| <= PerShard(cfg.maxEntries, |shards|)
      ensures Wrote(before, key, entry, Merged(before[HomeOf(key) :=
        Stored(before[HomeOf(key)], PerShard(cfg.maxEntries, |shards|), key, entry)]))
    {
      hide Homed, Merged, Stored, Upserted, Victim, OverCap;
      MergedStored(before, HomeFun(), PerShard(cfg.maxEntries, |shards|), key, entry);
    }

    /** The shards after a write: unchanged for an overlong key. */
    ghost function AfterWrite(before: seq<Shard<T>>, key: string, entry: Entry<T>): seq<Shard<T>>
    {
      if |key| > cfg.maxKeyLength || shards == [] || |before| != |shards| || !Linked(before[HomeOf(key)]) then before
      else before[HomeOf(key) := Stored(before[HomeOf(key)], PerShard(cfg.maxEntries, |shards|), key, entry)]
    }

    /** Configured without a bound and without default lifetimes. */
    ghost predicate Unbounded() {
      cfg.maxEntries <= 0 && cfg.positiveTTL <= 0 && cfg.negativeTTL <= 0
    }

    lemma {:induction false} UnboundedWrite(before: seq<Shard<T>>, op: CacheOp<T>, entry: Entry<T>)
      requires Unbounded() && shards != [] && |before| == |shards| && forall v :: v in before ==> Linked(v)
      requires (op.OpSet? && entry == Entry(Some(op.value), None)) || (op.OpNullify? && entry == Entry(None, None))
      ensures AfterWrite(before, op.key, entry) == ShardStep(before, HomeFun(), cfg.maxKeyLength, op)
    {
      hide Upserted, Linked, Stored;
      if |op.key| <= cfg.maxKeyLength {
        StoredIsUpserted(before[HomeOf(op.key)], op.key, entry);
      }
    }

    /** Set: an overlong key is dropped, any other is mapped to the value until its lifetime is over. */
    method SetWithTTL(key: string, value: T, ttl: int, now: Time)
      requires Valid()
      modifies shards, Elements(), size
      ensures Valid()
      ensures |key| > cfg.maxKeyLength ==> Contents() == old(Contents())
      ensures |key| <= cfg.maxKeyLength ==>
        Wrote(old(Views()), key, Entry(Some(value), ExpiresAt(ttl, cfg.positiveTTL, now)), Contents())
      ensures Views() == AfterWrite(old(Views()), key, Entry(Some(value), ExpiresAt(ttl, cfg.positiveTTL, now)))
      ensures forall x :: x in Elements() ==> x in old(Elements()) || fresh(x)
    {
      hide ShardsOk, Valid, Views, Merged, Wrote;
      ViewsWellFormed();
      if |key| > cfg.maxKeyLength {
        return;
      }
      WriteMeans(Views(), key, Entry(Some(value), ExpiresAt(ttl, cfg.positiveTTL, now)));
      Write(key, Entry(Some(value), ExpiresAt(ttl, cfg.positiveTTL, now)));
    }

    /** Nullify: the same with the marker for a key known to be absent. */
    method NullifyWithTTL(key: string, ttl: int, now: Time)
      requires Valid()
      modifies shards, Elements(), size
      ensures Valid()
      ensures |key| > cfg.maxKeyLength ==> Contents() == old(Contents())
      ensures |key| <= cfg.maxKeyLength ==>
        Wrote(old(Views()), key, Entry(None, ExpiresAt(ttl, cfg.negativeTTL, now)), Contents())
      ensures Views() == AfterWrite(old(Views()), key, Entry(None, ExpiresAt(ttl, cfg.negativeTTL, now)))
      ensures forall x :: x in Elements() ==> x in old(Elements()) || fresh(x)
    {
      hide ShardsOk, Valid, Views, Merged, Wrote;
      ViewsWellFormed();
      if |key| > cfg.maxKeyLength {
        return;
      }
      WriteMeans(Views(), key, Entry(None, ExpiresAt(ttl, cfg.negativeTTL, now)));
      Write(key, Entry(None, ExpiresAt(ttl, cfg.negativeTTL, now)));
    }

    /**
     A read at time t of what was written at time now: a negative lifetime never ends, a positive one ends after so
     many nanoseconds, and zero stands for the configured one, which counts when it is positive.
    */
    ghost predicate Lives(ttl: int, configured: int, now: Time, t: Time) {
      ttl < 0 || (ttl == 0 && configured <= 0) || t <= now + (if ttl > 0 then ttl else configured)
    }

    /**
     A write and a later read: the value is answered while it lives, unless the write itself evicted the key, which
     only a home shard at its limit does. A key too long is not there.
    */
    method SetThenGet(key: string, value: T, ttl: int, now: Time, t: Time)
      returns (status: CacheStatus<T>, ghost kept: bool)
      requires Valid()
      modifies shards, Elements(), size
      ensures Valid()
      ensures |key| <= cfg.maxKeyLength && kept ==>
        status == if Lives(ttl, cfg.positiveTTL, now, t) then CacheHitPositive(value) else CacheMiss
      ensures |key| <= cfg.maxKeyLength && !kept ==> status == CacheMiss
      ensures |key| <= cfg.maxKeyLength && !kept ==>
        && cfg.maxEntries > 0 && shards != []
        && |old(Views())[HomeOf(key)].order| >= cfg.maxEntries / |shards|
    {
      hide Valid, ShardsOk, Views, Merged, Wrote, Linked, AfterWrite, ShardStep, Contents, Answer, Elements, ExpiresAt;
      ghost var before := Views();
      SetWithTTL(key, value, ttl, now);
      kept := key in Contents();
      if |key| <= cfg.maxKeyLength {
        WroteAnswers(before, key, Entry(Some(value), ExpiresAt(ttl, cfg.positiveTTL, now)), Contents(), t);
        LifetimeMeans(ttl, cfg.positiveTTL, now, t);
      }
      status := GetStatus(key, t);
    }

    lemma {:induction false} WroteAnswers(
      before: seq<Shard<T>>, key: string, entry: Entry<T>, after: map<string, Entry<T>>, t: Time)
      requires Wrote(before, key, entry, after)
      ensures shards != [] && HomeOf(key) < |before|
      ensures key in after ==>
        Answer(after, key, t) ==
          if entry.expiresAt.Some? && t > entry.expiresAt.value then CacheMiss
          else if entry.artifact.None? then CacheHitNegative
          else CacheHitPositive(entry.artifact.value)
      ensures key !in after ==> Answer(after, key, t) == CacheMiss
      ensures key !in after ==> cfg.maxEntries > 0 && |before[HomeOf(key)].order| >= cfg.maxEntries / |shards|
    {
      hide Merged, Victim, Upserted, Linked, Find;
    }

    lemma {:induction false} LifetimeMeans(ttl: int, configured: int, now: Time, t: Time)
      ensures
        var e := ExpiresAt(ttl, configured, now);
        Lives(ttl, configured, now, t) <==> !(e.Some? && t > e.value)
    {
    }

    /** The same for the marker of a key known to be absent. */
    method NullifyThenGet(key: string, ttl: int, now: Time, t: Time)
      returns (status: CacheStatus<T>, ghost kept: bool)
      requires Valid()
      modifies shards, Elements(), size
      ensures Valid()
      ensures |key| <= cfg.maxKeyLength && kept ==>
        status == if Lives(ttl, cfg.negativeTTL, now, t) then CacheHitNegative else CacheMiss
      ensures |key| <= cfg.maxKeyLength && !kept ==> status == CacheMiss
    {
      hide Valid, ShardsOk, Views, Merged, Wrote, Linked, AfterWrite, ShardStep, Contents, Answer, Elements, ExpiresAt;
      ghost var before := Views();
      NullifyWithTTL(key, ttl, now);
      kept := key in Contents();
      if |key| <= cfg.maxKeyLength {
        WroteAnswers(before, key, Entry(None, ExpiresAt(ttl, cfg.negativeTTL, now)), Contents(), t);
        LifetimeMeans(ttl, cfg.negativeTTL, now, t);
      }
      status := GetStatus(key, t);
    }

    /** Set with the configured lifetime; without bound and lifetimes, one step of the unbounded cache. */
    method Set(key: string, value: T, now: Time)
      requires Valid()
      modifies shards, Elements(), size
      ensures Valid()
      ensures Views() == AfterWrite(old(Views()), key, Entry(Some(value), ExpiresAt(0, cfg.positiveTTL, now)))
      ensures Unbounded() ==>
        shards != [] && Views() == ShardStep(old(Views()), HomeFun(), cfg.maxKeyLength, OpSet(key, value))
      ensures forall x :: x in Elements() ==> x in old(Elements()) || fresh(x)
    {
      hide ShardsOk, Valid, Views, Merged, Wrote, Linked, AfterWrite, ShardStep;
      ViewsWellFormed();
      if Unbounded() {
        UnboundedWrite(Views(), OpSet(key, value), Entry(Some(value), None));
      }
      SetWithTTL(key, value, 0, now);
    }

    method Nullify(key: string, now: Time)
      requires Valid()
      modifies shards, Elements(), size
      ensures Valid()
      ensures Views() == AfterWrite(old(Views()), key, Entry(None, ExpiresAt(0, cfg.negativeTTL, now)))
      ensures Unbounded() ==>
        shards != [] && Views() == ShardStep(old(Views()), HomeFun(), cfg.maxKeyLength, OpNullify(key))
      ensures forall x :: x in Elements() ==> x in old(Elements()) || fresh(x)
    {
      hide ShardsOk, Valid, Views, Merged, Wrote, Linked, AfterWrite, ShardStep;
      ViewsWellFormed();
      if Unbounded() {
        UnboundedWrite(Views(), OpNullify(key), Entry(None, None));
      }
      NullifyWithTTL(key, 0, now);
    }

    lemma {:induction false} ViewsWellFormed()
      requires Valid()
      ensures shards != [] && Homed(Views(), HomeFun()) && AllLinked(Views())
      ensures forall i :: 0 <= i < |shards| ==> Linked(Views()[i])
      ensures Contents() == Merged(Views())
      ensures cfg.maxEntries > 0 ==>
        forall i :: 0 <= i < |shards| ==> |Views()[i].order| <= PerShard(cfg.maxEntries, |shards|)
    {
      ViewsOk();
    }

    /** Looks a key up; the map stays. */
    method GetStatus(key: string, now: Time) returns (status: CacheStatus<T>)
      requires Valid()
      modifies Elements()
      ensures Valid() && shards != []
      ensures status == Answer(old(Contents()), key, now) && Contents() == old(Contents())
      ensures Views() == ShardStep(old(Views()), HomeFun(), cfg.maxKeyLength, OpGet(key, now))
      ensures Elements() <= old(Elements())
    {
      hide *;
      ValidParts();
      ViewsWellFormed();
      var i := HomeOf(key);
      ShardParts(i);
      StepsAre(Views(), HomeFun(), cfg.maxKeyLength, key, now);
      AnswerAt(Views(), HomeFun(), key, now);
      ReadSame(Views(), i, key, now);
      status := shards[i].GetStatus(key, now);
      forall j, x | 0 <= j < |shards| && j != i && x in old(shards[j].order)
        ensures unchanged(x)
      {
        assert x !in old(shards[i].order);
      }
      OneChanged(i);
      ElementsKept(i);
      SizeUpdate(old(Views()), i, shards[i].View());
      ShardParts(i);
      ValidIf();
      ViewsWellFormed();
    }

    /** Removes a key. */
    method Evict(key: string)
      requires Valid()
      modifies shards, size
      ensures Valid() && shards != []
      ensures Contents() == old(Contents()) - {key}
      ensures Views() == ShardStep(old(Views()), HomeFun(), cfg.maxKeyLength, OpEvict(key))
      ensures Elements() <= old(Elements())
    {
      hide *;
      ValidParts();
      ViewsWellFormed();
      var i := HomeOf(key);
      ShardParts(i);
      StepsAre(Views(), HomeFun(), cfg.maxKeyLength, key, 0);
      MergedWithout(Views(), HomeFun(), key);
      shards[i].Evict(key);
      forall j, x | 0 <= j < |shards| && j != i && x in old(shards[j].order)
        ensures unchanged(x)
      {
        assert x !in old(shards[i].order);
      }
      OneChanged(i);
      ElementsKept(i);
      SizeUpdate(old(Views()), i, shards[i].View());
      ShardParts(i);
      ValidIf();
      ViewsWellFormed();
    }

    /** Takes the expiry off a live entry: what the key answers now it answers for ever. */
    method Persist(key: string, now: Time) returns (live: bool)
      requires Valid()
      modifies shards, Elements(), size
      ensures Valid() && shards != []
      ensures live <==> Answer(old(Contents()), key, now) != CacheMiss
      ensures forall k, t :: t >= now ==>
        Answer(Contents(), k, t) ==
        if k == key then Answer(old(Contents()), key, now) else Answer(old(Contents()), k, t)
      ensures Elements() <= old(Elements())
    {
      hide *;
      ValidParts();
      ViewsWellFormed();
      var i := HomeOf(key);
      ShardParts(i);
      AnswerAt(Views(), HomeFun(), key, now);
      MergedPersisted(Views(), HomeFun(), key, now, Views()[i := Persisted(Views()[i], key, now)]);
      live := shards[i].Persist(key, now);
      forall j, x | 0 <= j < |shards| && j != i && x in old(shards[j].order)
        ensures unchanged(x)
      {
        assert x !in old(shards[i].order);
      }
      OneChanged(i);
      ElementsKept(i);
      SizeUpdate(old(Views()), i, shards[i].View());
      ShardParts(i);
      ValidIf();
      ViewsWellFormed();
    }

    lemma {:induction false} ReadSame(views: seq<Shard<T>>, i: nat, key: string, now: Time)
      requires shards != [] && Homed(views, HomeFun()) && AllLinked(views) && i < |views|
      ensures Merged(views[i := AfterRead(views[i], key, now)]) == Merged(views)
    {
      hide Homed, Merged, AfterRead;
      AfterReadSpec(views[i], key, now);
      MergedSame(views, HomeFun(), i, AfterRead(views[i], key, now));
    }

    /** The janitor's step on one shard: sweep, then compact. */
    method SweepShard(i: nat, now: Time) returns (expired: nat)
      requires Valid() && i < |shards|
      modifies shards, size
      ensures Valid()
      ensures
        var v := old(Views());
        var w := Swept(v[i], now, SweepEnd(|v[i].order|, cfg.janitorBatchSize), |v[i].order|);
        Views() == v[i := w] && expired == |v[i].order| - |w.order|
      ensures Elements() <= old(Elements())
    {
      hide *;
      ValidParts();
      ShardParts(i);
      expired := shards[i].SweepExpiredBounded(now, cfg.janitorBatchSize);
      var compacted := shards[i].CompactIfNeeded();
      forall j, x | 0 <= j < |shards| && j != i && x in old(shards[j].order)
        ensures unchanged(x)
      {
        assert x !in old(shards[i].order);
      }
      OneChanged(i);
      ElementsKept(i);
      SizeUpdate(old(Views()), i, shards[i].View());
      ShardParts(i);
      ValidIf();
    }

    /**
     One janitor tick: no lookup at or after the tick's time can tell that it happened. It removes only keys a lookup
     at that time would miss, and all of them when no shard is longer than a batch.
    */
    method Sweep(now: Time) returns (totalExpired: nat)
      requires Valid()
      modifies shards, size
      ensures Valid()
      ensures forall key :: key in Contents() ==> key in old(Contents()) && Contents()[key] == old(Contents())[key]
      ensures forall key :: key in old(Contents()) && key !in Contents() ==>
        Answer(old(Contents()), key, now) == CacheMiss
      ensures
        (cfg.janitorBatchSize <= 0 || forall i :: 0 <= i < |shards| ==> |old(Views())[i].order| <= cfg.janitorBatchSize)
        ==> forall key :: Answer(old(Contents()), key, now) == CacheMiss ==> key !in Contents()
      ensures forall key, t :: t >= now ==> Answer(Contents(), key, t) == Answer(old(Contents()), key, t)
      ensures totalExpired == old(size.value) - size.value
      ensures shards != []
      ensures Views() == ShardStep(old(Views()), HomeFun(), cfg.maxKeyLength, OpSweep(now, cfg.janitorBatchSize))
      ensures Elements() <= old(Elements())
    {
      hide *;
      ViewsWellFormed();
      ValidParts();
      ghost var v := Views();
      totalExpired := 0;
      for i := 0 to |shards|
        invariant Valid() && |v| == |shards| && |Views()| == |v|
        invariant forall j :: 0 <= j < i ==>
          Views()[j] == Swept(v[j], now, SweepEnd(|v[j].order|, cfg.janitorBatchSize), |v[j].order|)
        invariant forall j :: i <= j < |v| ==> Views()[j] == v[j]
        invariant totalExpired == old(size.value) - size.value && Elements() <= old(Elements())
      {
        ghost var before := Views();
        ValidParts();
        var expired := SweepShard(i, now);
        ValidParts();
        SizeUpdate(before, i, Views()[i]);
        totalExpired := totalExpired + expired;
      }
      MergedSwept(v, Views(), HomeFun(), now, cfg.janitorBatchSize);
      forall key {
        MergedSweptExactly(v, Views(), HomeFun(), now, cfg.janitorBatchSize, key);
      }
      SweepStep(v, Views(), HomeFun(), cfg.maxKeyLength, now, cfg.janitorBatchSize);
      ViewsWellFormed();
    }

    /** Empties one shard. */
    method ClearShard(i: nat)
      requires Valid() && i < |shards|
      modifies shards, size
      ensures Valid()
      ensures Views() == old(Views())[i := Shard([], None)]
      ensures Elements() <= old(Elements())
    {
      hide *;
      ValidParts();
      ShardParts(i);
      shards[i].Clear();
      forall j, x | 0 <= j < |shards| && j != i && x in old(shards[j].order)
        ensures unchanged(x)
      {
        assert x !in old(shards[i].order);
      }
      OneChanged(i);
      ElementsKept(i);
      SizeUpdate(old(Views()), i, shards[i].View());
      ShardParts(i);
      ValidIf();
    }

    method Clear()
      requires Valid()
      modifies shards, size
      ensures Valid() && Contents() == map[] && size.value == 0
      ensures shards != [] && Views() == ShardStep(old(Views()), HomeFun(), cfg.maxKeyLength, OpClear)
      ensures Elements() <= old(Elements())
    {
      hide *;
      ValidParts();
      ghost var v := Views();
      for i := 0 to |shards|
        invariant Valid() && |Views()| == |shards| && |v| == |shards|
        invariant forall j :: 0 <= j < i ==> Views()[j] == Shard([], None)
        invariant Elements() <= old(Elements())
      {
        ClearShard(i);
      }
      ClearStep(v, Views(), HomeFun(), cfg.maxKeyLength);
      NoEntries(Views());
      ViewsWellFormed();
      ValidParts();
    }

    /** Evicts one entry of a shard under its lock. */
    method EvictFrom(i: nat) returns (evicted: bool)
      requires Valid() && i < |shards|
      modifies shards, Elements(), size
      ensures Valid()
      ensures
        var v := old(Views());
        && Linked(v[i]) && Views() == v[i := EvictedOne(v[i])] && (evicted <==> v[i].order != [])
      ensures size.value == old(size.value) - if evicted then 1 else 0
      ensures Elements() <= old(Elements())
    {
      hide *;
      ValidParts();
      ShardParts(i);
      evicted := shards[i].EvictOneCLOCK();
      EvictedKeepsCap(i);
      forall j, x | 0 <= j < |shards| && j != i && x in old(shards[j].order)
        ensures unchanged(x)
      {
        assert x !in old(shards[i].order);
      }
      OneChanged(i);
      ElementsKept(i);
      SizeUpdate(old(Views()), i, shards[i].View());
      ShardParts(i);
      ValidIf();
    }

    lemma {:induction false} EvictedKeepsCap(i: nat)
      requires i < |shards| && shards[i].Consistent()
      ensures shards[i].maxEntries <= 0 || |shards[i].order| <= shards[i].maxEntries ==> shards[i].Valid()
    {
    }

    /**
     One tick of the watermark evictor: round robin over the shards until the batch is used up or the low
     watermark is reached. It always evicts exactly as many entries as those two allow, so the guard against a
     full round without progress never ends it early.
    */
    method EvictBatch(lowCount: nat, batchSize: nat, shardIdx: nat)
      returns (evicted: nat, nextIdx: nat, reachedLow: bool)
      requires Valid()
      modifies shards, Elements(), size
      ensures Valid()
      ensures var surplus := old(size.value) - lowCount;
        evicted == if surplus <= 0 then 0 else if surplus < batchSize then surplus else batchSize
      ensures size.value == old(size.value) - evicted
      ensures reachedLow ==> size.value <= lowCount
      ensures Elements() <= old(Elements())
    {
      hide *;
      ValidParts();
      evicted, nextIdx, reachedLow := 0, shardIdx, false;
      var noProgress := 0;
      NoneBehind(Views(), nextIdx);
      while evicted < batchSize
        invariant Valid() && Elements() <= old(Elements()) && noProgress < |shards|
        invariant size.value == old(size.value) - evicted && evicted <= batchSize
        invariant old(size.value) <= lowCount ==> evicted == 0
        invariant old(size.value) > lowCount ==> size.value >= lowCount
        invariant EmptyBehind(Views(), nextIdx, noProgress)
        decreases batchSize - evicted, |shards| - noProgress
      {
        if size.value <= lowCount {
          reachedLow := true;
          break;
        }
        ValidParts();
        var i := nextIdx % |shards|;
        ghost var before := Views();
        nextIdx := nextIdx + 1;
        var success := EvictFrom(i);
        if success {
          evicted := evicted + 1;
          noProgress := 0;
          NoneBehind(Views(), nextIdx);
        } else {
          EvictedFromNone(before[i]);
          assert Views() == before;
          OneMoreBehind(before, nextIdx - 1, noProgress);
          noProgress := noProgress + 1;
          if noProgress >= |shards| {
            AllBehind(before, nextIdx);
            assert false;
            break;
          }
        }
      }
    }

    constructor (config: CacheConfig, hash: string -> nat)
      requires config.shardCount <= MAX_SHARDS
      ensures Valid() && Contents() == map[] && shards != []
      ensures Views() == ShardRun([], |shards|, HomeFun(), cfg.maxKeyLength)
      ensures exists k: nat :: |shards| == Pow2(k)
      ensures fresh(size) && Elements() == {} && forall i :: 0 <= i < |shards| ==> fresh(shards[i])
    {
      hide Pow2, CacheShard.Valid, CacheShard.View, CacheShard.Consistent, Valid, ShardsOk, Views, Elements,
        Contents, ShardRun;
      var normal := Normalize(config);
      var perShard := 0;
      if normal.maxEntries > 0 {
        perShard := normal.maxEntries / normal.shardCount;
        if perShard < 1 {
          perShard := 1;
        }
      }
      var counter := new Counter();
      var made := MakeShards(normal.shardCount, perShard, normal.compactionThreshold, counter);
      cfg, shards, size, this.hash := normal, made, counter, hash;
      new;
      StartsEmpty();
    }

    lemma {:induction false} StartsEmpty()
      requires shards != [] && size.value == 0 && forall i, j :: 0 <= i < j < |shards| ==> shards[i] != shards[j]
      requires forall i :: 0 <= i < |shards| ==>
        && shards[i].Valid() && shards[i].order == [] && shards[i].View() == Shard([], None)
        && shards[i].maxEntries == PerShard(cfg.maxEntries, |shards|) && shards[i].globalSize == size
      ensures Valid() && Contents() == map[] && Elements() == {}
      ensures Views() == ShardRun([], |shards|, HomeFun(), cfg.maxKeyLength)
    {
      hide TotalSize, Merged, CacheShard.Valid, CacheShard.View, PerShard;
      NoEntries(Views());
    }

    static method MakeShards(n: nat, perShard: int, compactAt: int, counter: Counter)
      returns (made: seq<CacheShard<T>>)
      ensures |made| == n && forall i, j :: 0 <= i < j < n ==> made[i] != made[j]
      ensures forall i :: 0 <= i < n ==>
        && fresh(made[i]) && made[i].Valid() && made[i].order == [] && made[i].View() == Shard([], None)
        && made[i].maxEntries == perShard && made[i].globalSize == counter
    {
      made := [];
      for i := 0 to n
        invariant |made| == i && forall j, k :: 0 <= j < k < i ==> made[j] != made[k]
        invariant forall j :: 0 <= j < i ==>
          && fresh(made[j]) && made[j].Valid() && made[j].order == [] && made[j].View() == Shard([], None)
          && made[j].maxEntries == perShard && made[j].globalSize == counter
      {
        var shard := new CacheShard(perShard, compactAt, counter);
        made := made + [shard];
      }
    }
  }

  lemma {:induction false} NoEntries<T>(views: seq<Shard<T>>)
    requires forall i :: 0 <= i < |views| ==> views[i].order == []
    ensures TotalSize(views) == 0 && Merged(views) == map[]
  {
    if views != [] {
      NoEntries(views[..|views| - 1]);
    }
  }

  /** How far shard j lies behind the next one to visit. */
  function Behind(next: nat, n: nat, j: nat): nat
    requires j < n
  {
    if j < next % n then next % n - 1 - j else next % n + n - 1 - j
  }

  /** The last so many shards visited are empty. */
  ghost predicate EmptyBehind<T>(views: seq<Shard<T>>, next: nat, count: nat) {
    forall j :: 0 <= j < |views| && Behind(next, |views|, j) < count ==> views[j].order == []
  }

  lemma {:induction false} NoneBehind<T>(views: seq<Shard<T>>, next: nat)
    ensures EmptyBehind(views, next, 0)
  {
  }

  lemma {:induction false} NextModulo(next: nat, n: nat)
    requires n > 0
    ensures (next + 1) % n == if next % n + 1 == n then 0 else next % n + 1
  {
    var q, r := next / n, next % n;
    assert next + 1 == q * n + (r + 1);
    if r + 1 == n {
      assert next + 1 == (q + 1) * n + 0;
      ModuloIs(next + 1, q + 1, 0, n);
    } else {
      ModuloIs(next + 1, q, r + 1, n);
    }
  }

  lemma {:induction false} ModuloIs(x: nat, q: nat, r: nat, n: nat)
    requires r < n && x == q * n + r
    ensures x % n == r
  {
    assert x == (x / n) * n + x % n;
    MultipleApart(x / n - q, n);
    assert (x / n - q) * n == r - x % n;
  }

  lemma {:induction false} MultipleApart(d: int, n: nat)
    ensures d >= 1 ==> d * n >= n
    ensures d <= -1 ==> d * n <= 0 - n
  {
  }

  lemma {:induction false} OneMoreBehind<T>(views: seq<Shard<T>>, next: nat, count: nat)
    requires views != [] && EmptyBehind(views, next, count) && views[next % |views|].order == []
    ensures EmptyBehind(views, next + 1, count + 1)
  {
    NextModulo(next, |views|);
    forall j | 0 <= j < |views| && Behind(next + 1, |views|, j) < count + 1
      ensures views[j].order == []
    {
      assert j != next % |views| ==> Behind(next, |views|, j) == Behind(next + 1, |views|, j) - 1;
    }
  }

  lemma {:induction false} AllBehind<T>(views: seq<Shard<T>>, next: nat)
    requires EmptyBehind(views, next, |views|)
    ensures TotalSize(views) == 0
  {
    hide TotalSize, Merged;
    forall j | 0 <= j < |views|
      ensures views[j].order == []
    {
      assert Behind(next, |views|, j) < |views|;
    }
    NoEntries(views);
  }

  // ---------- the in-memory cache ----------

  /** Unbounded and without expiry: lifetimes passed to it are ignored. */
  class InMemoryCache<T> {
    var entries: map<string, Option<T>>

    constructor ()
      ensures entries == SimpleRun<T>([], 0)
    {
      entries := map[];
    }

    method GetStatus(key: string) returns (status: CacheStatus<T>)
      ensures status == SimpleAnswer(entries, key)
    {
      if key !in entries {
        return CacheMiss;
      }
      return if entries[key].None? then CacheHitNegative else CacheHitPositive(entries[key].value);
    }

    method Set(key: string, value: T)
      modifies this
      ensures entries == SimpleStep(old(entries), OpSet(key, value))
    {
      entries := entries[key := Some(value)];
    }

    method Nullify(key: string)
      modifies this
      ensures entries == SimpleStep(old(entries), OpNullify(key))
    {
      entries := entries[key := None];
    }

    method Evict(key: string)
      modifies this
      ensures entries == SimpleStep(old(entries), OpEvict(key))
    {
      entries := entries - {key};
    }

    method Clear()
      modifies this
      ensures entries == SimpleStep(old(entries), OpClear)
    {
      entries := map[];
    }
  }
}
