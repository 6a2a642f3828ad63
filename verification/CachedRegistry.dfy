/**
 The registry behind a read-through, write-through cache. The cache is only assumed to be a map that may
 forget any of its entries at any time (expiry, eviction, sweeps); a present entry is either a view or the
 marker "known to be absent".
*/
module CachedRegistries {
  import opened Wrappers
  import opened Handles
  import opened LittleEndian
  import opened Snapshots
  import opened Compaction
  import opened Transfer
  import opened Registries
  import opened RegistryOperations

  type View = (Handle, seq<byte>)

  datatype CacheStatus = CacheMiss | CacheHitPositive(view: View) | CacheHitNegative

  /** A cache that forgets: every operation may first drop any entries. */
  class ForgetfulCache {
    var entries: map<string, Option<View>>

    constructor ()
      ensures entries == map[]
    {
      entries := map[];
    }

    method Forget()
      modifies this
      ensures forall k :: k in entries ==> k in old(entries) && entries[k] == old(entries)[k]
    {
      var dropped: set<string> := *;
      entries := entries - dropped;
    }

    method GetStatus(k: string) returns (status: CacheStatus)
      modifies this
      ensures forall x :: x in entries ==> x in old(entries) && entries[x] == old(entries)[x]
      ensures match status
              case CacheMiss => k !in entries
              case CacheHitPositive(view) => k in entries && entries[k] == Some(view)
              case CacheHitNegative => k in entries && entries[k] == None
    {
      Forget();
      if k !in entries {
        return CacheMiss;
      }
      match entries[k] {
        case Some(view) => return CacheHitPositive(view);
        case None => return CacheHitNegative;
      }
    }

    method Put(k: string, e: Option<View>)
      modifies this
      ensures forall x :: x in entries ==>
        if x == k then entries[x] == e else x in old(entries) && entries[x] == old(entries)[x]
    {
      entries := entries[k := e];
      Forget();
    }

    method Evict(k: string)
      modifies this
      ensures forall x :: x in entries ==> x != k && x in old(entries) && entries[x] == old(entries)[x]
    {
      Forget();
      entries := entries - {k};
    }

    method Clear()
      modifies this
      ensures entries == map[]
    {
      entries := map[];
    }
  }

  /** What the registry itself answers for a key: the entry behind its handle, and its bytes. */
  ghost function Answer(entries: map<Word, Entry>, contents: map<Word, seq<byte>>, id: Word): Option<(Entry, seq<byte>)>
    requires entries.Keys == contents.Keys
  {
    if id in contents then Some((entries[id], contents[id])) else None
  }

  /** A cached entry says the same as the registry. */
  ghost predicate Says(s: HandleSpec, e: Option<View>, answer: Option<(Entry, seq<byte>)>) {
    match e
    case Some((h, bytes)) => answer == Some((EntryOf(s, h), bytes))
    case None => answer == None
  }

  class CachedRegistry<K(!new)> {
    const registry: Registry<K>
    const cache: ForgetfulCache
    const keyToString: K -> string

    /** Cache strings and registry ids tell the same keys apart. */
    ghost predicate SameKeys() {
      registry.hashKey.Some? ==>
        forall a: K, b: K {:trigger keyToString(a), keyToString(b)} ::
          keyToString(a) == keyToString(b) <==> registry.IdOf(a) == registry.IdOf(b)
    }

    ghost function AnswerFor(key: K): Option<(Entry, seq<byte>)>
      requires registry.Valid()
      reads registry, registry.snap.header,
            if registry.snap.idIndex == null then {}
            else {
              registry.snap.idIndex, registry.snap.idIndex.keys, registry.snap.idIndex.vals, registry.snap.idIndex.state
            }
    {
      AnswerIn(registry.Handles(), registry.Denoted(), key)
    }

    ghost function AnswerIn(es: map<Word, Entry>, cs: map<Word, seq<byte>>, key: K): Option<(Entry, seq<byte>)>
      requires es.Keys == cs.Keys
    {
      if registry.Configured() then Answer(es, cs, registry.IdOf(key)) else None
    }

    ghost predicate Agrees(cached: map<string, Option<View>>, es: map<Word, Entry>, cs: map<Word, seq<byte>>)
      requires es.Keys == cs.Keys
    {
      forall key: K :: keyToString(key) in cached ==>
        Says(registry.spec, cached[keyToString(key)], AnswerIn(es, cs, key))
    }

    /** Every positive entry equals the registry's answer, and every negative one stands for an absent key. */
    ghost predicate Coherent()
      requires registry.Valid()
      reads cache, registry, registry.snap.header,
            if registry.snap.idIndex == null then {}
            else {
              registry.snap.idIndex, registry.snap.idIndex.keys, registry.snap.idIndex.vals, registry.snap.idIndex.state
            }
    {
      Agrees(cache.entries, registry.Handles(), registry.Denoted())
    }

    constructor (registry: Registry<K>, keyToString: K -> string)
      requires registry.Valid()
      ensures this.registry == registry && this.keyToString == keyToString
      ensures registry.Valid() && fresh(cache) && Coherent()
    {
      hide Registry.Valid, Registry.Denoted, Registry.Handles;
      this.registry, this.keyToString := registry, keyToString;
      this.cache := new ForgetfulCache();
    }

    /**
     After a change that touches one key's id only, a cache that kept nothing of that key but what is true now
     agrees again.
    */
    lemma {:induction false} AgreesAfter(
      cached: map<string, Option<View>>, es: map<Word, Entry>, cs: map<Word, seq<byte>>, key: K,
      cached': map<string, Option<View>>, es': map<Word, Entry>, cs': map<Word, seq<byte>>)
      requires SameKeys() && es.Keys == cs.Keys && es'.Keys == cs'.Keys && Agrees(cached, es, cs)
      requires registry.hashKey.Some? ==> forall id :: id != registry.IdOf(key) ==>
        Answer(es', cs', id) == Answer(es, cs, id)
      requires registry.hashKey.None? ==> es' == es && cs' == cs
      requires forall k :: k in cached' && k != keyToString(key) ==> k in cached && cached'[k] == cached[k]
      requires keyToString(key) in cached' ==>
        Says(registry.spec, cached'[keyToString(key)], AnswerIn(es', cs', key))
      ensures Agrees(cached', es', cs')
    {
      hide Registry.IdOf, Says, Answer;
      forall other: K | keyToString(other) in cached'
        ensures Says(registry.spec, cached'[keyToString(other)], AnswerIn(es', cs', other))
      {
        assert registry.hashKey.Some? ==>
          (keyToString(other) == keyToString(key) <==> registry.IdOf(other) == registry.IdOf(key));
        if keyToString(other) != keyToString(key) {
          assert Says(registry.spec, cached[keyToString(other)], AnswerIn(es, cs, other));
        }
      }
    }

    lemma {:induction false} AgreesAt(
      cached: map<string, Option<View>>, es: map<Word, Entry>, cs: map<Word, seq<byte>>, key: K)
      requires es.Keys == cs.Keys && Agrees(cached, es, cs) && keyToString(key) in cached
      ensures cached[keyToString(key)].Some? ==>
        var (h, bytes) := cached[keyToString(key)].value;
        AnswerIn(es, cs, key) == Some((EntryOf(registry.spec, h), bytes))
      ensures cached[keyToString(key)].None? ==> AnswerIn(es, cs, key) == None
    {
      assert Says(registry.spec, cached[keyToString(key)], AnswerIn(es, cs, key));
    }

    /** The path of a miss: ask the registry and remember what it said. */
    method Load(key: K) returns (r: Result<View, GetError>)
      requires registry.Valid() && SameKeys() && Coherent()
      modifies cache
      ensures registry.Valid() && Coherent()
      ensures r.Ok? <==> AnswerFor(key).Some?
      ensures r.Ok? ==> AnswerFor(key) == Some((EntryOf(registry.spec, r.value.0), r.value.1))
    {
      hide Registry.Valid, Registry.Denoted, Registry.Handles, Registry.IdOf, EntryOf, Agrees, SameKeys;
      ghost var cached, es, cs := cache.entries, registry.Handles(), registry.Denoted();
      r := registry.Get(key);
      var e := if r.Ok? then Some(r.value) else None;
      assert Says(registry.spec, e, AnswerIn(es, cs, key));
      cache.Put(keyToString(key), e);
      AgreesAfter(cached, es, cs, key, cache.entries, es, cs);
    }

    /** Answers exactly as the registry would, from the cache or from the registry. */
    method Get(key: K) returns (r: Result<View, GetError>)
      requires registry.Valid() && SameKeys() && Coherent()
      modifies cache
      ensures registry.Valid() && Coherent()
      ensures r.Ok? <==> AnswerFor(key).Some?
      ensures r.Ok? ==> AnswerFor(key) == Some((EntryOf(registry.spec, r.value.0), r.value.1))
    {
      hide Registry.Valid, Registry.Denoted, Registry.Handles, Registry.IdOf, EntryOf, Agrees, SameKeys, Says, AnswerIn;
      ghost var cached, es, cs := cache.entries, registry.Handles(), registry.Denoted();
      if keyToString(key) in cached {
        AgreesAt(cached, es, cs, key);
      }
      var status := cache.GetStatus(keyToString(key));
      AgreesSubmap(cached, es, cs, cache.entries);
      match status {
        case CacheHitPositive(view) => return Ok(view);
        case CacheHitNegative => return Err(NotFound);
        case CacheMiss => r := Load(key);
      }
    }

    lemma {:induction false} AgreesSubmap(
      cached: map<string, Option<View>>, es: map<Word, Entry>, cs: map<Word, seq<byte>>,
      cached': map<string, Option<View>>)
      requires es.Keys == cs.Keys && Agrees(cached, es, cs)
      requires forall k :: k in cached' ==> k in cached && cached'[k] == cached[k]
      ensures Agrees(cached', es, cs)
    {
      hide Says, AnswerIn;
    }

    lemma {:induction false} AgreesAfterStore(
      cached: map<string, Option<View>>, es: map<Word, Entry>, cs: map<Word, seq<byte>>, key: K,
      cached': map<string, Option<View>>, view: View)
      requires SameKeys() && es.Keys == cs.Keys && Agrees(cached, es, cs) && registry.Configured()
      requires forall k :: k in cached' && k != keyToString(key) ==> k in cached && cached'[k] == cached[k]
      requires keyToString(key) in cached' ==> cached'[keyToString(key)] == Some(view)
      ensures
        var es', cs' := es[registry.IdOf(key) := EntryOf(registry.spec, view.0)], cs[registry.IdOf(key) := view.1];
        && Agrees(cached', es', cs')
        && AnswerIn(es', cs', key) == Some((EntryOf(registry.spec, view.0), view.1))
    {
      hide Registry.IdOf, EntryOf, Agrees, SameKeys;
      ghost var id := registry.IdOf(key);
      ghost var es', cs' := es[id := EntryOf(registry.spec, view.0)], cs[id := view.1];
      AgreesAfter(cached, es, cs, key, cached', es', cs');
    }

    /** Writes through: a stored value is cached, a failed store evicts. */
    method WriteThrough(key: K, value: seq<byte>) returns (r: Result<View, SetError>)
      requires registry.Valid()
      modifies registry, cache
      ensures registry.Valid()
      ensures r.Ok? ==>
        && registry.Configured() && r.value.1 == value
        && registry.Denoted() == old(registry.Denoted())[registry.IdOf(key) := value]
        && registry.Handles() == old(registry.Handles())[registry.IdOf(key) := EntryOf(registry.spec, r.value.0)]
        && (keyToString(key) in cache.entries ==> cache.entries[keyToString(key)] == Some(r.value))
      ensures r.Err? ==>
        && registry.snap == old(registry.snap) && keyToString(key) !in cache.entries
        && registry.Denoted() == old(registry.Denoted()) && registry.Handles() == old(registry.Handles())
      ensures forall k :: k in cache.entries && k != keyToString(key) ==>
        k in old(cache.entries) && cache.entries[k] == old(cache.entries)[k]
    {
      hide Registry.Valid, Registry.Denoted, Registry.Handles, Registry.IdOf, EntryOf, SetFailure;
      hide ViewOf, Tiled, Registry.View;
      r := registry.Set(key, value);
      if r.Ok? {
        cache.Put(keyToString(key), Some(r.value));
      } else {
        cache.Evict(keyToString(key));
      }
    }

    method Set(key: K, value: seq<byte>) returns (r: Result<View, SetError>)
      requires registry.Valid() && SameKeys() && Coherent()
      modifies registry, cache
      ensures registry.Valid() && SameKeys() && Coherent()
      ensures r.Ok? ==>
        registry.Configured() && registry.Denoted() == old(registry.Denoted())[registry.IdOf(key) := value]
      ensures r.Ok? ==> AnswerFor(key) == Some((EntryOf(registry.spec, r.value.0), value)) && r.value.1 == value
      ensures r.Err? ==> registry.snap == old(registry.snap)
    {
      hide Registry.Valid, Registry.Denoted, Registry.Handles, Registry.IdOf, EntryOf, Agrees, SameKeys, Says, AnswerIn;
      ghost var cached, es, cs := cache.entries, registry.Handles(), registry.Denoted();
      r := WriteThrough(key, value);
      if r.Ok? {
        AgreesAfterStore(cached, es, cs, key, cache.entries, r.value);
      } else {
        AgreesSubmap(cached, es, cs, cache.entries);
      }
    }

    /**
     The condition cannot be dropped: when strings and ids tell two keys apart differently, storing different
     values under the two keys makes a cache that still has both contradict the registry.
    */
    method IncoherentOtherwise(a: K, v: seq<byte>, b: K, w: seq<byte>)
      returns (x: Result<View, SetError>, y: Result<View, SetError>)
      requires registry.Valid() && registry.hashKey.Some? && v != w
      requires !(keyToString(a) == keyToString(b) <==> registry.IdOf(a) == registry.IdOf(b))
      modifies registry, cache
      ensures registry.Valid()
      ensures x.Ok? && y.Ok? && keyToString(a) in cache.entries && keyToString(b) in cache.entries ==> !Coherent()
    {
      hide Registry.Valid, Registry.Denoted, Registry.Handles, Registry.IdOf, EntryOf, Agrees, SameKeys;
      x := WriteThrough(a, v);
      y := WriteThrough(b, w);
      if x.Ok? && y.Ok? && keyToString(a) in cache.entries && keyToString(b) in cache.entries {
        Contradicts(cache.entries, registry.Handles(), registry.Denoted(), a, b, x.value, y.value);
      }
    }

    lemma {:induction false} Contradicts(
      cached: map<string, Option<View>>, es: map<Word, Entry>, cs: map<Word, seq<byte>>, a: K, b: K, x: View, y: View)
      requires es.Keys == cs.Keys && registry.Configured() && x.1 != y.1
      requires !(keyToString(a) == keyToString(b) <==> registry.IdOf(a) == registry.IdOf(b))
      requires registry.IdOf(a) in cs && registry.IdOf(b) in cs && cs[registry.IdOf(b)] == y.1
      requires registry.IdOf(a) != registry.IdOf(b) ==> cs[registry.IdOf(a)] == x.1
      requires keyToString(a) in cached && (keyToString(a) != keyToString(b) ==> cached[keyToString(a)] == Some(x))
      requires keyToString(b) in cached && cached[keyToString(b)] == Some(y)
      ensures !Agrees(cached, es, cs)
    {
      hide Registry.IdOf, EntryOf;
      assert !Says(registry.spec, cached[keyToString(a)], AnswerIn(es, cs, a));
    }

    /** Evicts, then deletes. */
    method Delete(key: K) returns (removed: bool)
      requires registry.Valid() && SameKeys() && Coherent()
      modifies registry, cache
      ensures registry.Valid() && SameKeys() && Coherent()
      ensures removed <==> registry.hashKey.Some? && registry.IdOf(key) in old(registry.Denoted())
      ensures registry.hashKey.Some? ==> registry.Denoted() == old(registry.Denoted()) - {registry.IdOf(key)}
    {
      hide Registry.Valid, Registry.Denoted, Registry.Handles, Registry.IdOf, EntryOf, Agrees, SameKeys;
      ghost var cached, es, cs := cache.entries, registry.Handles(), registry.Denoted();
      cache.Evict(keyToString(key));
      removed := registry.Delete(key);
      AgreesAfter(cached, es, cs, key, cache.entries, registry.Handles(), registry.Denoted());
    }

    method Import(bs: seq<byte>) returns (r: Result<(), TransferError>)
      requires registry.Valid() && SameKeys()
      requires Parse(bs).Ok? ==> Writable(EntriesOf(registry.spec, Parse(bs).value.0), Parse(bs).value.1)
      modifies registry, cache
      ensures registry.Valid() && SameKeys() && Coherent()
      ensures r.Err? ==> registry.snap == old(registry.snap)
      ensures Parse(bs).Err? ==> r == Err(Parse(bs).error)
      ensures Parse(bs).Ok? ==>
        var es, data := EntriesOf(registry.spec, Parse(bs).value.0), Parse(bs).value.1;
        if ShortLengths(es, |es|)
        then r == Ok(()) && registry.Denoted() == ById(es, PackedRanges(es, |data|), data, |es|)
        else r == Err(ContentExceedsCapacity)
    {
      hide Registry.Valid, Registry.Denoted, Registry.Handles, Registry.IdOf, EntryOf, EntriesOf, Parse, Writable,
        SameKeys;
      hide ShortLengths, ById, PackedRanges;
      cache.Clear();
      r := registry.Import(bs);
    }
  }
}
