/**
 Runs of queries through one engine. The engine keeps partitions in a cache that may forget any of them at any time,
 looks them up by a key of the query, and notes in a kept partition what the last query answered through it wanted.
*/
module QueryRuns {
  import opened Wrappers
  import opened JsonValues
  import JsonPointers
  import opened QueryFilters
  import opened Partitioning
  import opened Projections
  import opened QueryValidation
  import opened QueryEngines

  // ---------- one engine ----------

  /** What an engine is given: the functions, the backend, and the key of a query, if it can be written down. */
  datatype Setting = Setting(env: Registered, backend: Backend, keyOf: Query -> Option<nat>)

  type PartitionCache = map<nat, Partition>

  /** A query with its records, the order its fields are enumerated in, and what the cache forgets before. */
  datatype Event = Event(q: Query, records: seq<Record>, names: seq<string>, forgotten: set<nat>)

  ghost predicate ProperNames(s: Setting, q: Query, names: seq<string>) {
    FilterParts(s.backend, q.filter).Ok? ==> Enumerates(names, FilterParts(s.backend, q.filter).value, q.wanted)
  }

  function Fresh(s: Setting, q: Query, names: seq<string>): Result<Partition, PartitionError> {
    match FilterParts(s.backend, q.filter)
    case Err(e) => Err(e)
    case Ok(parts) => Ok(FreshPartition(s.backend, q, parts, names))
  }

  /** A partition is kept under the query's key, or under zero when the query has none. */
  function StoreKey(s: Setting, q: Query): nat {
    match s.keyOf(q) case Some(k) => k case None => 0
  }

  /** The kept partition under the query's key, if there is one, or else a fresh one. */
  function Served(s: Setting, cache: PartitionCache, e: Event): Result<Partition, PartitionError> {
    var key := s.keyOf(e.q);
    if key.Some? && key.value in cache && key.value !in e.forgotten then Ok(cache[key.value])
    else Fresh(s, e.q, e.names)
  }

  ghost function Reply(s: Setting, cache: PartitionCache, e: Event): Result<seq<Record>, QueryError> {
    match Served(s, cache, e)
    case Err(reason) => Err(PartitioningFailed(reason))
    case Ok(p) => AnsweredWith(s.env, e.records, e.q.wanted, p)
  }

  /** The partition with the wanted fields of the query just answered as the projection of its remainder. */
  function Noted(p: Partition, wanted: seq<string>): Partition {
    p.(rest := p.rest.(wanted := wanted))
  }

  ghost function After(s: Setting, cache: PartitionCache, e: Event): PartitionCache {
    match Served(s, cache, e)
    case Err(_) => cache - e.forgotten
    case Ok(p) =>
      (cache - e.forgotten)[
        StoreKey(s, e.q) := if Reply(s, cache, e).Ok? && Remains(p.rest) then Noted(p, e.q.wanted) else p]
  }

  ghost function CacheAfter(s: Setting, events: seq<Event>): PartitionCache {
    if events == [] then map[] else After(s, CacheAfter(s, events[..|events| - 1]), events[|events| - 1])
  }

  ghost predicate From(s: Setting, used: iset<Query>, e: Event) {
    e.q in used && ProperNames(s, e.q, e.names)
  }

  ghost predicate AllFrom(s: Setting, used: iset<Query>, events: seq<Event>) {
    forall i :: 0 <= i < |events| ==> From(s, used, events[i])
  }

  /** Over every run of queries of a set, each is answered as by a fresh partition. */
  ghost predicate AlwaysFresh(s: Setting, used: iset<Query>) {
    forall events, e :: AllFrom(s, used, events) && From(s, used, e) ==>
      Reply(s, CacheAfter(s, events), e) == Reply(s, map[], e)
  }

  // ---------- when that is so ----------

  /** The partition of the first query is what the second one finds. */
  predicate Reaches(s: Setting, q: Query, r: Query) {
    s.keyOf(r) == Some(StoreKey(s, q))
  }

  /** Through a fresh partition of the first query, the second one gets its own answer. */
  ghost predicate Interchangeable(s: Setting, q: Query, r: Query)
    requires FilterParts(s.backend, q.filter).Ok?
  {
    forall records, names, own :: ProperNames(s, q, names) && ProperNames(s, r, own) ==>
      AnsweredWith(s.env, records, r.wanted, Fresh(s, q, names).value) == Reply(s, map[], Event(r, records, own, {}))
  }

  ghost predicate KeyTellsApart(s: Setting, used: iset<Query>) {
    forall q, r :: q in used && r in used && Reaches(s, q, r) && FilterParts(s.backend, q.filter).Ok? ==>
      Interchangeable(s, q, r)
  }

  /** Something remains of the query, and it is accepted when nothing is noted yet. */
  predicate LeavesRemainder(s: Setting, q: Query) {
    && FilterParts(s.backend, q.filter).Ok?
    && var rest := Remainder(s.backend, q, FilterParts(s.backend, q.filter).value);
       && Remains(rest) && QueryFault(rest).None?
       && (NoPagination(q.page) || q.page.value.kind == "offset")
  }

  /** The second query can be answered through the remainder of the first, and the third one finds it after that. */
  predicate KeptFor(s: Setting, q: Query, w: Query, r: Query) {
    LeavesRemainder(s, q) && (w == q || Reaches(s, q, w)) && Reaches(s, q, r)
  }

  /** No query that includes the empty name is answered through a remainder which another query finds after it. */
  ghost predicate NoEmptyNameKept(s: Setting, used: iset<Query>) {
    forall q, w, r :: q in used && w in used && r in used && KeptFor(s, q, w, r) ==> "" !in w.wanted
  }

  // ---------- answers through a kept partition ----------

  /** A noted projection shows only when it holds the empty name: then every remainder is refused. */
  lemma {:induction false} NotedAnswers(
    env: Registered, records: seq<Record>, wanted: seq<string>, p: Partition, noted: seq<string>)
    requires p.rest.wanted == []
    ensures AnsweredWith(env, records, wanted, p) != Err(InvalidProjection)
    ensures "" !in noted ==>
      AnsweredWith(env, records, wanted, Noted(p, noted)) == AnsweredWith(env, records, wanted, p)
    ensures AnsweredWith(env, records, wanted, Noted(p, noted)) == AnsweredWith(env, records, wanted, p) ||
            AnsweredWith(env, records, wanted, Noted(p, noted)) == Err(InvalidProjection)
  {
    SelectedErrors(env, records, p.db);
    if Selected(env, records, p.db).Ok? {
      SelectedErrors(NOTHING_REGISTERED, Selected(env, records, p.db).value, p.rest.(wanted := wanted));
    }
    hide Selected, Fault;
  }

  lemma {:induction false} SelectedErrors(env: Registered, records: seq<Record>, q: Query)
    ensures Selected(env, records, q) != Err(InvalidProjection)
  {
    FilteredErrors(env, records, q.filter);
    hide Filtered;
  }

  lemma {:induction false} FilteredErrors(env: Registered, records: seq<Record>, filter: Option<Filter>)
    ensures Filtered(env, records, filter) != Err(InvalidProjection)
    decreases |records|
  {
    hide Eval, JudgeOf;
    if records != [] {
      FilteredErrors(env, records[..|records| - 1], filter);
    }
  }

  /** On no records at all a query that leaves a remainder is answered, unless the noted projection is refused. */
  lemma {:induction false} NoRecordsAnswered(
    s: Setting, q: Query, names: seq<string>, wanted: seq<string>, noted: seq<string>)
    requires LeavesRemainder(s, q)
    ensures
      var answer := AnsweredWith(s.env, [], wanted, Noted(Fresh(s, q, names).value, noted));
      if "" in noted then answer == Err(InvalidProjection) else answer.Ok?
  {
    var p := Fresh(s, q, names).value;
    NothingFiltered(s.env, p.db.filter);
    NothingProjected(p.db.wanted);
    NothingFiltered(NOTHING_REGISTERED, p.rest.filter);
    hide Filtered, ProjectedAll, Fault;
    PagePasses(s.backend, q);
  }

  lemma {:induction false} PagePasses(backend: Backend, q: Query)
    ensures NoPagination(q.page) || q.page.value.kind == "offset" ==> Paginated<Record>([], q.page) == Ok([])
    ensures Paginated<Record>([], None) == Ok([])
  {
  }

  /** A partition that answers has a page the helper can run. */
  lemma {:induction false} AnsweredRuns(
    s: Setting, q: Query, names: seq<string>, records: seq<Record>, wanted: seq<string>, noted: seq<string>)
    requires FilterParts(s.backend, q.filter).Ok?
    requires
      var p := Noted(Fresh(s, q, names).value, noted);
      Remains(p.rest) && AnsweredWith(s.env, records, wanted, p).Ok?
    ensures LeavesRemainder(s, q)
  {
    var p := Fresh(s, q, names).value;
    OffsetsOnly(s.env, records, p.db);
    hide Selected, Fault;
  }

  // ---------- sufficient ----------

  /** Where a kept partition comes from, and that its noted projection disturbs no query that can find it. */
  ghost predicate Sourced(s: Setting, used: iset<Query>, k: nat, p: Partition, q: Query, names: seq<string>) {
    && q in used && FilterParts(s.backend, q.filter).Ok? && StoreKey(s, q) == k && ProperNames(s, q, names)
    && p == Noted(Fresh(s, q, names).value, p.rest.wanted)
    && ("" in p.rest.wanted ==> forall r :: r in used ==> !Reaches(s, q, r))
  }

  ghost predicate AllSourced(s: Setting, used: iset<Query>, cache: PartitionCache) {
    forall k :: k in cache ==> exists q, names :: Sourced(s, used, k, cache[k], q, names)
  }

  lemma {:induction false} StepFresh(s: Setting, used: iset<Query>, cache: PartitionCache, e: Event)
    requires KeyTellsApart(s, used) && NoEmptyNameKept(s, used) && AllSourced(s, used, cache) && From(s, used, e)
    ensures Reply(s, cache, e) == Reply(s, map[], e) && AllSourced(s, used, After(s, cache, e))
  {
    var key := s.keyOf(e.q);
    if key.Some? && key.value in cache && key.value !in e.forgotten {
      var q, names :| Sourced(s, used, key.value, cache[key.value], q, names);
      HitFresh(s, used, cache, e, q, names);
    } else {
      MissFresh(s, used, cache, e);
    }
  }

  lemma {:induction false} HitFresh(
    s: Setting, used: iset<Query>, cache: PartitionCache, e: Event, q: Query, names: seq<string>)
    requires KeyTellsApart(s, used) && NoEmptyNameKept(s, used) && AllSourced(s, used, cache) && From(s, used, e)
    requires s.keyOf(e.q).Some? && s.keyOf(e.q).value in cache && s.keyOf(e.q).value !in e.forgotten
    requires Sourced(s, used, s.keyOf(e.q).value, cache[s.keyOf(e.q).value], q, names)
    ensures Reply(s, cache, e) == Reply(s, map[], e) && AllSourced(s, used, After(s, cache, e))
  {
    hide AnsweredWith, FilterParts, QueryFault, FreshPartition, Remainder;
    var k, p := s.keyOf(e.q).value, cache[s.keyOf(e.q).value];
    var made := Fresh(s, q, names).value;
    assert Reaches(s, q, e.q) && "" !in p.rest.wanted;
    FreshWanted(s, q, names);
    NotedAnswers(s.env, e.records, e.q.wanted, made, p.rest.wanted);
    assert Interchangeable(s, q, e.q);
    assert AnsweredWith(s.env, e.records, e.q.wanted, made) == Reply(s, map[], Event(e.q, e.records, e.names, {}));
    assert Reply(s, map[], e) == Reply(s, map[], Event(e.q, e.records, e.names, {}));
    if Reply(s, cache, e).Ok? && Remains(p.rest) {
      AnsweredRuns(s, q, names, e.records, e.q.wanted, p.rest.wanted);
      assert "" !in e.q.wanted;
    }
    StoredSourced(s, used, cache, e, p, q, names);
  }

  lemma {:induction false} FreshWanted(s: Setting, q: Query, names: seq<string>)
    requires FilterParts(s.backend, q.filter).Ok?
    ensures Fresh(s, q, names).Ok? && Fresh(s, q, names).value.rest.wanted == []
  {
  }

  lemma {:induction false} StoredSourced(
    s: Setting, used: iset<Query>, cache: PartitionCache, e: Event, p: Partition, q: Query, names: seq<string>)
    requires AllSourced(s, used, cache) && Served(s, cache, e) == Ok(p) &&
      Sourced(s, used, StoreKey(s, e.q), p, q, names)
    requires Reply(s, cache, e).Ok? && Remains(p.rest) && "" in e.q.wanted ==> forall r :: r in used ==>
      !Reaches(s, q, r)
    ensures AllSourced(s, used, After(s, cache, e))
  {
    hide Reply, Served, Fresh, ProperNames, FilterParts;
    var after := After(s, cache, e);
    forall k | k in after
      ensures exists q, names :: Sourced(s, used, k, after[k], q, names)
    {
      if k == StoreKey(s, e.q) {
        assert Sourced(s, used, k, after[k], q, names);
      } else {
        assert k in cache && after[k] == cache[k];
      }
    }
  }

  lemma {:induction false} MissFresh(s: Setting, used: iset<Query>, cache: PartitionCache, e: Event)
    requires NoEmptyNameKept(s, used) && AllSourced(s, used, cache) && From(s, used, e)
    requires Served(s, cache, e) == Fresh(s, e.q, e.names)
    ensures Reply(s, cache, e) == Reply(s, map[], e) && AllSourced(s, used, After(s, cache, e))
  {
    hide AnsweredWith, FilterParts, QueryFault, FreshPartition, Remainder;
    if Served(s, cache, e).Ok? {
      var p := Served(s, cache, e).value;
      assert FilterParts(s.backend, e.q.filter).Ok?;
      FreshWanted(s, e.q, e.names);
      assert p == Noted(p, []);
      if Reply(s, cache, e).Ok? && Remains(p.rest) {
        AnsweredRuns(s, e.q, e.names, e.records, e.q.wanted, []);
      }
      assert Sourced(s, used, StoreKey(s, e.q), p, e.q, e.names);
      StoredSourced(s, used, cache, e, p, e.q, e.names);
    }
  }

  lemma {:induction false} RunSourced(s: Setting, used: iset<Query>, events: seq<Event>)
    requires KeyTellsApart(s, used) && NoEmptyNameKept(s, used) && AllFrom(s, used, events)
    ensures AllSourced(s, used, CacheAfter(s, events))
    decreases |events|
  {
    hide KeyTellsApart, NoEmptyNameKept, From, AllSourced, After;
    if events == [] {
      NothingSourced(s, used);
    } else {
      var init, last := events[..|events| - 1], events[|events| - 1];
      assert AllFrom(s, used, init) && From(s, used, last);
      RunSourced(s, used, init);
      StepFresh(s, used, CacheAfter(s, init), last);
    }
  }

  lemma {:induction false} NothingSourced(s: Setting, used: iset<Query>)
    ensures AllSourced(s, used, map[])
  {
  }

  // ---------- necessary ----------

  /** A partition has some enumeration of the fields it asks for. */
  lemma {:induction false} SomeNames(s: Setting, q: Query) returns (names: seq<string>)
    ensures ProperNames(s, q, names)
  {
    names := [];
    if FilterParts(s.backend, q.filter).Ok? {
      var parts := FilterParts(s.backend, q.filter).value;
      var deps := if parts.post.Some? then FilterDeps(parts.post.value) else {};
      var listed := Enumerated(deps);
      names := q.wanted + listed;
    }
  }

  lemma {:induction false} Enumerated(fields: set<string>) returns (names: seq<string>)
    ensures forall name :: name in names <==> name in fields
    decreases fields
  {
    if fields == {} {
      return [];
    }
    var field :| field in fields;
    var rest := Enumerated(fields - {field});
    names := [field] + rest;
  }

  /** The first query of a run is kept, noted with its own wanted fields when it was answered through a remainder. */
  lemma {:induction false} FirstKept(s: Setting, e: Event)
    requires FilterParts(s.backend, e.q.filter).Ok?
    ensures
      var made := Fresh(s, e.q, e.names).value;
      CacheAfter(s, [e]) == map[StoreKey(s, e.q) := made] ||
      CacheAfter(s, [e]) == map[StoreKey(s, e.q) := Noted(made, e.q.wanted)]
    ensures LeavesRemainder(s, e.q) && e.records == [] ==>
      CacheAfter(s, [e]) == map[StoreKey(s, e.q) := Noted(Fresh(s, e.q, e.names).value, e.q.wanted)]
  {
    var made := Fresh(s, e.q, e.names).value;
    assert [e][..0] == [] && CacheAfter(s, []) == map[];
    assert CacheAfter(s, [e]) == After(s, map[], e);
    if LeavesRemainder(s, e.q) && e.records == [] {
      NoRecordsAnswered(s, e.q, e.names, e.q.wanted, []);
      assert made == Noted(made, []);
    }
    hide AnsweredWith, FreshPartition;
  }

  /** A key that leads a query to the partition of one that is not interchangeable with it shows in a run of two. */
  lemma {:induction false} ConfusedKeys(
    s: Setting, used: iset<Query>, q: Query, r: Query, records: seq<Record>, names: seq<string>, own: seq<string>)
    requires q in used && r in used && Reaches(s, q, r) && FilterParts(s.backend, q.filter).Ok?
    requires ProperNames(s, q, names) && ProperNames(s, r, own)
    requires AnsweredWith(s.env, records, r.wanted, Fresh(s, q, names).value) !=
             Reply(s, map[], Event(r, records, own, {}))
    ensures !AlwaysFresh(s, used)
  {
    var first, e := Event(q, [], names, {}), Event(r, records, own, {});
    hide AnsweredWith, FilterParts, FreshPartition;
    FirstKept(s, first);
    FreshWanted(s, q, names);
    NotedAnswers(s.env, records, r.wanted, Fresh(s, q, names).value, q.wanted);
    FreshReplies(s, e);
    NotAsFresh(s, used, [first], e);
  }

  /** A fresh partition never has a projection to refuse. */
  lemma {:induction false} FreshReplies(s: Setting, e: Event)
    ensures Reply(s, map[], e) != Err(InvalidProjection)
  {
    if FilterParts(s.backend, e.q.filter).Ok? {
      FreshWanted(s, e.q, e.names);
      NotedAnswers(s.env, e.records, e.q.wanted, Fresh(s, e.q, e.names).value, []);
    }
    hide AnsweredWith;
  }

  /** A kept partition that has noted the empty name refuses the next query that finds it. */
  lemma {:induction false} RefusedNext(
    s: Setting, used: iset<Query>, q: Query, r: Query, events: seq<Event>, names: seq<string>, noted: seq<string>)
    requires LeavesRemainder(s, q) && Reaches(s, q, r) && r in used && AllFrom(s, used, events)
    requires CacheAfter(s, events) == map[StoreKey(s, q) := Noted(Fresh(s, q, names).value, noted)] && "" in noted
    ensures !AlwaysFresh(s, used)
  {
    var own := SomeNames(s, r);
    var e := Event(r, [], own, {});
    NoRecordsAnswered(s, q, names, r.wanted, noted);
    FreshReplies(s, e);
    hide AnsweredWith, CacheAfter, FilterParts, LeavesRemainder;
    assert From(s, used, e);
    assert Reply(s, CacheAfter(s, events), e) == Err(InvalidProjection);
  }

  lemma {:induction false} EmptyNameKept(s: Setting, used: iset<Query>, q: Query, w: Query, r: Query)
    requires q in used && w in used && r in used && KeptFor(s, q, w, r) && "" in w.wanted
    ensures !AlwaysFresh(s, used)
  {
    hide AnsweredWith, FilterParts, AlwaysFresh, FreshPartition;
    var names := SomeNames(s, q);
    var first := Event(q, [], names, {});
    FirstKept(s, first);
    assert AllFrom(s, used, [first]);
    if "" in q.wanted {
      RefusedNext(s, used, q, r, [first], names, q.wanted);
    } else {
      var own := SomeNames(s, w);
      var second := Event(w, [], own, {});
      NoRecordsAnswered(s, q, names, w.wanted, q.wanted);
      SecondKept(s, first, second, q, names);
      assert AllFrom(s, used, [first, second]);
      RefusedNext(s, used, q, w, [first, second], names, w.wanted);
    }
  }

  lemma {:induction false} SecondKept(s: Setting, first: Event, second: Event, q: Query, names: seq<string>)
    requires LeavesRemainder(s, q) && Reaches(s, q, second.q) && second.forgotten == {}
    requires CacheAfter(s, [first]) == map[StoreKey(s, q) := Noted(Fresh(s, q, names).value, q.wanted)]
    requires AnsweredWith(s.env, second.records, second.q.wanted, Noted(Fresh(s, q, names).value, q.wanted)).Ok?
    ensures CacheAfter(s, [first, second]) == map[StoreKey(s, q) := Noted(Fresh(s, q, names).value, second.q.wanted)]
  {
    hide AnsweredWith, CacheAfter;
    CacheStep(s, [first], second);
    assert [first] + [second] == [first, second];
  }

  lemma {:induction false} CacheStep(s: Setting, events: seq<Event>, e: Event)
    ensures CacheAfter(s, events + [e]) == After(s, CacheAfter(s, events), e)
  {
    assert (events + [e])[..|events|] == events;
  }

  // ---------- exactness ----------

  /**
   Exactly when every run of queries of a set is answered as by fresh partitions: the key never leads a query to the
   partition of one that is not interchangeable with it, and no query that includes the empty name is answered
   through a remainder which another query finds after it.
  */
  lemma {:induction false} RunsFreshExactly(s: Setting, used: iset<Query>)
    ensures AlwaysFresh(s, used) <==> KeyTellsApart(s, used) && NoEmptyNameKept(s, used)
  {
    hide AnsweredWith, FilterParts, LeavesRemainder, Reaches, Reply, ProperNames, CacheAfter;
    if KeyTellsApart(s, used) && NoEmptyNameKept(s, used) {
      forall events, e | AllFrom(s, used, events) && From(s, used, e)
        ensures Reply(s, CacheAfter(s, events), e) == Reply(s, map[], e)
      {
        RunSourced(s, used, events);
        StepFresh(s, used, CacheAfter(s, events), e);
      }
    } else if !KeyTellsApart(s, used) {
      var q, r :| q in used && r in used && Reaches(s, q, r) && FilterParts(s.backend, q.filter).Ok? &&
        !Interchangeable(s, q, r);
      var records, names, own :| ProperNames(s, q, names) && ProperNames(s, r, own) &&
        AnsweredWith(s.env, records, r.wanted, Fresh(s, q, names).value) != Reply(s, map[], Event(r, records, own, {}));
      ConfusedKeys(s, used, q, r, records, names, own);
    } else {
      var q, w, r :| q in used && w in used && r in used && KeptFor(s, q, w, r) && "" in w.wanted;
      EmptyNameKept(s, used, q, w, r);
    }
  }

  // ---------- keys that tell queries apart ----------

  /** The two queries differ at most in the order of the fields they include. */
  ghost predicate SameQuestion(s: Setting, q: Query, r: Query) {
    && FilterParts(s.backend, q.filter) == FilterParts(s.backend, r.filter) && q.page == r.page
    && forall name :: name in q.wanted <==> name in r.wanted
  }

  /** Such queries are interchangeable. */
  lemma {:induction false} SameInterchangeable(s: Setting, q: Query, r: Query)
    requires SameQuestion(s, q, r) && FilterParts(s.backend, q.filter).Ok?
    ensures Interchangeable(s, q, r)
  {
    forall records, names, own | ProperNames(s, q, names) && ProperNames(s, r, own)
      ensures AnsweredWith(s.env, records, r.wanted, Fresh(s, q, names).value) ==
              Reply(s, map[], Event(r, records, own, {}))
    {
      SameBackendAnswer(s, q, r, records, names, own);
      hide Selected;
    }
  }

  lemma {:induction false} SameBackendAnswer(
    s: Setting, q: Query, r: Query, records: seq<Record>, names: seq<string>, own: seq<string>)
    requires SameQuestion(s, q, r) && FilterParts(s.backend, q.filter).Ok?
    requires ProperNames(s, q, names) && ProperNames(s, r, own)
    ensures Selected(s.env, records, Fresh(s, q, names).value.db) == Selected(s.env, records, Fresh(s, r, own).value.db)
    ensures Fresh(s, q, names).value.rest == Fresh(s, r, own).value.rest
  {
    var a, b := Fresh(s, q, names).value.db, Fresh(s, r, own).value.db;
    hide Filtered, FilterDeps, ProjectedAll;
    if Filtered(s.env, records, a.filter).Ok? && Paginated(Filtered(s.env, records, a.filter).value, a.page).Ok? {
      SameForAll(Paginated(Filtered(s.env, records, a.filter).value, a.page).value, names, own);
    }
  }

  /** A key that only queries with the same question share, and no empty name: then every run is as fresh. */
  lemma {:induction false} TellingKeysSuffice(s: Setting, used: iset<Query>)
    requires forall q, r :: q in used && r in used && Reaches(s, q, r) ==> SameQuestion(s, q, r)
    requires forall q :: q in used ==> "" !in q.wanted
    ensures AlwaysFresh(s, used)
  {
    hide SameQuestion, Interchangeable, FilterParts, AlwaysFresh, LeavesRemainder;
    forall q, r | q in used && r in used && Reaches(s, q, r) && FilterParts(s.backend, q.filter).Ok?
      ensures Interchangeable(s, q, r)
    {
      SameInterchangeable(s, q, r);
    }
    RunsFreshExactly(s, used);
  }

  /** Over every run that is as fresh, a faithful query is answered as its direct evaluation. */
  lemma {:induction false} EveryRunIsDirect(s: Setting, used: iset<Query>, events: seq<Event>, e: Event, parts: Parts)
    requires AlwaysFresh(s, used) && AllFrom(s, used, events) && From(s, used, e)
    requires Faithful(s.env, s.backend, e.q, parts) && Selected(s.env, e.records, e.q).Ok?
    ensures Reply(s, CacheAfter(s, events), e) == Selected(s.env, e.records, e.q)
  {
    hide Faithful, Selected, CacheAfter, Reply;
    FaithfulIsFresh(s, e, parts);
    assert Reply(s, CacheAfter(s, events), e) == Reply(s, map[], e);
  }

  lemma {:induction false} FaithfulIsFresh(s: Setting, e: Event, parts: Parts)
    requires ProperNames(s, e.q, e.names) && Faithful(s.env, s.backend, e.q, parts)
    requires Selected(s.env, e.records, e.q).Ok?
    ensures Reply(s, map[], e) == Selected(s.env, e.records, e.q)
  {
    FaithfulParts(s.env, s.backend, e.q, parts);
    PipelineIsDirect(s.env, s.backend, e.records, e.q, parts, e.names);
    hide Faithful, Selected, AnsweredWith;
  }

  lemma {:induction false} FaithfulParts(env: Registered, backend: Backend, q: Query, parts: Parts)
    requires Faithful(env, backend, q, parts)
    ensures FilterParts(backend, q.filter) == Ok(parts)
  {
  }

  // ---------- the engine ----------

  /** The engine; the cache is only assumed to be a map that may forget any of its partitions before a query. */
  class QueryEngine {
    const backend: Backend
    const env: Registered
    const keyOf: Query -> Option<nat>
    const partitioner: Partitioner
    var cache: PartitionCache
    /** The queries answered so far. */
    ghost var events: seq<Event>

    ghost function Given(): Setting {
      Setting(env, backend, keyOf)
    }

    /** The cache is what the queries so far have left of it. */
    ghost predicate Valid()
      reads this
    {
      && partitioner.capabilities == backend.capabilities
      && cache == CacheAfter(Given(), events)
      && forall i :: 0 <= i < |events| ==> ProperNames(Given(), events[i].q, events[i].names)
    }

    constructor (backend: Backend, env: Registered, keyOf: Query -> Option<nat>)
      ensures this.backend == backend && this.env == env && this.keyOf == keyOf
      ensures Valid() && events == []
    {
      this.backend, this.env, this.keyOf := backend, env, keyOf;
      this.partitioner := new Partitioner(backend.capabilities);
      cache, events := map[], [];
    }

    method FilterRecords(env: Registered, records: seq<Record>, filter: Option<Filter>)
      returns (r: Result<seq<Record>, QueryError>)
      ensures r == Filtered(env, records, filter)
    {
      hide Eval, JudgeOf;
      NoFilter(env, records, filter);
      if filter.None? {
        return Ok(records);
      }
      var kept: seq<Record> := [];
      for i := 0 to |records|
        invariant Filtered(env, records[..i], filter) == Ok(kept)
      {
        assert records[..i + 1] == records[..i] + [records[i]];
        FilterStep(env, records[..i], filter, records[i]);
        var matches := EvaluateFilter(env, records[i], filter.value);
        if matches.Err? {
          FirstError(env, records, i + 1, filter);
          return Err(EvaluationFailed(matches.error));
        }
        if matches.value {
          kept := kept + [records[i]];
        }
      }
      assert records[..|records|] == records;
      return Ok(kept);
    }

    lemma {:induction false} FirstError(env: Registered, records: seq<Record>, i: nat, filter: Option<Filter>)
      requires i <= |records| && Filtered(env, records[..i], filter).Err?
      ensures Filtered(env, records, filter) == Filtered(env, records[..i], filter)
      decreases |records|
    {
      hide Eval, JudgeOf;
      if i < |records| {
        var init := records[..|records| - 1];
        assert init[..i] == records[..i];
        FirstError(env, init, i, filter);
      } else {
        assert records[..i] == records;
      }
    }

    method ProjectRecords(records: seq<Record>, names: seq<string>) returns (projected: seq<Record>)
      ensures projected == ProjectedAll(records, names)
    {
      hide Projected;
      projected := [];
      for i := 0 to |records|
        invariant |projected| == i && forall j :: 0 <= j < i ==> projected[j] == Projected(records[j], names)
      {
        var record := ProjectRecord(records[i], names);
        projected := projected + [record];
      }
    }

    /** Filter, paginate, project: the backend's work and the in-memory work alike. */
    method Select(env: Registered, records: seq<Record>, q: Query) returns (r: Result<seq<Record>, QueryError>)
      ensures r == Selected(env, records, q)
    {
      var kept := FilterRecords(env, records, q.filter);
      if kept.Err? {
        return Err(kept.error);
      }
      var paged := Paginated(kept.value, q.page);
      if paged.Err? {
        return Err(paged.error);
      }
      var projected := ProjectRecords(paged.value, q.wanted);
      return Ok(projected);
    }

    /** Collects the dependencies and lists them in some order. */
    method AugmentProjection(q: Query, parts: Parts) returns (names: seq<string>)
      ensures Enumerates(names, parts, q.wanted)
    {
      var dependencies := new Dependencies();
      if parts.post.Some? {
        dependencies.CollectFromFilter(parts.post.value);
      }
      for i := 0 to |q.wanted|
        invariant dependencies.fields ==
                  (if parts.post.Some? then FilterDeps(parts.post.value) else {}) + set name | name in q.wanted[..i]
      {
        dependencies.fields := dependencies.fields + {q.wanted[i]};
      }
      assert q.wanted[..|q.wanted|] == q.wanted;
      names := Listed(dependencies.fields);
    }

    /** The elements of a set in some order. */
    method Listed(fields: set<string>) returns (names: seq<string>)
      ensures forall name :: name in names <==> name in fields
    {
      names := [];
      var todo := fields;
      while todo != {}
        invariant todo <= fields && forall name :: name in names <==> name in fields - todo
        decreases |todo|
      {
        var field :| field in todo;
        names := names + [field];
        todo := todo - {field};
      }
    }

    /** The checks of a helper that is created for the remainder, with no custom operator known. */
    method ValidateQuery(rest: Query) returns (fault: Option<QueryError>)
      ensures fault == QueryFault(rest)
    {
      if rest.filter.Some? {
        var helper := new QueryHelper({});
        var wrong := helper.ValidateQueryFilter(rest.filter.value);
        if wrong.Some? {
          return Some(InvalidFilters(wrong.value));
        }
      }
      if rest.page.Some? {
        var page := rest.page.value;
        if page.kind != "" && page.kind != "offset" {
          return Some(InvalidPaginationType);
        }
        if page.limit <= 0 {
          if page.includeTotal.None? {
            return Some(NilDereference);
          }
          if !page.includeTotal.value {
            return Some(LimitNotPositive);
          }
        }
      }
      for i := 0 to |rest.wanted|
        invariant "" !in rest.wanted[..i]
      {
        if rest.wanted[i] == "" {
          return Some(InvalidProjection);
        }
      }
      assert rest.wanted[..|rest.wanted|] == rest.wanted;
      return None;
    }

    /** The kept partition of the query's key, unless it was forgotten, or else a fresh one, which is kept. */
    method PartitionFor(q: Query) returns (p: Result<Partition, PartitionError>, ghost e: Event)
      requires partitioner.capabilities == backend.capabilities
      modifies `cache
      ensures e.q == q && ProperNames(Given(), q, e.names) && p == Served(Given(), old(cache), e)
      ensures cache == match p
                       case Ok(kept) => (old(cache) - e.forgotten)[StoreKey(Given(), q) := kept]
                       case Err(_) => old(cache) - e.forgotten
    {
      hide Partitioned, Enumerates;
      var key := keyOf(q);
      var dropped: set<nat> := *;
      cache := cache - dropped;
      if key.Some? && key.value in cache {
        ghost var names := SomeNames(Given(), q);
        e := Event(q, [], names, dropped);
        return Ok(cache[key.value]), e;
      }
      var parts := partitioner.PartitionFilters(q.filter);
      if parts.Err? {
        e := Event(q, [], [], dropped);
        return Err(parts.error), e;
      }
      var names := AugmentProjection(q, parts.value);
      e := Event(q, [], names, dropped);
      var made := FreshPartition(backend, q, parts.value, names);
      cache := cache[(match key case Some(k) => k case None => 0) := made];
      return Ok(made), e;
    }

    /**
     Runs a query: it is answered through the partition the run so far leaves for it, and noted there. Where every
     run of the queries in question is as fresh, a faithful query is answered as its direct evaluation.
    */
    method Run(records: seq<Record>, q: Query) returns (r: Result<seq<Record>, QueryError>)
      requires Valid()
      modifies this
      ensures Valid() && |events| == |old(events)| + 1 && events[..|old(events)|] == old(events)
      ensures
        var e := events[|old(events)|];
        && e.q == q && e.records == records
        && r == Reply(Given(), old(cache), e) && cache == After(Given(), old(cache), e)
      ensures forall used, parts ::
        && AlwaysFresh(Given(), used) && (forall i :: 0 <= i < |events| ==> events[i].q in used)
        && Faithful(env, backend, q, parts) && Selected(env, records, q).Ok?
        ==> r == Selected(env, records, q)
    {
      hide Selected, Faithful, ProperNames, FilterParts, Fresh, AlwaysFresh, CacheAfter, QueryFault;
      ghost var before, past := cache, events;
      var p, found: Result<seq<Record>, QueryError>;
      ghost var chosen;
      p, chosen := PartitionFor(q);
      ghost var e := chosen.(records := records);
      SameServed(Given(), before, chosen, records);
      events := events + [e];
      CacheStep(Given(), past, e);
      DirectWhenFresh(Given(), past, e);
      if p.Err? {
        return Err(PartitioningFailed(p.error));
      }
      r := Select(env, records, p.value.db);
      if r.Err? || !Remains(p.value.rest) {
        return;
      }
      var fault := ValidateQuery(p.value.rest);
      if fault.Some? {
        return Err(fault.value);
      }
      r := Select(NOTHING_REGISTERED, r.value, p.value.rest.(wanted := q.wanted));
      if r.Ok? {
        cache := cache[(match keyOf(q) case Some(k) => k case None => 0) := Noted(p.value, q.wanted)];
      }
    }
  }

  lemma {:induction false} SameServed(s: Setting, cache: PartitionCache, e: Event, records: seq<Record>)
    ensures Served(s, cache, e.(records := records)) == Served(s, cache, e)
  {
  }

  lemma {:induction false} DirectWhenFresh(s: Setting, past: seq<Event>, e: Event)
    requires ProperNames(s, e.q, e.names)
    requires forall i :: 0 <= i < |past| ==> ProperNames(s, past[i].q, past[i].names)
    ensures forall used, parts ::
      && AlwaysFresh(s, used) && (forall i :: 0 <= i < |past| ==> past[i].q in used) && e.q in used
      && Faithful(s.env, s.backend, e.q, parts) && Selected(s.env, e.records, e.q).Ok?
      ==> Reply(s, CacheAfter(s, past), e) == Selected(s.env, e.records, e.q)
  {
    hide AlwaysFresh, Faithful, Selected, Reply, CacheAfter, ProperNames;
    forall used, parts |
      && AlwaysFresh(s, used) && (forall i :: 0 <= i < |past| ==> past[i].q in used) && e.q in used
      && Faithful(s.env, s.backend, e.q, parts) && Selected(s.env, e.records, e.q).Ok?
      ensures Reply(s, CacheAfter(s, past), e) == Selected(s.env, e.records, e.q)
    {
      EveryRunIsDirect(s, used, past, e, parts);
    }
  }

  // ---------- the smallest inputs ----------

  const OBJECT := Obj(map["field" := Str("b"), "type" := Str("field")])

  const BY_REFERENCE := Query(Some(Cond(Condition("a", Eq, FieldRef("b")))), None, ["a"])
  const BY_OBJECT := Query(Some(Cond(Condition("a", Eq, Literal(OBJECT)))), None, ["a"])

  /** A reference is written down as the object of its two members, so one to "b" reads as this object. */
  ghost predicate ReadsAlike(s: Setting) {
    s.keyOf(BY_REFERENCE) == s.keyOf(BY_OBJECT)
  }

  lemma {:induction false} FieldOfRecord(record: Record)
    requires record == map["a" := OBJECT]
    ensures ValueByPath(record, "a") == OBJECT && ValueByPath(record, "b") == Null
    ensures Projected(record, ["a"]) == record && Projected(record, ["a", "b"]) == record
  {
    JsonPointers.SplitPlain("a", '.');
    JsonPointers.SplitPlain("b", '.');
    assert ["a"][1..] == [] && ["a"][..0] == [] && ["a", "b"][..1] == ["a"];
    assert ValueAt(Obj(record), ["a"]) == ValueAt(OBJECT, []);
    assert PutAll(record, map[], ["a"]) == Put(record, map[], ["a"]);
    assert PutAll(record, map[], ["a", "b"]) == Put(record, PutAll(record, map[], ["a"]), ["b"]);
  }

  lemma {:induction false} ComparedWithBoth(record: Record)
    requires record == map["a" := OBJECT]
    ensures Eval(JudgeOf(NOTHING_REGISTERED, record), BY_OBJECT.filter.value) == Ok(true)
    ensures Eval(JudgeOf(NOTHING_REGISTERED, record), BY_REFERENCE.filter.value) == Ok(false)
  {
    FieldOfRecord(record);
    hide ValueByPath;
  }

  lemma {:induction false} OneRecordSelected(record: Record, q: Query)
    requires q.page == None && (q.filter.Some? ==> Eval(JudgeOf(NOTHING_REGISTERED, record), q.filter.value).Ok?)
    requires Projected(record, q.wanted) == record
    ensures Selected(NOTHING_REGISTERED, [record], q) ==
      Ok(if q.filter.None? || Eval(JudgeOf(NOTHING_REGISTERED, record), q.filter.value).value then [record] else [])
  {
    hide Eval, JudgeOf, Projected;
    if q.filter.Some? {
      FilterOne(NOTHING_REGISTERED, q.filter.value, record);
    }
    NothingProjected(q.wanted);
    assert ProjectedAll([record], q.wanted) == [record];
  }

  lemma {:induction false} UnsupportedComparison(backend: Backend, q: Query)
    requires backend == Backend(Capabilities({}, {}), {}) && (q == BY_REFERENCE || q == BY_OBJECT)
    ensures FilterParts(backend, q.filter) == Ok(Parts(None, q.filter))
    ensures Enumerates(if q == BY_OBJECT then ["a"] else ["a", "b"], Parts(None, q.filter), q.wanted)
    ensures Faithful(NOTHING_REGISTERED, backend, q, Parts(None, q.filter))
  {
  }

  /**
   A comparison with the field "b" and one with the object that reads the same have one key. Behind a backend that
   supports nothing, the second query, asked after the first, loses the record it selects.
  */
  lemma {:induction false} ReferenceTakenForObject(s: Setting)
    requires ReadsAlike(s) && s.keyOf(BY_REFERENCE).Some? && s.backend == Backend(Capabilities({}, {}), {})
    requires s.env == NOTHING_REGISTERED
    ensures
      var record: Record := map["a" := OBJECT];
      var first, second := Event(BY_REFERENCE, [], ["a", "b"], {}), Event(BY_OBJECT, [record], ["a"], {});
      && ProperNames(s, BY_REFERENCE, ["a", "b"]) && ProperNames(s, BY_OBJECT, ["a"])
      && Faithful(s.env, s.backend, BY_OBJECT, Parts(None, BY_OBJECT.filter))
      && Selected(s.env, [record], BY_OBJECT) == Ok([record])
      && Reply(s, CacheAfter(s, [first]), second) == Ok([])
    ensures !AlwaysFresh(s, iset{BY_REFERENCE, BY_OBJECT})
  {
    var record: Record := map["a" := OBJECT];
    var first, second := Event(BY_REFERENCE, [], ["a", "b"], {}), Event(BY_OBJECT, [record], ["a"], {});
    UnsupportedComparison(s.backend, BY_REFERENCE);
    UnsupportedComparison(s.backend, BY_OBJECT);
    FieldOfRecord(record);
    ComparedWithBoth(record);
    hide Eval, JudgeOf, Projected, Faithful, Selected, CacheAfter, Enumerates, FilterParts, Reply, AlwaysFresh;
    OneRecordSelected(record, BY_OBJECT);
    SecondThroughFirst(s, record);
    FaithfulIsFresh(s, second, Parts(None, BY_OBJECT.filter));
    NotAsFresh(s, iset{BY_REFERENCE, BY_OBJECT}, [first], second);
  }

  lemma {:induction false} NotAsFresh(s: Setting, used: iset<Query>, events: seq<Event>, e: Event)
    requires AllFrom(s, used, events) && From(s, used, e)
    requires Reply(s, CacheAfter(s, events), e) != Reply(s, map[], e)
    ensures !AlwaysFresh(s, used)
  {
    hide Reply, CacheAfter, From, AllFrom;
  }

  lemma {:induction false} SecondThroughFirst(s: Setting, record: Record)
    requires ReadsAlike(s) && s.keyOf(BY_REFERENCE).Some? && s.backend == Backend(Capabilities({}, {}), {})
    requires s.env == NOTHING_REGISTERED && record == map["a" := OBJECT]
    ensures Reply(s, CacheAfter(s, [Event(BY_REFERENCE, [], ["a", "b"], {})]), Event(BY_OBJECT, [record], ["a"], {})) ==
            Ok([])
  {
    ThroughReference(s, record);
    hide FilterParts, AnsweredWith, CacheAfter, FreshPartition;
    FreshWanted(s, BY_REFERENCE, ["a", "b"]);
    NotedAnswers(s.env, [record], ["a"], Fresh(s, BY_REFERENCE, ["a", "b"]).value, ["a"]);
    FirstKept(s, Event(BY_REFERENCE, [], ["a", "b"], {}));
  }

  lemma {:induction false} ThroughReference(s: Setting, record: Record)
    requires s.backend == Backend(Capabilities({}, {}), {}) && s.env == NOTHING_REGISTERED
    requires record == map["a" := OBJECT]
    ensures FilterParts(s.backend, BY_REFERENCE.filter).Ok?
    ensures AnsweredWith(s.env, [record], ["a"], Fresh(s, BY_REFERENCE, ["a", "b"]).value) == Ok([])
  {
    var p := Fresh(s, BY_REFERENCE, ["a", "b"]).value;
    FieldOfRecord(record);
    ComparedWithBoth(record);
    hide Eval, JudgeOf, Projected, Selected;
    OneRecordSelected(record, p.db);
    OneRecordSelected(record, p.rest.(wanted := ["a"]));
  }

  const WITH_EMPTY_NAME := Query(Some(A_EXISTS), None, ["a", ""])

  /**
   A query with a residual that includes the empty name is faithful, and answered once. Asked again, it is refused:
   the first answer left its fields in the kept remainder, where the helper checks them.
  */
  lemma {:induction false} EmptyNameRefusedAgain(s: Setting)
    requires s.keyOf(WITH_EMPTY_NAME).Some? && Exists !in s.backend.capabilities.operators
    requires Exists !in s.env.operators
    ensures
      var e := Event(WITH_EMPTY_NAME, [], ["a", ""], {});
      && ProperNames(s, e.q, e.names) && Faithful(s.env, s.backend, e.q, Parts(None, e.q.filter))
      && Reply(s, map[], e).Ok?
      && Reply(s, CacheAfter(s, [e]), e) == Err(InvalidProjection)
    ensures !AlwaysFresh(s, iset{WITH_EMPTY_NAME})
  {
    var q := WITH_EMPTY_NAME;
    var e := Event(q, [], ["a", ""], {});
    EmptyNameFaithful(s);
    hide FilterParts, LeavesRemainder, Faithful, Enumerates, AnsweredWith, CacheAfter, AlwaysFresh;
    FirstKept(s, e);
    NoRecordsAnswered(s, q, e.names, q.wanted, []);
    NoRecordsAnswered(s, q, e.names, q.wanted, q.wanted);
    FreshWanted(s, q, e.names);
    assert Noted(Fresh(s, q, e.names).value, []) == Fresh(s, q, e.names).value;
    EmptyNameKept(s, iset{q}, q, q, q);
  }

  lemma {:induction false} EmptyNameFaithful(s: Setting)
    requires Exists !in s.backend.capabilities.operators && Exists !in s.env.operators
    ensures
      var q := WITH_EMPTY_NAME;
      && FilterParts(s.backend, q.filter) == Ok(Parts(None, q.filter)) && LeavesRemainder(s, q)
      && Enumerates(["a", ""], Parts(None, q.filter), q.wanted)
      && Faithful(s.env, s.backend, q, Parts(None, q.filter))
  {
  }
}
