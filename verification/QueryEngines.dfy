/**
 The query pipeline: partition the query, let the backend run its part, check what remains, then filter, paginate
 and project it in memory. The backend is taken to run its part as an in-memory helper with everything registered
 would; the helper of the pipeline itself is created with nothing registered.
*/
module QueryEngines {
  import opened Wrappers
  import opened JsonValues
  import JsonPointers
  import opened QueryFilters
  import opened Partitioning
  import opened Projections
  import opened QueryValidation
  import PartitionExactness
  import RecordSplits

  datatype Page = Page(kind: string, offset: nat, limit: nat, includeTotal: Option<bool>)

  /** A query over one collection: filter, pagination and included fields. */
  datatype Query = Query(filter: Option<Filter>, page: Option<Page>, wanted: seq<string>)

  datatype QueryError =
    | PartitioningFailed(reason: PartitionError)
    | EvaluationFailed(cause: EvalError)
    | InvalidPaginationType
    | InvalidFilters(fault: FilterFault)
    | InvalidProjection
    | LimitNotPositive
    | NilDereference

  // ---------- the steps on values ----------

  /** The records the filter holds for, in order, or the first error. */
  ghost function Filtered(env: Registered, records: seq<Record>, filter: Option<Filter>)
    : Result<seq<Record>, QueryError>
  {
    if filter.None? then Ok(records)
    else if records == [] then Ok([])
    else
      match Filtered(env, records[..|records| - 1], filter)
      case Err(e) => Err(e)
      case Ok(kept) =>
        match Eval(JudgeOf(env, records[|records| - 1]), filter.value)
        case Err(e) => Err(EvaluationFailed(e))
        case Ok(b) => Ok(if b then kept + [records[|records| - 1]] else kept)
  }

  predicate NoPagination(page: Option<Page>) {
    page.None? || page.value.kind == ""
  }

  function Min(a: nat, b: nat): nat {
    if a < b then a else b
  }

  function Paginated<T>(records: seq<T>, page: Option<Page>): Result<seq<T>, QueryError> {
    if NoPagination(page) then Ok(records)
    else if page.value.kind != "offset" then Err(InvalidPaginationType)
    else if page.value.offset >= |records| then Ok([])
    else Ok(records[page.value.offset..Min(page.value.offset + page.value.limit, |records|)])
  }

  function ProjectedAll(records: seq<Record>, names: seq<string>): (r: seq<Record>)
    ensures |r| == |records| && forall i :: 0 <= i < |r| ==> r[i] == Projected(records[i], names)
  {
    seq(|records|, i requires 0 <= i < |records| => Projected(records[i], names))
  }

  /** A query evaluated directly: filter, then paginate, then project. */
  ghost function Selected(env: Registered, records: seq<Record>, q: Query): Result<seq<Record>, QueryError> {
    match Filtered(env, records, q.filter)
    case Err(e) => Err(e)
    case Ok(kept) =>
      match Paginated(kept, q.page)
      case Err(e) => Err(e)
      case Ok(paged) => Ok(ProjectedAll(paged, q.wanted))
  }

  /**
   The positions a page answers with, of all the records a query selects: from its offset on, as many as its limit,
   as far as there are any. Only the empty kind, for no page, and "offset" are known.
  */
  lemma {:induction false} PagePositions(env: Registered, records: seq<Record>, q: Query)
    requires q.page.Some? && Selected(env, records, q.(page := None)).Ok?
    ensures
      var page, all := q.page.value, Selected(env, records, q.(page := None)).value;
      && (page.kind == "" ==> Selected(env, records, q) == Ok(all))
      && (page.kind != "" && page.kind != "offset" ==> Selected(env, records, q) == Err(InvalidPaginationType))
      && (page.kind == "offset" ==>
            match Selected(env, records, q)
            case Err(_) => false
            case Ok(answer) =>
              && |answer| == (if page.offset >= |all| then 0
                              else if |all| - page.offset < page.limit then |all| - page.offset else page.limit)
              && forall i :: 0 <= i < |answer| ==> answer[i] == all[page.offset + i])
  {
  }

  /** The empty query selects everything as it is. */
  lemma {:induction false} EmptySelectsAll(env: Registered, records: seq<Record>)
    ensures Selected(env, records, Query(None, None, [])) == Ok(records)
  {
    WantingNothing(records);
  }

  // ---------- partitioning a query ----------

  datatype Backend = Backend(capabilities: Capabilities, paginationTypes: set<string>)

  predicate SupportsPagination(backend: Backend, page: Option<Page>) {
    NoPagination(page) || page.value.kind in backend.paginationTypes
  }

  function FilterParts(backend: Backend, filter: Option<Filter>): Result<Parts, PartitionError> {
    if filter.None? then Ok(Parts(None, None)) else Partitioned(backend.capabilities, filter.value)
  }

  // ---------- the parts evaluate when the whole does ----------

  /** A filter that evaluates without an error on a record has parts that do. */
  lemma {:induction false} PartsEvaluate(judge: Judge, caps: Capabilities, f: Filter)
    requires NoEmptyGroups(f) && Partitioned(caps, f).Ok? && Eval(judge, f).Ok?
    ensures
      var parts := Partitioned(caps, f).value;
      && (parts.db.Some? ==> Eval(judge, parts.db.value).Ok?)
      && (parts.post.Some? ==> Eval(judge, parts.post.value).Ok?)
    decreases f, 1
  {
    if f.Group? {
      var (dbs, posts) := PartitionedAll(caps, f, f.conditions).value;
      EvalAllSpec(judge, f, f.conditions);
      MembersEvaluate(judge, caps, f, f.conditions);
      hide Eval, PartitionedAll;
      CombinedOk(f.operator, EvalAll(judge, f, f.conditions).value);
      if f.operator == Not {
        SizesOfOne(caps, f);
      }
      GroupEvaluates(judge, f.operator, dbs);
      GroupEvaluates(judge, f.operator, posts);
    }
  }

  lemma {:induction false} CombinedOk(o: LogicalOperator, bs: seq<bool>)
    ensures Combined(o, bs).Ok? <==> bs != [] && o != UnknownLogical && (o == Not ==> |bs| == 1)
  {
  }

  lemma {:induction false} SizesOfOne(caps: Capabilities, f: Filter)
    requires f.Group? && |f.conditions| == 1 && PartitionedAll(caps, f, f.conditions).Ok?
    ensures
      var (dbs, posts) := PartitionedAll(caps, f, f.conditions).value;
      |dbs| <= 1 && |posts| <= 1
  {
    assert f.conditions[1..] == [];
    assert PartitionedAll(caps, f, []) == Ok(([], []));
  }

  lemma {:induction false} GroupEvaluates(judge: Judge, o: LogicalOperator, fs: seq<Filter>)
    requires forall i :: 0 <= i < |fs| ==> Eval(judge, fs[i]).Ok?
    requires o != UnknownLogical && (o == Not ==> |fs| <= 1)
    ensures fs != [] ==> Eval(judge, Group(o, fs)).Ok?
  {
    if fs != [] {
      var g := Group(o, fs);
      EvalAllSpec(judge, g, fs);
      CombinedOk(o, EvalAll(judge, g, fs).value);
      assert Eval(judge, g) == Combined(o, EvalAll(judge, g, fs).value);
    }
  }

  lemma {:induction false} MembersEvaluate(judge: Judge, caps: Capabilities, whole: Filter, fs: seq<Filter>)
    requires forall i :: 0 <= i < |fs| ==> fs[i] < whole && NoEmptyGroups(fs[i]) && Eval(judge, fs[i]).Ok?
    requires PartitionedAll(caps, whole, fs).Ok?
    ensures
      var (dbs, posts) := PartitionedAll(caps, whole, fs).value;
      && (forall i :: 0 <= i < |dbs| ==> Eval(judge, dbs[i]).Ok?)
      && (forall i :: 0 <= i < |posts| ==> Eval(judge, posts[i]).Ok?)
    decreases whole, 0, |fs|
  {
    hide Eval;
    if fs != [] {
      PartsEvaluate(judge, caps, fs[0]);
      MembersEvaluate(judge, caps, whole, fs[1..]);
    }
  }

  // ---------- filtering twice ----------

  lemma {:induction false} FilterStep(env: Registered, records: seq<Record>, filter: Option<Filter>, last: Record)
    ensures Filtered(env, records + [last], filter) ==
            match Filtered(env, records, filter)
            case Err(e) => Err(e)
            case Ok(kept) =>
              if filter.None? then Ok(records + [last])
              else
                match Eval(JudgeOf(env, last), filter.value)
                case Err(e) => Err(EvaluationFailed(e))
                case Ok(b) => Ok(if b then kept + [last] else kept)
  {
    assert (records + [last])[..|records|] == records;
  }

  /** One record through the filter or through its two parts, the second on the projected record. */
  lemma {:induction false} RecordTwice(
    env: Registered, caps: Capabilities, f: Filter, record: Record, names: seq<string>)
    requires NoEmptyGroups(f) && Partitioned(caps, f).Ok? && ModeOf(caps, f).conjunction
    requires
      var post := Partitioned(caps, f).value.post;
      post.Some? ==> forall field :: field in FilterDeps(post.value) ==> field in names && field != ""
    requires Eval(JudgeOf(env, record), f).Ok?
    ensures
      var parts := Partitioned(caps, f).value;
      var db := if parts.db.None? then Ok(true) else Eval(JudgeOf(env, record), parts.db.value);
      var post := if parts.post.None? then Ok(true) else Eval(JudgeOf(env, Projected(record, names)), parts.post.value);
      db.Ok? && post.Ok? && Eval(JudgeOf(env, record), f) == Ok(db.value && post.value)
  {
    var parts := Partitioned(caps, f).value;
    PartsEvaluate(JudgeOf(env, record), caps, f);
    SplitIsSound(JudgeOf(env, record), caps, f);
    if parts.post.Some? {
      EarlyProjectionSound(env, record, parts.post.value, names);
    }
    hide Eval, ModeOf, NoEmptyGroups, Partitioned, Projected, FilterDeps;
  }

  lemma {:induction false} ProjectedAllStep(records: seq<Record>, last: Record, names: seq<string>)
    ensures ProjectedAll(records + [last], names) == ProjectedAll(records, names) + [Projected(last, names)]
  {
  }

  /** Filtering by the database part, projecting and filtering by the residual is filtering, then projecting. */
  lemma {:induction false} FilteredTwice(
    env: Registered, caps: Capabilities, f: Filter, records: seq<Record>, names: seq<string>)
    requires NoEmptyGroups(f) && Partitioned(caps, f).Ok? && ModeOf(caps, f).conjunction
    requires
      var post := Partitioned(caps, f).value.post;
      post.Some? ==> forall field :: field in FilterDeps(post.value) ==> field in names && field != ""
    requires Filtered(env, records, Some(f)).Ok?
    ensures
      var parts := Partitioned(caps, f).value;
      var first := Filtered(env, records, parts.db);
      && first.Ok?
      && Filtered(env, ProjectedAll(first.value, names), parts.post) ==
         Ok(ProjectedAll(Filtered(env, records, Some(f)).value, names))
    decreases |records|
  {
    hide Eval, ModeOf, NoEmptyGroups, Partitioned, Projected, ProjectedAll, FilterDeps, JudgeOf;
    var parts := Partitioned(caps, f).value;
    if records == [] {
      NothingFiltered(env, parts.db);
      NothingFiltered(env, parts.post);
      NothingProjected(names);
    } else {
      var init, last := records[..|records| - 1], records[|records| - 1];
      assert records == init + [last];
      FilterStep(env, init, Some(f), last);
      FilteredTwice(env, caps, f, init, names);
      RecordTwice(env, caps, f, last, names);
      FilterStep(env, init, parts.db, last);
      NoFilter(env, init, parts.db);
      var kept := Filtered(env, init, parts.db).value;
      ProjectedAllStep(kept, last, names);
      ProjectedAllStep(Filtered(env, init, Some(f)).value, last, names);
      FilterStep(env, ProjectedAll(kept, names), parts.post, Projected(last, names));
      NoFilter(env, ProjectedAll(kept, names), parts.post);
    }
  }

  lemma {:induction false} NothingFiltered(env: Registered, filter: Option<Filter>)
    ensures Filtered(env, [], filter) == Ok([])
  {
  }

  lemma {:induction false} NothingProjected(names: seq<string>)
    ensures ProjectedAll([], names) == []
  {
  }

  lemma {:induction false} NoFilter(env: Registered, records: seq<Record>, filter: Option<Filter>)
    ensures filter.None? ==> Filtered(env, records, filter) == Ok(records)
  {
  }

  // ---------- the pipeline ----------

  /** The query the backend runs. */
  function BackendQuery(backend: Backend, q: Query, parts: Parts, names: seq<string>): Query {
    Query(parts.db, if SupportsPagination(backend, q.page) then q.page else None, names)
  }

  /** What is left to do in memory; the partitioner gives it no projection. */
  function Remainder(backend: Backend, q: Query, parts: Parts): Query {
    Query(parts.post, if SupportsPagination(backend, q.page) then None else q.page, [])
  }

  predicate Remains(rest: Query) {
    rest.filter.Some? || rest.page.Some?
  }

  /** What is wrong with a page; a zero limit is looked up in a flag that may not be there. */
  function PageFault(page: Option<Page>): Option<QueryError> {
    if page.None? then None
    else if page.value.kind != "" && page.value.kind != "offset" then Some(InvalidPaginationType)
    else if page.value.limit > 0 then None
    else
      match page.value.includeTotal
      case None => Some(NilDereference)
      case Some(b) => if b then None else Some(LimitNotPositive)
  }

  /** Why a helper that knows no custom operator refuses a query, if it does. */
  function QueryFault(rest: Query): Option<QueryError> {
    if rest.filter.Some? && Fault({}, rest.filter.value).Some? then
      Some(InvalidFilters(Fault({}, rest.filter.value).value))
    else if PageFault(rest.page).Some? then PageFault(rest.page)
    else if "" in rest.wanted then Some(InvalidProjection)
    else None
  }

  /** A partitioned query: what the backend runs, and what remains. */
  datatype Partition = Partition(db: Query, rest: Query)

  function FreshPartition(backend: Backend, q: Query, parts: Parts, names: seq<string>): Partition {
    Partition(BackendQuery(backend, q, parts, names), Remainder(backend, q, parts))
  }

  /**
   A query answered through a partition, its own or another's: the backend's answer as it is when nothing remains,
   else the remainder applied to it, projected to what this query wants.
  */
  ghost function AnsweredWith(env: Registered, records: seq<Record>, wanted: seq<string>, p: Partition)
    : Result<seq<Record>, QueryError>
  {
    match Selected(env, records, p.db)
    case Err(e) => Err(e)
    case Ok(found) =>
      if !Remains(p.rest) then Ok(found)
      else if QueryFault(p.rest).Some? then Err(QueryFault(p.rest).value)
      else Selected(NOTHING_REGISTERED, found, p.rest.(wanted := wanted))
  }

  /** The pipeline on a partition of the query's own. */
  ghost function Answered(
    env: Registered, backend: Backend, records: seq<Record>, q: Query, parts: Parts, names: seq<string>)
    : Result<seq<Record>, QueryError>
  {
    AnsweredWith(env, records, q.wanted, FreshPartition(backend, q, parts, names))
  }

  predicate PageBeforeResidual(backend: Backend, q: Query, parts: Parts) {
    parts.post.Some? && !NoPagination(q.page) && SupportsPagination(backend, q.page)
  }

  /** The parts select what the filter selects, what remains is accepted, and nothing registered bears on it. */
  predicate Splittable(env: Registered, backend: Backend, q: Query, parts: Parts) {
    && FilterParts(backend, q.filter) == Ok(parts)
    && (q.filter.Some? ==> NoEmptyGroups(q.filter.value) && ModeOf(backend.capabilities, q.filter.value).conjunction)
    && (Remains(Remainder(backend, q, parts)) ==> QueryFault(Remainder(backend, q, parts)).None?)
    && (parts.post.Some? ==> forall c :: c in Atoms(parts.post.value) ==> Independent(env, c))
  }

  /**
   When the pipeline is known to answer as the direct evaluation: the query can be split, the page is not cut before
   a residual filter has run, and the query lists the fields it wants unless nothing is filtered in memory.
  */
  predicate Faithful(env: Registered, backend: Backend, q: Query, parts: Parts) {
    && Splittable(env, backend, q, parts)
    && !PageBeforeResidual(backend, q, parts)
    && (parts.post.Some? ==> q.wanted != [])
  }

  /** The fields the backend is asked for: those the residual filter depends on and those the query wants. */
  ghost predicate Enumerates(names: seq<string>, parts: Parts, wanted: seq<string>) {
    forall name :: name in names <==> name in wanted || (parts.post.Some? && name in FilterDeps(parts.post.value))
  }

  lemma {:induction false} PaginatedProjected(records: seq<Record>, page: Option<Page>, names: seq<string>)
    ensures Paginated(ProjectedAll(records, names), page) ==
            match Paginated(records, page) case Ok(rs) => Ok(ProjectedAll(rs, names)) case Err(e) => Err(e)
  {
    hide Projected;
    var r := Paginated(records, page);
    if r.Ok? {
      assert ProjectedAll(r.value, names) == Paginated(ProjectedAll(records, names), page).value;
    }
  }

  /** Projecting all records late from an early projection. */
  lemma {:induction false} LateForAll(records: seq<Record>, names: seq<string>, wanted: seq<string>)
    requires forall name :: name in wanted ==> name in names
    requires wanted != [] || names == []
    ensures ProjectedAll(ProjectedAll(records, names), wanted) == ProjectedAll(records, wanted)
  {
    forall i | 0 <= i < |records|
      ensures Projected(Projected(records[i], names), wanted) == Projected(records[i], wanted)
    {
      if wanted != [] {
        LateProjection(records[i], names, wanted);
      }
    }
    hide Projected;
  }

  lemma {:induction false} SameForAll(records: seq<Record>, a: seq<string>, b: seq<string>)
    requires forall name :: name in a <==> name in b
    ensures ProjectedAll(records, a) == ProjectedAll(records, b)
  {
    forall i | 0 <= i < |records|
      ensures Projected(records[i], a) == Projected(records[i], b)
    {
      OrderIrrelevant(records[i], a, b);
    }
    hide Projected;
  }

  /** A query without a residual filter is answered by the backend, up to pagination it does not know. */
  lemma {:induction false} WithoutResidual(
    env: Registered, backend: Backend, records: seq<Record>, q: Query, parts: Parts, names: seq<string>)
    requires parts == Parts(q.filter, None) && Enumerates(names, parts, q.wanted) && Selected(env, records, q).Ok?
    requires Remains(Remainder(backend, q, parts)) ==> QueryFault(Remainder(backend, q, parts)).None?
    ensures Answered(env, backend, records, q, parts, names) == Selected(env, records, q)
  {
    hide Filtered, Projected, ProjectedAll;
    var kept := Filtered(env, records, q.filter).value;
    assert q.wanted == [] ==> names == [] by {
      if names != [] {
        assert names[0] in q.wanted;
      }
    }
    if SupportsPagination(backend, q.page) {
      SameForAll(Paginated(kept, q.page).value, names, q.wanted);
    } else {
      PaginatedProjected(kept, q.page, names);
      NoFilter(NOTHING_REGISTERED, ProjectedAll(kept, names), None);
      LateForAll(Paginated(kept, q.page).value, names, q.wanted);
    }
  }

  /** Where nothing registered bears on a filter, it selects the same with nothing registered. */
  lemma {:induction false} FilteredAlike(env: Registered, records: seq<Record>, filter: Option<Filter>)
    requires filter.Some? ==> forall c :: c in Atoms(filter.value) ==> Independent(env, c)
    ensures Filtered(NOTHING_REGISTERED, records, filter) == Filtered(env, records, filter)
    decreases |records|
  {
    hide Eval, JudgeOf, Atoms, Independent;
    if filter.Some? && records != [] {
      JudgedAlike(env, records[|records| - 1], filter.value);
      FilteredAlike(env, records[..|records| - 1], filter);
    }
  }

  /** What names holds of a residual that is accepted: its fields are all there, and none is the empty path. */
  lemma {:induction false} ResidualNamed(env: Registered, backend: Backend, q: Query, parts: Parts, names: seq<string>)
    requires Splittable(env, backend, q, parts) && parts.post.Some? && Enumerates(names, parts, q.wanted)
    ensures q.filter.Some? && Partitioned(backend.capabilities, q.filter.value) == Ok(parts)
    ensures NoEmptyGroups(q.filter.value) && ModeOf(backend.capabilities, q.filter.value).conjunction
    ensures forall field :: field in FilterDeps(parts.post.value) ==> field in names && field != ""
  {
    hide ModeOf, Partitioned, NoEmptyGroups, Fault, FilterDeps, Atoms;
    CheckedNamesFields({}, parts.post.value);
  }

  lemma {:induction false} WithResidual(
    env: Registered, backend: Backend, records: seq<Record>, q: Query, parts: Parts, names: seq<string>)
    requires Splittable(env, backend, q, parts) && parts.post.Some? && !PageBeforeResidual(backend, q, parts)
    requires Enumerates(names, parts, q.wanted) && Selected(env, records, q).Ok?
    ensures
      var paged := Paginated(Filtered(env, records, q.filter).value, q.page).value;
      Answered(env, backend, records, q, parts, names) == Ok(ProjectedAll(ProjectedAll(paged, names), q.wanted))
  {
    ResidualNamed(env, backend, q, parts, names);
    var kept := Filtered(env, records, q.filter).value;
    FilteredTwice(env, backend.capabilities, q.filter.value, records, names);
    hide Filtered, Projected, ProjectedAll, FilterDeps, NoEmptyGroups, ModeOf, Partitioned, QueryFault, Independent,
      Atoms;
    var first := Filtered(env, records, parts.db).value;
    FilteredAlike(env, ProjectedAll(first, names), parts.post);
    PaginatedProjected(kept, if SupportsPagination(backend, q.page) then None else q.page, names);
  }

  /**
   The pipeline answers as the direct evaluation whenever that succeeds, for every backend, in whatever order the
   fields are enumerated.
  */
  lemma {:induction false} PipelineIsDirect(
    env: Registered, backend: Backend, records: seq<Record>, q: Query, parts: Parts, names: seq<string>)
    requires Faithful(env, backend, q, parts) && Enumerates(names, parts, q.wanted)
    requires Selected(env, records, q).Ok?
    ensures Answered(env, backend, records, q, parts, names) == Selected(env, records, q)
  {
    if parts.post.Some? {
      WithResidual(env, backend, records, q, parts, names);
      LateForAll(Paginated(Filtered(env, records, q.filter).value, q.page).value, names, q.wanted);
    } else {
      if q.filter.Some? {
        UnsplitIsWhole(backend.capabilities, q.filter.value);
      }
      WithoutResidual(env, backend, records, q, parts, names);
    }
  }

  // ---------- what the checks refuse ----------

  /**
   The residual of a filter that its author's helper accepts is refused exactly when it holds a condition with a
   custom operator, registered or not; otherwise the remainder is evaluated, if its page is accepted. The functions
   an engine registers after the check are given the whole record; none is taken to be registered here.
  */
  lemma {:induction false} CustomOperatorsRefused(
    env: Registered, backend: Backend, records: seq<Record>, q: Query, parts: Parts, names: seq<string>,
    known: set<ComparisonOperator>)
    requires q.filter.Some? && Fault(known, q.filter.value).None? && FilterParts(backend, q.filter) == Ok(parts)
    requires parts.post.Some? && Selected(env, records, BackendQuery(backend, q, parts, names)).Ok?
    ensures
      var rest, answer := Remainder(backend, q, parts), Answered(env, backend, records, q, parts, names);
      var found := Selected(env, records, BackendQuery(backend, q, parts, names)).value;
      if exists c :: c in Atoms(parts.post.value) && !IsStandard(c.operator) then
        answer.Err? && answer.error.InvalidFilters?
      else if PageFault(rest.page).Some? then answer == Err(PageFault(rest.page).value)
      else answer == Selected(NOTHING_REGISTERED, found, rest.(wanted := q.wanted))
  {
    ResidualAcceptedExactly(known, backend.capabilities, q.filter.value);
    hide Selected, Fault, Atoms, Partitioned;
  }

  /** A custom operator the backend does not support is therefore refused wherever it stands in the filter. */
  lemma {:induction false} UnsupportedRefused(
    env: Registered, backend: Backend, records: seq<Record>, q: Query, parts: Parts, names: seq<string>,
    known: set<ComparisonOperator>, c: Condition)
    requires q.filter.Some? && Fault(known, q.filter.value).None? && FilterParts(backend, q.filter) == Ok(parts)
    requires c in Atoms(q.filter.value) && !IsStandard(c.operator) && c.operator !in backend.capabilities.operators
    requires Selected(env, records, BackendQuery(backend, q, parts, names)).Ok?
    ensures
      var answer := Answered(env, backend, records, q, parts, names);
      answer.Err? && answer.error.InvalidFilters?
  {
    UnsupportedStays(backend.capabilities, q.filter.value, c);
    CustomOperatorsRefused(env, backend, records, q, parts, names, known);
  }

  /** A residual that names the empty path is refused before any record is looked at. */
  lemma {:induction false} EmptyPathRefused(
    env: Registered, backend: Backend, records: seq<Record>, q: Query, parts: Parts, names: seq<string>)
    requires FilterParts(backend, q.filter) == Ok(parts) && parts.post.Some? && "" in FilterDeps(parts.post.value)
    requires Selected(env, records, BackendQuery(backend, q, parts, names)).Ok?
    ensures
      var answer := Answered(env, backend, records, q, parts, names);
      answer.Err? && answer.error.InvalidFilters?
  {
    if Fault({}, parts.post.value).None? {
      CheckedNamesFields({}, parts.post.value);
    }
    hide Selected, Fault, Partitioned, FilterDeps;
  }

  // ---------- which records are kept ----------

  lemma {:induction false} FilteredOk(env: Registered, records: seq<Record>, f: Filter)
    ensures Filtered(env, records, Some(f)).Ok? <==>
      forall i :: 0 <= i < |records| ==> Eval(JudgeOf(env, records[i]), f).Ok?
    ensures Filtered(env, records, Some(f)).Ok? ==>
      forall r :: r in Filtered(env, records, Some(f)).value ==> r in records && Holds(JudgeOf(env, r), f)
    decreases |records|
  {
    hide Eval, JudgeOf;
    if records != [] {
      FilteredOk(env, records[..|records| - 1], f);
    }
  }

  lemma {:induction false} AllKept(env: Registered, records: seq<Record>, filter: Option<Filter>)
    requires forall r :: r in records ==> Passes(JudgeOf(env, r), filter)
    ensures Filtered(env, records, filter) == Ok(records)
    decreases |records|
  {
    hide Eval, JudgeOf;
    if filter.Some? && records != [] {
      var init, last := records[..|records| - 1], records[|records| - 1];
      assert last in records && records == init + [last];
      AllKept(env, init, filter);
    }
  }

  lemma {:induction false} NoneKept(env: Registered, records: seq<Record>, f: Filter)
    requires forall r :: r in records ==> Eval(JudgeOf(env, r), f) == Ok(false)
    ensures Filtered(env, records, Some(f)) == Ok([])
    decreases |records|
  {
    hide Eval, JudgeOf;
    if records != [] {
      assert records[|records| - 1] in records;
      NoneKept(env, records[..|records| - 1], f);
    }
  }

  lemma {:induction false} FilteredConcat(env: Registered, a: seq<Record>, b: seq<Record>, f: Filter)
    requires Filtered(env, a, Some(f)).Ok? && Filtered(env, b, Some(f)).Ok?
    ensures Filtered(env, a + b, Some(f)) == Ok(Filtered(env, a, Some(f)).value + Filtered(env, b, Some(f)).value)
    decreases |b|
  {
    hide Eval, JudgeOf;
    if b == [] {
      NothingFiltered(env, Some(f));
      assert a + b == a && Filtered(env, a, Some(f)).value + [] == Filtered(env, a, Some(f)).value;
    } else {
      var init, last := b[..|b| - 1], b[|b| - 1];
      assert b == init + [last] && a + b == (a + init) + [last];
      FilteredConcat(env, a, init, f);
      FilterStep(env, a + init, Some(f), last);
      FilterStep(env, init, Some(f), last);
      var x, y := Filtered(env, a, Some(f)).value, Filtered(env, init, Some(f)).value;
      assert (x + y) + [last] == x + (y + [last]);
    }
  }

  function Copies(record: Record, n: nat): (r: seq<Record>)
    ensures |r| == n && forall x :: x in r ==> x == record
  {
    seq(n, _ => record)
  }

  // ---------- a page left to the helper ----------

  /** The query with a positive limit. */
  function WithLimit(q: Query): Query
    requires q.page.Some?
  {
    q.(page := Some(q.page.value.(limit := 1)))
  }

  /**
   A query that can be split and whose page is left to the helper is answered as the direct evaluation exactly when
   its limit is positive or totals are asked for; the failure otherwise depends on whether the flag is there.
  */
  lemma {:induction false} ZeroLimitRefused(
    env: Registered, backend: Backend, records: seq<Record>, q: Query, parts: Parts, names: seq<string>)
    requires q.page.Some? && q.page.value.kind == "offset" && !SupportsPagination(backend, q.page)
    requires Faithful(env, backend, WithLimit(q), parts) && Enumerates(names, parts, q.wanted)
    requires Selected(env, records, q).Ok?
    ensures
      var page, answer := q.page.value, Answered(env, backend, records, q, parts, names);
      && (answer == Selected(env, records, q) <==> page.limit > 0 || page.includeTotal == Some(true))
      && (answer.Err? ==> answer.error == if page.includeTotal.None? then NilDereference else LimitNotPositive)
  {
    if PageFault(q.page).None? {
      PipelineIsDirect(env, backend, records, q, parts, names);
    } else {
      BackendAnswers(env, backend, records, q, parts, names);
    }
  }

  lemma {:induction false} BackendAnswers(
    env: Registered, backend: Backend, records: seq<Record>, q: Query, parts: Parts, names: seq<string>)
    requires q.page.Some? && q.page.value.kind == "offset" && !SupportsPagination(backend, q.page)
    requires Faithful(env, backend, WithLimit(q), parts) && Enumerates(names, parts, q.wanted)
    requires Filtered(env, records, q.filter).Ok?
    ensures Selected(env, records, BackendQuery(backend, q, parts, names)).Ok?
  {
    hide Filtered, ProjectedAll, FilterDeps, ModeOf, NoEmptyGroups, Partitioned, Independent, Atoms;
    if parts.post.Some? {
      ResidualNamed(env, backend, WithLimit(q), parts, names);
      FilteredTwice(env, backend.capabilities, q.filter.value, records, names);
    } else if q.filter.Some? {
      UnsplitIsWhole(backend.capabilities, q.filter.value);
    }
  }

  // ---------- a page before a residual, exactly ----------

  /** The filter selects the record. */
  ghost predicate Selects(env: Registered, f: Filter, record: Record) {
    Holds(JudgeOf(env, record), f)
  }

  /** The pushed part lets the record through, and the filter rejects it: only the residual can tell. */
  ghost predicate OnlyPushed(env: Registered, f: Filter, parts: Parts, record: Record) {
    Fails(JudgeOf(env, record), f) && Passes(JudgeOf(env, record), parts.db)
  }

  /** The filter judges a record only if its pushed part does, and selects it only if that part lets it through. */
  lemma {:induction false} PushedJudges(env: Registered, backend: Backend, q: Query, parts: Parts, record: Record)
    requires Splittable(env, backend, q, parts) && parts.post.Some? && Eval(JudgeOf(env, record), q.filter.value).Ok?
    ensures q.filter.Some?
    ensures parts.db.Some? ==> Eval(JudgeOf(env, record), parts.db.value).Ok?
    ensures Passes(JudgeOf(env, record), parts.db) <==>
      Selects(env, q.filter.value, record) || OnlyPushed(env, q.filter.value, parts, record)
  {
    PartsEvaluate(JudgeOf(env, record), backend.capabilities, q.filter.value);
    SplitIsSound(JudgeOf(env, record), backend.capabilities, q.filter.value);
    hide Eval, JudgeOf, ModeOf, Partitioned, NoEmptyGroups;
    var f := q.filter.value;
    JudgedEither(env, f, parts, record);
  }

  lemma {:induction false} JudgedEither(env: Registered, f: Filter, parts: Parts, record: Record)
    requires Eval(JudgeOf(env, record), f).Ok?
    requires Holds(JudgeOf(env, record), f) ==> Passes(JudgeOf(env, record), parts.db)
    ensures Passes(JudgeOf(env, record), parts.db) <==> Selects(env, f, record) || OnlyPushed(env, f, parts, record)
  {
    hide Eval, JudgeOf;
    var judge := JudgeOf(env, record);
    assert Eval(judge, f) == Ok(if Eval(judge, f).value then true else false);
  }

  /** A pushed page: the residual sees what the page leaves of the records the pushed part lets through. */
  lemma {:induction false} AnsweredFromCut(
    env: Registered, backend: Backend, records: seq<Record>, q: Query, parts: Parts, names: seq<string>)
    requires Splittable(env, backend, q, parts) && PageBeforeResidual(backend, q, parts)
    requires q.page.value.kind == "offset"
    requires Enumerates(names, parts, q.wanted) && Selected(env, records, q).Ok?
    ensures Filtered(env, records, parts.db).Ok?
    ensures
      var cut := Paginated(Filtered(env, records, parts.db).value, q.page).value;
      && Filtered(env, cut, q.filter).Ok?
      && Answered(env, backend, records, q, parts, names) ==
         Ok(ProjectedAll(ProjectedAll(Filtered(env, cut, q.filter).value, names), q.wanted))
  {
    hide Filtered, Eval, JudgeOf, Splittable, Projected, ProjectedAll, FilterDeps, ModeOf, NoEmptyGroups, Partitioned,
      Enumerates, Answered;
    ResidualNamed(env, backend, q, parts, names);
    PushedKept(env, records, q.filter.value, backend.capabilities, parts, names);
    var first := Filtered(env, records, parts.db).value;
    var cut := Paginated(first, q.page).value;
    assert forall r :: r in cut ==> r in first;
    AllKept(env, cut, parts.db);
    FilteredOk(env, cut, q.filter.value);
    CutAnswer(env, backend, records, q, parts, names, cut);
  }

  lemma {:induction false} PushedKept(
    env: Registered, records: seq<Record>, f: Filter, caps: Capabilities, parts: Parts, names: seq<string>)
    requires NoEmptyGroups(f) && Partitioned(caps, f) == Ok(parts) && ModeOf(caps, f).conjunction && parts.post.Some?
    requires forall field :: field in FilterDeps(parts.post.value) ==> field in names && field != ""
    requires Filtered(env, records, Some(f)).Ok?
    ensures Filtered(env, records, parts.db).Ok?
    ensures forall r :: r in Filtered(env, records, parts.db).value ==>
      Passes(JudgeOf(env, r), parts.db) && Eval(JudgeOf(env, r), f).Ok?
  {
    hide Filtered, Eval, JudgeOf, FilterDeps, ModeOf, NoEmptyGroups, Partitioned;
    FilteredTwice(env, caps, f, records, names);
    FilteredOk(env, records, f);
    if parts.db.Some? {
      FilteredOk(env, records, parts.db.value);
    } else {
      NoFilter(env, records, None);
    }
  }

  lemma {:induction false} CutAnswer(
    env: Registered, backend: Backend, records: seq<Record>, q: Query, parts: Parts, names: seq<string>,
    cut: seq<Record>)
    requires Splittable(env, backend, q, parts) && PageBeforeResidual(backend, q, parts)
    requires Enumerates(names, parts, q.wanted) && Filtered(env, records, parts.db).Ok?
    requires Paginated(Filtered(env, records, parts.db).value, q.page) == Ok(cut)
    requires Filtered(env, cut, parts.db) == Ok(cut) && Filtered(env, cut, q.filter).Ok?
    ensures Answered(env, backend, records, q, parts, names) ==
            Ok(ProjectedAll(ProjectedAll(Filtered(env, cut, q.filter).value, names), q.wanted))
  {
    hide Filtered, Projected, ProjectedAll, FilterDeps, QueryFault, Independent, Atoms, ModeOf, NoEmptyGroups,
      Partitioned;
    ResidualNamed(env, backend, q, parts, names);
    FilteredTwice(env, backend.capabilities, q.filter.value, cut, names);
    FilteredAlike(env, ProjectedAll(cut, names), parts.post);
  }

  /** The pipeline answers as the direct evaluation, whatever the records. */
  ghost predicate AlwaysDirect(env: Registered, backend: Backend, q: Query, parts: Parts, names: seq<string>) {
    forall records :: Selected(env, records, q).Ok? ==>
      Answered(env, backend, records, q, parts, names) == Selected(env, records, q)
  }

  /** The page never answers with a record: the helper refuses it, or it asks for none. */
  predicate AnswersNothing(page: Option<Page>) {
    !NoPagination(page) && (page.value.kind != "offset" || page.value.limit == 0)
  }

  /**
   Exactly when a page pushed before a residual filter is harmless to a query that lists its fields: it answers
   nothing, or no record is selected, or the pushed part never lets a record through that the filter rejects.
  */
  lemma {:induction false} PageHarmlessExactly(
    env: Registered, backend: Backend, q: Query, parts: Parts, names: seq<string>)
    requires Splittable(env, backend, q, parts) && PageBeforeResidual(backend, q, parts)
    requires q.filter.Some? && Enumerates(names, parts, q.wanted) && q.wanted != []
    ensures
      AlwaysDirect(env, backend, q, parts, names) <==>
      || AnswersNothing(q.page)
      || (forall a :: !Selects(env, q.filter.value, a))
      || (forall b :: !OnlyPushed(env, q.filter.value, parts, b))
  {
    hide Selects, OnlyPushed, Splittable, Enumerates, Selected, Answered;
    var f := q.filter.value;
    if !AnswersNothing(q.page) && exists a, b :: Selects(env, f, a) && OnlyPushed(env, f, parts, b) {
      var a, b :| Selects(env, f, a) && OnlyPushed(env, f, parts, b);
      PageLosesMatch(env, backend, q, parts, names, a, b);
      NotDirect(env, backend, q, parts, names, Copies(a, q.page.value.offset) + Copies(b, q.page.value.limit) + [a]);
    } else {
      forall records | Selected(env, records, q).Ok?
        ensures Answered(env, backend, records, q, parts, names) == Selected(env, records, q)
      {
        OffsetsOnly(env, records, q);
        PageHarmless(env, backend, records, q, parts, names);
      }
    }
  }

  lemma {:induction false} OffsetsOnly(env: Registered, records: seq<Record>, q: Query)
    requires Selected(env, records, q).Ok?
    ensures NoPagination(q.page) || q.page.value.kind == "offset"
  {
    hide Filtered;
  }

  lemma {:induction false} NotDirect(
    env: Registered, backend: Backend, q: Query, parts: Parts, names: seq<string>, records: seq<Record>)
    requires Selected(env, records, q).Ok?
    requires Answered(env, backend, records, q, parts, names) != Selected(env, records, q)
    ensures !AlwaysDirect(env, backend, q, parts, names)
  {
    hide Selected, Answered;
  }

  lemma {:induction false} PageHarmless(
    env: Registered, backend: Backend, records: seq<Record>, q: Query, parts: Parts, names: seq<string>)
    requires Splittable(env, backend, q, parts) && PageBeforeResidual(backend, q, parts)
    requires q.page.value.kind == "offset"
    requires q.filter.Some? && Enumerates(names, parts, q.wanted) && q.wanted != [] && Selected(env, records, q).Ok?
    requires
      || q.page.value.limit == 0
      || (forall a :: !Selects(env, q.filter.value, a))
      || (forall b :: !OnlyPushed(env, q.filter.value, parts, b))
    ensures Answered(env, backend, records, q, parts, names) == Selected(env, records, q)
  {
    hide Filtered, Eval, JudgeOf, Answered, Splittable, ProjectedAll;
    AnsweredFromCut(env, backend, records, q, parts, names);
    var f := q.filter.value;
    var kept, first := Filtered(env, records, q.filter).value, Filtered(env, records, parts.db).value;
    var cut := Paginated(first, q.page).value;
    FilteredOk(env, records, f);
    FilteredOk(env, cut, f);
    LateForAll(Filtered(env, cut, q.filter).value, names, q.wanted);
    if q.page.value.limit == 0 {
      assert cut == [] && Paginated(kept, q.page).value == [];
      NothingFiltered(env, q.filter);
    } else if forall a :: !Selects(env, f, a) {
      assert forall r :: r in kept ==> Selects(env, f, r);
      assert forall r :: r in Filtered(env, cut, q.filter).value ==> Selects(env, f, r);
      NoMembers(kept);
      NoMembers(Filtered(env, cut, q.filter).value);
    } else {
      SameKept(env, backend, records, q, parts);
      assert forall r :: r in cut ==> r in kept && Holds(JudgeOf(env, r), f);
      AllKept(env, cut, q.filter);
    }
  }

  lemma {:induction false} NoMembers(records: seq<Record>)
    ensures (forall r :: r !in records) ==> records == []
  {
    if records != [] {
      assert records[0] in records;
    }
  }

  /** When the residual never decides, the pushed part keeps the same records as the filter. */
  lemma {:induction false} SameKept(env: Registered, backend: Backend, records: seq<Record>, q: Query, parts: Parts)
    requires Splittable(env, backend, q, parts) && parts.post.Some? && q.filter.Some?
    requires Filtered(env, records, q.filter).Ok? && forall b :: !OnlyPushed(env, q.filter.value, parts, b)
    ensures Filtered(env, records, parts.db) == Filtered(env, records, q.filter)
    decreases |records|
  {
    hide Eval, JudgeOf, Splittable, OnlyPushed;
    if records == [] {
      NothingFiltered(env, parts.db);
    } else {
      var init, last := records[..|records| - 1], records[|records| - 1];
      SameKept(env, backend, init, q, parts);
      PushedJudges(env, backend, q, parts, last);
      NoFilter(env, init, parts.db);
      NoFilter(env, records, parts.db);
      assert records == init + [last];
    }
  }

  /** With a match behind enough records only the residual rejects, the page is spent before the match. */
  lemma {:induction false} PageLosesMatch(
    env: Registered, backend: Backend, q: Query, parts: Parts, names: seq<string>, a: Record, b: Record)
    requires Splittable(env, backend, q, parts) && PageBeforeResidual(backend, q, parts)
    requires q.page.value.kind == "offset"
    requires q.filter.Some? && Enumerates(names, parts, q.wanted) && q.page.value.limit > 0
    requires Selects(env, q.filter.value, a) && OnlyPushed(env, q.filter.value, parts, b)
    ensures
      var records := Copies(a, q.page.value.offset) + Copies(b, q.page.value.limit) + [a];
      && Selected(env, records, q) == Ok(ProjectedAll([a], q.wanted))
      && Answered(env, backend, records, q, parts, names) == Ok([])
  {
    var f, o, n := q.filter.value, q.page.value.offset, q.page.value.limit;
    hide Filtered, Eval, JudgeOf, Splittable, Copies, Answered, ProjectedAll, Enumerates;
    var records := Copies(a, o) + Copies(b, n) + [a];
    PushedJudges(env, backend, q, parts, a);
    MatchLast(env, f, a, b, o, n);
    assert (Copies(a, o) + [a])[o..o + 1] == [a];
    AllKept(env, records, parts.db);
    assert records[o..o + n] == Copies(b, n);
    AnsweredFromCut(env, backend, records, q, parts, names);
    NothingProjected(names);
    NothingProjected(q.wanted);
  }

  lemma {:induction false} MatchLast(env: Registered, f: Filter, a: Record, b: Record, o: nat, n: nat)
    requires Selects(env, f, a) && Fails(JudgeOf(env, b), f)
    ensures Filtered(env, Copies(a, o) + Copies(b, n) + [a], Some(f)) == Ok(Copies(a, o) + [a])
    ensures Filtered(env, Copies(b, n), Some(f)) == Ok([])
  {
    hide Filtered, Eval, JudgeOf, Copies;
    AllKept(env, Copies(a, o), Some(f));
    NoneKept(env, Copies(b, n), f);
    AllKept(env, [a], Some(f));
    FilteredConcat(env, Copies(a, o), Copies(b, n), f);
    assert Copies(a, o) + [] == Copies(a, o);
    FilteredConcat(env, Copies(a, o) + Copies(b, n), [a], f);
  }

  /**
   A filter that asks each of its fields once for presence always has a match and a record only its residual rejects:
   for such a filter a page pushed before a residual is harmless exactly when it answers nothing.
  */
  lemma {:induction false} PageHarmlessByShape(
    env: Registered, backend: Backend, q: Query, parts: Parts, names: seq<string>)
    requires Splittable(env, backend, q, parts) && PageBeforeResidual(backend, q, parts)
    requires q.filter.Some? && Enumerates(names, parts, q.wanted) && q.wanted != []
    requires RecordSplits.StandardPresence(env) && RecordSplits.AsksPresence(q.filter.value)
    requires PartitionExactness.ReadOnce(q.filter.value) && PartitionExactness.WellFormed(q.filter.value)
    ensures AlwaysDirect(env, backend, q, parts, names) <==> AnswersNothing(q.page)
  {
    PageHarmlessExactly(env, backend, q, parts, names);
    var a := SomeSelected(env, q.filter.value);
    var b := SomeOnlyPushed(env, backend.capabilities, q.filter.value, parts);
    hide Selects, OnlyPushed, Splittable, Enumerates, AlwaysDirect, AnswersNothing;
  }

  lemma {:induction false} SomeSelected(env: Registered, f: Filter) returns (a: Record)
    requires RecordSplits.StandardPresence(env) && RecordSplits.AsksPresence(f)
    requires PartitionExactness.ReadOnce(f) && PartitionExactness.WellFormed(f)
    ensures Selects(env, f, a)
  {
    hide Eval, JudgeOf, Atoms, RecordSplits.AsksPresence, RecordSplits.RecordFor;
    var truths := PartitionExactness.Nonconstant(f, true);
    a := RecordSplits.RecordFor(f, truths);
    RecordSplits.RecordRealises(env, f, truths);
    EvalLocal(f, JudgeOf(env, a), PartitionExactness.JudgeIn(truths));
  }

  lemma {:induction false} SomeOnlyPushed(env: Registered, caps: Capabilities, f: Filter, parts: Parts)
    returns (b: Record)
    requires RecordSplits.StandardPresence(env) && RecordSplits.AsksPresence(f)
    requires PartitionExactness.ReadOnce(f) && PartitionExactness.WellFormed(f)
    requires Partitioned(caps, f) == Ok(parts) && ModeOf(caps, f).conjunction && parts.post.Some?
    ensures OnlyPushed(env, f, parts, b)
  {
    hide Eval, JudgeOf, Atoms, ModeOf, Partitioned, RecordSplits.AsksPresence, RecordSplits.RecordFor,
      PartitionExactness.JudgeIn, PartitionExactness.WellFormed, PartitionExactness.ReadOnce;
    PartitionExactness.WellFormedParts(caps, f);
    var truths := PartitionExactness.JudgedTogether(caps, f, false);
    b := RecordSplits.RecordFor(f, truths);
    var judge, told := JudgeOf(env, b), PartitionExactness.JudgeIn(truths);
    RecordSplits.RecordRealises(env, f, truths);
    EvalLocal(f, judge, told);
    if parts.db.Some? {
      EvalLocal(parts.db.value, judge, told);
    }
    SplitIsSound(told, caps, f);
    PartitionExactness.Defined(f, truths);
    assert Eval(told, f) == Ok(if Eval(told, f).value then true else false);
  }

  // ---------- a query that lists no fields, exactly ----------

  /**
   Without a list of wanted fields and with a residual filter, the pipeline answers as the direct evaluation exactly
   when every selected record consists of the residual's fields.
  */
  lemma {:induction false} FieldsKeptExactly(
    env: Registered, backend: Backend, records: seq<Record>, q: Query, parts: Parts, names: seq<string>)
    requires Splittable(env, backend, q, parts) && parts.post.Some? && !PageBeforeResidual(backend, q, parts)
    requires Enumerates(names, parts, q.wanted) && q.wanted == [] && Selected(env, records, q).Ok?
    ensures Answered(env, backend, records, q, parts, names) == Selected(env, records, q) <==>
      forall r :: r in Selected(env, records, q).value ==> Projected(r, names) == r
  {
    WithResidual(env, backend, records, q, parts, names);
    var paged := Paginated(Filtered(env, records, q.filter).value, q.page).value;
    WantingNothing(paged);
    WantingNothing(ProjectedAll(paged, names));
    hide Filtered, Projected, Answered, Splittable;
    if ProjectedAll(paged, names) == paged {
      forall r | r in paged
        ensures Projected(r, names) == r
      {
        var i :| 0 <= i < |paged| && paged[i] == r;
        assert ProjectedAll(paged, names)[i] == Projected(r, names);
      }
    }
  }

  lemma {:induction false} WantingNothing(records: seq<Record>)
    ensures ProjectedAll(records, []) == records
  {
  }

  /** The same behind a pushed page, for the records the page leaves. */
  lemma {:induction false} FieldsKeptBehindPage(
    env: Registered, backend: Backend, records: seq<Record>, q: Query, parts: Parts, names: seq<string>)
    requires Splittable(env, backend, q, parts) && PageBeforeResidual(backend, q, parts)
    requires q.page.value.kind == "offset" && Enumerates(names, parts, q.wanted) && q.wanted == []
    requires Selected(env, records, q).Ok?
    ensures Filtered(env, records, parts.db).Ok?
    ensures
      var cut := Paginated(Filtered(env, records, parts.db).value, q.page).value;
      && Filtered(env, cut, q.filter).Ok?
      && Answered(env, backend, records, q, parts, names) ==
         Ok(ProjectedAll(Filtered(env, cut, q.filter).value, names))
  {
    hide Filtered, ProjectedAll, Answered, Splittable, Enumerates;
    AnsweredFromCut(env, backend, records, q, parts, names);
    var cut := Paginated(Filtered(env, records, parts.db).value, q.page).value;
    WantingNothing(ProjectedAll(Filtered(env, cut, q.filter).value, names));
  }

  /**
   So no query without such a list is safe, wherever its page is cut: if it selects any record and answers with one,
   some records lose fields.
  */
  lemma {:induction false} FieldsLostExactly(
    env: Registered, backend: Backend, q: Query, parts: Parts, names: seq<string>, known: set<ComparisonOperator>)
    requires Splittable(env, backend, q, parts) && parts.post.Some?
    requires q.filter.Some? && Fault(known, q.filter.value).None?
    requires Enumerates(names, parts, q.wanted) && q.wanted == []
    ensures
      AlwaysDirect(env, backend, q, parts, names) <==>
      AnswersNothing(q.page) || (forall a :: !Selects(env, q.filter.value, a))
  {
    hide Selects, Splittable, PageBeforeResidual, Enumerates, Answered, Eval, Selected, Fault, JudgeOf;
    var f := q.filter.value;
    if !AnswersNothing(q.page) && exists a :: Selects(env, f, a) {
      var a :| Selects(env, f, a);
      FieldLost(env, backend, q, parts, names, known, a);
    } else {
      forall records | Selected(env, records, q).Ok?
        ensures Answered(env, backend, records, q, parts, names) == Selected(env, records, q)
      {
        OffsetsOnly(env, records, q);
        NoFieldLost(env, backend, records, q, parts, names);
      }
    }
  }

  lemma {:induction false} NoFieldLost(
    env: Registered, backend: Backend, records: seq<Record>, q: Query, parts: Parts, names: seq<string>)
    requires Splittable(env, backend, q, parts) && parts.post.Some? && q.filter.Some?
    requires Enumerates(names, parts, q.wanted) && q.wanted == [] && Selected(env, records, q).Ok?
    requires NoPagination(q.page) || q.page.value.kind == "offset"
    requires AnswersNothing(q.page) || (forall a :: !Selects(env, q.filter.value, a))
    ensures Answered(env, backend, records, q, parts, names) == Selected(env, records, q)
  {
    hide Selects, Splittable, Enumerates, Answered, Eval, Filtered, JudgeOf, ProjectedAll;
    KeptSelected(env, records, q.filter.value);
    NoMembers(Filtered(env, records, q.filter).value);
    NothingProjected(names);
    NothingProjected(q.wanted);
    if PageBeforeResidual(backend, q, parts) {
      FieldsKeptBehindPage(env, backend, records, q, parts, names);
      var cut := Paginated(Filtered(env, records, parts.db).value, q.page).value;
      NothingFiltered(env, q.filter);
      if AnswersNothing(q.page) {
        assert cut == [] && Paginated(Filtered(env, records, q.filter).value, q.page).value == [];
      } else {
        KeptSelected(env, cut, q.filter.value);
        NoMembers(Filtered(env, cut, q.filter).value);
      }
      assert Filtered(env, cut, q.filter).value == [];
      assert Selected(env, records, q) == Ok([]);
    } else {
      FieldsKeptExactly(env, backend, records, q, parts, names);
    }
  }

  lemma {:induction false} FieldLost(
    env: Registered, backend: Backend, q: Query, parts: Parts, names: seq<string>, known: set<ComparisonOperator>,
    a: Record)
    requires Splittable(env, backend, q, parts) && parts.post.Some?
    requires q.filter.Some? && Fault(known, q.filter.value).None? && Selects(env, q.filter.value, a)
    requires Enumerates(names, parts, q.wanted) && q.wanted == [] && !AnswersNothing(q.page)
    ensures !AlwaysDirect(env, backend, q, parts, names)
  {
    hide Eval, JudgeOf, Projected, Filtered, Splittable, Answered, Selects, Enumerates, Fault, FilterDeps;
    var r := RecordWithMore(env, backend, q, parts, names, known, a);
    var records := Copies(r, if NoPagination(q.page) then 1 else q.page.value.offset + 1);
    SelectsAll(env, records, q.filter.value);
    var paged := Paginated(records, q.page).value;
    assert paged != [] && paged[0] == r;
    WantingNothing(paged);
    if PageBeforeResidual(backend, q, parts) {
      FieldLostBehindPage(env, backend, records, q, parts, names, r);
    } else {
      hide ProjectedAll, Copies;
      FieldsKeptExactly(env, backend, records, q, parts, names);
      assert r in Selected(env, records, q).value;
    }
    NotDirect(env, backend, q, parts, names, records);
  }

  lemma {:induction false} FieldLostBehindPage(
    env: Registered, backend: Backend, records: seq<Record>, q: Query, parts: Parts, names: seq<string>, r: Record)
    requires Splittable(env, backend, q, parts) && PageBeforeResidual(backend, q, parts) && q.filter.Some?
    requires q.page.value.kind == "offset" && q.page.value.limit > 0 && q.wanted == []
    requires Enumerates(names, parts, q.wanted) && records == Copies(r, q.page.value.offset + 1)
    requires Selects(env, q.filter.value, r) && Projected(r, names) != r && Selected(env, records, q).Ok?
    ensures Answered(env, backend, records, q, parts, names) != Selected(env, records, q)
  {
    hide Eval, JudgeOf, Projected, Filtered, Splittable, Answered, Enumerates;
    var paged := Paginated(records, q.page).value;
    assert paged == [r];
    FieldsKeptBehindPage(env, backend, records, q, parts, names);
    PushedJudges(env, backend, q, parts, r);
    AllKept(env, records, parts.db);
    AllKept(env, records, q.filter);
    AllKept(env, [r], q.filter);
    WantingNothing([r]);
    assert ProjectedAll([r], names)[0] == Projected(r, names);
  }

  lemma {:induction false} KeptSelected(env: Registered, records: seq<Record>, f: Filter)
    requires Filtered(env, records, Some(f)).Ok?
    ensures forall r :: r in Filtered(env, records, Some(f)).value ==> Selects(env, f, r)
  {
    hide Filtered, Eval, JudgeOf;
    FilteredOk(env, records, f);
  }

  lemma {:induction false} SelectsAll(env: Registered, records: seq<Record>, f: Filter)
    requires forall r :: r in records ==> Selects(env, f, r)
    ensures Filtered(env, records, Some(f)) == Ok(records)
  {
    hide Filtered, Eval, JudgeOf;
    AllKept(env, records, Some(f));
  }

  /** A selected record stays selected with one more field, which no dependency names. */
  lemma {:induction false} RecordWithMore(
    env: Registered, backend: Backend, q: Query, parts: Parts, names: seq<string>, known: set<ComparisonOperator>,
    a: Record)
    returns (r: Record)
    requires Splittable(env, backend, q, parts) && parts.post.Some? && Enumerates(names, parts, q.wanted)
    requires q.filter.Some? && Fault(known, q.filter.value).None? && Selects(env, q.filter.value, a)
    ensures Selects(env, q.filter.value, r) && Projected(r, names) != r
  {
    hide Eval, JudgeOf, Projected, FilterDeps, Fault, ModeOf, Partitioned, NoEmptyGroups, ValueByPath, Independent,
      Atoms;
    var f := q.filter.value;
    CheckedNamesFields(known, f);
    NamesSomething({}, parts.post.value);
    var k := LongerThanAll(FilterDeps(f) + set name | name in names);
    r := a[k := Null];
    forall field | field in FilterDeps(f)
      ensures ValueByPath(r, field) == ValueByPath(a, field)
    {
      OtherKeyInvisible(a, k, Null, field);
    }
    EvalSame(env, r, a, f);
    KeyNotProjected(r, names, k);
  }

  // ---------- the smallest inputs ----------

  const A_EXISTS := Cond(Condition("a", Exists, Literal(Null)))

  lemma {:induction false} JudgeAExists(record: Record)
    requires record == map[] || record == map["a" := Bool(true)] || record == map["a" := Bool(true), "b" := Bool(true)]
    ensures Eval(JudgeOf(NOTHING_REGISTERED, record), A_EXISTS) == Ok("a" in record)
    ensures Projected(record, ["a"]) == if "a" in record then map["a" := Bool(true)] else map[]
  {
    assert JsonPointers.Split("a", '.') == ["a"] by {
      JsonPointers.SplitPlain("a", '.');
    }
    assert ["a"][..0] == [] && ["a"][1..] == [];
    assert PutAll(record, map[], ["a"]) == Put(record, map[], ["a"]);
    assert ValueByPath(record, "a") == ValueAt(Obj(record), ["a"]);
    if "a" in record {
      assert ValueAt(record["a"], []) == record["a"];
    }
  }

  lemma {:induction false} FilterOne(env: Registered, f: Filter, record: Record)
    requires Eval(JudgeOf(env, record), f).Ok?
    ensures Filtered(env, [record], Some(f)) == Ok(if Eval(JudgeOf(env, record), f).value then [record] else [])
  {
    FilterStep(env, [], Some(f), record);
    NothingFiltered(env, Some(f));
    assert [] + [record] == [record];
  }

  /** A page pushed to the backend is cut before the residual filter runs: the one match is lost. */
  lemma {:induction false} PageCutTooEarly()
    ensures
      var backend := Backend(Capabilities({}, {}), {"offset"});
      var records: seq<Record> := [map[], map["a" := Bool(true)]];
      var q := Query(Some(A_EXISTS), Some(Page("offset", 0, 1, None)), ["a"]);
      var parts := Parts(None, Some(A_EXISTS));
      && FilterParts(backend, q.filter) == Ok(parts) && Enumerates(["a"], parts, q.wanted)
      && Selected(NOTHING_REGISTERED, records, q) == Ok([map["a" := Bool(true)]])
      && Answered(NOTHING_REGISTERED, backend, records, q, parts, ["a"]) == Ok([])
  {
    var none: Record, one: Record := map[], map["a" := Bool(true)];
    hide Eval, JudgeOf, Filtered, Projected;
    JudgeAExists(none);
    JudgeAExists(one);
    FilterOne(NOTHING_REGISTERED, A_EXISTS, none);
    FilterStep(NOTHING_REGISTERED, [none], Some(A_EXISTS), one);
    assert [none] + [one] == [none, one] && [] + [one] == [one];
    NoFilter(NOTHING_REGISTERED, [none, one], None);
    assert [one][0..1] == [one] && [none, one][0..1] == [none];
    assert ProjectedAll([one], ["a"]) == [one] && ProjectedAll([none], ["a"]) == [none];
  }

  /** Without a list of wanted fields the residual filter's fields are all that is left of a record. */
  lemma {:induction false} FieldsLost()
    ensures
      var backend := Backend(Capabilities({}, {}), {});
      var record: Record := map["a" := Bool(true), "b" := Bool(true)];
      var q := Query(Some(A_EXISTS), None, []);
      var parts := Parts(None, Some(A_EXISTS));
      && FilterParts(backend, q.filter) == Ok(parts) && Enumerates(["a"], parts, q.wanted)
      && Selected(NOTHING_REGISTERED, [record], q) == Ok([record])
      && Answered(NOTHING_REGISTERED, backend, [record], q, parts, ["a"]) == Ok([map["a" := Bool(true)]])
  {
    var record: Record, one: Record := map["a" := Bool(true), "b" := Bool(true)], map["a" := Bool(true)];
    JudgeAExists(record);
    JudgeAExists(one);
    FilterOne(NOTHING_REGISTERED, A_EXISTS, record);
    FilterOne(NOTHING_REGISTERED, A_EXISTS, one);
    assert Projected(record, []) == record && Projected(one, []) == one;
    hide Eval, JudgeOf, Filtered, Projected;
    NoFilter(NOTHING_REGISTERED, [record], None);
    assert ProjectedAll([record], ["a"]) == [one];
    assert ProjectedAll([record], []) == [record] && ProjectedAll([one], []) == [one];
  }
}
