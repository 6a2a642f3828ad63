/**
 Splitting a filter by what the backend supports into a part the database evaluates and a residual evaluated in
 memory, and when the two together select the same records.
*/
module Partitioning {
  import opened Wrappers
  import opened QueryFilters

  datatype Capabilities = Capabilities(operators: set<ComparisonOperator>, textSearchTypes: set<string>)

  /** The part pushed to the database and the residual; either may be missing. */
  datatype Parts = Parts(db: Option<Filter>, post: Option<Filter>)

  datatype PartitionError = InvalidFilterStructure

  function OneSided(f: Filter, supported: bool): Parts {
    if supported then Parts(Some(f), None) else Parts(None, Some(f))
  }

  function AsGroup(o: LogicalOperator, fs: seq<Filter>): Option<Filter> {
    if fs == [] then None else Some(Group(o, fs))
  }

  function AsList(f: Option<Filter>): seq<Filter> {
    match f case Some(x) => [x] case None => []
  }

  /** A mixed Or stays whole; every other group is cut into the supported and the unsupported members. */
  function GroupParts(f: Filter, dbs: seq<Filter>, posts: seq<Filter>): Parts
    requires f.Group?
  {
    if f.operator == Or && dbs != [] && posts != [] then Parts(None, Some(f))
    else Parts(AsGroup(f.operator, dbs), AsGroup(f.operator, posts))
  }

  function Partitioned(caps: Capabilities, f: Filter): Result<Parts, PartitionError>
    decreases f, 0
  {
    match f
    case Cond(c) => Ok(OneSided(f, c.operator in caps.operators))
    case Group(_, conditions) =>
      (match PartitionedAll(caps, f, conditions)
       case Ok((dbs, posts)) => Ok(GroupParts(f, dbs, posts))
       case Err(e) => Err(e))
    case TextSearch(kind) => Ok(OneSided(f, kind in caps.textSearchTypes))
    case Invalid => Err(InvalidFilterStructure)
  }

  /** The parts of the members, in order; whole is the group they come from. */
  function PartitionedAll(caps: Capabilities, ghost whole: Filter, fs: seq<Filter>)
    : Result<(seq<Filter>, seq<Filter>), PartitionError>
    requires forall i :: 0 <= i < |fs| ==> fs[i] < whole
    decreases whole, 0, |fs|
  {
    if fs == [] then Ok(([], []))
    else
      match Partitioned(caps, fs[0])
      case Err(e) => Err(e)
      case Ok(parts) =>
        match PartitionedAll(caps, whole, fs[1..])
        case Err(e) => Err(e)
        case Ok((dbs, posts)) => Ok((AsList(parts.db) + dbs, AsList(parts.post) + posts))
  }

  class Partitioner {
    const capabilities: Capabilities

    constructor (capabilities: Capabilities)
      ensures this.capabilities == capabilities
    {
      this.capabilities := capabilities;
    }

    method PartitionFilters(filter: Option<Filter>) returns (r: Result<Parts, PartitionError>)
      ensures filter.None? ==> r == Ok(Parts(None, None))
      ensures filter.Some? ==> r == Partitioned(capabilities, filter.value)
    {
      if filter.None? {
        return Ok(Parts(None, None));
      }
      r := PartitionFilter(filter.value);
    }

    method PartitionFilter(f: Filter) returns (r: Result<Parts, PartitionError>)
      ensures r == Partitioned(capabilities, f)
      decreases f, 1
    {
      match f {
        case Cond(c) =>
          return Ok(OneSided(f, c.operator in capabilities.operators));
        case Group(_, _) =>
          r := PartitionGroup(f);
        case TextSearch(kind) =>
          return Ok(OneSided(f, kind in capabilities.textSearchTypes));
        case Invalid =>
          return Err(InvalidFilterStructure);
      }
    }

    method PartitionGroup(f: Filter) returns (r: Result<Parts, PartitionError>)
      requires f.Group?
      ensures r == Partitioned(capabilities, f)
      decreases f, 0
    {
      hide GroupParts;
      var dbConditions, postConditions: seq<Filter> := [], [];
      assert f.conditions[0..] == f.conditions;
      ContinuedNone(PartitionedAll(capabilities, f, f.conditions));
      for i := 0 to |f.conditions|
        invariant PartitionedAll(capabilities, f, f.conditions) ==
                  Continued(dbConditions, postConditions, PartitionedAll(capabilities, f, f.conditions[i..]))
      {
        assert f.conditions[i..][1..] == f.conditions[i + 1..] && f.conditions[i..][0] == f.conditions[i];
        var parts := PartitionFilter(f.conditions[i]);
        if parts.Err? {
          return Err(parts.error);
        }
        ContinuedStep(dbConditions, postConditions, AsList(parts.value.db), AsList(parts.value.post),
                      PartitionedAll(capabilities, f, f.conditions[i + 1..]));
        dbConditions := dbConditions + AsList(parts.value.db);
        postConditions := postConditions + AsList(parts.value.post);
      }
      assert dbConditions + [] == dbConditions && postConditions + [] == postConditions;
      return Ok(GroupParts(f, dbConditions, postConditions));
    }
  }

  /** Lists collected so far followed by those of the remaining members. */
  function Continued(dbs: seq<Filter>, posts: seq<Filter>, rest: Result<(seq<Filter>, seq<Filter>), PartitionError>)
    : Result<(seq<Filter>, seq<Filter>), PartitionError>
  {
    match rest
    case Ok((ds, ps)) => Ok((dbs + ds, posts + ps))
    case Err(e) => Err(e)
  }

  lemma {:induction false} ContinuedNone(rest: Result<(seq<Filter>, seq<Filter>), PartitionError>)
    ensures Continued([], [], rest) == rest
  {
    if rest.Ok? {
      assert [] + rest.value.0 == rest.value.0 && [] + rest.value.1 == rest.value.1;
    }
  }

  lemma {:induction false} ContinuedStep(
    dbs: seq<Filter>, posts: seq<Filter>, ds: seq<Filter>, ps: seq<Filter>,
    rest: Result<(seq<Filter>, seq<Filter>), PartitionError>)
    ensures Continued(dbs, posts, Continued(ds, ps, rest)) == Continued(dbs + ds, posts + ps, rest)
  {
    if rest.Ok? {
      assert dbs + (ds + rest.value.0) == (dbs + ds) + rest.value.0;
      assert posts + (ps + rest.value.1) == (posts + ps) + rest.value.1;
    }
  }

  // ---------- when nothing is split ----------

  /** No group, at any depth, is empty. */
  predicate NoEmptyGroups(f: Filter) {
    f.Group? ==> f.conditions != [] && forall i :: 0 <= i < |f.conditions| ==> NoEmptyGroups(f.conditions[i])
  }

  predicate IsSplit(parts: Parts) {
    parts.db.Some? && parts.post.Some?
  }

  /** A filter that is not split goes to one side unchanged. */
  lemma {:induction false} UnsplitIsWhole(caps: Capabilities, f: Filter)
    requires NoEmptyGroups(f) && Partitioned(caps, f).Ok?
    ensures
      var parts := Partitioned(caps, f).value;
      && (parts.db.None? ==> parts.post == Some(f))
      && (parts.post.None? ==> parts.db == Some(f))
    decreases f, 0
  {
    if f.Group? {
      UnsplitAll(caps, f, f.conditions);
    }
  }

  lemma {:induction false} UnsplitAll(caps: Capabilities, whole: Filter, fs: seq<Filter>)
    requires forall i :: 0 <= i < |fs| ==> fs[i] < whole && NoEmptyGroups(fs[i])
    requires PartitionedAll(caps, whole, fs).Ok?
    ensures
      var (dbs, posts) := PartitionedAll(caps, whole, fs).value;
      && (dbs == [] ==> posts == fs)
      && (posts == [] ==> dbs == fs)
    decreases whole, 0, |fs|
  {
    if fs != [] {
      UnsplitIsWhole(caps, fs[0]);
      UnsplitAll(caps, whole, fs[1..]);
    }
  }

  // ---------- what the parts of a split filter mean ----------

  ghost predicate Holds(judge: Judge, f: Filter) {
    Eval(judge, f) == Ok(true)
  }

  ghost predicate Fails(judge: Judge, f: Filter) {
    Eval(judge, f) == Ok(false)
  }

  /** A record passes a part when the part is missing or evaluates to true without an error. */
  ghost predicate Passes(judge: Judge, part: Option<Filter>) {
    part.Some? ==> Holds(judge, part.value)
  }

  ghost predicate FailsPart(judge: Judge, part: Option<Filter>) {
    part.Some? ==> Fails(judge, part.value)
  }

  /** The filter is true exactly when both parts are. */
  ghost predicate IsConjunction(judge: Judge, f: Filter, parts: Parts) {
    Holds(judge, f) <==> Passes(judge, parts.db) && Passes(judge, parts.post)
  }

  /** The filter is false exactly when both parts are: it is their disjunction. */
  ghost predicate IsDisjunction(judge: Judge, f: Filter, parts: Parts) {
    Fails(judge, f) <==> FailsPart(judge, parts.db) && FailsPart(judge, parts.post)
  }

  /** How a filter depends on its two parts. */
  datatype Mode = Mode(conjunction: bool, disjunction: bool)

  function Swapped(m: Mode): Mode {
    Mode(m.disjunction, m.conjunction)
  }

  predicate AllConjunctions(caps: Capabilities, ghost whole: Filter, fs: seq<Filter>)
    requires forall i :: 0 <= i < |fs| ==> fs[i] < whole
    decreases whole, 0
  {
    forall i :: 0 <= i < |fs| ==> ModeOf(caps, fs[i]).conjunction
  }

  predicate AllDisjunctions(caps: Capabilities, ghost whole: Filter, fs: seq<Filter>)
    requires forall i :: 0 <= i < |fs| ==> fs[i] < whole
    decreases whole, 0
  {
    forall i :: 0 <= i < |fs| ==> ModeOf(caps, fs[i]).disjunction
  }

  /**
   Which filters are the conjunction, or the disjunction, of their parts: an unsplit filter is both; an And of
   conjunctions and a Nor of disjunctions are conjunctions; a Nand of conjunctions is a disjunction; a group of
   one member is as its member, with the roles exchanged when the operator negates; a Not of two members, one on
   each side, and an Xor or Xnor cut in two are neither.
  */
  function ModeOf(caps: Capabilities, f: Filter): Mode
    decreases f, 1
  {
    match Partitioned(caps, f)
    case Err(_) => Mode(false, false)
    case Ok(parts) =>
      if !IsSplit(parts) then Mode(true, true)
      else if !f.Group? then Mode(false, false)
      else if f.operator == UnknownLogical then Mode(true, true)
      else if |f.conditions| == 1 then
        var inner := ModeOf(caps, f.conditions[0]);
        if f.operator == And || f.operator == Xor then inner else Swapped(inner)
      else
        match f.operator
        case And => Mode(AllConjunctions(caps, f, f.conditions), false)
        case Nor => Mode(AllDisjunctions(caps, f, f.conditions), false)
        case Nand => Mode(false, AllConjunctions(caps, f, f.conditions))
        case Not =>
          var misused := |parts.db.value.conditions| != 1 || |parts.post.value.conditions| != 1;
          Mode(misused, misused)
        case _ => Mode(false, false)
  }

  // ---------- groups and their members ----------

  ghost predicate AllHold(judge: Judge, fs: seq<Filter>) {
    forall i :: 0 <= i < |fs| ==> Holds(judge, fs[i])
  }

  ghost predicate AllFail(judge: Judge, fs: seq<Filter>) {
    forall i :: 0 <= i < |fs| ==> Fails(judge, fs[i])
  }

  lemma {:induction false} EvalAllSpec(judge: Judge, whole: Filter, fs: seq<Filter>)
    requires forall i :: 0 <= i < |fs| ==> fs[i] < whole
    ensures
      var r := EvalAll(judge, whole, fs);
      && (r.Ok? <==> forall i :: 0 <= i < |fs| ==> Eval(judge, fs[i]).Ok?)
      && (r.Ok? ==> forall i :: 0 <= i < |fs| ==> Eval(judge, fs[i]) == Ok(r.value[i]))
    decreases |fs|
  {
    hide Eval;
    if fs != [] {
      EvalAllSpec(judge, whole, fs[1..]);
      assert forall i :: 1 <= i < |fs| ==> fs[i] == fs[1..][i - 1];
      assert Eval(judge, fs[0]).Ok? && EvalAll(judge, whole, fs[1..]).Ok? ==>
        EvalAll(judge, whole, fs).Ok?;
    }
  }

  /** What a group says of its members, errors included: one failing evaluation makes it neither true nor false. */
  lemma {:induction false} GroupSpec(judge: Judge, o: LogicalOperator, fs: seq<Filter>)
    requires fs != []
    ensures
      var g := Group(o, fs);
      && (o == And ==> (Holds(judge, g) <==> AllHold(judge, fs)))
      && (o == Nor ==> (Holds(judge, g) <==> AllFail(judge, fs)))
      && (o == Nand ==> (Fails(judge, g) <==> AllHold(judge, fs)))
      && (o == Or ==> (Fails(judge, g) <==> AllFail(judge, fs)))
      && (o == UnknownLogical || (o == Not && |fs| != 1) ==> !Holds(judge, g) && !Fails(judge, g))
  {
    var g := Group(o, fs);
    EvalAllSpec(judge, g, fs);
    var r := EvalAll(judge, g, fs);
    assert Eval(judge, g) == match r case Ok(bs) => Combined(o, bs) case Err(e) => Err(e);
    hide Eval, EvalAll;
    if r.Ok? {
      Extremes(r.value);
      assert (forall i :: 0 <= i < |fs| ==> r.value[i]) <==> AllHold(judge, fs);
      assert (forall i :: 0 <= i < |fs| ==> !r.value[i]) <==> AllFail(judge, fs);
    }
  }

  lemma {:induction false} Extremes(bs: seq<bool>)
    ensures false !in bs <==> forall i :: 0 <= i < |bs| ==> bs[i]
    ensures true !in bs <==> forall i :: 0 <= i < |bs| ==> !bs[i]
  {
    if false in bs {
      var i :| 0 <= i < |bs| && bs[i] == false;
    }
    if true in bs {
      var i :| 0 <= i < |bs| && bs[i] == true;
    }
  }

  /** A group of one member is its member or its negation. */
  lemma {:induction false} SingleSpec(judge: Judge, o: LogicalOperator, c: Filter)
    requires o != UnknownLogical
    ensures
      var g := Group(o, [c]);
      if o == And || o == Or || o == Xor
      then (Holds(judge, g) <==> Holds(judge, c)) && (Fails(judge, g) <==> Fails(judge, c))
      else (Holds(judge, g) <==> Fails(judge, c)) && (Fails(judge, g) <==> Holds(judge, c))
  {
    var g := Group(o, [c]);
    EvalAllSpec(judge, g, [c]);
    var r := EvalAll(judge, g, [c]);
    assert Eval(judge, g) == match r case Ok(bs) => Combined(o, bs) case Err(e) => Err(e);
    assert [c][0] == c;
    hide Eval, EvalAll;
    if r.Ok? {
      assert r.value == [r.value[0]];
      CountSingle(r.value[0]);
    }
  }

  lemma {:induction false} CountSingle(b: bool)
    ensures CountTrue([b]) == if b then 1 else 0
  {
    assert [b][..0] == [];
  }

  // ---------- soundness ----------

  lemma {:induction false} HoldParts(judge: Judge, part: Option<Filter>, rest: seq<Filter>)
    ensures AllHold(judge, AsList(part) + rest) <==> Passes(judge, part) && AllHold(judge, rest)
    ensures AllFail(judge, AsList(part) + rest) <==> FailsPart(judge, part) && AllFail(judge, rest)
  {
    hide Holds, Fails;
    var all := AsList(part) + rest;
    assert forall i :: 0 <= i < |rest| ==> all[|AsList(part)| + i] == rest[i];
    assert part.Some? ==> all[0] == part.value;
  }

  /** Members that are conjunctions, or disjunctions, of their parts: so are the lists. */
  lemma {:induction false} MembersMean(judge: Judge, caps: Capabilities, whole: Filter, fs: seq<Filter>)
    requires forall i :: 0 <= i < |fs| ==> fs[i] < whole && NoEmptyGroups(fs[i])
    requires PartitionedAll(caps, whole, fs).Ok?
    ensures
      var (dbs, posts) := PartitionedAll(caps, whole, fs).value;
      && (AllConjunctions(caps, whole, fs) ==>
        (AllHold(judge, fs) <==> AllHold(judge, dbs) && AllHold(judge, posts)))
      && (AllDisjunctions(caps, whole, fs) ==>
        (AllFail(judge, fs) <==> AllFail(judge, dbs) && AllFail(judge, posts)))
    decreases whole, 0, |fs|
  {
    hide Holds, Fails, ModeOf;
    if fs != [] {
      PartsMean(judge, caps, fs[0]);
      MembersMean(judge, caps, whole, fs[1..]);
      var parts := Partitioned(caps, fs[0]).value;
      var (dbs, posts) := PartitionedAll(caps, whole, fs[1..]).value;
      HoldParts(judge, parts.db, dbs);
      HoldParts(judge, parts.post, posts);
      assert AsList(Some(fs[0])) + fs[1..] == fs;
      HoldParts(judge, Some(fs[0]), fs[1..]);
      assert forall i :: 1 <= i < |fs| ==> fs[i] == fs[1..][i - 1];
    }
  }

  /**
   What the parts of a filter mean, errors included. A filter whose mode is a conjunction is passed by exactly the
   records that pass both of its parts; one whose mode is a disjunction is failed by exactly those failing both.
  */
  lemma {:induction false} PartsMean(judge: Judge, caps: Capabilities, f: Filter)
    requires NoEmptyGroups(f) && Partitioned(caps, f).Ok?
    ensures
      var parts := Partitioned(caps, f).value;
      && (ModeOf(caps, f).conjunction ==> IsConjunction(judge, f, parts))
      && (ModeOf(caps, f).disjunction ==> IsDisjunction(judge, f, parts))
    decreases f, 1
  {
    hide Holds, Fails;
    UnsplitIsWhole(caps, f);
    var parts := Partitioned(caps, f).value;
    if IsSplit(parts) && f.Group? {
      if |f.conditions| == 1 {
        SingleMeans(judge, caps, f);
      } else {
        MembersMean(judge, caps, f, f.conditions);
        GroupSpec(judge, f.operator, f.conditions);
        GroupSpec(judge, f.operator, parts.db.value.conditions);
        GroupSpec(judge, f.operator, parts.post.value.conditions);
      }
    }
  }

  lemma {:induction false} SingleMeans(judge: Judge, caps: Capabilities, f: Filter)
    requires NoEmptyGroups(f) && Partitioned(caps, f).Ok? && IsSplit(Partitioned(caps, f).value)
    requires f.Group? && |f.conditions| == 1
    ensures
      var parts := Partitioned(caps, f).value;
      && (ModeOf(caps, f).conjunction ==> IsConjunction(judge, f, parts))
      && (ModeOf(caps, f).disjunction ==> IsDisjunction(judge, f, parts))
    decreases f, 0
  {
    var c := f.conditions[0];
    PartsMean(judge, caps, c);
    var parts, inner := Partitioned(caps, f).value, Partitioned(caps, c).value;
    SplitOfOne(caps, f);
    assert f.conditions == [c];
    GroupSpec(judge, f.operator, [c]);
    GroupSpec(judge, f.operator, [inner.db.value]);
    GroupSpec(judge, f.operator, [inner.post.value]);
    if f.operator != UnknownLogical {
      SingleSpec(judge, f.operator, c);
      SingleSpec(judge, f.operator, inner.db.value);
      SingleSpec(judge, f.operator, inner.post.value);
    }
    hide Holds, Fails;
  }

  lemma {:induction false} SplitOfOne(caps: Capabilities, f: Filter)
    requires f.Group? && |f.conditions| == 1 && Partitioned(caps, f).Ok? && IsSplit(Partitioned(caps, f).value)
    ensures Partitioned(caps, f.conditions[0]).Ok?
    ensures
      var inner := Partitioned(caps, f.conditions[0]).value;
      && IsSplit(inner) && f.operator != Or
      && Partitioned(caps, f).value ==
         Parts(Some(Group(f.operator, [inner.db.value])), Some(Group(f.operator, [inner.post.value])))
  {
    var c := f.conditions[0];
    assert f.conditions[1..] == [];
    assert PartitionedAll(caps, f, []) == Ok(([], []));
    var inner := Partitioned(caps, c).value;
    assert PartitionedAll(caps, f, f.conditions) == Ok((AsList(inner.db) + [], AsList(inner.post) + []));
    assert AsList(inner.db) + [] == AsList(inner.db) && AsList(inner.post) + [] == AsList(inner.post);
  }

  /** The database part and the residual together select exactly the records the filter selects. */
  lemma {:induction false} SplitIsSound(judge: Judge, caps: Capabilities, f: Filter)
    requires NoEmptyGroups(f) && Partitioned(caps, f).Ok? && ModeOf(caps, f).conjunction
    ensures
      var parts := Partitioned(caps, f).value;
      Holds(judge, f) <==> Passes(judge, parts.db) && Passes(judge, parts.post)
  {
    PartsMean(judge, caps, f);
  }

  /** Every filter built from And and Or groups qualifies. */
  predicate AndOr(f: Filter) {
    f.Group? ==>
      (f.operator == And || f.operator == Or) && f.conditions != [] &&
      forall i :: 0 <= i < |f.conditions| ==> AndOr(f.conditions[i])
  }

  lemma {:induction false} AndOrQualifies(caps: Capabilities, f: Filter)
    requires AndOr(f) && Partitioned(caps, f).Ok?
    ensures NoEmptyGroups(f) && ModeOf(caps, f).conjunction
    decreases f, 0
  {
    if f.Group? {
      MembersQualify(caps, f, f.conditions);
    }
  }

  lemma {:induction false} MembersQualify(caps: Capabilities, whole: Filter, fs: seq<Filter>)
    requires forall i :: 0 <= i < |fs| ==> fs[i] < whole && AndOr(fs[i])
    requires PartitionedAll(caps, whole, fs).Ok?
    ensures forall i :: 0 <= i < |fs| ==> NoEmptyGroups(fs[i]) && ModeOf(caps, fs[i]).conjunction
    decreases whole, 0, |fs|
  {
    hide ModeOf;
    if fs != [] {
      AndOrQualifies(caps, fs[0]);
      MembersQualify(caps, whole, fs[1..]);
      assert forall i :: 1 <= i < |fs| ==> fs[i] == fs[1..][i - 1];
    }
  }

  // ---------- where conditions and text searches go ----------

  /** x is a condition, or a text search, somewhere in f. */
  ghost predicate LeafOf(f: Filter, x: Filter) {
    if f.Group? then exists i :: 0 <= i < |f.conditions| && LeafOf(f.conditions[i], x) else x == f
  }

  ghost predicate LeafOfPart(part: Option<Filter>, x: Filter) {
    part.Some? && LeafOf(part.value, x)
  }

  /** The backend can evaluate this condition or text search. */
  predicate Supported(caps: Capabilities, x: Filter) {
    || (x.Cond? && x.condition.operator in caps.operators)
    || (x.TextSearch? && x.kind in caps.textSearchTypes)
  }

  /** No group, at any depth, is an Or. */
  predicate OrFree(f: Filter) {
    f.Group? ==> f.operator != Or && forall i :: 0 <= i < |f.conditions| ==> OrFree(f.conditions[i])
  }

  /**
   Nothing is pushed that the backend cannot evaluate, and nothing is lost or made up. Without an Or everything the
   backend can evaluate is pushed, and the residual asks for the rest alone.
  */
  lemma {:induction false} LeavesSplit(caps: Capabilities, f: Filter, x: Filter)
    requires Partitioned(caps, f).Ok?
    ensures
      var Parts(db, post) := Partitioned(caps, f).value;
      && (LeafOf(f, x) <==> LeafOfPart(db, x) || LeafOfPart(post, x))
      && (LeafOfPart(db, x) ==> Supported(caps, x))
      && (LeafOf(f, x) && !Supported(caps, x) ==> LeafOfPart(post, x))
      && (OrFree(f) ==>
            && (LeafOfPart(db, x) <==> LeafOf(f, x) && Supported(caps, x))
            && (LeafOfPart(post, x) <==> LeafOf(f, x) && !Supported(caps, x)))
    decreases f, 1
  {
    if f.Group? {
      var (dbs, posts) := PartitionedAll(caps, f, f.conditions).value;
      LeavesListed(caps, f, f.conditions, x);
      assert OrFree(f) ==> forall i :: 0 <= i < |f.conditions| ==> OrFree(f.conditions[i]);
      GroupedLeaves(f.operator, dbs, x);
      GroupedLeaves(f.operator, posts, x);
      assert LeafOf(f, x) <==> LeafIn(f.conditions, x);
    }
  }

  ghost predicate LeafIn(fs: seq<Filter>, x: Filter) {
    exists i :: 0 <= i < |fs| && LeafOf(fs[i], x)
  }

  lemma {:induction false} GroupedLeaves(o: LogicalOperator, fs: seq<Filter>, x: Filter)
    ensures LeafOfPart(AsGroup(o, fs), x) <==> LeafIn(fs, x)
  {
    if fs != [] {
      var g := Group(o, fs);
      assert LeafOf(g, x) <==> LeafIn(g.conditions, x);
    }
  }

  lemma {:induction false} LeafInJoined(part: Option<Filter>, rest: seq<Filter>, x: Filter)
    ensures LeafIn(AsList(part) + rest, x) <==> LeafOfPart(part, x) || LeafIn(rest, x)
  {
    hide LeafOf;
    var fs := AsList(part) + rest;
    assert forall i :: 0 <= i < |rest| ==> fs[|AsList(part)| + i] == rest[i];
    assert part.Some? ==> fs[0] == part.value;
  }

  lemma {:induction false} LeavesListed(caps: Capabilities, whole: Filter, fs: seq<Filter>, x: Filter)
    requires forall i :: 0 <= i < |fs| ==> fs[i] < whole
    requires PartitionedAll(caps, whole, fs).Ok?
    ensures
      var (dbs, posts) := PartitionedAll(caps, whole, fs).value;
      && (LeafIn(fs, x) <==> LeafIn(dbs, x) || LeafIn(posts, x))
      && (LeafIn(dbs, x) ==> Supported(caps, x))
      && (LeafIn(fs, x) && !Supported(caps, x) ==> LeafIn(posts, x))
      && ((forall i :: 0 <= i < |fs| ==> OrFree(fs[i])) ==>
            && (LeafIn(dbs, x) <==> LeafIn(fs, x) && Supported(caps, x))
            && (LeafIn(posts, x) <==> LeafIn(fs, x) && !Supported(caps, x)))
    decreases whole, 0, |fs|
  {
    hide LeafOf, OrFree, Supported, Partitioned;
    if fs != [] {
      var parts := Partitioned(caps, fs[0]).value;
      var (dbs, posts) := PartitionedAll(caps, whole, fs[1..]).value;
      LeavesSplit(caps, fs[0], x);
      LeavesListed(caps, whole, fs[1..], x);
      assert fs == AsList(Some(fs[0])) + fs[1..];
      LeafInJoined(Some(fs[0]), fs[1..], x);
      LeafInJoined(parts.db, dbs, x);
      LeafInJoined(parts.post, posts, x);
    }
  }

  /** Parts of a group are groups with its operator; an Or never has two parts. */
  lemma {:induction false} GroupsKeepTheirOperator(caps: Capabilities, f: Filter)
    requires Partitioned(caps, f).Ok? && f.Group?
    ensures
      var Parts(db, post) := Partitioned(caps, f).value;
      && (db.Some? ==> db.value.Group? && db.value.operator == f.operator)
      && (post.Some? ==> post.value.Group? && post.value.operator == f.operator)
      && (f.operator == Or && db.Some? ==> post.None?)
  {
  }
}
