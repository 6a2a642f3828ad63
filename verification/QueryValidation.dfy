/**
 The checks a helper makes of its query before it evaluates anything, what they leave of a residual filter, and
 what a filter that passed them no longer depends on.
*/
module QueryValidation {
  import opened Wrappers
  import opened JsonValues
  import opened QueryFilters
  import opened Partitioning
  import opened Projections

  datatype FilterFault =
    | ConditionFieldEmpty
    | OperatorUnsupported(operator: ComparisonOperator)
    | InvalidConditionValue
    | GroupEmpty
    | TextSearchUnsupported
    | NothingSet

  predicate IsStandard(o: ComparisonOperator) {
    !o.OtherComparison?
  }

  /** References and calls have a name. */
  predicate ValidValue(fv: FilterValue) {
    match fv
    case Literal(_) => true
    case ArrayVal(elements) => forall i :: 0 <= i < |elements| ==> ValidValue(elements[i])
    case FieldRef(field) => field != ""
    case FunctionCall(name, arguments) =>
      name != "" && forall i :: 0 <= i < |arguments| ==> ValidValue(arguments[i])
  }

  /** What is wrong with a condition, when the helper knows some custom operators. */
  function ConditionFault(known: set<ComparisonOperator>, c: Condition): Option<FilterFault> {
    if c.field == "" then Some(ConditionFieldEmpty)
    else if !IsStandard(c.operator) && c.operator !in known then Some(OperatorUnsupported(c.operator))
    else if !ValidValue(c.value) then Some(InvalidConditionValue)
    else None
  }

  /** The first fault of a filter. */
  function Fault(known: set<ComparisonOperator>, f: Filter): Option<FilterFault>
    decreases f, 0
  {
    match f
    case Cond(c) => ConditionFault(known, c)
    case Group(_, conditions) => if conditions == [] then Some(GroupEmpty) else FirstFault(known, f, conditions)
    case TextSearch(_) => Some(TextSearchUnsupported)
    case Invalid => Some(NothingSet)
  }

  function FirstFault(known: set<ComparisonOperator>, ghost whole: Filter, fs: seq<Filter>): Option<FilterFault>
    requires forall i :: 0 <= i < |fs| ==> fs[i] < whole
    decreases whole, 0, |fs|
  {
    if fs == [] then None
    else if Fault(known, fs[0]).Some? then Fault(known, fs[0])
    else FirstFault(known, whole, fs[1..])
  }

  /** A helper knows the custom operators it was created with; those registered later come after the checks. */
  class QueryHelper {
    const known: set<ComparisonOperator>

    constructor (known: set<ComparisonOperator>)
      ensures this.known == known
    {
      this.known := known;
    }

    method ValidateFilterValue(fv: FilterValue) returns (valid: bool)
      ensures valid <==> ValidValue(fv)
    {
      match fv {
        case Literal(_) =>
          return true;
        case ArrayVal(elements) =>
          for i := 0 to |elements|
            invariant forall j :: 0 <= j < i ==> ValidValue(elements[j])
          {
            var ok := ValidateFilterValue(elements[i]);
            if !ok {
              return false;
            }
          }
          return true;
        case FieldRef(field) =>
          return field != "";
        case FunctionCall(name, arguments) =>
          if name == "" {
            return false;
          }
          for i := 0 to |arguments|
            invariant forall j :: 0 <= j < i ==> ValidValue(arguments[j])
          {
            var ok := ValidateFilterValue(arguments[i]);
            if !ok {
              return false;
            }
          }
          return true;
      }
    }

    method ValidateQueryFilter(f: Filter) returns (fault: Option<FilterFault>)
      ensures fault == Fault(known, f)
    {
      match f {
        case Cond(c) =>
          if c.field == "" {
            return Some(ConditionFieldEmpty);
          }
          if !IsStandard(c.operator) && c.operator !in known {
            return Some(OperatorUnsupported(c.operator));
          }
          var valid := ValidateFilterValue(c.value);
          return if valid then None else Some(InvalidConditionValue);
        case Group(_, conditions) =>
          if conditions == [] {
            return Some(GroupEmpty);
          }
          assert conditions[0..] == conditions;
          for i := 0 to |conditions|
            invariant FirstFault(known, f, conditions) == FirstFault(known, f, conditions[i..])
          {
            assert conditions[i..][0] == conditions[i] && conditions[i..][1..] == conditions[i + 1..];
            fault := ValidateQueryFilter(conditions[i]);
            if fault.Some? {
              return;
            }
          }
          return None;
        case TextSearch(_) =>
          return Some(TextSearchUnsupported);
        case Invalid =>
          return Some(NothingSet);
      }
    }
  }

  // ---------- what passes the checks ----------

  /** Only conditions and groups that have members. */
  predicate WellGrouped(f: Filter) {
    match f
    case Cond(_) => true
    case Group(_, conditions) =>
      conditions != [] && forall i :: 0 <= i < |conditions| ==> WellGrouped(conditions[i])
    case TextSearch(_) => false
    case Invalid => false
  }

  /** A filter passes the checks exactly when it is well grouped and each of its conditions passes. */
  lemma {:induction false} FaultlessExactly(known: set<ComparisonOperator>, f: Filter)
    ensures Fault(known, f).None? <==> WellGrouped(f) && forall c :: c in Atoms(f) ==> ConditionFault(known, c).None?
    decreases f, 1
  {
    hide ConditionFault;
    if f.Group? {
      MembersFaultless(known, f, f.conditions);
      hide Atoms, WellGrouped;
      forall c
        ensures c in Atoms(f) <==> exists i :: 0 <= i < |f.conditions| && c in Atoms(f.conditions[i])
      {
        AtomsOf(f, f.conditions, c);
        GroupAtoms(f);
      }
      GroupedMembers(f);
    }
  }

  lemma {:induction false} GroupAtoms(f: Filter)
    requires f.Group?
    ensures Atoms(f) == AllAtoms(f, f.conditions)
  {
  }

  lemma {:induction false} GroupedMembers(f: Filter)
    requires f.Group?
    ensures WellGrouped(f) <==>
      f.conditions != [] && forall i :: 0 <= i < |f.conditions| ==> WellGrouped(f.conditions[i])
  {
  }

  lemma {:induction false} MembersFaultless(known: set<ComparisonOperator>, whole: Filter, fs: seq<Filter>)
    requires forall i :: 0 <= i < |fs| ==> fs[i] < whole
    ensures FirstFault(known, whole, fs).None? <==>
      forall i :: 0 <= i < |fs| ==>
        WellGrouped(fs[i]) && forall c :: c in Atoms(fs[i]) ==> ConditionFault(known, c).None?
    decreases whole, 0, |fs|
  {
    hide WellGrouped, Atoms, ConditionFault;
    if fs != [] {
      FaultlessExactly(known, fs[0]);
      MembersFaultless(known, whole, fs[1..]);
      assert forall i :: 1 <= i < |fs| ==> fs[i] == fs[1..][i - 1];
    }
  }

  // ---------- what the checks leave of a residual ----------

  ghost predicate PartGrouped(part: Option<Filter>, f: Filter) {
    part.Some? ==> Atoms(part.value) <= Atoms(f) && (WellGrouped(f) ==> WellGrouped(part.value))
  }

  /** The parts use the filter's conditions, and are well grouped when it is. */
  lemma {:induction false} PartsGrouped(caps: Capabilities, f: Filter)
    requires Partitioned(caps, f).Ok?
    ensures
      var parts := Partitioned(caps, f).value;
      PartGrouped(parts.db, f) && PartGrouped(parts.post, f)
    decreases f, 1
  {
    if f.Group? {
      ListsGrouped(caps, f, f.conditions);
      var (dbs, posts) := PartitionedAll(caps, f, f.conditions).value;
      GroupGrouped(f, dbs);
      GroupGrouped(f, posts);
    }
  }

  ghost predicate ListGrouped(list: seq<Filter>, fs: seq<Filter>, atoms: set<Condition>) {
    && (forall i :: 0 <= i < |list| ==> Atoms(list[i]) <= atoms)
    && ((forall i :: 0 <= i < |fs| ==> WellGrouped(fs[i])) ==> forall i :: 0 <= i < |list| ==> WellGrouped(list[i]))
  }

  lemma {:induction false} ListsGrouped(caps: Capabilities, whole: Filter, fs: seq<Filter>)
    requires forall i :: 0 <= i < |fs| ==> fs[i] < whole
    requires PartitionedAll(caps, whole, fs).Ok?
    ensures
      var (dbs, posts) := PartitionedAll(caps, whole, fs).value;
      ListGrouped(dbs, fs, AllAtoms(whole, fs)) && ListGrouped(posts, fs, AllAtoms(whole, fs))
    decreases whole, 0, |fs|
  {
    hide ListGrouped, PartGrouped, Atoms;
    if fs == [] {
      NothingGrouped(AllAtoms(whole, fs));
    } else {
      PartsGrouped(caps, fs[0]);
      ListsGrouped(caps, whole, fs[1..]);
      var parts := Partitioned(caps, fs[0]).value;
      var (dbs, posts) := PartitionedAll(caps, whole, fs[1..]).value;
      ListStep(fs, parts.db, dbs, AllAtoms(whole, fs[1..]));
      ListStep(fs, parts.post, posts, AllAtoms(whole, fs[1..]));
    }
  }

  lemma {:induction false} NothingGrouped(atoms: set<Condition>)
    ensures ListGrouped([], [], atoms)
  {
  }

  lemma {:induction false} ListStep(fs: seq<Filter>, part: Option<Filter>, list: seq<Filter>, atoms: set<Condition>)
    requires fs != [] && PartGrouped(part, fs[0]) && ListGrouped(list, fs[1..], atoms)
    ensures ListGrouped(AsList(part) + list, fs, Atoms(fs[0]) + atoms)
  {
    hide WellGrouped, Atoms;
    assert forall i :: 0 <= i < |fs[1..]| ==> fs[1..][i] == fs[i + 1];
  }

  lemma {:induction false} GroupGrouped(f: Filter, list: seq<Filter>)
    requires f.Group? && ListGrouped(list, f.conditions, Atoms(f))
    ensures PartGrouped(AsGroup(f.operator, list), f)
  {
    if list != [] {
      var g := Group(f.operator, list);
      forall c | c in Atoms(g)
        ensures c in Atoms(f)
      {
        AtomsOf(g, list, c);
      }
    }
  }

  /**
   The residual of a filter that its author's helper accepts is accepted by a helper that knows no custom operator
   exactly when it uses standard operators only.
  */
  lemma {:induction false} ResidualAcceptedExactly(known: set<ComparisonOperator>, caps: Capabilities, f: Filter)
    requires Fault(known, f).None? && Partitioned(caps, f).Ok? && Partitioned(caps, f).value.post.Some?
    ensures
      var residual := Partitioned(caps, f).value.post.value;
      Fault({}, residual).None? <==> forall c :: c in Atoms(residual) ==> IsStandard(c.operator)
  {
    var residual := Partitioned(caps, f).value.post.value;
    FaultlessExactly(known, f);
    PartsGrouped(caps, f);
    FaultlessExactly({}, residual);
    hide Fault, WellGrouped, Atoms, Partitioned;
  }

  /** A condition the backend does not support stays in the residual. */
  lemma {:induction false} UnsupportedStays(caps: Capabilities, f: Filter, c: Condition)
    requires Partitioned(caps, f).Ok? && c in Atoms(f) && c.operator !in caps.operators
    ensures
      var post := Partitioned(caps, f).value.post;
      post.Some? && c in Atoms(post.value)
    decreases f, 1
  {
    if f.Group? {
      UnsupportedListed(caps, f, f.conditions, c);
      var (_, posts) := PartitionedAll(caps, f, f.conditions).value;
      AtomsOf(Group(f.operator, posts), posts, c);
    }
  }

  lemma {:induction false} UnsupportedListed(caps: Capabilities, whole: Filter, fs: seq<Filter>, c: Condition)
    requires forall i :: 0 <= i < |fs| ==> fs[i] < whole
    requires PartitionedAll(caps, whole, fs).Ok? && c in AllAtoms(whole, fs) && c.operator !in caps.operators
    ensures
      var (_, posts) := PartitionedAll(caps, whole, fs).value;
      exists i :: 0 <= i < |posts| && c in Atoms(posts[i])
    decreases whole, 0, |fs|
  {
    hide Atoms;
    var parts := Partitioned(caps, fs[0]).value;
    var (_, rest) := PartitionedAll(caps, whole, fs[1..]).value;
    var (_, posts) := PartitionedAll(caps, whole, fs).value;
    assert posts == AsList(parts.post) + rest;
    if c in Atoms(fs[0]) {
      UnsupportedStays(caps, fs[0], c);
      assert posts[0] == parts.post.value;
    } else {
      UnsupportedListed(caps, whole, fs[1..], c);
      var i :| 0 <= i < |rest| && c in Atoms(rest[i]);
      assert posts[|AsList(parts.post)| + i] == rest[i];
    }
  }

  // ---------- what a checked filter no longer depends on ----------

  lemma {:induction false} ValueNamesFields(fv: FilterValue)
    requires ValidValue(fv)
    ensures "" !in ValueDeps(fv)
    decreases fv, 1
  {
    match fv {
      case Literal(_) =>
      case ArrayVal(elements) => ValuesNameFields(fv, elements);
      case FieldRef(_) =>
      case FunctionCall(_, arguments) => ValuesNameFields(fv, arguments);
    }
  }

  lemma {:induction false} ValuesNameFields(whole: FilterValue, fvs: seq<FilterValue>)
    requires forall i :: 0 <= i < |fvs| ==> fvs[i] < whole && ValidValue(fvs[i])
    ensures "" !in AllValueDeps(whole, fvs)
    decreases whole, 0, |fvs|
  {
    if fvs != [] {
      ValueNamesFields(fvs[0]);
      ValuesNameFields(whole, fvs[1..]);
    }
  }

  /** No checked filter names the empty path, which would mean the whole record. */
  lemma {:induction false} CheckedNamesFields(known: set<ComparisonOperator>, f: Filter)
    requires Fault(known, f).None?
    ensures "" !in FilterDeps(f)
    decreases f, 1
  {
    match f {
      case Cond(c) => ValueNamesFields(c.value);
      case Group(_, conditions) => CheckedNameFields(known, f, conditions);
    }
  }

  lemma {:induction false} CheckedNameFields(known: set<ComparisonOperator>, whole: Filter, fs: seq<Filter>)
    requires forall i :: 0 <= i < |fs| ==> fs[i] < whole
    requires FirstFault(known, whole, fs).None?
    ensures "" !in AllFilterDeps(whole, fs)
    decreases whole, 0, |fs|
  {
    if fs != [] {
      CheckedNamesFields(known, fs[0]);
      CheckedNameFields(known, whole, fs[1..]);
    }
  }

  /** A checked filter names some field. */
  lemma {:induction false} NamesSomething(known: set<ComparisonOperator>, f: Filter)
    requires Fault(known, f).None?
    ensures FilterDeps(f) != {}
  {
    if f.Cond? {
      assert f.condition.field in FilterDeps(f);
    } else {
      var first := f.conditions[0];
      NamesSomething(known, first);
      assert FilterDeps(first) <= FilterDeps(f);
    }
  }

  /** The functions a value calls. */
  function Calls(fv: FilterValue): set<string>
    decreases fv, 0
  {
    match fv
    case Literal(_) => {}
    case ArrayVal(elements) => AllCalls(fv, elements)
    case FieldRef(_) => {}
    case FunctionCall(name, arguments) => {name} + AllCalls(fv, arguments)
  }

  function AllCalls(ghost whole: FilterValue, fvs: seq<FilterValue>): set<string>
    requires forall i :: 0 <= i < |fvs| ==> fvs[i] < whole
    decreases whole, 0, |fvs|
  {
    if fvs == [] then {} else Calls(fvs[0]) + AllCalls(whole, fvs[1..])
  }

  const NOTHING_REGISTERED := Registered(map[], map[])

  /** Nothing registered bears on the condition. */
  predicate Independent(env: Registered, c: Condition) {
    c.operator !in env.operators && Calls(c.value) !! env.functions.Keys
  }

  lemma {:induction false} ResolvedAlike(env: Registered, record: Record, fv: FilterValue)
    requires Calls(fv) !! env.functions.Keys
    ensures Resolve(env, record, fv) == Resolve(NOTHING_REGISTERED, record, fv)
    decreases fv, 1
  {
    match fv {
      case Literal(_) =>
      case ArrayVal(elements) => AllResolvedAlike(env, record, fv, elements);
      case FieldRef(_) =>
      case FunctionCall(name, arguments) =>
        AllResolvedAlike(env, record, fv, arguments);
        assert name in Calls(fv);
    }
  }

  lemma {:induction false} AllResolvedAlike(env: Registered, record: Record, whole: FilterValue, fvs: seq<FilterValue>)
    requires forall i :: 0 <= i < |fvs| ==> fvs[i] < whole
    requires AllCalls(whole, fvs) !! env.functions.Keys
    ensures ResolveAll(env, record, whole, fvs) == ResolveAll(NOTHING_REGISTERED, record, whole, fvs)
    decreases whole, 0, |fvs|
  {
    if fvs != [] {
      ResolvedAlike(env, record, fvs[0]);
      AllResolvedAlike(env, record, whole, fvs[1..]);
    }
  }

  /** A filter on which nothing registered bears gives the same verdict without it. */
  lemma {:induction false} JudgedAlike(env: Registered, record: Record, f: Filter)
    requires forall c :: c in Atoms(f) ==> Independent(env, c)
    ensures Eval(JudgeOf(env, record), f) == Eval(JudgeOf(NOTHING_REGISTERED, record), f)
  {
    hide Atoms, Eval;
    forall c | c in Atoms(f)
      ensures JudgeOf(env, record)(c) == JudgeOf(NOTHING_REGISTERED, record)(c)
    {
      ResolvedAlike(env, record, c.value);
    }
    EvalLocal(f, JudgeOf(env, record), JudgeOf(NOTHING_REGISTERED, record));
  }
}
