/**
 Query filters and their evaluation against a record: logical operators over groups, comparison operators over
 fields found by dotted paths, values that may refer to other fields or call registered functions.
*/
module QueryFilters {
  import opened Wrappers
  import opened JsonValues
  import opened JsonPointers

  type Record = map<string, Json>

  datatype LogicalOperator = And | Or | Not | Nor | Xor | Nand | Xnor | UnknownLogical

  datatype ComparisonOperator =
    | Eq | Neq | Lt | Lte | Gt | Gte | In | Nin | Contains | NotContains | Exists | NotExists
    | OtherComparison(name: string)

  datatype EvalError =
    | EmptyConditions
    | InvalidNotOperand
    | InvalidOperator
    | UnknownComparisonOperator
    | InRequiresArray
    | ContainsRequiresString
    | FunctionNotRegistered
    | FunctionFailed(code: int)
    | TextSearchNotImplemented
    | InvalidFilter

  // ---------- logical operators ----------

  function CountTrue(bs: seq<bool>): nat {
    if bs == [] then 0 else CountTrue(bs[..|bs| - 1]) + if bs[|bs| - 1] then 1 else 0
  }

  /** What an operator makes of the results of its conditions. */
  ghost function Combined(o: LogicalOperator, bs: seq<bool>): Result<bool, EvalError> {
    if bs == [] then Err(EmptyConditions)
    else
      match o
      case And => Ok(false !in bs)
      case Or => Ok(true in bs)
      case Not => if |bs| != 1 then Err(InvalidNotOperand) else Ok(!bs[0])
      case Nor => Ok(true !in bs)
      case Xor => Ok(CountTrue(bs) == 1)
      case Nand => Ok(false in bs)
      case Xnor => Ok(CountTrue(bs) % 2 == 0)
      case UnknownLogical => Err(InvalidOperator)
  }

  method Count(bs: seq<bool>) returns (trueCount: nat)
    ensures trueCount == CountTrue(bs)
  {
    trueCount := 0;
    for i := 0 to |bs|
      invariant trueCount == CountTrue(bs[..i])
    {
      assert bs[..i + 1][..i] == bs[..i];
      if bs[i] {
        trueCount := trueCount + 1;
      }
    }
    assert bs[..|bs|] == bs;
  }

  method Find(bs: seq<bool>, b: bool) returns (found: bool)
    ensures found <==> b in bs
  {
    for i := 0 to |bs|
      invariant b !in bs[..i]
    {
      if bs[i] == b {
        return true;
      }
    }
    assert bs[..|bs|] == bs;
    return false;
  }

  method Evaluate(o: LogicalOperator, conditions: seq<bool>) returns (r: Result<bool, EvalError>)
    ensures r == Combined(o, conditions)
  {
    if |conditions| == 0 {
      return Err(EmptyConditions);
    }
    match o {
      case And =>
        var found := Find(conditions, false);
        return Ok(!found);
      case Or =>
        var found := Find(conditions, true);
        return Ok(found);
      case Not =>
        return if |conditions| != 1 then Err(InvalidNotOperand) else Ok(!conditions[0]);
      case Nor =>
        var found := Find(conditions, true);
        return Ok(!found);
      case Xor =>
        var trueCount := Count(conditions);
        return Ok(trueCount == 1);
      case Nand =>
        var found := Find(conditions, false);
        return Ok(found);
      case Xnor =>
        var trueCount := Count(conditions);
        return Ok(trueCount % 2 == 0);
      case UnknownLogical =>
        return Err(InvalidOperator);
    }
  }

  // ---------- values ----------

  /** The value of a condition: a literal, a list, another field, or a call of a registered function. */
  datatype FilterValue =
    | Literal(value: Json)
    | ArrayVal(elements: seq<FilterValue>)
    | FieldRef(field: string)
    | FunctionCall(function_: string, arguments: seq<FilterValue>)

  /** The operators and functions registered with the helper; they see values, not the record. */
  datatype Registered = Registered(
    operators: map<ComparisonOperator, (Json, Json) -> Result<bool, EvalError>>,
    functions: map<string, seq<Json> -> Result<Json, EvalError>>)

  /** The value at a path of keys; missing values and paths through anything but objects are null. */
  function ValueAt(v: Json, parts: seq<string>): Json
    decreases |parts|
  {
    if parts == [] then v
    else
      match v
      case Obj(m) => if parts[0] in m then ValueAt(m[parts[0]], parts[1..]) else Null
      case _ => Null
  }

  /** The value at a dotted path; the empty path is the whole record. */
  function ValueByPath(record: Record, path: string): Json {
    if path == "" then Obj(record) else ValueAt(Obj(record), Split(path, '.'))
  }

  function Resolve(env: Registered, record: Record, fv: FilterValue): Result<Json, EvalError>
    decreases fv, 0
  {
    match fv
    case Literal(v) => Ok(v)
    case ArrayVal(elements) =>
      (match ResolveAll(env, record, fv, elements)
       case Ok(vs) => Ok(Arr(vs))
       case Err(e) => Err(e))
    case FieldRef(field) => Ok(ValueByPath(record, field))
    case FunctionCall(name, arguments) =>
      match ResolveAll(env, record, fv, arguments)
      case Err(e) => Err(e)
      case Ok(vs) => if name in env.functions then env.functions[name](vs) else Err(FunctionNotRegistered)
  }

  /** The values in order, or the first error. */
  function ResolveAll(env: Registered, record: Record, ghost whole: FilterValue, fvs: seq<FilterValue>)
    : (r: Result<seq<Json>, EvalError>)
    requires forall i :: 0 <= i < |fvs| ==> fvs[i] < whole
    ensures r.Ok? ==> |r.value| == |fvs|
    decreases whole, 0, |fvs|
  {
    if fvs == [] then Ok([])
    else
      match Resolve(env, record, fvs[0])
      case Err(e) => Err(e)
      case Ok(v) =>
        match ResolveAll(env, record, whole, fvs[1..])
        case Err(e) => Err(e)
        case Ok(vs) => Ok([v] + vs)
  }

  // ---------- comparison ----------

  function CompareStrings(a: string, b: string): int {
    if a == "" && b == "" then 0
    else if a == "" then -1
    else if b == "" then 1
    else if a[0] < b[0] then -1
    else if a[0] > b[0] then 1
    else CompareStrings(a[1..], b[1..])
  }

  /** Negative, zero or positive; a null beside anything else, and unequal values of other kinds, are "less". */
  function CompareValues(a: Json, b: Json): int {
    if a.Null? && b.Null? then 0
    else if a.Null? || b.Null? then -1
    else
      match (a, b)
      case (Num(x), Num(y)) => if x < y then -1 else if x > y then 1 else 0
      case (Str(x), Str(y)) => CompareStrings(x, y)
      case _ => if a == b then 0 else -1
  }

  /** Comparing the other way round turns the answer around exactly for equal values, numbers and strings. */
  lemma {:induction false} AntisymmetricExactly(a: Json, b: Json)
    ensures CompareValues(a, b) == -CompareValues(b, a) <==> a == b || (a.Num? && b.Num?) || (a.Str? && b.Str?)
  {
    if a.Str? && b.Str? {
      StringsTurn(a.s, b.s);
    }
    if a == b && a.Str? {
      StringsEqual(a.s, a.s);
    }
  }

  lemma {:induction false} StringsTurn(a: string, b: string)
    ensures CompareStrings(a, b) == -CompareStrings(b, a)
  {
    if a != "" && b != "" && a[0] == b[0] {
      StringsTurn(a[1..], b[1..]);
    }
  }

  /** Zero means equal, for values of every kind. */
  lemma {:induction false} ZeroIsEqual(a: Json, b: Json)
    ensures CompareValues(a, b) == 0 <==> a == b
  {
    if a.Str? && b.Str? {
      StringsEqual(a.s, b.s);
    }
  }

  lemma {:induction false} StringsEqual(a: string, b: string)
    ensures CompareStrings(a, b) == 0 <==> a == b
  {
    if a != "" && b != "" {
      StringsEqual(a[1..], b[1..]);
      assert a == [a[0]] + a[1..] && b == [b[0]] + b[1..];
    }
  }

  /** On numbers and on strings the comparison is an order. */
  lemma {:induction false} CompareTransitive(a: Json, b: Json, c: Json)
    requires (a.Num? && b.Num? && c.Num?) || (a.Str? && b.Str? && c.Str?)
    requires CompareValues(a, b) <= 0 && CompareValues(b, c) <= 0
    ensures CompareValues(a, c) <= 0 && (CompareValues(a, c) == 0 ==> a == b == c)
  {
    if a.Str? {
      StringsTransitive(a.s, b.s, c.s);
      StringsEqual(a.s, c.s);
      StringsEqual(a.s, b.s);
    }
  }

  lemma {:induction false} StringsTransitive(a: string, b: string, c: string)
    requires CompareStrings(a, b) <= 0 && CompareStrings(b, c) <= 0
    ensures CompareStrings(a, c) <= 0 && (CompareStrings(a, c) == 0 ==> CompareStrings(a, b) == 0)
  {
    if a != "" && b != "" && c != "" && a[0] == b[0] == c[0] {
      StringsTransitive(a[1..], b[1..], c[1..]);
    }
  }

  function EvaluateIn(field: Json, value: Json): Result<bool, EvalError> {
    match value
    case Arr(items) => Ok(exists i :: 0 <= i < |items| && CompareValues(field, items[i]) == 0)
    case _ => Err(InRequiresArray)
  }

  predicate HasSubstring(s: string, t: string) {
    exists i {:trigger s[i..]} :: 0 <= i <= |s| - |t| && t <= s[i..]
  }

  function EvaluateContains(field: Json, value: Json): Result<bool, EvalError> {
    match field
    case Str(s) =>
      (match value
       case Str(t) => Ok(HasSubstring(s, t))
       case _ => Err(ContainsRequiresString))
    case _ => Ok(false)
  }

  function Negated(r: Result<bool, EvalError>): Result<bool, EvalError> {
    match r
    case Ok(b) => Ok(!b)
    case Err(e) => Err(e)
  }

  function Compare(env: Registered, o: ComparisonOperator, field: Json, value: Json): Result<bool, EvalError> {
    if o in env.operators then env.operators[o](field, value)
    else
      match o
      case Eq => Ok(CompareValues(field, value) == 0)
      case Neq => Ok(CompareValues(field, value) != 0)
      case Lt => Ok(CompareValues(field, value) < 0)
      case Lte => Ok(CompareValues(field, value) <= 0)
      case Gt => Ok(CompareValues(field, value) > 0)
      case Gte => Ok(CompareValues(field, value) >= 0)
      case In => EvaluateIn(field, value)
      case Nin => Negated(EvaluateIn(field, value))
      case Contains => EvaluateContains(field, value)
      case NotContains => Negated(EvaluateContains(field, value))
      case Exists => Ok(!field.Null?)
      case NotExists => Ok(field.Null?)
      case OtherComparison(_) => Err(UnknownComparisonOperator)
  }

  // ---------- filters ----------

  datatype Condition = Condition(field: string, operator: ComparisonOperator, value: FilterValue)

  datatype Filter =
    | Cond(condition: Condition)
    | Group(operator: LogicalOperator, conditions: seq<Filter>)
    | TextSearch(kind: string)
    | Invalid

  function EvaluateCondition(env: Registered, record: Record, c: Condition): Result<bool, EvalError> {
    match Resolve(env, record, c.value)
    case Err(e) => Err(e)
    case Ok(v) => Compare(env, c.operator, ValueByPath(record, c.field), v)
  }

  /** What each condition says of one record. */
  type Judge = Condition -> Result<bool, EvalError>

  ghost function JudgeOf(env: Registered, record: Record): Judge {
    (c: Condition) => EvaluateCondition(env, record, c)
  }

  /** What a filter says of a record its conditions are judged on; the first error of a group is the group's. */
  ghost function Eval(judge: Judge, f: Filter): Result<bool, EvalError>
    decreases f, 0
  {
    match f
    case Cond(c) => judge(c)
    case Group(o, conditions) =>
      (match EvalAll(judge, f, conditions)
       case Err(e) => Err(e)
       case Ok(bs) => Combined(o, bs))
    case TextSearch(_) => Err(TextSearchNotImplemented)
    case Invalid => Err(InvalidFilter)
  }

  ghost function EvalAll(judge: Judge, whole: Filter, fs: seq<Filter>): (r: Result<seq<bool>, EvalError>)
    requires forall i :: 0 <= i < |fs| ==> fs[i] < whole
    ensures r.Ok? ==> |r.value| == |fs|
    decreases whole, 0, |fs|
  {
    if fs == [] then Ok([])
    else
      match Eval(judge, fs[0])
      case Err(e) => Err(e)
      case Ok(b) =>
        match EvalAll(judge, whole, fs[1..])
        case Err(e) => Err(e)
        case Ok(bs) => Ok([b] + bs)
  }

  /** Evaluates a filter against a record. */
  method EvaluateFilter(env: Registered, record: Record, f: Filter) returns (r: Result<bool, EvalError>)
    ensures r == Eval(JudgeOf(env, record), f)
    decreases f, 1
  {
    match f {
      case Cond(c) =>
        return EvaluateCondition(env, record, c);
      case Group(o, conditions) =>
        r := EvaluateGroup(env, record, f);
      case TextSearch(_) =>
        return Err(TextSearchNotImplemented);
      case Invalid =>
        return Err(InvalidFilter);
    }
  }

  /** Evaluates every member in order, stopping at the first error, then combines the results. */
  method EvaluateGroup(env: Registered, record: Record, f: Filter) returns (r: Result<bool, EvalError>)
    requires f.Group?
    ensures r == Eval(JudgeOf(env, record), f)
    decreases f, 0
  {
    hide Combined, EvaluateCondition, JudgeOf;
    var results: seq<bool> := [];
    assert f.conditions[0..] == f.conditions;
    assert forall bs: seq<bool> {:trigger results + bs} :: results + bs == bs;
    for i := 0 to |f.conditions|
      invariant |results| == i
      invariant EvalAll(JudgeOf(env, record), f, f.conditions) ==
                match EvalAll(JudgeOf(env, record), f, f.conditions[i..])
                case Ok(bs) => Ok(results + bs)
                case Err(e) => Err(e)
    {
      assert f.conditions[i..][1..] == f.conditions[i + 1..] && f.conditions[i..][0] == f.conditions[i];
      var result := EvaluateFilter(env, record, f.conditions[i]);
      if result.Err? {
        return Err(result.error);
      }
      assert forall bs: seq<bool> {:trigger [result.value] + bs} ::
        results + ([result.value] + bs) == (results + [result.value]) + bs;
      results := results + [result.value];
    }
    assert results + [] == results;
    r := Evaluate(f.operator, results);
  }

  // ---------- the conditions of a filter ----------

  function Atoms(f: Filter): set<Condition>
    decreases f, 0
  {
    match f
    case Cond(c) => {c}
    case Group(_, conditions) => AllAtoms(f, conditions)
    case TextSearch(_) => {}
    case Invalid => {}
  }

  function AllAtoms(ghost whole: Filter, fs: seq<Filter>): set<Condition>
    requires forall i :: 0 <= i < |fs| ==> fs[i] < whole
    decreases whole, 0, |fs|
  {
    if fs == [] then {} else Atoms(fs[0]) + AllAtoms(whole, fs[1..])
  }

  lemma {:induction false} AtomsOf(whole: Filter, fs: seq<Filter>, c: Condition)
    requires forall i :: 0 <= i < |fs| ==> fs[i] < whole
    ensures c in AllAtoms(whole, fs) <==> exists i :: 0 <= i < |fs| && c in Atoms(fs[i])
    decreases |fs|
  {
    hide Atoms;
    if fs != [] {
      AtomsOf(whole, fs[1..], c);
      assert forall i :: 0 <= i < |fs[1..]| ==> fs[1..][i] == fs[i + 1];
      if c in AllAtoms(whole, fs[1..]) {
        var i :| 0 <= i < |fs[1..]| && c in Atoms(fs[1..][i]);
        assert c in Atoms(fs[i + 1]);
      }
      if i :| 0 <= i < |fs| && c in Atoms(fs[i]) {
        if i > 0 {
          assert c in Atoms(fs[1..][i - 1]);
        }
      }
    }
  }

  /** Only what its own conditions say matters to a filter. */
  lemma {:induction false} EvalLocal(f: Filter, a: Judge, b: Judge)
    requires forall c :: c in Atoms(f) ==> a(c) == b(c)
    ensures Eval(a, f) == Eval(b, f)
    decreases f, 1
  {
    match f {
      case Cond(c) =>
        assert c in Atoms(f);
      case Group(_, conditions) => EvalAllLocal(f, conditions, a, b);
      case TextSearch(_) =>
      case Invalid =>
    }
  }

  lemma {:induction false} EvalAllLocal(whole: Filter, fs: seq<Filter>, a: Judge, b: Judge)
    requires forall i :: 0 <= i < |fs| ==> fs[i] < whole
    requires forall c :: c in AllAtoms(whole, fs) ==> a(c) == b(c)
    ensures EvalAll(a, whole, fs) == EvalAll(b, whole, fs)
    decreases whole, 0, |fs|
  {
    if fs != [] {
      EvalLocal(fs[0], a, b);
      EvalAllLocal(whole, fs[1..], a, b);
    }
  }
}
