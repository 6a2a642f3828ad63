/**
 What filters decide, condition by condition: paths, comparisons, membership, substrings, presence and the logical
 operators, each in its own terms.
*/
module FilterMeaning {
  import opened Wrappers
  import opened JsonValues
  import opened JsonPointers
  import opened QueryFilters

  // ---------- paths ----------

  lemma {:induction false} SplitFirst(k: string, rest: string, sep: char)
    requires sep !in k
    ensures Split(k + [sep] + rest, sep) == [k] + Split(rest, sep)
  {
    var whole := k + [sep] + rest;
    if k == "" {
      assert whole[1..] == rest;
    } else {
      assert whole[1..] == k[1..] + [sep] + rest && whole[0] == k[0];
      SplitFirst(k[1..], rest, sep);
      assert [k[0]] + k[1..] == k;
    }
  }

  /** The empty path is the record, a path without dots a field of it, missing fields being null. */
  lemma {:induction false} PathOfOne(record: Record, k: string)
    requires '.' !in k
    ensures ValueByPath(record, "") == Obj(record)
    ensures k != "" ==> ValueByPath(record, k) == if k in record then record[k] else Null
  {
    SplitPlain(k, '.');
    assert [k][1..] == [];
    assert k != "" ==> ValueByPath(record, k) == ValueAt(Obj(record), [k]);
    assert k in record ==> ValueAt(Obj(record), [k]) == ValueAt(record[k], []);
  }

  /** Behind a dot the path goes on inside the object before it; through anything else it leads to null. */
  lemma {:induction false} PathOfMore(record: Record, k: string, rest: string)
    requires '.' !in k && rest != ""
    ensures ValueByPath(record, k + "." + rest) ==
            if k in record && record[k].Obj? then ValueByPath(record[k].fields, rest) else Null
  {
    SplitFirst(k, rest, '.');
    var parts := Split(rest, '.');
    assert k + "." + rest == k + ['.'] + rest;
    assert ([k] + parts)[1..] == parts;
    assert ValueByPath(record, k + "." + rest) == ValueAt(Obj(record), [k] + parts);
    if k in record {
      assert ValueAt(Obj(record), [k] + parts) == ValueAt(record[k], parts);
      if record[k].Obj? {
        assert Obj(record[k].fields) == record[k];
      }
    }
  }

  /** What a condition compares with: a value, the field of the same record, a list, or what a function returns. */
  lemma {:induction false} ValueResolved(
    env: Registered, record: Record, v: Json, path: string, name: string, args: seq<FilterValue>)
    ensures Resolve(env, record, Literal(v)) == Ok(v)
    ensures Resolve(env, record, FieldRef(path)) == Ok(ValueByPath(record, path))
    ensures (forall i :: 0 <= i < |args| ==> Resolve(env, record, args[i]).Ok?) <==>
      Resolve(env, record, ArrayVal(args)).Ok?
    ensures Resolve(env, record, ArrayVal(args)).Ok? ==>
      var list := Resolve(env, record, ArrayVal(args)).value;
      && list.Arr? && |list.items| == |args|
      && (forall i :: 0 <= i < |args| ==> Resolve(env, record, args[i]) == Ok(list.items[i]))
      && Resolve(env, record, FunctionCall(name, args)) ==
         if name in env.functions then env.functions[name](list.items) else Err(FunctionNotRegistered)
  {
    AllResolved(env, record, ArrayVal(args), args);
    AllResolved(env, record, FunctionCall(name, args), args);
    var listed := ResolveAll(env, record, ArrayVal(args), args);
    var passed := ResolveAll(env, record, FunctionCall(name, args), args);
    assert listed.Ok? ==> listed.value == passed.value;
    hide ValueByPath;
  }

  lemma {:induction false} AllResolved(env: Registered, record: Record, whole: FilterValue, fvs: seq<FilterValue>)
    requires forall i :: 0 <= i < |fvs| ==> fvs[i] < whole
    ensures
      var r := ResolveAll(env, record, whole, fvs);
      && (r.Ok? <==> forall i :: 0 <= i < |fvs| ==> Resolve(env, record, fvs[i]).Ok?)
      && (r.Ok? ==> forall i :: 0 <= i < |fvs| ==> Resolve(env, record, fvs[i]) == Ok(r.value[i]))
    decreases |fvs|
  {
    hide Resolve;
    if fvs != [] {
      AllResolved(env, record, whole, fvs[1..]);
      assert forall i :: 1 <= i < |fvs| ==> fvs[i] == fvs[1..][i - 1];
    }
  }

  // ---------- comparisons ----------

  /** The condition has no registered operator, the field this value, and the value it compares with is known. */
  ghost predicate Asks(env: Registered, record: Record, c: Condition, x: Json, y: Json) {
    c.operator !in env.operators && ValueByPath(record, c.field) == x && Resolve(env, record, c.value) == Ok(y)
  }

  ghost function Verdict(env: Registered, record: Record, c: Condition): Result<bool, EvalError> {
    Eval(JudgeOf(env, record), Cond(c))
  }

  lemma {:induction false} NumbersCompared(env: Registered, record: Record, c: Condition, x: real, y: real)
    requires Asks(env, record, c, Num(x), Num(y))
    ensures c.operator == Eq ==> Verdict(env, record, c) == Ok(x == y)
    ensures c.operator == Neq ==> Verdict(env, record, c) == Ok(x != y)
    ensures c.operator == Lt ==> Verdict(env, record, c) == Ok(x < y)
    ensures c.operator == Lte ==> Verdict(env, record, c) == Ok(x <= y)
    ensures c.operator == Gt ==> Verdict(env, record, c) == Ok(x > y)
    ensures c.operator == Gte ==> Verdict(env, record, c) == Ok(x >= y)
  {
    hide ValueByPath, Resolve;
  }

  /** The first string is a proper prefix of the second, or has the smaller character where they first differ. */
  ghost predicate Precedes(a: string, b: string) {
    exists k :: DiffersAt(a, b, k)
  }

  ghost predicate DiffersAt(a: string, b: string, k: nat) {
    k <= |a| && k < |b| && a[..k] == b[..k] && (k == |a| || a[k] < b[k])
  }

  lemma {:induction false} StringsOrdered(a: string, b: string)
    ensures CompareStrings(a, b) < 0 <==> Precedes(a, b)
    ensures CompareStrings(a, b) == -1 || CompareStrings(a, b) == 0 || CompareStrings(a, b) == 1
  {
    if a == "" || b == "" || a[0] != b[0] {
      FirstDiffers(a, b);
    } else {
      StringsOrdered(a[1..], b[1..]);
      PrecedesStep(a, b);
    }
  }

  lemma {:induction false} FirstDiffers(a: string, b: string)
    requires a == "" || b == "" || a[0] != b[0]
    ensures Precedes(a, b) <==> (a == "" && b != "") || (a != "" && b != "" && a[0] < b[0])
  {
    if (a == "" && b != "") || (a != "" && b != "" && a[0] < b[0]) {
      assert DiffersAt(a, b, 0);
    }
    if k: nat :| DiffersAt(a, b, k) {
      SameStart(a, b, k);
    }
  }

  lemma {:induction false} SameStart(a: string, b: string, k: nat)
    ensures 0 < k <= |a| && k <= |b| && a[..k] == b[..k] ==> a[0] == b[0]
  {
    if 0 < k <= |a| && k <= |b| && a[..k] == b[..k] {
      assert a[..k][0] == b[..k][0];
    }
  }

  lemma {:induction false} PrecedesStep(a: string, b: string)
    requires a != "" && b != "" && a[0] == b[0]
    ensures Precedes(a, b) <==> Precedes(a[1..], b[1..])
  {
    if k: nat :| DiffersAt(a, b, k) {
      assert k > 0 && a[1..][..k - 1] == a[..k][1..] && b[1..][..k - 1] == b[..k][1..];
      assert DiffersAt(a[1..], b[1..], k - 1);
    }
    if k: nat :| DiffersAt(a[1..], b[1..], k) {
      assert a[..k + 1] == [a[0]] + a[1..][..k] && b[..k + 1] == [b[0]] + b[1..][..k];
      assert DiffersAt(a, b, k + 1);
    }
  }

  lemma {:induction false} StringsCompared(env: Registered, record: Record, c: Condition, x: string, y: string)
    requires Asks(env, record, c, Str(x), Str(y))
    ensures c.operator == Eq ==> Verdict(env, record, c) == Ok(x == y)
    ensures c.operator == Neq ==> Verdict(env, record, c) == Ok(x != y)
    ensures c.operator == Lt ==> Verdict(env, record, c) == Ok(Precedes(x, y))
    ensures c.operator == Lte ==> Verdict(env, record, c) == Ok(x == y || Precedes(x, y))
    ensures c.operator == Gt ==> Verdict(env, record, c) == Ok(Precedes(y, x))
    ensures c.operator == Gte ==> Verdict(env, record, c) == Ok(x == y || Precedes(y, x))
  {
    StringsOrdered(x, y);
    StringsOrdered(y, x);
    StringsTurn(x, y);
    StringsEqual(x, y);
    hide ValueByPath, Resolve, CompareStrings, Precedes;
  }

  /** Values that are not two numbers or two strings: unequal ones, a null among them or not, answer as "less". */
  lemma {:induction false} OthersCompared(env: Registered, record: Record, c: Condition, x: Json, y: Json)
    requires Asks(env, record, c, x, y) && !(x.Num? && y.Num?) && !(x.Str? && y.Str?)
    ensures c.operator == Eq || c.operator == Gte ==> Verdict(env, record, c) == Ok(x == y)
    ensures c.operator == Neq || c.operator == Lt ==> Verdict(env, record, c) == Ok(x != y)
    ensures c.operator == Lte ==> Verdict(env, record, c) == Ok(true)
    ensures c.operator == Gt ==> Verdict(env, record, c) == Ok(false)
  {
    hide ValueByPath, Resolve;
  }

  /** A list holds the field's value or it does not; beside anything but a list the question is an error. */
  lemma {:induction false} MembershipMeans(env: Registered, record: Record, c: Condition, x: Json, y: Json)
    requires Asks(env, record, c, x, y)
    ensures c.operator == In ==>
      Verdict(env, record, c) == if y.Arr? then Ok(x in y.items) else Err(InRequiresArray)
    ensures c.operator == Nin ==>
      Verdict(env, record, c) == if y.Arr? then Ok(x !in y.items) else Err(InRequiresArray)
  {
    hide ValueByPath, Resolve, CompareValues;
    if y.Arr? {
      forall i | 0 <= i < |y.items|
        ensures CompareValues(x, y.items[i]) == 0 <==> x == y.items[i]
      {
        ZeroIsEqual(x, y.items[i]);
      }
    }
  }

  ghost predicate Surrounds(s: string, t: string) {
    exists a, b :: s == a + t + b
  }

  lemma {:induction false} SubstringSurrounds(s: string, t: string)
    ensures HasSubstring(s, t) <==> Surrounds(s, t)
  {
    if i :| 0 <= i <= |s| - |t| && t <= s[i..] {
      assert s == s[..i] + t + s[i + |t|..];
    }
    if a, b :| s == a + t + b {
      assert s[|a|..] == t + b;
    }
  }

  /** A string contains another that has something, or nothing, before and after it; only strings can be asked for. */
  lemma {:induction false} ContainmentMeans(env: Registered, record: Record, c: Condition, x: Json, y: Json)
    requires Asks(env, record, c, x, y)
    ensures c.operator == Contains ==>
      Verdict(env, record, c) ==
        if !x.Str? then Ok(false) else if !y.Str? then Err(ContainsRequiresString) else Ok(Surrounds(x.s, y.s))
    ensures c.operator == NotContains ==>
      Verdict(env, record, c) ==
        if !x.Str? then Ok(true) else if !y.Str? then Err(ContainsRequiresString) else Ok(!Surrounds(x.s, y.s))
  {
    if x.Str? && y.Str? {
      SubstringSurrounds(x.s, y.s);
    }
    hide ValueByPath, Resolve, Surrounds, HasSubstring;
  }

  lemma {:induction false} PresenceMeans(env: Registered, record: Record, c: Condition, x: Json, y: Json)
    requires Asks(env, record, c, x, y)
    ensures c.operator == Exists ==> Verdict(env, record, c) == Ok(x != Null)
    ensures c.operator == NotExists ==> Verdict(env, record, c) == Ok(x == Null)
    ensures c.operator.OtherComparison? ==> Verdict(env, record, c) == Err(UnknownComparisonOperator)
  {
    hide ValueByPath, Resolve;
  }

  /** A registered operator takes the place of all this; a value that cannot be resolved comes before. */
  lemma {:induction false} RegisteredMeans(env: Registered, record: Record, c: Condition)
    ensures
      match Resolve(env, record, c.value)
      case Err(e) => Verdict(env, record, c) == Err(e)
      case Ok(y) =>
        c.operator in env.operators ==>
          Verdict(env, record, c) == env.operators[c.operator](ValueByPath(record, c.field), y)
  {
    hide ValueByPath, Resolve;
  }

  // ---------- groups ----------

  ghost function TruePositions(bs: seq<bool>): set<nat> {
    set i: nat | i < |bs| && bs[i]
  }

  lemma {:induction false} TrueCounted(bs: seq<bool>)
    ensures CountTrue(bs) == |TruePositions(bs)|
  {
    if bs != [] {
      var n := |bs| - 1;
      TrueCounted(bs[..n]);
      assert TruePositions(bs) == TruePositions(bs[..n]) + if bs[n] then {n} else {};
    }
  }

  /** What each operator makes of members that were all judged, and the groups that are errors. */
  lemma {:induction false} GroupMeans(judge: Judge, o: LogicalOperator, fs: seq<Filter>, bs: seq<bool>)
    requires |fs| == |bs| && forall i :: 0 <= i < |fs| ==> Eval(judge, fs[i]) == Ok(bs[i])
    ensures fs == [] ==> Eval(judge, Group(o, fs)) == Err(EmptyConditions)
    ensures fs != [] ==>
      Eval(judge, Group(o, fs)) ==
        match o
        case And => Ok(forall i :: 0 <= i < |bs| ==> bs[i])
        case Or => Ok(exists i :: 0 <= i < |bs| && bs[i])
        case Nand => Ok(exists i :: 0 <= i < |bs| && !bs[i])
        case Nor => Ok(forall i :: 0 <= i < |bs| ==> !bs[i])
        case Xor => Ok(|TruePositions(bs)| == 1)
        case Xnor => Ok(|TruePositions(bs)| % 2 == 0)
        case Not => if |bs| == 1 then Ok(!bs[0]) else Err(InvalidNotOperand)
        case UnknownLogical => Err(InvalidOperator)
  {
    MembersJudged(judge, Group(o, fs), fs, bs);
    TrueCounted(bs);
    hide TruePositions;
  }

  lemma {:induction false} MembersJudged(judge: Judge, whole: Filter, fs: seq<Filter>, bs: seq<bool>)
    requires forall i :: 0 <= i < |fs| ==> fs[i] < whole
    requires |fs| == |bs| && forall i :: 0 <= i < |fs| ==> Eval(judge, fs[i]) == Ok(bs[i])
    ensures EvalAll(judge, whole, fs) == Ok(bs)
    decreases |fs|
  {
    hide Eval;
    if fs != [] {
      MembersJudged(judge, whole, fs[1..], bs[1..]);
      assert bs == [bs[0]] + bs[1..];
    }
  }

  /** The first member that cannot be judged decides, whatever the operator. */
  lemma {:induction false} FirstFaultMeans(judge: Judge, o: LogicalOperator, fs: seq<Filter>, k: nat)
    requires k < |fs| && Eval(judge, fs[k]).Err?
    requires forall i :: 0 <= i < k ==> Eval(judge, fs[i]).Ok?
    ensures Eval(judge, Group(o, fs)) == Err(Eval(judge, fs[k]).error)
  {
    FaultFound(judge, Group(o, fs), fs, k);
  }

  lemma {:induction false} FaultFound(judge: Judge, whole: Filter, fs: seq<Filter>, k: nat)
    requires forall i :: 0 <= i < |fs| ==> fs[i] < whole
    requires k < |fs| && Eval(judge, fs[k]).Err? && forall i :: 0 <= i < k ==> Eval(judge, fs[i]).Ok?
    ensures EvalAll(judge, whole, fs) == Err(Eval(judge, fs[k]).error)
    decreases |fs|
  {
    hide Eval;
    if k > 0 {
      assert forall i :: 0 <= i < k - 1 ==> fs[1..][i] == fs[i + 1];
      FaultFound(judge, whole, fs[1..], k - 1);
    }
  }
}
