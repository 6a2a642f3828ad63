/**
 JSON Patch (RFC 6902): creating a patch between two JSON values and applying it. Applying the created patch to
 the old value gives the new one exactly when no pair of aligned arrays shrinks by two or more elements, for any
 order in which the keys of an object are visited.
*/
module JsonPatches {
  import opened Wrappers
  import opened JsonPointers
  import opened JsonValues

  datatype OpKind = Add | Remove | Replace

  datatype PatchOperation = PatchOperation(op: OpKind, path: string, value: Json)

  datatype PatchError =
    | InvalidPath
    | InvalidArrayIndex
    | ArrayIndexOutOfBounds
    | ArrayIndexOutOfBoundsNested
    | CannotAddToPrimitive
    | ObjectKeyNotFound
    | PathNotFound

  // ---------- applying one operation ----------

  /** The index a key names in an array of the given length, and whether it is the append marker. */
  function ParseIndex(key: string, length: nat): Option<(nat, bool)> {
    if key == "-" then Some((length, true))
    else
      match Atoi(key)
      case Some(i) => if i < 0 then None else Some((i, false))
      case None => None
  }

  function AddAt(node: Json, parts: seq<string>, val: Json): Result<Json, PatchError>
    decreases |parts|
  {
    if parts == [] then Ok(val)
    else
      match node
      case Obj(m) =>
        var child := if parts[0] in m then m[parts[0]] else Null;
        (match AddAt(child, parts[1..], val)
         case Ok(res) => Ok(Obj(m[parts[0] := res]))
         case Err(e) => Err(e))
      case Arr(s) =>
        (match ParseIndex(parts[0], |s|)
         case None => Err(InvalidArrayIndex)
         case Some((i, isEnd)) =>
           if i > |s| then Err(ArrayIndexOutOfBounds)
           else if |parts| == 1 then Ok(Arr(s[..i] + [val] + s[i..]))
           else if isEnd || i >= |s| then Err(ArrayIndexOutOfBoundsNested)
           else
             match AddAt(s[i], parts[1..], val)
             case Ok(res) => Ok(Arr(s[i := res]))
             case Err(e) => Err(e))
      case _ => Err(CannotAddToPrimitive)
  }

  function RemoveAt(node: Json, parts: seq<string>): Result<Json, PatchError>
    decreases |parts|
  {
    if parts == [] then Ok(Null)
    else
      match node
      case Obj(m) =>
        if parts[0] !in m then Err(ObjectKeyNotFound)
        else if |parts| == 1 then Ok(Obj(m - {parts[0]}))
        else
          (match RemoveAt(m[parts[0]], parts[1..])
           case Ok(res) => Ok(Obj(m[parts[0] := res]))
           case Err(e) => Err(e))
      case Arr(s) =>
        (match ParseIndex(parts[0], |s|)
         case None => Err(ArrayIndexOutOfBounds)
         case Some((i, _)) =>
           if i >= |s| then Err(ArrayIndexOutOfBounds)
           else if |parts| == 1 then Ok(Arr(s[..i] + s[i + 1..]))
           else
             match RemoveAt(s[i], parts[1..])
             case Ok(res) => Ok(Arr(s[i := res]))
             case Err(e) => Err(e))
      case _ => Err(PathNotFound)
  }

  /** Replace is remove, then add. */
  function Perform(node: Json, op: OpKind, parts: seq<string>, val: Json): Result<Json, PatchError> {
    match op
    case Add => AddAt(node, parts, val)
    case Remove => RemoveAt(node, parts)
    case Replace =>
      match RemoveAt(node, parts)
      case Ok(rest) => AddAt(rest, parts, val)
      case Err(e) => Err(e)
  }

  // ---------- applying a patch ----------

  function ApplyOne(node: Json, op: PatchOperation): Result<Json, PatchError> {
    match PathParts(op.path)
    case None => Err(InvalidPath)
    case Some(parts) => Perform(node, op.op, parts, op.value)
  }

  function Applied(target: Json, operations: seq<PatchOperation>): Result<Json, PatchError>
    decreases |operations|
  {
    if operations == [] then Ok(target)
    else
      match ApplyOne(target, operations[0])
      case Ok(next) => Applied(next, operations[1..])
      case Err(e) => Err(e)
  }

  /** An operation by its keys instead of its path, relative to some place in a value. */
  datatype Step = Step(op: OpKind, parts: seq<string>, value: Json)

  function Run(node: Json, steps: seq<Step>): Result<Json, PatchError>
    decreases |steps|
  {
    if steps == [] then Ok(node)
    else
      match Perform(node, steps[0].op, steps[0].parts, steps[0].value)
      case Ok(next) => Run(next, steps[1..])
      case Err(e) => Err(e)
  }

  lemma {:induction false} RunConcat(node: Json, a: seq<Step>, b: seq<Step>)
    ensures Run(node, a + b) == match Run(node, a) case Ok(next) => Run(next, b) case Err(e) => Err(e)
    decreases |a|
  {
    hide Perform;
    if a == [] {
      assert a + b == b;
    } else {
      assert (a + b)[1..] == a[1..] + b;
      match Perform(node, a[0].op, a[0].parts, a[0].value) {
        case Ok(next) => RunConcat(next, a[1..], b);
        case Err(_) =>
      }
    }
  }

  // ---------- steps inside one child ----------

  function Under(part: string, steps: seq<Step>): (r: seq<Step>)
    ensures |r| == |steps|
  {
    seq(|steps|, i requires 0 <= i < |steps| => Step(steps[i].op, [part] + steps[i].parts, steps[i].value))
  }

  /** Steps that stay within a child: only a replacement may name the child itself. */
  predicate Inner(steps: seq<Step>) {
    forall i :: 0 <= i < |steps| ==> steps[i].parts != [] || steps[i].op.Replace?
  }

  lemma {:induction false} PerformInObject(m: map<string, Json>, part: string, step: Step)
    requires part in m && Inner([step])
    ensures Perform(Obj(m), step.op, [part] + step.parts, step.value) ==
            match Perform(m[part], step.op, step.parts, step.value)
            case Ok(res) => Ok(Obj(m[part := res]))
            case Err(e) => Err(e)
  {
    assert [step][0] == step;
    var parts := [part] + step.parts;
    assert parts[1..] == step.parts;
    if step.op.Replace? {
      if step.parts == [] {
        assert (m - {part})[part := step.value] == m[part := step.value];
      } else {
        match RemoveAt(m[part], step.parts) {
          case Ok(rest) =>
            match AddAt(rest, step.parts, step.value) {
              case Ok(res) => assert m[part := rest][part := res] == m[part := res];
              case Err(_) =>
            }
          case Err(_) =>
        }
      }
    }
  }

  lemma {:induction false} RunInObject(m: map<string, Json>, part: string, steps: seq<Step>)
    requires part in m && Inner(steps)
    ensures Run(Obj(m), Under(part, steps)) ==
            match Run(m[part], steps)
            case Ok(res) => Ok(Obj(m[part := res]))
            case Err(e) => Err(e)
    decreases |steps|
  {
    hide Perform;
    if steps == [] {
      assert m[part := m[part]] == m;
    } else {
      var step := steps[0];
      assert Inner([step]) && Inner(steps[1..]);
      assert Under(part, steps)[1..] == Under(part, steps[1..]);
      PerformInObject(m, part, step);
      match Perform(m[part], step.op, step.parts, step.value) {
        case Ok(res) =>
          RunInObject(m[part := res], part, steps[1..]);
          if Run(res, steps[1..]).Ok? {
            assert m[part := res][part := Run(res, steps[1..]).value] == m[part := Run(res, steps[1..]).value];
          }
        case Err(_) =>
      }
    }
  }

  lemma {:induction false} IndexOfDecimal(i: nat, length: nat)
    requires i <= MAX_INT
    ensures ParseIndex(Decimal(i), length) == Some((i, false))
  {
    AtoiDecimal(i);
    DecimalIsPlain(i);
  }

  lemma {:induction false} PerformInArray(s: seq<Json>, i: nat, step: Step)
    requires i < |s| && i <= MAX_INT && Inner([step])
    ensures Perform(Arr(s), step.op, [Decimal(i)] + step.parts, step.value) ==
            match Perform(s[i], step.op, step.parts, step.value)
            case Ok(res) => Ok(Arr(s[i := res]))
            case Err(e) => Err(e)
  {
    assert [step][0] == step;
    var parts := [Decimal(i)] + step.parts;
    assert parts[1..] == step.parts;
    IndexOfDecimal(i, |s|);
    if step.op.Replace? {
      if step.parts == [] {
        var rest := s[..i] + s[i + 1..];
        IndexOfDecimal(i, |rest|);
        assert rest[..i] + [step.value] + rest[i..] == s[i := step.value];
      } else {
        match RemoveAt(s[i], step.parts) {
          case Ok(rest) =>
            match AddAt(rest, step.parts, step.value) {
              case Ok(res) => assert s[i := rest][i := res] == s[i := res];
              case Err(_) =>
            }
          case Err(_) =>
        }
      }
    }
  }

  lemma {:induction false} RunInArray(s: seq<Json>, i: nat, steps: seq<Step>)
    requires i < |s| && i <= MAX_INT && Inner(steps)
    ensures Run(Arr(s), Under(Decimal(i), steps)) ==
            match Run(s[i], steps)
            case Ok(res) => Ok(Arr(s[i := res]))
            case Err(e) => Err(e)
    decreases |steps|
  {
    hide Perform, Decimal;
    if steps == [] {
      assert s[i := s[i]] == s;
    } else {
      var step := steps[0];
      assert Inner([step]) && Inner(steps[1..]);
      assert Under(Decimal(i), steps)[1..] == Under(Decimal(i), steps[1..]);
      PerformInArray(s, i, step);
      match Perform(s[i], step.op, step.parts, step.value) {
        case Ok(res) =>
          RunInArray(s[i := res], i, steps[1..]);
          if Run(res, steps[1..]).Ok? {
            assert s[i := res][i := Run(res, steps[1..]).value] == s[i := Run(res, steps[1..]).value];
          }
        case Err(_) =>
      }
    }
  }

  // ---------- what a created patch does ----------

  /** The array lengths a machine integer can count. */
  predicate Countable(v: Json) {
    match v
    case Arr(s) => |s| <= MAX_INT && forall i :: 0 <= i < |s| ==> Countable(s[i])
    case Obj(m) => forall k :: k in m ==> Countable(m[k])
    case _ => true
  }

  /** No aligned array, one reached by the same keys and indices on both sides, loses two or more elements. */
  predicate Fits(before: Json, after: Json) {
    before == after ||
    match (before, after)
    case (Arr(s), Arr(t)) => |s| <= |t| + 1 && forall i :: 0 <= i < |s| && i < |t| ==> Fits(s[i], t[i])
    case (Obj(m), Obj(n)) => forall k :: k in m && k in n ==> Fits(m[k], n[k])
    case _ => true
  }

  /** What applying the created patch gives. */
  function Outcome(before: Json, after: Json): Result<Json, PatchError> {
    if Fits(before, after) then Ok(after) else Err(ArrayIndexOutOfBounds)
  }

  /** The operations of steps taken below a place. */
  function At(prefix: seq<string>, steps: seq<Step>): (r: seq<PatchOperation>)
    ensures |r| == |steps|
  {
    seq(|steps|, i requires 0 <= i < |steps| =>
      PatchOperation(steps[i].op, Render(prefix + steps[i].parts), steps[i].value))
  }

  lemma {:induction false} AtConcat(prefix: seq<string>, a: seq<Step>, b: seq<Step>)
    ensures At(prefix, a + b) == At(prefix, a) + At(prefix, b)
  {
  }

  lemma {:induction false} AtUnder(prefix: seq<string>, part: string, steps: seq<Step>)
    ensures At(prefix + [part], steps) == At(prefix, Under(part, steps))
  {
    forall i | 0 <= i < |steps|
      ensures (prefix + [part]) + steps[i].parts == prefix + ([part] + steps[i].parts)
    {
    }
  }

  /** Applying rendered paths is running the steps: the text of a path loses nothing. */
  lemma {:induction false} AppliedAt(v: Json, steps: seq<Step>)
    ensures Applied(v, At([], steps)) == Run(v, steps)
    decreases |steps|
  {
    hide Perform, Render, PathParts;
    if steps != [] {
      assert [] + steps[0].parts == steps[0].parts;
      PartsRender(steps[0].parts);
      assert At([], steps)[1..] == At([], steps[1..]);
      match Perform(v, steps[0].op, steps[0].parts, steps[0].value) {
        case Ok(next) => AppliedAt(next, steps[1..]);
        case Err(_) =>
      }
    }
  }

  // ---------- objects, key by key ----------

  /** The object once the keys in done have been brought to their new value. */
  function Mixed(m: map<string, Json>, n: map<string, Json>, done: set<string>): map<string, Json> {
    map k | k in m.Keys + n.Keys && (if k in done then k in n else k in m) :: if k in done then n[k] else m[k]
  }

  predicate FitsOn(m: map<string, Json>, n: map<string, Json>, done: set<string>) {
    forall k :: k in done && k in m && k in n ==> Fits(m[k], n[k])
  }

  function ObjectOutcome(m: map<string, Json>, n: map<string, Json>, done: set<string>): Result<Json, PatchError> {
    if FitsOn(m, n, done) then Ok(Obj(Mixed(m, n, done))) else Err(ArrayIndexOutOfBounds)
  }

  lemma {:induction false} ObjectStart(m: map<string, Json>, n: map<string, Json>)
    ensures Run(Obj(m), []) == ObjectOutcome(m, n, {})
  {
    assert Mixed(m, n, {}) == m;
  }

  lemma {:induction false} ObjectEnd(m: map<string, Json>, n: map<string, Json>, done: set<string>)
    requires done == m.Keys + n.Keys
    ensures ObjectOutcome(m, n, done) == Outcome(Obj(m), Obj(n))
  {
    assert Mixed(m, n, done) == n;
    if m == n {
      assert FitsOn(m, n, done) by {
        forall k | k in done && k in m && k in n
          ensures Fits(m[k], n[k])
        {
        }
      }
    }
  }

  /** One more key of both objects. */
  lemma {:induction false} ObjectChild(
    m: map<string, Json>, n: map<string, Json>, done: set<string>, key: string, steps: seq<Step>, child: seq<Step>)
    requires Run(Obj(m), steps) == ObjectOutcome(m, n, done)
    requires key in m && key in n && key !in done
    requires Inner(child) && Run(m[key], child) == Outcome(m[key], n[key])
    ensures Run(Obj(m), steps + Under(key, child)) == ObjectOutcome(m, n, done + {key})
  {
    hide Run, Fits;
    RunConcat(Obj(m), steps, Under(key, child));
    if FitsOn(m, n, done) {
      var mixed := Mixed(m, n, done);
      RunInObject(mixed, key, child);
      assert mixed[key := n[key]] == Mixed(m, n, done + {key});
      assert FitsOn(m, n, done + {key}) <==> Fits(m[key], n[key]);
    }
  }

  lemma {:induction false} RunOne(node: Json, step: Step)
    ensures Run(node, [step]) == Perform(node, step.op, step.parts, step.value)
  {
    hide Perform;
    match Perform(node, step.op, step.parts, step.value) {
      case Ok(next) => assert Run(next, [step][1..]) == Ok(next);
      case Err(_) =>
    }
  }

  /** One more key that only one of the objects has. */
  lemma {:induction false} ObjectKey(
    m: map<string, Json>, n: map<string, Json>, done: set<string>, key: string, steps: seq<Step>, step: Step)
    requires Run(Obj(m), steps) == ObjectOutcome(m, n, done)
    requires key !in done && (key in m <==> key !in n) && (key in m || key in n)
    requires step.parts == [key] && (if key in n then step.op == Add && step.value == n[key] else step.op == Remove)
    ensures Run(Obj(m), steps + [step]) == ObjectOutcome(m, n, done + {key})
  {
    hide Run, Fits;
    RunConcat(Obj(m), steps, [step]);
    if FitsOn(m, n, done) {
      var mixed := Mixed(m, n, done);
      RunOne(Obj(mixed), step);
      assert step.parts[1..] == [] && step.parts[0] == key;
      assert FitsOn(m, n, done + {key});
      if key in n {
        assert AddAt(Obj(mixed), step.parts, n[key]) == Ok(Obj(mixed[key := n[key]]));
        assert mixed[key := n[key]] == Mixed(m, n, done + {key});
      } else {
        assert RemoveAt(Obj(mixed), step.parts) == Ok(Obj(mixed - {key}));
        assert mixed - {key} == Mixed(m, n, done + {key});
      }
    }
  }

  // ---------- arrays, index by index ----------

  predicate FitsBefore(s: seq<Json>, t: seq<Json>, i: nat) {
    forall j :: 0 <= j < i && j < |s| && j < |t| ==> Fits(s[j], t[j])
  }

  /**
   The array after the first i indices: the first removal takes out the element at |t| and moves every later one
   down by one, so the second removal already skips an element, and the last one is out of bounds.
  */
  predicate ArrayReached(s: seq<Json>, t: seq<Json>, i: nat, r: Result<Json, PatchError>)
    requires i <= |s| || i <= |t|
  {
    if !FitsBefore(s, t, i) then r == Err(ArrayIndexOutOfBounds)
    else if i <= |t| then r == Ok(Arr(t[..i] + if i <= |s| then s[i..] else []))
    else if i == |t| + 1 then r == Ok(Arr(t + s[i..]))
    else if i == |s| then r == Err(ArrayIndexOutOfBounds)
    else r == Err(ArrayIndexOutOfBounds) || (r.Ok? && r.value.Arr? && |r.value.items| == |s| + |t| - i)
  }

  lemma {:induction false} ArrayEnd(s: seq<Json>, t: seq<Json>, i: nat, r: Result<Json, PatchError>)
    requires i == (if |s| < |t| then |t| else |s|) && ArrayReached(s, t, i, r) && s != t
    ensures r == Outcome(Arr(s), Arr(t))
  {
    hide Fits;
    assert FitsBefore(s, t, i) && |s| <= |t| + 1 <==> Fits(Arr(s), Arr(t)) by {
      ArrayFits(s, t);
    }
    assert t[..|t|] == t && t + [] == t;
  }

  lemma {:induction false} ArrayFits(s: seq<Json>, t: seq<Json>)
    requires s != t
    ensures Fits(Arr(s), Arr(t)) <==> |s| <= |t| + 1 && forall j :: 0 <= j < |s| && j < |t| ==> Fits(s[j], t[j])
  {
  }

  lemma {:induction false} ArrayChild(s: seq<Json>, t: seq<Json>, i: nat, steps: seq<Step>, child: seq<Step>)
    requires i < |s| && i < |t| && i <= MAX_INT && ArrayReached(s, t, i, Run(Arr(s), steps))
    requires Inner(child) && Run(s[i], child) == Outcome(s[i], t[i])
    ensures ArrayReached(s, t, i + 1, Run(Arr(s), steps + Under(Decimal(i), child)))
  {
    hide Run, Fits, Decimal;
    RunConcat(Arr(s), steps, Under(Decimal(i), child));
    if FitsBefore(s, t, i) {
      var mixed := t[..i] + s[i..];
      RunInArray(mixed, i, child);
      assert mixed[i := t[i]] == t[..i + 1] + s[i + 1..];
    }
  }

  lemma {:induction false} ArrayAppend(s: seq<Json>, t: seq<Json>, i: nat, steps: seq<Step>)
    requires |s| <= i < |t| && ArrayReached(s, t, i, Run(Arr(s), steps))
    ensures ArrayReached(s, t, i + 1, Run(Arr(s), steps + [Step(Add, ["-"], t[i])]))
  {
    hide Run, Fits;
    RunConcat(Arr(s), steps, [Step(Add, ["-"], t[i])]);
    if FitsBefore(s, t, i) {
      var mixed := t[..i];
      assert mixed == t[..i] + [] && (i == |s| ==> s[i..] == []);
      RunOne(Arr(mixed), Step(Add, ["-"], t[i]));
      assert mixed[..i] + [t[i]] + mixed[i..] == t[..i + 1];
      assert t[..i + 1] + [] == t[..i + 1];
    }
  }

  lemma {:induction false} ArrayRemove(s: seq<Json>, t: seq<Json>, i: nat, steps: seq<Step>, value: Json)
    requires |t| <= i < |s| && i <= MAX_INT && ArrayReached(s, t, i, Run(Arr(s), steps))
    ensures ArrayReached(s, t, i + 1, Run(Arr(s), steps + [Step(Remove, [Decimal(i)], value)]))
  {
    hide Run, Fits, Decimal;
    var step := Step(Remove, [Decimal(i)], value);
    RunConcat(Arr(s), steps, [step]);
    var r := Run(Arr(s), steps);
    if FitsBefore(s, t, i) && r.Ok? {
      var reached := r.value.items;
      RunOne(r.value, step);
      IndexOfDecimal(i, |reached|);
      if i == |t| {
        assert t[..i] == t && reached == t + s[i..];
        assert reached[..i] + reached[i + 1..] == t + s[i + 1..];
      }
    }
  }
}
