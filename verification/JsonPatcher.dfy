/**
 The patcher: patches are appended to one growing list while two values are walked together, and applied one
 after another, parsing each path once and remembering it.
*/
module JsonPatchers {
  import opened Wrappers
  import opened JsonPointers
  import opened JsonPatches
  import opened PatchMeaning
  import opened JsonValues

  /** The list patches are appended to. */
  class PatchList {
    var operations: seq<PatchOperation>

    constructor ()
      ensures operations == []
    {
      operations := [];
    }

    method Append(op: OpKind, path: string, value: Json)
      modifies this
      ensures operations == old(operations) + [PatchOperation(op, path, value)]
    {
      operations := operations + [PatchOperation(op, path, value)];
    }
  }

  /** What walking the pair below a place appends: steps inside it that turn the old value into the outcome. */
  ghost predicate Turns(before: Json, after: Json, steps: seq<Step>) {
    && Inner(steps)
    && Run(before, steps) == Outcome(before, after)
    && (steps == [] <==> before == after)
  }

  lemma {:induction false} TurnsByReplace(prefix: seq<string>, before: Json, after: Json)
    requires before != after && (before.Arr? ==> !after.Arr?) && (before.Obj? ==> !after.Obj?)
    ensures Turns(before, after, [Step(Replace, [], after)])
    ensures At(prefix, [Step(Replace, [], after)]) == [PatchOperation(Replace, Render(prefix), after)]
  {
    RunOne(before, Step(Replace, [], after));
    assert prefix + [] == prefix;
  }

  lemma {:induction false} AtOne(prefix: seq<string>, part: string, path: string, op: OpKind, value: Json)
    requires path == Render(prefix)
    ensures At(prefix, [Step(op, [part], value)]) == [PatchOperation(op, path + "/" + EscapePointer(part), value)]
  {
    RenderSnoc(prefix, part);
  }

  lemma {:induction false} EqualTurns(prefix: seq<string>, v: Json)
    ensures Turns(v, v, []) && At(prefix, []) == []
  {
  }

  lemma {:induction false} ChildrenCountable(before: Json, after: Json)
    requires Countable(before) && Countable(after)
    ensures before.Obj? ==> forall k :: k in before.fields ==> Countable(before.fields[k])
    ensures after.Obj? ==> forall k :: k in after.fields ==> Countable(after.fields[k])
  {
  }

  lemma {:induction false} AtNothing(steps: seq<Step>)
    ensures At([], steps) == [] <==> steps == []
    ensures [] + At([], steps) == At([], steps)
  {
  }

  lemma {:induction false} InnerUnder(steps: seq<Step>, part: string, child: seq<Step>)
    requires Inner(steps)
    ensures Inner(steps + Under(part, child))
  {
  }

  // ---------- the walk over two objects ----------

  predicate SameOn(m: map<string, Json>, n: map<string, Json>, done: set<string>) {
    forall k :: k in done ==> (k in m <==> k in n) && (k in m && k in n ==> m[k] == n[k])
  }

  /** The steps so far bring exactly the keys in done to their new value. */
  ghost predicate ObjectWalked(m: map<string, Json>, n: map<string, Json>, done: set<string>, steps: seq<Step>) {
    && Inner(steps)
    && Run(Obj(m), steps) == ObjectOutcome(m, n, done)
    && (steps == [] <==> SameOn(m, n, done))
  }

  lemma {:induction false} Visited(all: set<string>, todo: set<string>, done: set<string>, key: string)
    requires todo !! done && todo + done == all && key in todo
    ensures (todo - {key}) !! (done + {key}) && (todo - {key}) + (done + {key}) == all
  {
  }

  lemma {:induction false} VisitedNew(
    before: set<string>, all: set<string>, todo: set<string>, done: set<string>, key: string)
    requires todo <= all && before <= done && done + todo == before + all && todo * done <= before && key in todo
    ensures key in before ==> done + (todo - {key}) == before + all
    ensures key !in before ==> key !in done && done + {key} + (todo - {key}) == before + all
    ensures (todo - {key}) * (done + {key}) <= before && (todo - {key}) * done <= before
  {
  }

  lemma {:induction false} ObjectWalkStart(prefix: seq<string>, m: map<string, Json>, n: map<string, Json>)
    ensures ObjectWalked(m, n, {}, []) && At(prefix, []) == []
  {
    ObjectStart(m, n);
  }

  lemma {:induction false} ObjectWalkChild(
    base: seq<PatchOperation>, prefix: seq<string>, m: map<string, Json>, n: map<string, Json>,
    done: set<string>, key: string, steps: seq<Step>, child: seq<Step>)
    requires key in m && key in n && key !in done
    requires ObjectWalked(m, n, done, steps) && Turns(m[key], n[key], child)
    ensures ObjectWalked(m, n, done + {key}, steps + Under(key, child))
    ensures base + At(prefix, steps + Under(key, child)) == base + At(prefix, steps) + At(prefix + [key], child)
  {
    hide Run, Outcome, ObjectOutcome, At;
    AtUnder(prefix, key, child);
    AtConcat(prefix, steps, Under(key, child));
    ObjectChild(m, n, done, key, steps, child);
    InnerUnder(steps, key, child);
  }

  lemma {:induction false} ObjectWalkKey(
    base: seq<PatchOperation>, prefix: seq<string>, path: string, m: map<string, Json>, n: map<string, Json>,
    done: set<string>, key: string, steps: seq<Step>, step: Step)
    requires path == Render(prefix) && ObjectWalked(m, n, done, steps)
    requires key !in done && (key in m <==> key !in n) && (key in m || key in n)
    requires step.parts == [key] && (if key in n then step.op == Add && step.value == n[key] else step.op == Remove)
    ensures ObjectWalked(m, n, done + {key}, steps + [step])
    ensures base + At(prefix, steps + [step]) ==
            base + At(prefix, steps) + [PatchOperation(step.op, path + "/" + EscapePointer(key), step.value)]
  {
    hide Run, ObjectOutcome, At, Render;
    AtOne(prefix, key, path, step.op, step.value);
    AtConcat(prefix, steps, [step]);
    ObjectKey(m, n, done, key, steps, step);
  }

  lemma {:induction false} SameOnAll(m: map<string, Json>, n: map<string, Json>)
    ensures SameOn(m, n, m.Keys + n.Keys) <==> m == n
  {
    if SameOn(m, n, m.Keys + n.Keys) {
      assert m.Keys == n.Keys;
    }
  }

  lemma {:induction false} ObjectWalkEnd(m: map<string, Json>, n: map<string, Json>, steps: seq<Step>)
    requires ObjectWalked(m, n, m.Keys + n.Keys, steps) && m != n
    ensures Turns(Obj(m), Obj(n), steps)
  {
    hide Run, ObjectOutcome, Outcome;
    ObjectEnd(m, n, m.Keys + n.Keys);
    SameOnAll(m, n);
  }

  // ---------- the walk over two arrays ----------

  predicate SameBefore(s: seq<Json>, t: seq<Json>, i: nat) {
    i <= |s| && i <= |t| && s[..i] == t[..i]
  }

  /** The steps so far treat exactly the first i indices. */
  ghost predicate ArrayWalked(s: seq<Json>, t: seq<Json>, i: nat, steps: seq<Step>)
    requires i <= |s| || i <= |t|
  {
    Inner(steps) && ArrayReached(s, t, i, Run(Arr(s), steps)) && (steps == [] <==> SameBefore(s, t, i))
  }

  lemma {:induction false} ArrayWalkStart(prefix: seq<string>, s: seq<Json>, t: seq<Json>)
    ensures ArrayWalked(s, t, 0, []) && At(prefix, []) == []
  {
    assert t[..0] + s[0..] == s;
  }

  lemma {:induction false} RenderIndex(prefix: seq<string>, i: nat)
    ensures Render(prefix + [Decimal(i)]) == Render(prefix) + "/" + Decimal(i)
  {
    RenderSnoc(prefix, Decimal(i));
    DecimalIsPlain(i);
  }

  lemma {:induction false} ArrayWalkChild(
    prefix: seq<string>, s: seq<Json>, t: seq<Json>, i: nat, steps: seq<Step>, child: seq<Step>)
    requires i < |s| && i < |t| && i <= MAX_INT && ArrayWalked(s, t, i, steps) && Turns(s[i], t[i], child)
    ensures ArrayWalked(s, t, i + 1, steps + Under(Decimal(i), child))
    ensures At(prefix, steps + Under(Decimal(i), child)) == At(prefix, steps) + At(prefix + [Decimal(i)], child)
  {
    hide Run, Outcome, ArrayReached, At, Decimal;
    AtUnder(prefix, Decimal(i), child);
    AtConcat(prefix, steps, Under(Decimal(i), child));
    ArrayChild(s, t, i, steps, child);
    InnerUnder(steps, Decimal(i), child);
    assert s[..i + 1] == s[..i] + [s[i]] && t[..i + 1] == t[..i] + [t[i]];
  }

  lemma {:induction false} ArrayWalkAppend(
    prefix: seq<string>, path: string, s: seq<Json>, t: seq<Json>, i: nat, steps: seq<Step>)
    requires path == Render(prefix) && |s| <= i < |t| && ArrayWalked(s, t, i, steps)
    ensures ArrayWalked(s, t, i + 1, steps + [Step(Add, ["-"], t[i])])
    ensures At(prefix, steps + [Step(Add, ["-"], t[i])]) == At(prefix, steps) + [PatchOperation(Add, path + "/-", t[i])]
  {
    hide Run, ArrayReached, At, Render;
    AtOne(prefix, "-", path, Add, t[i]);
    EscapePlain("-");
    assert path + "/" + "-" == path + "/-";
    AtConcat(prefix, steps, [Step(Add, ["-"], t[i])]);
    ArrayAppend(s, t, i, steps);
  }

  lemma {:induction false} ArrayWalkRemove(
    prefix: seq<string>, path: string, s: seq<Json>, t: seq<Json>, i: nat, steps: seq<Step>)
    requires path == Render(prefix) && |t| <= i < |s| && i <= MAX_INT && ArrayWalked(s, t, i, steps)
    ensures ArrayWalked(s, t, i + 1, steps + [Step(Remove, [Decimal(i)], Null)])
    ensures At(prefix, steps + [Step(Remove, [Decimal(i)], Null)]) ==
            At(prefix, steps) + [PatchOperation(Remove, path + "/" + Decimal(i), Null)]
  {
    hide Run, ArrayReached, At, Render, Decimal;
    AtOne(prefix, Decimal(i), path, Remove, Null);
    DecimalIsPlain(i);
    AtConcat(prefix, steps, [Step(Remove, [Decimal(i)], Null)]);
    ArrayRemove(s, t, i, steps, Null);
  }

  lemma {:induction false} SameBeforeAll(s: seq<Json>, t: seq<Json>, i: nat)
    requires i == (if |s| < |t| then |t| else |s|)
    ensures SameBefore(s, t, i) <==> s == t
  {
    if i <= |s| && i <= |t| {
      assert s[..i] == s && t[..i] == t;
    }
  }

  lemma {:induction false} ArrayWalkEnd(s: seq<Json>, t: seq<Json>, i: nat, steps: seq<Step>)
    requires i == (if |s| < |t| then |t| else |s|) && ArrayWalked(s, t, i, steps) && s != t
    ensures Turns(Arr(s), Arr(t), steps)
  {
    hide Run, ArrayReached, Outcome;
    ArrayEnd(s, t, i, Run(Arr(s), steps));
    SameBeforeAll(s, t, i);
  }

  /**
   The smallest value the created patch fails on: emptying a two-element array removes index 0 and then index 1
   of an array that has one element left.
  */
  lemma {:induction false} ShrinkByTwoFails(patches: seq<PatchOperation>)
    requires patches == [PatchOperation(Remove, "/0", Null), PatchOperation(Remove, "/1", Null)]
    ensures Applied(Arr([Null, Null]), patches) == Err(ArrayIndexOutOfBounds) == Outcome(Arr([Null, Null]), Arr([]))
  {
    var s: seq<Json> := [Null, Null];
    var first, second := Step(Remove, [Decimal(0)], Null), Step(Remove, [Decimal(1)], Null);
    ShrinkPaths();
    hide *;
    ArrayWalkStart([], s, []);
    ArrayWalkRemove([], "", s, [], 0, []);
    ArrayWalkRemove([], "", s, [], 1, [] + [first]);
    ArrayWalkEnd(s, [], 2, [] + [first] + [second]);
    ShrinkOutcome([] + [first] + [second]);
    AppliedAt(Arr(s), [] + [first] + [second]);
  }

  lemma {:induction false} ShrinkPaths()
    ensures Render([]) == "" && "" + "/" + Decimal(0) == "/0" && "" + "/" + Decimal(1) == "/1"
  {
    assert Decimal(0) == "0" && Decimal(1) == "1";
  }

  lemma {:induction false} ShrinkOutcome(steps: seq<Step>)
    ensures Turns(Arr([Null, Null]), Arr([]), steps) ==>
      Run(Arr([Null, Null]), steps) == Outcome(Arr([Null, Null]), Arr([]))
    ensures Outcome(Arr([Null, Null]), Arr([])) == Err(ArrayIndexOutOfBounds)
  {
    hide Run;
  }

  class Patcher {
    var cache: map<string, seq<string>>

    /** Every remembered path is remembered with its own keys. */
    ghost predicate Valid()
      reads this
    {
      forall path :: path in cache ==> PathParts(path) == Some(cache[path])
    }

    constructor ()
      ensures Valid()
    {
      cache := map[];
    }

    /** The keys of a path, from the cache when it was seen before. */
    method GetParts(path: string) returns (parts: Option<seq<string>>)
      requires Valid()
      modifies this
      ensures Valid() && parts == PathParts(path)
    {
      hide UnescapePointer;
      if path == "" {
        return Some([]);
      }
      if path == "/" {
        return Some([""]);
      }
      if path in cache {
        return Some(cache[path]);
      }
      if path[0] != '/' {
        return None;
      }
      var segments := Split(path[1..], '/');
      var unescaped := [];
      for i := 0 to |segments|
        invariant |unescaped| == i
        invariant forall j :: 0 <= j < i ==> unescaped[j] == UnescapePointer(segments[j])
      {
        unescaped := unescaped + [UnescapePointer(segments[i])];
      }
      assert unescaped == UnescapeAll(segments);
      cache := cache[path := unescaped];
      return Some(unescaped);
    }

    /** Applies the operations one after another; the first failure is the result. */
    method Apply(target: Json, operations: seq<PatchOperation>) returns (result: Result<Json, PatchError>)
      requires Valid()
      modifies this
      ensures Valid() && result == Applied(target, operations)
      ensures exists states :: DoneInTurn(target, operations, states, result)
    {
      hide PathParts, Perform, DoneInTurn;
      ghost var states := AllDo(target, operations);
      var node := target;
      for i := 0 to |operations|
        invariant Valid()
        invariant Applied(target, operations) == Applied(node, operations[i..])
      {
        assert operations[i..][1..] == operations[i + 1..];
        var op := operations[i];
        var parts := GetParts(op.path);
        if parts.None? {
          return Err(InvalidPath);
        }
        var next := Perform(node, op.op, parts.value, op.value);
        if next.Err? {
          return Err(next.error);
        }
        node := next.value;
      }
      return Ok(node);
    }

    /**
     The patch from one value to another. Applying it to the old value gives the new value when no aligned array
     loses two or more elements, and fails with an index out of bounds when one does, whatever order the keys of
     objects are visited in. It is empty exactly for equal values.
    */
    method CreatePatch(before: Json, after: Json) returns (patches: seq<PatchOperation>)
      requires Countable(before) && Countable(after)
      ensures Applied(before, patches) == Outcome(before, after)
      ensures patches == [] <==> before == after
    {
      var list := new PatchList();
      ghost var steps := GeneratePatches(before, after, "", list, []);
      AppliedAt(before, steps);
      AtNothing(steps);
      patches := list.operations;
    }

    method GeneratePatches(before: Json, after: Json, path: string, patches: PatchList, ghost prefix: seq<string>)
      returns (ghost steps: seq<Step>)
      requires Countable(before) && Countable(after) && path == Render(prefix)
      modifies patches
      ensures patches.operations == old(patches.operations) + At(prefix, steps)
      ensures Turns(before, after, steps)
      decreases before, 1
    {
      hide Run, Fits, Perform, Render, At, Turns;
      if before == after {
        steps := [];
        EqualTurns(prefix, before);
        return;
      }
      if before.Obj? && after.Obj? {
        steps := HandleObjects(before, after, path, patches, prefix);
      } else if before.Arr? && after.Arr? {
        steps := HandleArrays(before, after, path, patches, prefix);
      } else {
        TurnsByReplace(prefix, before, after);
        steps := [Step(Replace, [], after)];
        patches.Append(Replace, path, after);
      }
    }

    /** Elements both arrays have are walked; the rest is appended, or removed at rising indices. */
    method HandleArrays(before: Json, after: Json, path: string, patches: PatchList, ghost prefix: seq<string>)
      returns (ghost steps: seq<Step>)
      requires Countable(before) && Countable(after) && path == Render(prefix)
      requires before.Arr? && after.Arr? && before != after
      modifies patches
      ensures patches.operations == old(patches.operations) + At(prefix, steps)
      ensures Turns(before, after, steps)
      decreases before, 0
    {
      hide Run, Fits, Perform, Render, Decimal, ArrayWalked, Turns, At, Under;
      var s, t := before.items, after.items;
      var maxLen := if |s| < |t| then |t| else |s|;
      steps := [];
      ArrayWalkStart(prefix, s, t);
      for i := 0 to maxLen
        invariant patches.operations == old(patches.operations) + At(prefix, steps)
        invariant ArrayWalked(s, t, i, steps)
      {
        var currentPath := path + "/" + Decimal(i);
        if i >= |s| {
          patches.Append(Add, path + "/-", t[i]);
          ArrayWalkAppend(prefix, path, s, t, i, steps);
          steps := steps + [Step(Add, ["-"], t[i])];
        } else if i >= |t| {
          patches.Append(Remove, currentPath, Null);
          ArrayWalkRemove(prefix, path, s, t, i, steps);
          steps := steps + [Step(Remove, [Decimal(i)], Null)];
        } else {
          RenderIndex(prefix, i);
          ghost var child := GeneratePatches(s[i], t[i], currentPath, patches, prefix + [Decimal(i)]);
          ArrayWalkChild(prefix, s, t, i, steps, child);
          steps := steps + Under(Decimal(i), child);
        }
      }
      ArrayWalkEnd(s, t, maxLen, steps);
    }

    /** The second loop of HandleObjects: adds every new key that was not seen, in any order. */
    method AddNewKeys(m: map<string, Json>, n: map<string, Json>, path: string, patches: PatchList, seen: set<string>,
                      ghost prefix: seq<string>, ghost base: seq<PatchOperation>, ghost before: seq<Step>)
      returns (ghost steps: seq<Step>)
      requires path == Render(prefix) && seen == m.Keys * n.Keys && ObjectWalked(m, n, m.Keys, before)
      requires patches.operations == base + At(prefix, before)
      modifies patches
      ensures patches.operations == base + At(prefix, steps)
      ensures ObjectWalked(m, n, m.Keys + n.Keys, steps)
    {
      hide *;
      steps := before;
      var todo := n.Keys;
      ghost var done := m.Keys;
      while todo != {}
        invariant todo <= n.Keys && m.Keys <= done && done + todo == m.Keys + n.Keys && todo * done <= m.Keys
        invariant patches.operations == base + At(prefix, steps)
        invariant ObjectWalked(m, n, done, steps)
        decreases |todo|
      {
        var key :| key in todo;
        VisitedNew(m.Keys, n.Keys, todo, done, key);
        if key !in seen {
          patches.Append(Add, path + "/" + EscapePointer(key), n[key]);
          ObjectWalkKey(base, prefix, path, m, n, done, key, steps, Step(Add, [key], n[key]));
          steps := steps + [Step(Add, [key], n[key])];
          done := done + {key};
        }
        todo := todo - {key};
      }
      assert done == m.Keys + n.Keys;
    }

    /** Keys of the old object in any order, then the new keys in any order. */
    method HandleObjects(before: Json, after: Json, path: string, patches: PatchList, ghost prefix: seq<string>)
      returns (ghost steps: seq<Step>)
      requires Countable(before) && Countable(after) && path == Render(prefix)
      requires before.Obj? && after.Obj? && before != after
      modifies patches
      ensures patches.operations == old(patches.operations) + At(prefix, steps)
      ensures Turns(before, after, steps)
      decreases before, 0
    {
      hide *;
      ChildrenCountable(before, after);
      var m, n := before.fields, after.fields;
      var seen := {};
      steps := [];
      ObjectWalkStart(prefix, m, n);
      var todo := m.Keys;
      ghost var done := {};
      while todo != {}
        invariant todo !! done && todo + done == m.Keys
        invariant seen == done * n.Keys
        invariant patches.operations == old(patches.operations) + At(prefix, steps)
        invariant ObjectWalked(m, n, done, steps)
        decreases |todo|
      {
        var key :| key in todo;
        var currentPath := path + "/" + EscapePointer(key);
        if key !in n {
          patches.Append(Remove, currentPath, Null);
          ObjectWalkKey(old(patches.operations), prefix, path, m, n, done, key, steps, Step(Remove, [key], Null));
          steps := steps + [Step(Remove, [key], Null)];
        } else {
          RenderSnoc(prefix, key);
          ghost var child := GeneratePatches(m[key], n[key], currentPath, patches, prefix + [key]);
          ObjectWalkChild(old(patches.operations), prefix, m, n, done, key, steps, child);
          steps := steps + Under(key, child);
          seen := seen + {key};
        }
        Visited(m.Keys, todo, done, key);
        todo, done := todo - {key}, done + {key};
      }
      steps := AddNewKeys(m, n, path, patches, seen, prefix, old(patches.operations), steps);
      ObjectWalkEnd(m, n, steps);
    }
  }
}
