/**
 What a single patch operation does, told by the place its path names: the container there, what becomes of it, and
 the error when there is no such place.
*/
module PatchMeaning {
  import opened Wrappers
  import opened JsonPointers
  import opened JsonValues
  import opened JsonPatches

  // ---------- places ----------

  /** What a key names directly inside a value; an array is indexed by numbers below its length. */
  ghost function Child(node: Json, key: string): Option<Json> {
    match node
    case Obj(m) => if key in m then Some(m[key]) else None
    case Arr(s) =>
      (match Atoi(key)
       case Some(i) => if 0 <= i < |s| then Some(s[i]) else None
       case None => None)
    case _ => None
  }

  /** The value at a place. */
  ghost function Found(node: Json, keys: seq<string>): Option<Json>
    decreases |keys|
  {
    if keys == [] then Some(node)
    else
      match Child(node, keys[0])
      case Some(child) => Found(child, keys[1..])
      case None => None
  }

  /** The same with another value at that place, and nothing else changed. */
  ghost function Changed(node: Json, keys: seq<string>, v: Json): Json
    requires Found(node, keys).Some?
    decreases |keys|
  {
    if keys == [] then v
    else
      var child := Changed(Child(node, keys[0]).value, keys[1..], v);
      match node
      case Obj(m) => Obj(m[keys[0] := child])
      case Arr(s) => Arr(s[Atoi(keys[0]).value := child])
  }

  /** The first key of a path that names nothing where the keys before it lead. */
  ghost predicate StuckAt(node: Json, keys: seq<string>, j: nat) {
    && j < |keys| && Found(node, keys[..j]).Some?
    && Child(Found(node, keys[..j]).value, keys[j]).None?
  }

  // ---------- what an operation makes of the container ----------

  /** A member set, present or not, an element inserted before an index or behind the last one. */
  ghost function AddedInto(container: Json, last: string, v: Json): Result<Json, PatchError> {
    match container
    case Obj(m) => Ok(Obj(m[last := v]))
    case Arr(s) =>
      if last == "-" then Ok(Arr(s + [v]))
      else if Atoi(last).None? || Atoi(last).value < 0 then Err(InvalidArrayIndex)
      else if Atoi(last).value > |s| then Err(ArrayIndexOutOfBounds)
      else Ok(Arr(s[..Atoi(last).value] + [v] + s[Atoi(last).value..]))
    case _ => Err(CannotAddToPrimitive)
  }

  /** Why nothing can be added behind a key that names nothing. */
  ghost function NoWayToAdd(container: Json, key: string): PatchError {
    match container
    case Arr(s) =>
      if key == "-" then ArrayIndexOutOfBoundsNested
      else if Atoi(key).None? || Atoi(key).value < 0 then InvalidArrayIndex
      else if Atoi(key).value > |s| then ArrayIndexOutOfBounds
      else ArrayIndexOutOfBoundsNested
    case _ => CannotAddToPrimitive
  }

  ghost function RemovedFrom(container: Json, last: string): Result<Json, PatchError> {
    if Child(container, last).None? then Err(NothingToRemove(container))
    else
      match container
      case Obj(m) => Ok(Obj(m - {last}))
      case Arr(s) => Ok(Arr(s[..Atoi(last).value] + s[Atoi(last).value + 1..]))
  }

  ghost function NothingToRemove(container: Json): PatchError {
    match container
    case Obj(_) => ObjectKeyNotFound
    case Arr(_) => ArrayIndexOutOfBounds
    case _ => PathNotFound
  }

  ghost function InPlace(node: Json, keys: seq<string>, r: Result<Json, PatchError>): Result<Json, PatchError>
    requires Found(node, keys).Some?
  {
    match r
    case Ok(v) => Ok(Changed(node, keys, v))
    case Err(e) => Err(e)
  }

  // ---------- what an operation does ----------

  ghost predicate AddDoes(node: Json, keys: seq<string>, v: Json, r: Result<Json, PatchError>) {
    if keys == [] then r == Ok(v)
    else
      var init, last := keys[..|keys| - 1], keys[|keys| - 1];
      && (Found(node, init).Some? ==> r == InPlace(node, init, AddedInto(Found(node, init).value, last, v)))
      && (forall j: nat :: StuckAt(node, init, j) ==> r == Err(NoWayToAdd(Found(node, init[..j]).value, init[j])))
  }

  ghost predicate RemoveDoes(node: Json, keys: seq<string>, r: Result<Json, PatchError>) {
    if keys == [] then r == Ok(Null)
    else
      var init, last := keys[..|keys| - 1], keys[|keys| - 1];
      && (Found(node, init).Some? ==> r == InPlace(node, init, RemovedFrom(Found(node, init).value, last)))
      && (forall j: nat :: StuckAt(node, init, j) ==> r == Err(NothingToRemove(Found(node, init[..j]).value)))
  }

  /** Exactly the place is replaced; without such a place the error is that of a removal. */
  ghost predicate ReplaceDoes(node: Json, keys: seq<string>, v: Json, r: Result<Json, PatchError>) {
    && (Found(node, keys).Some? ==> r == Ok(Changed(node, keys, v)))
    && (forall j: nat :: StuckAt(node, keys, j) ==> r == Err(NothingToRemove(Found(node, keys[..j]).value)))
  }

  /** An operation does what its kind says at the keys of its path; a path that has none is an error. */
  ghost predicate Does(node: Json, op: PatchOperation, r: Result<Json, PatchError>) {
    if PathParts(op.path).None? then r == Err(InvalidPath)
    else
      match op.op
      case Add => AddDoes(node, PathParts(op.path).value, op.value, r)
      case Remove => RemoveDoes(node, PathParts(op.path).value, r)
      case Replace => ReplaceDoes(node, PathParts(op.path).value, op.value, r)
  }

  /** The operations are done one after another, up to the first that fails. */
  ghost predicate DoneInTurn(
    target: Json, operations: seq<PatchOperation>, states: seq<Json>, r: Result<Json, PatchError>)
  {
    && states != [] && states[0] == target && |states| <= |operations| + 1
    && (forall i :: 0 <= i < |states| - 1 ==> Does(states[i], operations[i], Ok(states[i + 1])))
    && (if r.Ok? then |states| == |operations| + 1 && r.value == states[|operations|]
        else |states| <= |operations| && Does(states[|states| - 1], operations[|states| - 1], Err(r.error)))
  }

  // ---------- the recursive operations do that ----------

  lemma {:induction false} EitherWay(node: Json, keys: seq<string>)
    ensures Found(node, keys).None? ==> exists j: nat :: StuckAt(node, keys, j)
    ensures Found(node, keys).Some? ==> forall j: nat :: !StuckAt(node, keys, j)
    decreases |keys|
  {
    hide Child;
    if keys != [] {
      if Child(node, keys[0]).None? {
        assert keys[..0] == [];
        assert StuckAt(node, keys, 0);
      } else {
        var child := Child(node, keys[0]).value;
        EitherWay(child, keys[1..]);
        if j: nat :| StuckAt(child, keys[1..], j) {
          StuckBelow(node, keys, j + 1);
          assert StuckAt(node, keys, j + 1);
        }
        forall j: nat | StuckAt(node, keys, j)
          ensures Found(child, keys[1..]).None?
        {
          StuckBelow(node, keys, j);
        }
      }
    }
  }

  /** Beyond the first key a path is stuck where its rest is, below the child the first key names. */
  lemma {:induction false} StuckBelow(node: Json, keys: seq<string>, j: nat)
    requires keys != [] && Child(node, keys[0]).Some?
    ensures StuckAt(node, keys, j) ==> j > 0
    ensures j > 0 ==> (StuckAt(node, keys, j) <==> StuckAt(Child(node, keys[0]).value, keys[1..], j - 1))
    ensures 0 < j <= |keys| ==> Found(node, keys[..j]) == Found(Child(node, keys[0]).value, keys[1..][..j - 1])
  {
    hide Child;
    if 0 < j <= |keys| {
      assert keys[..j][1..] == keys[1..][..j - 1] && keys[..j][0] == keys[0];
    } else if j == 0 {
      assert keys[..0] == [];
    }
  }

  lemma {:induction false} AddAtDoes(node: Json, keys: seq<string>, v: Json)
    ensures AddDoes(node, keys, v, AddAt(node, keys, v))
    decreases |keys|
  {
    if keys == [] {
    } else if |keys| == 1 {
      assert keys[..0] == [] && keys[1..] == [] && Found(node, []) == Some(node);
      if node.Arr? {
        assert node.items[..|node.items|] + [v] + node.items[|node.items|..] == node.items + [v];
      }
    } else {
      var rest := keys[1..];
      AddAtDoes(if Child(node, keys[0]).Some? then Child(node, keys[0]).value else Null, rest, v);
      AddStep(node, keys, v);
    }
  }

  lemma {:induction false} AddStep(node: Json, keys: seq<string>, v: Json)
    requires |keys| > 1
    requires Child(node, keys[0]).Some? ==>
      AddDoes(Child(node, keys[0]).value, keys[1..], v, AddAt(Child(node, keys[0]).value, keys[1..], v))
    ensures AddDoes(node, keys, v, AddAt(node, keys, v))
  {
    var init, rest := keys[..|keys| - 1], keys[1..];
    assert rest[..|rest| - 1] == init[1..] && init[0] == keys[0];
    if Child(node, keys[0]).Some? {
      forall j: nat | StuckAt(node, init, j)
        ensures AddAt(node, keys, v) == Err(NoWayToAdd(Found(node, init[..j]).value, init[j]))
      {
        StuckBelow(node, init, j);
      }
    } else {
      NothingBeyond(node, init);
    }
  }

  lemma {:induction false} NothingBeyond(node: Json, keys: seq<string>)
    requires keys != [] && Child(node, keys[0]).None?
    ensures keys[..0] == [] && forall j: nat :: StuckAt(node, keys, j) ==> j == 0
  {
    forall j: nat | 0 < j <= |keys|
      ensures Found(node, keys[..j]).None?
    {
      assert keys[..j][0] == keys[0];
    }
  }

  lemma {:induction false} RemoveAtDoes(node: Json, keys: seq<string>)
    ensures RemoveDoes(node, keys, RemoveAt(node, keys))
    decreases |keys|
  {
    if keys == [] {
    } else if |keys| == 1 {
      assert keys[..0] == [] && keys[1..] == [] && Found(node, []) == Some(node);
    } else {
      if Child(node, keys[0]).Some? {
        RemoveAtDoes(Child(node, keys[0]).value, keys[1..]);
      }
      RemoveStep(node, keys);
    }
  }

  lemma {:induction false} RemoveStep(node: Json, keys: seq<string>)
    requires |keys| > 1
    requires Child(node, keys[0]).Some? ==>
      RemoveDoes(Child(node, keys[0]).value, keys[1..], RemoveAt(Child(node, keys[0]).value, keys[1..]))
    ensures RemoveDoes(node, keys, RemoveAt(node, keys))
  {
    var init, rest := keys[..|keys| - 1], keys[1..];
    assert rest[..|rest| - 1] == init[1..] && init[0] == keys[0];
    if Child(node, keys[0]).Some? {
      forall j: nat | StuckAt(node, init, j)
        ensures RemoveAt(node, keys) == Err(NothingToRemove(Found(node, init[..j]).value))
      {
        StuckBelow(node, init, j);
      }
    } else {
      NothingBeyond(node, init);
    }
  }

  lemma {:induction false} ReplaceDoesSo(node: Json, keys: seq<string>, v: Json)
    ensures ReplaceDoes(node, keys, v, Perform(node, Replace, keys, v))
    decreases |keys|
  {
    if keys != [] {
      if Child(node, keys[0]).Some? {
        ReplaceDoesSo(Child(node, keys[0]).value, keys[1..], v);
      }
      ReplaceStep(node, keys, v);
    }
  }

  lemma {:induction false} ReplaceStep(node: Json, keys: seq<string>, v: Json)
    requires keys != []
    requires Child(node, keys[0]).Some? ==>
      ReplaceDoes(Child(node, keys[0]).value, keys[1..], v, Perform(Child(node, keys[0]).value, Replace, keys[1..], v))
    ensures ReplaceDoes(node, keys, v, Perform(node, Replace, keys, v))
  {
    if Child(node, keys[0]).Some? {
      ReplaceBelow(node, keys, v);
      forall j: nat | StuckAt(node, keys, j)
        ensures Perform(node, Replace, keys, v) == Err(NothingToRemove(Found(node, keys[..j]).value))
      {
        StuckBelow(node, keys, j);
      }
    } else {
      NothingBeyond(node, keys);
    }
  }

  /** The same value with another child under a key that names one, or the failure to make that child. */
  ghost function WithChild(node: Json, key: string, r: Result<Json, PatchError>): (w: Result<Json, PatchError>)
    requires Child(node, key).Some?
    ensures r.Err? ==> w == r
    ensures r.Ok? ==> w.Ok?
  {
    match r
    case Err(e) => Err(e)
    case Ok(child) =>
      if node.Obj? then Ok(Obj(node.fields[key := child])) else Ok(Arr(node.items[Atoi(key).value := child]))
  }

  lemma {:induction false} WithChildTwice(node: Json, key: string, first: Json, r: Result<Json, PatchError>)
    requires Child(node, key).Some?
    ensures
      var once := WithChild(node, key, Ok(first)).value;
      && Child(once, key) == Some(first)
      && WithChild(once, key, r) == WithChild(node, key, r)
  {
    hide Atoi;
    if r.Ok? && node.Obj? {
      assert node.fields[key := first][key := r.value] == node.fields[key := r.value];
    } else if r.Ok? {
      var i := Atoi(key).value;
      assert node.items[i := first][i := r.value] == node.items[i := r.value];
    }
  }

  lemma {:induction false} AddBelow(node: Json, keys: seq<string>, v: Json)
    requires |keys| > 1 && Child(node, keys[0]).Some?
    ensures AddAt(node, keys, v) == WithChild(node, keys[0], AddAt(Child(node, keys[0]).value, keys[1..], v))
  {
    assert Atoi("-").None?;
    hide Atoi;
  }

  lemma {:induction false} RemoveBelow(node: Json, keys: seq<string>)
    requires |keys| > 1 && Child(node, keys[0]).Some?
    ensures RemoveAt(node, keys) == WithChild(node, keys[0], RemoveAt(Child(node, keys[0]).value, keys[1..]))
  {
    assert Atoi("-").None?;
    hide Atoi;
  }

  lemma {:induction false} ReplaceMember(m: map<string, Json>, key: string, v: Json)
    requires key in m
    ensures Perform(Obj(m), Replace, [key], v) == Ok(Obj(m[key := v]))
  {
    assert [key][1..] == [];
    var cut := m - {key};
    assert RemoveAt(Obj(m), [key]) == Ok(Obj(cut));
    assert AddAt(Obj(cut), [key], v) == Ok(Obj(cut[key := v]));
    assert cut[key := v] == m[key := v];
  }

  lemma {:induction false} ReplaceElement(s: seq<Json>, key: string, v: Json)
    requires Atoi(key).Some? && 0 <= Atoi(key).value < |s|
    ensures Perform(Arr(s), Replace, [key], v) == Ok(Arr(s[Atoi(key).value := v]))
  {
    assert Atoi("-").None?;
    hide Atoi;
    var i := Atoi(key).value;
    var cut := s[..i] + s[i + 1..];
    assert RemoveAt(Arr(s), [key]) == Ok(Arr(cut));
    assert AddAt(Arr(cut), [key], v) == Ok(Arr(cut[..i] + [v] + cut[i..]));
    CutAndFilled(s, i, v);
  }

  lemma {:induction false} CutAndFilled(s: seq<Json>, i: nat, v: Json)
    requires i < |s|
    ensures
      var cut := s[..i] + s[i + 1..];
      cut[..i] + [v] + cut[i..] == s[i := v]
  {
    var cut := s[..i] + s[i + 1..];
    assert cut[..i] == s[..i] && cut[i..] == s[i + 1..];
  }

  lemma {:induction false} ReplaceLast(node: Json, key: string, v: Json)
    requires Child(node, key).Some?
    ensures Perform(node, Replace, [key], v) == WithChild(node, key, Ok(v))
  {
    hide Perform, Atoi;
    match node
    case Obj(m) => ReplaceMember(m, key, v);
    case Arr(s) => ReplaceElement(s, key, v);
  }

  /** Replacing below a child replaces the child, or fails as it does there. */
  lemma {:induction false} ReplaceBelow(node: Json, keys: seq<string>, v: Json)
    requires keys != [] && Child(node, keys[0]).Some?
    ensures
      Perform(node, Replace, keys, v) ==
      WithChild(node, keys[0], Perform(Child(node, keys[0]).value, Replace, keys[1..], v))
  {
    if |keys| == 1 {
      assert keys == [keys[0]] && keys[1..] == [];
      ReplaceLast(node, keys[0], v);
    } else {
      RemoveBelow(node, keys);
      var removed := RemoveAt(Child(node, keys[0]).value, keys[1..]);
      hide AddAt, RemoveAt, Child, WithChild;
      if removed.Ok? {
        WithChildTwice(node, keys[0], removed.value, AddAt(removed.value, keys[1..], v));
        AddBelow(WithChild(node, keys[0], removed).value, keys, v);
      }
    }
  }

  // ---------- a list of operations ----------

  lemma {:induction false} OneDoes(node: Json, op: PatchOperation)
    ensures Does(node, op, ApplyOne(node, op))
  {
    hide AddAt, RemoveAt, AddDoes, RemoveDoes, ReplaceDoes;
    if PathParts(op.path).Some? {
      AddAtDoes(node, PathParts(op.path).value, op.value);
      RemoveAtDoes(node, PathParts(op.path).value);
      ReplaceDoesSo(node, PathParts(op.path).value, op.value);
    }
  }

  /** Applying a list of operations does them one after another up to the first failure. */
  lemma {:induction false} AllDo(target: Json, operations: seq<PatchOperation>) returns (states: seq<Json>)
    ensures DoneInTurn(target, operations, states, Applied(target, operations))
    decreases |operations|
  {
    hide Does, ApplyOne;
    if operations == [] {
      return [target];
    }
    OneDoes(target, operations[0]);
    var first := ApplyOne(target, operations[0]);
    if first.Err? {
      return [target];
    }
    var rest := AllDo(first.value, operations[1..]);
    states := [target] + rest;
    forall i | 0 <= i < |states| - 1
      ensures Does(states[i], operations[i], Ok(states[i + 1]))
    {
      if i > 0 {
        assert states[i] == rest[i - 1] && states[i + 1] == rest[i] && operations[i] == operations[1..][i - 1];
      }
    }
  }

  /** Only one outcome fits: the relation leaves no operation a choice. */
  lemma {:induction false} DoesIsDetermined(
    node: Json, op: PatchOperation, a: Result<Json, PatchError>, b: Result<Json, PatchError>)
    requires Does(node, op, a) && Does(node, op, b)
    ensures a == b
  {
    hide Found, StuckAt, Changed;
    if PathParts(op.path).Some? {
      var keys := PathParts(op.path).value;
      EitherWay(node, keys);
      if keys != [] {
        EitherWay(node, keys[..|keys| - 1]);
      }
    }
  }
}
