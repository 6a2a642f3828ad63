/**
 Projection of records to dotted paths, and the fields a residual filter depends on. A record projected early to
 those fields answers the filter as the full record does, in whatever order the fields are enumerated.
*/
module Projections {
  import opened Wrappers
  import opened JsonValues
  import opened JsonPointers
  import opened QueryFilters

  // ---------- including one path ----------

  /** Copies the value at a path of the record into the result, building the objects on the way. */
  function Put(record: Record, result: Record, parts: seq<string>): Record
    decreases |parts|
  {
    if parts == [] || parts[0] !in record then result
    else if |parts| == 1 then result[parts[0] := record[parts[0]]]
    else
      match record[parts[0]]
      case Obj(inner) => result[parts[0] := Obj(Put(inner, Below(result, parts[0]), parts[1..]))]
      case _ => result
  }

  /** The object under a key of the result, a new one when there is none. */
  function Below(result: Record, key: string): Record {
    if key in result && result[key].Obj? then result[key].fields else map[]
  }

  function PutAll(record: Record, result: Record, names: seq<string>): Record
    decreases |names|
  {
    if names == [] then result
    else Put(record, PutAll(record, result, names[..|names| - 1]), Split(names[|names| - 1], '.'))
  }

  /** Without includes a projection keeps every field. */
  function Projected(record: Record, names: seq<string>): Record {
    if names == [] then record else PutAll(record, map[], names)
  }

  method ProjectRecord(record: Record, wanted: seq<string>) returns (result: Record)
    ensures result == Projected(record, wanted)
  {
    if |wanted| == 0 {
      return record;
    }
    result := map[];
    for i := 0 to |wanted|
      invariant result == PutAll(record, map[], wanted[..i])
    {
      assert wanted[..i + 1][..i] == wanted[..i];
      result := Put(record, result, Split(wanted[i], '.'));
    }
    assert wanted[..|wanted|] == wanted;
  }

  // ---------- the order of includes ----------

  lemma {:induction false} PutFull(record: Record, parts: seq<string>)
    ensures Put(record, record, parts) == record
    decreases |parts|
  {
    if |parts| > 1 && parts[0] in record && record[parts[0]].Obj? {
      PutFull(record[parts[0]].fields, parts[1..]);
    }
  }

  lemma {:induction false} PutTwice(record: Record, result: Record, parts: seq<string>)
    ensures Put(record, Put(record, result, parts), parts) == Put(record, result, parts)
    decreases |parts|
  {
    if |parts| > 1 && parts[0] in record && record[parts[0]].Obj? {
      PutTwice(record[parts[0]].fields, Below(result, parts[0]), parts[1..]);
    }
  }

  /** Two paths may be included in either order, even when one leads through the other. */
  lemma {:induction false} PutCommutes(record: Record, result: Record, p: seq<string>, q: seq<string>)
    ensures Put(record, Put(record, result, p), q) == Put(record, Put(record, result, q), p)
    decreases |p|
  {
    if p != [] && q != [] && p[0] == q[0] && p[0] in record && record[p[0]].Obj? {
      var inner := record[p[0]].fields;
      if |p| > 1 && |q| > 1 {
        PutCommutes(inner, Below(result, p[0]), p[1..], q[1..]);
      } else if |p| > 1 {
        PutFull(inner, p[1..]);
      } else if |q| > 1 {
        PutFull(inner, q[1..]);
      }
    }
  }

  lemma {:induction false} PutThroughAll(record: Record, result: Record, names: seq<string>, p: seq<string>)
    ensures Put(record, PutAll(record, result, names), p) == PutAll(record, Put(record, result, p), names)
    decreases |names|
  {
    hide Put;
    if names != [] {
      var init, last := names[..|names| - 1], Split(names[|names| - 1], '.');
      PutCommutes(record, PutAll(record, result, init), last, p);
      PutThroughAll(record, result, init, p);
    }
  }

  lemma {:induction false} PutAbsorbed(record: Record, result: Record, names: seq<string>, name: string)
    requires name in names
    ensures Put(record, PutAll(record, result, names), Split(name, '.')) == PutAll(record, result, names)
    decreases |names|
  {
    hide Put, Split;
    var init, last := names[..|names| - 1], names[|names| - 1];
    assert names == init + [last];
    if last == name {
      PutTwice(record, PutAll(record, result, init), Split(name, '.'));
    } else {
      PutCommutes(record, PutAll(record, result, init), Split(last, '.'), Split(name, '.'));
      PutAbsorbed(record, result, init, name);
    }
  }

  lemma {:induction false} PutAllAbsorbed(record: Record, result: Record, a: seq<string>, b: seq<string>)
    requires forall name :: name in b ==> name in a
    ensures PutAll(record, PutAll(record, result, a), b) == PutAll(record, result, a)
    decreases |b|
  {
    hide Put, Split;
    if b != [] {
      var init, last := b[..|b| - 1], b[|b| - 1];
      assert b == init + [last];
      PutAllAbsorbed(record, result, a, init);
      PutAbsorbed(record, result, a, last);
    }
  }

  lemma {:induction false} PutAllCommutes(record: Record, result: Record, a: seq<string>, b: seq<string>)
    ensures PutAll(record, PutAll(record, result, a), b) == PutAll(record, PutAll(record, result, b), a)
    decreases |b|
  {
    hide Put, Split;
    if b != [] {
      var init, last := b[..|b| - 1], Split(b[|b| - 1], '.');
      PutAllCommutes(record, result, a, init);
      PutThroughAll(record, PutAll(record, result, init), a, last);
    }
  }

  /** A projection depends on the set of its includes only: enumerating them in any order gives the same record. */
  lemma {:induction false} OrderIrrelevant(record: Record, a: seq<string>, b: seq<string>)
    requires forall name :: name in a <==> name in b
    ensures Projected(record, a) == Projected(record, b)
  {
    hide Put;
    assert a == [] <==> b == [] by {
      if a != [] {
        assert a[0] in b;
      }
      if b != [] {
        assert b[0] in a;
      }
    }
    PutAllAbsorbed(record, map[], a, b);
    PutAllAbsorbed(record, map[], b, a);
    PutAllCommutes(record, map[], a, b);
  }

  // ---------- what an early projection keeps ----------

  /** Part of the record: every field is the record's, or an object that is part of the record's object. */
  ghost predicate PartOf(part: Record, record: Record)
    decreases Obj(part)
  {
    forall k :: k in part ==>
      k in record &&
      (part[k] == record[k] ||
       (part[k].Obj? && record[k].Obj? && Obj(part[k].fields) == part[k] && PartOf(part[k].fields, record[k].fields)))
  }

  /** Walking the path meets the same in the part as in the record. */
  ghost predicate Agrees(part: Record, record: Record, parts: seq<string>)
    decreases |parts|
  {
    parts != [] && parts[0] in record ==>
      if |parts| == 1 then parts[0] in part && part[parts[0]] == record[parts[0]]
      else
        record[parts[0]].Obj? ==>
          parts[0] in part && part[parts[0]].Obj? &&
          Agrees(part[parts[0]].fields, record[parts[0]].fields, parts[1..])
  }

  lemma {:induction false} PutPartOf(record: Record, result: Record, parts: seq<string>)
    requires PartOf(result, record)
    ensures PartOf(Put(record, result, parts), record)
    decreases |parts|
  {
    if |parts| > 1 && parts[0] in record && record[parts[0]].Obj? {
      var inner := record[parts[0]].fields;
      PartOfSelf(inner);
      PutPartOf(inner, Below(result, parts[0]), parts[1..]);
    }
  }

  lemma {:induction false} PartOfSelf(record: Record)
    ensures PartOf(record, record)
  {
  }

  lemma {:induction false} PutAgrees(record: Record, result: Record, parts: seq<string>)
    ensures Agrees(Put(record, result, parts), record, parts)
    decreases |parts|
  {
    if |parts| > 1 && parts[0] in record && record[parts[0]].Obj? {
      PutAgrees(record[parts[0]].fields, Below(result, parts[0]), parts[1..]);
    }
  }

  lemma {:induction false} PutAllAgrees(record: Record, names: seq<string>, name: string)
    requires name in names
    ensures Agrees(PutAll(record, map[], names), record, Split(name, '.'))
    ensures PartOf(PutAll(record, map[], names), record)
  {
    PutAllPartOf(record, names);
    PutAbsorbed(record, map[], names, name);
    PutAgrees(record, PutAll(record, map[], names), Split(name, '.'));
  }

  lemma {:induction false} PutAllPartOf(record: Record, names: seq<string>)
    ensures PartOf(PutAll(record, map[], names), record)
    decreases |names|
  {
    hide Put;
    if names != [] {
      var init := names[..|names| - 1];
      PutAllPartOf(record, init);
      PutPartOf(record, PutAll(record, map[], init), Split(names[|names| - 1], '.'));
    }
  }

  /** Where the walks agree, a lookup finds the same value. */
  lemma {:induction false} SameValue(part: Record, record: Record, parts: seq<string>)
    requires PartOf(part, record) && Agrees(part, record, parts) && parts != []
    ensures ValueAt(Obj(part), parts) == ValueAt(Obj(record), parts)
    decreases |parts|
  {
    if parts[0] in record {
      if |parts| == 1 {
        assert parts[1..] == [];
      } else if record[parts[0]].Obj? {
        var inner := record[parts[0]].fields;
        PartOfSelf(inner);
        SameValue(part[parts[0]].fields, inner, parts[1..]);
        assert Obj(part[parts[0]].fields) == part[parts[0]] && Obj(inner) == record[parts[0]];
      } else {
        assert parts[0] in part ==> part[parts[0]] == record[parts[0]];
        ThroughScalar(record[parts[0]], parts[1..]);
      }
    }
  }

  lemma {:induction false} ThroughScalar(v: Json, parts: seq<string>)
    requires !v.Obj? && parts != []
    ensures ValueAt(v, parts) == Null
  {
  }

  /** Where the walks agree, including the path from the part or from the record is the same. */
  lemma {:induction false} SamePut(part: Record, record: Record, result: Record, parts: seq<string>)
    requires PartOf(part, record) && Agrees(part, record, parts)
    ensures Put(part, result, parts) == Put(record, result, parts)
    decreases |parts|
  {
    if |parts| > 1 && parts[0] in record && record[parts[0]].Obj? {
      PartOfSelf(record[parts[0]].fields);
      SamePut(part[parts[0]].fields, record[parts[0]].fields, Below(result, parts[0]), parts[1..]);
    }
  }

  /** Every included field has the same value in the projected record. */
  lemma {:induction false} ProjectionKeepsFields(record: Record, names: seq<string>, name: string)
    requires name in names && name != ""
    ensures ValueByPath(Projected(record, names), name) == ValueByPath(record, name)
  {
    hide Put, PutAll, Split, Agrees, PartOf, ValueAt;
    PutAllAgrees(record, names, name);
    SameValue(PutAll(record, map[], names), record, Split(name, '.'));
  }

  /** Projecting late from an early projection is projecting from the record. */
  lemma {:induction false} LateProjection(record: Record, names: seq<string>, wanted: seq<string>)
    requires wanted != [] && forall name :: name in wanted ==> name in names
    ensures Projected(Projected(record, names), wanted) == Projected(record, wanted)
  {
    hide Put, Split, Agrees, PartOf;
    assert wanted[0] in names;
    LateAll(record, names, wanted);
  }

  lemma {:induction false} LateAll(record: Record, names: seq<string>, wanted: seq<string>)
    requires forall name :: name in wanted ==> name in names
    ensures PutAll(PutAll(record, map[], names), map[], wanted) == PutAll(record, map[], wanted)
    decreases |wanted|
  {
    hide Put, Split, Agrees, PartOf;
    if wanted != [] {
      var init, last := wanted[..|wanted| - 1], wanted[|wanted| - 1];
      assert wanted == init + [last];
      LateAll(record, names, init);
      PutAllAgrees(record, names, last);
      SamePut(PutAll(record, map[], names), record, PutAll(record, map[], init), Split(last, '.'));
    }
  }

  // ---------- what a projection holds, path by path ----------

  /** The value at the end of a path of keys, if the path leads through objects that have them. */
  ghost function Reach(record: Record, p: seq<string>): Option<Json>
    requires p != []
    decreases |p|
  {
    if p[0] !in record then None
    else if |p| == 1 then Some(record[p[0]])
    else if record[p[0]].Obj? then Reach(record[p[0]].fields, p[1..])
    else None
  }

  ghost predicate ReachesObject(record: Record, p: seq<string>)
    requires p != []
  {
    Reach(record, p).Some? && Reach(record, p).value.Obj?
  }

  /** Including one path shows on the path and below it, makes objects on the way to it, and nowhere else. */
  lemma {:induction false} PutReach(record: Record, result: Record, q: seq<string>, p: seq<string>)
    requires q != [] && p != []
    ensures
      var w := Put(record, result, q);
      && (q <= p ==> Reach(w, p) == if Reach(record, q).Some? then Reach(record, p) else Reach(result, p))
      && (p < q ==> if ReachesObject(record, p) then ReachesObject(w, p) else Reach(w, p) == Reach(result, p))
      && (!(q <= p) && !(p <= q) ==> Reach(w, p) == Reach(result, p))
      && (Reach(result, p) == Reach(record, p) ==> Reach(w, p) == Reach(record, p))
    decreases |p|
  {
    if p[0] == q[0] && q[0] in record && |q| > 1 && record[q[0]].Obj? {
      var inner := record[q[0]].fields;
      if |p| > 1 {
        PutReach(inner, Below(result, q[0]), q[1..], p[1..]);
        assert q <= p <==> q[1..] <= p[1..];
        assert p <= q <==> p[1..] <= q[1..];
      } else if Reach(result, p) == Reach(record, p) {
        PutFull(inner, q[1..]);
      }
    } else if p[0] == q[0] && q[0] in record && |q| == 1 {
      assert q <= p;
    }
  }

  /** An include ends at the path or on the way to it. */
  ghost predicate Covers(names: seq<string>, p: seq<string>) {
    exists name :: name in names && Split(name, '.') <= p
  }

  ghost predicate LeadsThrough(names: seq<string>, p: seq<string>) {
    exists name :: name in names && p < Split(name, '.')
  }

  /**
   Every path of a projection: on and below an include it is as in the record; on the way to an include there is an
   object where the record has one; and outside the includes there is nothing.
  */
  ghost predicate HoldsAt(record: Record, projected: Record, names: seq<string>, p: seq<string>)
    requires p != []
  {
    if Covers(names, p) then Reach(projected, p) == Reach(record, p)
    else if LeadsThrough(names, p) && ReachesObject(record, p) then ReachesObject(projected, p)
    else Reach(projected, p) == None
  }

  lemma {:induction false} ProjectionExactly(record: Record, names: seq<string>, p: seq<string>)
    requires names != [] && p != []
    ensures HoldsAt(record, Projected(record, names), names, p)
  {
    PutAllExactly(record, names, p);
  }

  lemma {:induction false} PutAllExactly(record: Record, names: seq<string>, p: seq<string>)
    requires p != []
    ensures HoldsAt(record, PutAll(record, map[], names), names, p)
    decreases |names|
  {
    hide Put;
    if names != [] {
      var init, last := names[..|names| - 1], names[|names| - 1];
      var q := Split(last, '.');
      assert names == init + [last];
      PutAllExactly(record, init, p);
      PutReach(record, PutAll(record, map[], init), q, p);
      IncludedLast(init, last, p);
      if q <= p {
        ReachFurther(record, q, p);
      }
      hide Reach, Covers, LeadsThrough, Split;
    }
  }

  lemma {:induction false} IncludedLast(init: seq<string>, last: string, p: seq<string>)
    ensures Covers(init + [last], p) <==> Covers(init, p) || Split(last, '.') <= p
    ensures LeadsThrough(init + [last], p) <==> LeadsThrough(init, p) || p < Split(last, '.')
  {
    hide Split;
    assert last in init + [last];
    assert forall name :: name in init ==> name in init + [last];
  }

  lemma {:induction false} ReachFurther(record: Record, q: seq<string>, p: seq<string>)
    requires q != [] && q <= p
    ensures Reach(record, q).None? ==> Reach(record, p).None?
    decreases |q|
  {
    if |q| > 1 && q[0] in record && record[q[0]].Obj? {
      ReachFurther(record[q[0]].fields, q[1..], p[1..]);
    }
  }

  // ---------- the fields a filter depends on ----------

  function ValueDeps(fv: FilterValue): set<string>
    decreases fv, 0
  {
    match fv
    case Literal(_) => {}
    case ArrayVal(elements) => AllValueDeps(fv, elements)
    case FieldRef(field) => {field}
    case FunctionCall(_, arguments) => AllValueDeps(fv, arguments)
  }

  function AllValueDeps(ghost whole: FilterValue, fvs: seq<FilterValue>): set<string>
    requires forall i :: 0 <= i < |fvs| ==> fvs[i] < whole
    decreases whole, 0, |fvs|
  {
    if fvs == [] then {} else ValueDeps(fvs[0]) + AllValueDeps(whole, fvs[1..])
  }

  function FilterDeps(f: Filter): set<string>
    decreases f, 0
  {
    match f
    case Cond(c) => {c.field} + ValueDeps(c.value)
    case Group(_, conditions) => AllFilterDeps(f, conditions)
    case TextSearch(_) => {}
    case Invalid => {}
  }

  function AllFilterDeps(ghost whole: Filter, fs: seq<Filter>): set<string>
    requires forall i :: 0 <= i < |fs| ==> fs[i] < whole
    decreases whole, 0, |fs|
  {
    if fs == [] then {} else FilterDeps(fs[0]) + AllFilterDeps(whole, fs[1..])
  }

  /** A field is named by a value: as a reference, in a list, or in an argument of a call. */
  predicate Mentions(fv: FilterValue, field: string) {
    match fv
    case Literal(_) => false
    case FieldRef(name) => name == field
    case ArrayVal(elements) => exists i :: 0 <= i < |elements| && Mentions(elements[i], field)
    case FunctionCall(_, arguments) => exists i :: 0 <= i < |arguments| && Mentions(arguments[i], field)
  }

  lemma {:induction false} ValueDepsExactly(fv: FilterValue, field: string)
    ensures field in ValueDeps(fv) <==> Mentions(fv, field)
    decreases fv, 1
  {
    match fv {
      case Literal(_) =>
      case FieldRef(_) =>
      case ArrayVal(elements) => AllValueDepsExactly(fv, elements, field);
      case FunctionCall(_, arguments) => AllValueDepsExactly(fv, arguments, field);
    }
  }

  lemma {:induction false} AllValueDepsExactly(whole: FilterValue, fvs: seq<FilterValue>, field: string)
    requires forall i :: 0 <= i < |fvs| ==> fvs[i] < whole
    ensures field in AllValueDeps(whole, fvs) <==> exists i :: 0 <= i < |fvs| && Mentions(fvs[i], field)
    decreases whole, 0, |fvs|
  {
    hide Mentions;
    if fvs != [] {
      ValueDepsExactly(fvs[0], field);
      AllValueDepsExactly(whole, fvs[1..], field);
      assert forall i :: 0 <= i < |fvs[1..]| ==> fvs[1..][i] == fvs[i + 1];
      if i :| 0 < i < |fvs| && Mentions(fvs[i], field) {
        assert Mentions(fvs[1..][i - 1], field);
      }
    }
  }

  /** A filter depends on the fields its conditions ask about and those their values name, and on no others. */
  lemma {:induction false} FilterDepsExactly(f: Filter, field: string)
    ensures field in FilterDeps(f) <==> exists c :: c in Atoms(f) && (c.field == field || Mentions(c.value, field))
    decreases f, 1
  {
    if f.Cond? {
      ValueDepsExactly(f.condition.value, field);
    } else if f.Group? {
      AllFilterDepsExactly(f, f.conditions, field);
    }
  }

  lemma {:induction false} AllFilterDepsExactly(whole: Filter, fs: seq<Filter>, field: string)
    requires forall i :: 0 <= i < |fs| ==> fs[i] < whole
    ensures field in AllFilterDeps(whole, fs) <==>
      exists c :: c in AllAtoms(whole, fs) && (c.field == field || Mentions(c.value, field))
    decreases whole, 0, |fs|
  {
    hide Mentions, Atoms;
    if fs != [] {
      FilterDepsExactly(fs[0], field);
      AllFilterDepsExactly(whole, fs[1..], field);
    }
  }

  /** The set of fields the collectors fill. */
  class Dependencies {
    var fields: set<string>

    constructor ()
      ensures fields == {}
    {
      fields := {};
    }

    method CollectFromValue(fv: FilterValue)
      modifies this
      ensures fields == old(fields) + ValueDeps(fv)
      decreases fv, 1
    {
      match fv {
        case Literal(_) =>
        case FieldRef(field) =>
          fields := fields + {field};
        case ArrayVal(elements) =>
          CollectFromValues(fv, elements);
        case FunctionCall(_, arguments) =>
          CollectFromValues(fv, arguments);
      }
    }

    method CollectFromValues(ghost whole: FilterValue, fvs: seq<FilterValue>)
      requires forall i :: 0 <= i < |fvs| ==> fvs[i] < whole
      modifies this
      ensures fields == old(fields) + AllValueDeps(whole, fvs)
      decreases whole, 0
    {
      assert fvs[0..] == fvs;
      for i := 0 to |fvs|
        invariant fields + AllValueDeps(whole, fvs[i..]) == old(fields) + AllValueDeps(whole, fvs)
      {
        assert fvs[i..][0] == fvs[i] && fvs[i..][1..] == fvs[i + 1..];
        CollectFromValue(fvs[i]);
      }
    }

    method CollectFromFilter(f: Filter)
      modifies this
      ensures fields == old(fields) + FilterDeps(f)
      decreases f, 1
    {
      match f {
        case Cond(c) =>
          fields := fields + {c.field};
          CollectFromValue(c.value);
        case Group(_, conditions) =>
          CollectFromMembers(f);
        case TextSearch(_) =>
        case Invalid =>
      }
    }

    method CollectFromMembers(f: Filter)
      requires f.Group?
      modifies this
      ensures fields == old(fields) + FilterDeps(f)
      decreases f, 0
    {
      var fs := f.conditions;
      assert fs[0..] == fs;
      for i := 0 to |fs|
        invariant fields + AllFilterDeps(f, fs[i..]) == old(fields) + AllFilterDeps(f, fs)
      {
        assert fs[i..][0] == fs[i] && fs[i..][1..] == fs[i + 1..];
        CollectFromFilter(fs[i]);
      }
    }
  }

  // ---------- evaluation sees only those fields ----------

  ghost predicate SameFields(a: Record, b: Record, fields: set<string>) {
    forall field :: field in fields ==> ValueByPath(a, field) == ValueByPath(b, field)
  }

  lemma {:induction false} ResolveSame(env: Registered, a: Record, b: Record, fv: FilterValue)
    requires SameFields(a, b, ValueDeps(fv))
    ensures Resolve(env, a, fv) == Resolve(env, b, fv)
    decreases fv, 1
  {
    match fv {
      case Literal(_) =>
      case ArrayVal(elements) => ResolveAllSame(env, a, b, fv, elements);
      case FieldRef(field) => assert field in ValueDeps(fv);
      case FunctionCall(_, arguments) => ResolveAllSame(env, a, b, fv, arguments);
    }
  }

  lemma {:induction false} ResolveAllSame(
    env: Registered, a: Record, b: Record, whole: FilterValue, fvs: seq<FilterValue>)
    requires forall i :: 0 <= i < |fvs| ==> fvs[i] < whole
    requires SameFields(a, b, AllValueDeps(whole, fvs))
    ensures ResolveAll(env, a, whole, fvs) == ResolveAll(env, b, whole, fvs)
    decreases whole, 0, |fvs|
  {
    hide ValueByPath;
    if fvs != [] {
      ResolveSame(env, a, b, fvs[0]);
      ResolveAllSame(env, a, b, whole, fvs[1..]);
    }
  }

  lemma {:induction false} EvalSame(env: Registered, a: Record, b: Record, f: Filter)
    requires SameFields(a, b, FilterDeps(f))
    ensures Eval(JudgeOf(env, a), f) == Eval(JudgeOf(env, b), f)
    decreases f, 1
  {
    hide ValueByPath;
    match f {
      case Cond(c) =>
        ResolveSame(env, a, b, c.value);
        assert c.field in FilterDeps(f);
      case Group(_, conditions) => EvalAllSame(env, a, b, f, conditions);
      case TextSearch(_) =>
      case Invalid =>
    }
  }

  lemma {:induction false} EvalAllSame(env: Registered, a: Record, b: Record, whole: Filter, fs: seq<Filter>)
    requires forall i :: 0 <= i < |fs| ==> fs[i] < whole
    requires SameFields(a, b, AllFilterDeps(whole, fs))
    ensures EvalAll(JudgeOf(env, a), whole, fs) == EvalAll(JudgeOf(env, b), whole, fs)
    decreases whole, 0, |fs|
  {
    hide ValueByPath, JudgeOf;
    if fs != [] {
      EvalSame(env, a, b, fs[0]);
      EvalAllSame(env, a, b, whole, fs[1..]);
    }
  }

  /**
   Early projection is invisible to the residual filter, errors included, once every field the filter depends on
   is included. The empty path is excluded: it names the whole record in a condition but the field "" in an include.
  */
  lemma {:induction false} EarlyProjectionSound(env: Registered, record: Record, f: Filter, names: seq<string>)
    requires forall field :: field in FilterDeps(f) ==> field in names && field != ""
    ensures Eval(JudgeOf(env, Projected(record, names)), f) == Eval(JudgeOf(env, record), f)
  {
    hide Projected, ValueByPath, FilterDeps;
    forall field | field in FilterDeps(f)
      ensures ValueByPath(Projected(record, names), field) == ValueByPath(record, field)
    {
      ProjectionKeepsFields(record, names, field);
    }
    EvalSame(env, Projected(record, names), record, f);
  }

  // ---------- keys no include mentions ----------

  /** A key longer than every one of the given fields. */
  lemma {:induction false} LongerThanAll(fields: set<string>) returns (k: string)
    ensures forall field :: field in fields ==> |field| < |k|
    decreases fields
  {
    if fields == {} {
      return "";
    }
    var field :| field in fields;
    var rest := LongerThanAll(fields - {field});
    k := rest + field + "k";
  }

  lemma {:induction false} FirstPartIsShort(s: string, sep: char)
    ensures |Split(s, sep)[0]| <= |s|
  {
    if s != "" {
      FirstPartIsShort(s[1..], sep);
    }
  }

  /** A key longer than a path is not on it. */
  lemma {:induction false} OtherKeyInvisible(record: Record, k: string, v: Json, path: string)
    requires path != "" && |path| < |k|
    ensures ValueByPath(record[k := v], path) == ValueByPath(record, path)
  {
    FirstPartIsShort(path, '.');
  }

  lemma {:induction false} KeyNotProjected(record: Record, names: seq<string>, k: string)
    requires names != [] && forall name :: name in names ==> |name| < |k|
    ensures k !in Projected(record, names)
  {
    KeyNotPut(record, names, k);
  }

  lemma {:induction false} KeyNotPut(record: Record, names: seq<string>, k: string)
    requires forall name :: name in names ==> |name| < |k|
    ensures k !in PutAll(record, map[], names)
    decreases |names|
  {
    if names != [] {
      FirstPartIsShort(names[|names| - 1], '.');
      KeyNotPut(record, names[..|names| - 1], k);
    }
  }
}
