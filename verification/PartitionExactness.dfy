/**
 When splitting a filter is sound, exactly: for a filter that uses every condition once, the two parts select what
 the filter selects, for every truth of its conditions, if and only if its mode is a conjunction.
*/
module PartitionExactness {
  import opened Wrappers
  import opened QueryFilters
  import opened Partitioning
  import opened SplitShapes

  // ---------- truth assignments ----------

  /** Every condition in the set is true, every other false. */
  function JudgeIn(truths: set<Condition>): Judge {
    (c: Condition) => Ok(c in truths)
  }

  /** Operators are used as they are meant: groups are not empty and a Not has one member. */
  predicate WellFormed(f: Filter) {
    match f
    case Cond(_) => true
    case Group(o, conditions) =>
      && o != UnknownLogical && conditions != [] && (o == Not ==> |conditions| == 1)
      && forall i :: 0 <= i < |conditions| ==> WellFormed(conditions[i])
    case TextSearch(_) => false
    case Invalid => false
  }

  /** No condition occurs twice. */
  predicate ReadOnce(f: Filter) {
    f.Group? ==>
      && (forall i :: 0 <= i < |f.conditions| ==> ReadOnce(f.conditions[i]))
      && Apart(f.conditions)
  }

  predicate Apart(fs: seq<Filter>) {
    forall i, j :: 0 <= i < j < |fs| ==> Atoms(fs[i]) !! Atoms(fs[j])
  }

  /** A well-formed filter is true or false under every assignment. */
  lemma {:induction false} Defined(f: Filter, truths: set<Condition>)
    requires WellFormed(f)
    ensures Eval(JudgeIn(truths), f).Ok?
  {
    if f.Group? {
      forall i | 0 <= i < |f.conditions|
        ensures Eval(JudgeIn(truths), f.conditions[i]).Ok?
      {
        Defined(f.conditions[i], truths);
      }
      EvalAllSpec(JudgeIn(truths), f, f.conditions);
    }
  }

  // ---------- the parts of a filter that uses every condition once ----------

  /** A part uses some of the filter's conditions, each once, and is well formed if the filter is. */
  predicate PartWithin(part: Option<Filter>, f: Filter) {
    part.Some? ==>
      ReadOnce(part.value) && Atoms(part.value) <= Atoms(f) && (WellFormed(f) ==> WellFormed(part.value))
  }

  predicate PartsApart(parts: Parts) {
    parts.db.Some? && parts.post.Some? ==> Atoms(parts.db.value) !! Atoms(parts.post.value)
  }

  lemma {:induction false} WellFormedParts(caps: Capabilities, f: Filter)
    requires WellFormed(f) && ReadOnce(f)
    ensures NoEmptyGroups(f) && Partitioned(caps, f).Ok?
    ensures
      var parts := Partitioned(caps, f).value;
      && PartWithin(parts.db, f) && PartWithin(parts.post, f) && PartsApart(parts)
      && (parts.db.Some? ==> WellFormed(parts.db.value)) && (parts.post.Some? ==> WellFormed(parts.post.value))
  {
    WellFormedSplits(caps, f);
    ReadOnceParts(caps, f);
  }

  lemma {:induction false} WellFormedSplits(caps: Capabilities, f: Filter)
    requires WellFormed(f)
    ensures NoEmptyGroups(f) && Partitioned(caps, f).Ok?
    decreases f, 1
  {
    if f.Group? {
      MembersSplit(caps, f, f.conditions);
    }
  }

  lemma {:induction false} MembersSplit(caps: Capabilities, whole: Filter, fs: seq<Filter>)
    requires forall i :: 0 <= i < |fs| ==> fs[i] < whole && WellFormed(fs[i])
    ensures PartitionedAll(caps, whole, fs).Ok? && forall i :: 0 <= i < |fs| ==> NoEmptyGroups(fs[i])
    decreases whole, 0, |fs|
  {
    hide WellFormed;
    if fs != [] {
      WellFormedSplits(caps, fs[0]);
      MembersSplit(caps, whole, fs[1..]);
      assert forall i :: 1 <= i < |fs| ==> fs[i] == fs[1..][i - 1];
    }
  }

  lemma {:induction false} ReadOnceParts(caps: Capabilities, f: Filter)
    requires ReadOnce(f) && Partitioned(caps, f).Ok?
    ensures
      var parts := Partitioned(caps, f).value;
      PartWithin(parts.db, f) && PartWithin(parts.post, f) && PartsApart(parts)
    decreases f, 1
  {
    if f.Group? {
      MemberParts(caps, f, f.conditions);
      var (dbs, posts) := PartitionedAll(caps, f, f.conditions).value;
      if f.operator == Not && |f.conditions| == 1 {
        assert f.conditions[1..] == [];
      }
      GroupWithin(f, dbs);
      GroupWithin(f, posts);
      hide WellFormed, ReadOnce;
      if dbs != [] && posts != [] {
        ListsApart(f.operator, dbs, posts);
      }
    }
  }

  ghost predicate AllWellFormed(fs: seq<Filter>) {
    forall i :: 0 <= i < |fs| ==> WellFormed(fs[i])
  }

  /** Lists of parts: every member uses its conditions once, and the members share none. */
  ghost predicate GoodList(fs: seq<Filter>, atoms: set<Condition>) {
    && (forall i :: 0 <= i < |fs| ==> ReadOnce(fs[i]) && Atoms(fs[i]) <= atoms)
    && Apart(fs)
  }

  ghost predicate AllApart(a: seq<Filter>, b: seq<Filter>) {
    forall i, j :: 0 <= i < |a| && 0 <= j < |b| ==> Atoms(a[i]) !! Atoms(b[j])
  }

  lemma {:induction false} MemberParts(caps: Capabilities, whole: Filter, fs: seq<Filter>)
    requires forall i :: 0 <= i < |fs| ==> fs[i] < whole && ReadOnce(fs[i])
    requires Apart(fs) && PartitionedAll(caps, whole, fs).Ok?
    ensures
      var (dbs, posts) := PartitionedAll(caps, whole, fs).value;
      && GoodList(dbs, AllAtoms(whole, fs)) && GoodList(posts, AllAtoms(whole, fs)) && AllApart(dbs, posts)
      && (AllWellFormed(fs) ==> AllWellFormed(dbs) && AllWellFormed(posts))
      && (|fs| == 1 ==> |dbs| <= 1 && |posts| <= 1)
    decreases whole, 0, |fs|
  {
    hide WellFormed, ReadOnce, Atoms, GoodList, AllApart, PartWithin, PartsApart, AllWellFormed;
    if fs == [] {
      NothingApart(AllAtoms(whole, fs));
    } else {
      ReadOnceParts(caps, fs[0]);
      assert forall i :: 1 <= i < |fs| ==> fs[i] == fs[1..][i - 1];
      MemberParts(caps, whole, fs[1..]);
      var parts := Partitioned(caps, fs[0]).value;
      var (dbs, posts) := PartitionedAll(caps, whole, fs[1..]).value;
      FirstApart(whole, fs);
      AsListsGood(parts, fs[0]);
      GoodStep(AsList(parts.db), dbs, Atoms(fs[0]), AllAtoms(whole, fs[1..]), AllAtoms(whole, fs));
      GoodStep(AsList(parts.post), posts, Atoms(fs[0]), AllAtoms(whole, fs[1..]), AllAtoms(whole, fs));
      ApartStep(AsList(parts.db), dbs, AsList(parts.post), posts, Atoms(fs[0]), AllAtoms(whole, fs[1..]));
      FormedStep(fs, parts.db, dbs);
      FormedStep(fs, parts.post, posts);
    }
  }

  lemma {:induction false} NothingApart(atoms: set<Condition>)
    ensures GoodList([], atoms) && AllApart([], []) && AllWellFormed([])
  {
  }

  lemma {:induction false} FormedStep(fs: seq<Filter>, part: Option<Filter>, rest: seq<Filter>)
    requires fs != [] && PartWithin(part, fs[0]) && (AllWellFormed(fs[1..]) ==> AllWellFormed(rest))
    ensures AllWellFormed(fs) ==> AllWellFormed(AsList(part) + rest)
  {
    hide WellFormed, ReadOnce, Atoms;
    assert forall i :: 0 <= i < |fs[1..]| ==> fs[1..][i] == fs[i + 1];
  }

  lemma {:induction false} AsListsGood(parts: Parts, f: Filter)
    requires PartWithin(parts.db, f) && PartWithin(parts.post, f) && PartsApart(parts)
    ensures GoodList(AsList(parts.db), Atoms(f)) && GoodList(AsList(parts.post), Atoms(f))
    ensures AllApart(AsList(parts.db), AsList(parts.post))
  {
    hide WellFormed, ReadOnce, Atoms;
  }

  lemma {:induction false} FirstApart(whole: Filter, fs: seq<Filter>)
    requires fs != [] && Apart(fs) && forall i :: 0 <= i < |fs| ==> fs[i] < whole
    ensures Atoms(fs[0]) !! AllAtoms(whole, fs[1..])
    ensures AllAtoms(whole, fs) == Atoms(fs[0]) + AllAtoms(whole, fs[1..])
  {
    hide Atoms;
    forall c | c in AllAtoms(whole, fs[1..])
      ensures c !in Atoms(fs[0])
    {
      AtomsOf(whole, fs[1..], c);
      var i :| 0 <= i < |fs[1..]| && c in Atoms(fs[1..][i]);
      assert fs[1..][i] == fs[i + 1];
    }
  }

  lemma {:induction false} GoodStep(
    a: seq<Filter>, b: seq<Filter>, x: set<Condition>, y: set<Condition>, z: set<Condition>)
    requires GoodList(a, x) && GoodList(b, y) && x !! y && z == x + y
    ensures GoodList(a + b, z)
  {
    hide WellFormed, ReadOnce, Atoms;
    forall i, j | 0 <= i < j < |a + b|
      ensures Atoms((a + b)[i]) !! Atoms((a + b)[j])
    {
      if i < |a| <= j {
        assert Atoms((a + b)[i]) <= x && Atoms((a + b)[j]) <= y;
      }
    }
  }

  lemma {:induction false} ApartStep(
    a: seq<Filter>, b: seq<Filter>, c: seq<Filter>, d: seq<Filter>, x: set<Condition>, y: set<Condition>)
    requires GoodList(a, x) && GoodList(c, x) && GoodList(b, y) && GoodList(d, y) && x !! y
    requires AllApart(a, c) && AllApart(b, d)
    ensures AllApart(a + b, c + d)
  {
    hide WellFormed, ReadOnce, Atoms;
    forall i, j | 0 <= i < |a + b| && 0 <= j < |c + d|
      ensures Atoms((a + b)[i]) !! Atoms((c + d)[j])
    {
      assert Atoms((a + b)[i]) <= if i < |a| then x else y;
      assert Atoms((c + d)[j]) <= if j < |c| then x else y;
    }
  }

  lemma {:induction false} GroupWithin(f: Filter, fs: seq<Filter>)
    requires f.Group? && GoodList(fs, Atoms(f))
    requires WellFormed(f) ==> AllWellFormed(fs) && (f.operator == Not ==> |fs| <= 1)
    ensures PartWithin(AsGroup(f.operator, fs), f)
  {
    if fs != [] {
      var g := Group(f.operator, fs);
      forall c | c in Atoms(g)
        ensures c in Atoms(f)
      {
        AtomsOf(g, fs, c);
      }
    }
  }

  lemma {:induction false} ListsApart(o: LogicalOperator, a: seq<Filter>, b: seq<Filter>)
    requires AllApart(a, b)
    ensures Atoms(Group(o, a)) !! Atoms(Group(o, b))
  {
    forall c | c in Atoms(Group(o, a)) && c in Atoms(Group(o, b))
      ensures false
    {
      AtomsOf(Group(o, a), a, c);
      AtomsOf(Group(o, b), b, c);
    }
  }

  // ---------- the triples of a filter ----------

  ghost function PartTruth(part: Option<Filter>, truths: set<Condition>): Option<bool> {
    match part
    case Some(f) => Some(Holds(JudgeIn(truths), f))
    case None => None
  }

  ghost function TripleOf(f: Filter, parts: Parts, truths: set<Condition>): Triple {
    Triple(Holds(JudgeIn(truths), f), PartTruth(parts.db, truths), PartTruth(parts.post, truths))
  }

  ghost function PartsOf(caps: Capabilities, f: Filter): Parts {
    if Partitioned(caps, f).Ok? then Partitioned(caps, f).value else Parts(None, None)
  }

  ghost predicate Achieved(caps: Capabilities, f: Filter, t: Triple) {
    exists truths :: TripleOf(f, PartsOf(caps, f), truths) == t
  }

  /** Every combination of values the filter and its parts can take. */
  ghost function ShapeOf(caps: Capabilities, f: Filter): Shape {
    iset t: Triple | Achieved(caps, f, t)
  }

  ghost function ShapesOf(caps: Capabilities, fs: seq<Filter>): (shapes: seq<Shape>)
    ensures |shapes| == |fs| && forall i :: 0 <= i < |fs| ==> shapes[i] == ShapeOf(caps, fs[i])
  {
    seq(|fs|, i requires 0 <= i < |fs| => ShapeOf(caps, fs[i]))
  }

  /** One assignment that acts on every filter of a list as a given one does. */
  ghost function Glued(fs: seq<Filter>, choices: seq<set<Condition>>): set<Condition>
    requires |choices| == |fs|
  {
    if fs == [] then {}
    else Glued(fs[..|fs| - 1], choices[..|fs| - 1]) + choices[|fs| - 1] * Atoms(fs[|fs| - 1])
  }

  lemma {:induction false} GluedOn(fs: seq<Filter>, choices: seq<set<Condition>>, c: Condition)
    requires |choices| == |fs|
    ensures c in Glued(fs, choices) <==> exists i :: 0 <= i < |fs| && c in choices[i] && c in Atoms(fs[i])
  {
    hide Atoms;
    if fs != [] {
      var n := |fs| - 1;
      GluedOn(fs[..n], choices[..n], c);
      assert forall i :: 0 <= i < n ==> fs[..n][i] == fs[i] && choices[..n][i] == choices[i];
    }
  }

  lemma {:induction false} GluedAgrees(fs: seq<Filter>, choices: seq<set<Condition>>, i: nat)
    requires |choices| == |fs| && Apart(fs) && i < |fs|
    ensures forall c :: c in Atoms(fs[i]) ==> (c in Glued(fs, choices) <==> c in choices[i])
  {
    hide Atoms;
    forall c | c in Atoms(fs[i])
      ensures c in Glued(fs, choices) <==> c in choices[i]
    {
      GluedOn(fs, choices, c);
    }
  }

  /** A filter's triple depends on its own conditions only. */
  lemma {:induction false} LocalTriple(caps: Capabilities, f: Filter, a: set<Condition>, b: set<Condition>)
    requires WellFormed(f) && ReadOnce(f) && forall c :: c in Atoms(f) ==> (c in a <==> c in b)
    ensures TripleOf(f, PartsOf(caps, f), a) == TripleOf(f, PartsOf(caps, f), b)
  {
    WellFormedParts(caps, f);
    var parts := Partitioned(caps, f).value;
    hide Eval, Atoms, WellFormed, ReadOnce;
    EvalLocal(f, JudgeIn(a), JudgeIn(b));
    if parts.db.Some? {
      EvalLocal(parts.db.value, JudgeIn(a), JudgeIn(b));
    }
    if parts.post.Some? {
      EvalLocal(parts.post.value, JudgeIn(a), JudgeIn(b));
    }
  }

  lemma {:induction false} TruthsFor(caps: Capabilities, f: Filter, t: Triple) returns (truths: set<Condition>)
    requires t in ShapeOf(caps, f)
    ensures TripleOf(f, PartsOf(caps, f), truths) == t
  {
    hide TripleOf, PartsOf;
    truths :| TripleOf(f, PartsOf(caps, f), truths) == t;
  }

  /** Any choice of triples for filters that share no condition comes from one assignment. */
  lemma {:induction false} OneAssignment(caps: Capabilities, fs: seq<Filter>, ts: seq<Triple>)
    returns (truths: set<Condition>)
    requires forall i :: 0 <= i < |fs| ==> WellFormed(fs[i]) && ReadOnce(fs[i])
    requires Apart(fs) && From(ts, ShapesOf(caps, fs))
    ensures forall i :: 0 <= i < |fs| ==> TripleOf(fs[i], PartsOf(caps, fs[i]), truths) == ts[i]
  {
    hide TripleOf, PartsOf, WellFormed, ReadOnce, Atoms, Apart, ShapeOf, Glued;
    var choices: seq<set<Condition>> := [];
    for i := 0 to |fs|
      invariant |choices| == i
      invariant forall j :: 0 <= j < i ==> TripleOf(fs[j], PartsOf(caps, fs[j]), choices[j]) == ts[j]
    {
      assert ts[i] in ShapesOf(caps, fs)[i];
      var choice := TruthsFor(caps, fs[i], ts[i]);
      choices := choices + [choice];
    }
    truths := Glued(fs, choices);
    forall i | 0 <= i < |fs|
      ensures TripleOf(fs[i], PartsOf(caps, fs[i]), truths) == ts[i]
    {
      GluedAgrees(fs, choices, i);
      LocalTriple(caps, fs[i], truths, choices[i]);
    }
  }

  // ---------- groups and their members ----------

  ghost predicate Truths(fs: seq<Filter>, truths: set<Condition>, bs: seq<bool>) {
    |bs| == |fs| && forall i :: 0 <= i < |fs| ==> Holds(JudgeIn(truths), fs[i]) == bs[i]
  }

  /** A group combines the truths of its members. */
  lemma {:induction false} GroupValue(o: LogicalOperator, fs: seq<Filter>, truths: set<Condition>, bs: seq<bool>)
    requires Truths(fs, truths, bs) && forall i :: 0 <= i < |fs| ==> WellFormed(fs[i])
    ensures Holds(JudgeIn(truths), Group(o, fs)) <==> Value(o, bs)
  {
    var g := Group(o, fs);
    forall i | 0 <= i < |fs|
      ensures Eval(JudgeIn(truths), fs[i]) == Ok(bs[i])
    {
      Defined(fs[i], truths);
    }
    EvalAllSpec(JudgeIn(truths), g, fs);
    assert EvalAll(JudgeIn(truths), g, fs).value == bs;
    assert Eval(JudgeIn(truths), g) == Combined(o, bs);
  }

  /** Truths of the members that make a group true, or false. */
  function Pattern(o: LogicalOperator, n: nat, b: bool): (bs: seq<bool>)
    requires n > 0
    ensures |bs| == n
  {
    match o
    case And => seq(n, i => b)
    case Or => seq(n, i => b)
    case Xor => seq(n, i => b && i == 0)
    case Xnor => seq(n, i => !b && i == 0)
    case _ => seq(n, i => !b)
  }

  lemma {:induction false} PatternValue(o: LogicalOperator, n: nat, b: bool)
    requires n > 0 && o != UnknownLogical && (o == Not ==> n == 1)
    ensures Value(o, Pattern(o, n, b)) == b
  {
    var bs := Pattern(o, n, b);
    assert bs[0] in bs;
    CountFirst(n, bs[0]);
  }

  lemma {:induction false} CountFirst(n: nat, b: bool)
    requires n > 0
    ensures CountTrue(seq(n, i => b && i == 0)) == if b then 1 else 0
  {
    var bs := seq(n, i => b && i == 0);
    if n > 1 {
      CountFirst(n - 1, b);
      assert bs[..n - 1] == seq(n - 1, i => b && i == 0);
    } else {
      assert bs[..0] == [];
    }
  }

  /** A filter that uses every condition once can be made true and can be made false. */
  lemma {:induction false} Nonconstant(f: Filter, b: bool) returns (truths: set<Condition>)
    requires WellFormed(f) && ReadOnce(f)
    ensures Holds(JudgeIn(truths), f) == b
  {
    if f.Cond? {
      truths := if b then {f.condition} else {};
    } else {
      var n := |f.conditions|;
      var pattern := Pattern(f.operator, n, b);
      PatternValue(f.operator, n, b);
      hide Holds, Value, Pattern, Glued, Atoms;
      var choices: seq<set<Condition>> := [];
      for i := 0 to n
        invariant |choices| == i
        invariant forall j :: 0 <= j < i ==> Holds(JudgeIn(choices[j]), f.conditions[j]) == pattern[j]
      {
        var choice := Nonconstant(f.conditions[i], pattern[i]);
        choices := choices + [choice];
      }
      truths := Glued(f.conditions, choices);
      forall i | 0 <= i < n
        ensures Holds(JudgeIn(truths), f.conditions[i]) == pattern[i]
      {
        GluedAgrees(f.conditions, choices, i);
        LocalHolds(f.conditions[i], truths, choices[i]);
      }
      GroupValue(f.operator, f.conditions, truths, pattern);
    }
  }

  lemma {:induction false} LocalHolds(f: Filter, a: set<Condition>, b: set<Condition>)
    requires forall c :: c in Atoms(f) ==> (c in a <==> c in b)
    ensures Holds(JudgeIn(a), f) == Holds(JudgeIn(b), f)
  {
    EvalLocal(f, JudgeIn(a), JudgeIn(b));
  }

  // ---------- shapes of filters ----------

  lemma {:induction false} InShape(caps: Capabilities, f: Filter, truths: set<Condition>)
    ensures TripleOf(f, PartsOf(caps, f), truths) in ShapeOf(caps, f)
  {
    hide TripleOf, PartsOf;
    assert Achieved(caps, f, TripleOf(f, PartsOf(caps, f), truths));
  }

  lemma {:induction false} ShapeOfWhole(caps: Capabilities, f: Filter, s: bool)
    requires WellFormed(f) && ReadOnce(f)
    requires PartsOf(caps, f) == if s then Parts(Some(f), None) else Parts(None, Some(f))
    ensures OnlyOn(ShapeOf(caps, f), s)
  {
    hide Holds, WellFormed, ReadOnce;
    var shape := ShapeOf(caps, f);
    forall t
      ensures t in shape <==> t == (if s then Triple(t.v, Some(t.v), None) else Triple(t.v, None, Some(t.v)))
    {
      if t in shape {
        var truths := TruthsFor(caps, f, t);
      }
      var truths := Nonconstant(f, t.v);
      InShape(caps, f, truths);
    }
  }

  lemma {:induction false} ShapeOfSplit(caps: Capabilities, f: Filter)
    requires WellFormed(f) && ReadOnce(f) && IsSplit(PartsOf(caps, f))
    ensures SplitShape(ShapeOf(caps, f))
  {
    WellFormedParts(caps, f);
    var parts, shape := PartsOf(caps, f), ShapeOf(caps, f);
    hide Holds, WellFormed, ReadOnce, Atoms, Glued, PartsOf;
    forall t | t in shape
      ensures t.d.Some? && t.p.Some?
    {
      var truths := TruthsFor(caps, f, t);
    }
    forall x, y
      ensures Reaches(shape, x, y)
    {
      var fs := [parts.db.value, parts.post.value];
      var a := Nonconstant(parts.db.value, x);
      var b := Nonconstant(parts.post.value, y);
      var truths := Glued(fs, [a, b]);
      GluedAgrees(fs, [a, b], 0);
      GluedAgrees(fs, [a, b], 1);
      LocalHolds(parts.db.value, truths, a);
      LocalHolds(parts.post.value, truths, b);
      InShape(caps, f, truths);
      assert Triple(Holds(JudgeIn(truths), f), Some(x), Some(y)) in shape;
    }
    forall v
      ensures Takes(shape, v)
    {
      var truths := Nonconstant(f, v);
      InShape(caps, f, truths);
    }
  }

  lemma {:induction false} ShapeIsProper(caps: Capabilities, f: Filter)
    requires WellFormed(f) && ReadOnce(f)
    ensures Proper(ShapeOf(caps, f))
    ensures var parts := PartsOf(caps, f);
      && (IsSplit(parts) <==> SplitShape(ShapeOf(caps, f)))
      && (parts.db.Some? ==> !OnlyOn(ShapeOf(caps, f), false))
      && (parts.post.Some? ==> !OnlyOn(ShapeOf(caps, f), true))
  {
    WellFormedParts(caps, f);
    UnsplitIsWhole(caps, f);
    var parts, shape := PartsOf(caps, f), ShapeOf(caps, f);
    hide WellFormed, ReadOnce, Partitioned, ShapeOf;
    if IsSplit(parts) {
      ShapeOfSplit(caps, f);
      assert Reaches(shape, true, true);
    } else {
      ShapeOfWhole(caps, f, parts.db.Some?);
      assert Triple(true, Some(true), None) in shape || Triple(true, None, Some(true)) in shape;
    }
  }

  // ---------- the triple of a cut group ----------

  lemma {:induction false} SideValuesCons(t: Triple, ts: seq<Triple>, s: bool)
    ensures SideValues([t] + ts, s) == AsBools(Side(t, s)) + SideValues(ts, s)
  {
    var all := [t] + ts;
    if ts == [] {
      assert all[..0] == [];
    } else {
      SideValuesCons(t, ts[..|ts| - 1], s);
      assert all[..|all| - 1] == [t] + ts[..|ts| - 1];
    }
  }

  lemma {:induction false} ValuesAt(ts: seq<Triple>)
    ensures |Values(ts)| == |ts| && forall i :: 0 <= i < |ts| ==> Values(ts)[i] == ts[i].v
  {
    if ts != [] {
      ValuesAt(ts[..|ts| - 1]);
    }
  }

  lemma {:induction false} TruthsStep(
    part: Option<Filter>, rest: seq<Filter>, truths: set<Condition>, b: Option<bool>, bs: seq<bool>)
    requires PartTruth(part, truths) == b && Truths(rest, truths, bs)
    ensures Truths(AsList(part) + rest, truths, AsBools(b) + bs)
  {
    hide Holds;
  }

  /** The lists of parts have the values on the two sides. */
  lemma {:induction false} PartTruths(
    caps: Capabilities, whole: Filter, fs: seq<Filter>, truths: set<Condition>, ts: seq<Triple>)
    requires forall i :: 0 <= i < |fs| ==> fs[i] < whole
    requires PartitionedAll(caps, whole, fs).Ok? && |ts| == |fs|
    requires forall i :: 0 <= i < |fs| ==> TripleOf(fs[i], PartsOf(caps, fs[i]), truths) == ts[i]
    ensures Truths(PartitionedAll(caps, whole, fs).value.0, truths, SideValues(ts, true))
    ensures Truths(PartitionedAll(caps, whole, fs).value.1, truths, SideValues(ts, false))
    decreases |fs|
  {
    if fs != [] {
      var parts := Partitioned(caps, fs[0]).value;
      var (dbs, posts) := PartitionedAll(caps, whole, fs[1..]).value;
      assert PartitionedAll(caps, whole, fs).value == (AsList(parts.db) + dbs, AsList(parts.post) + posts);
      assert PartTruth(parts.db, truths) == ts[0].d && PartTruth(parts.post, truths) == ts[0].p;
      assert forall i :: 1 <= i < |fs| ==> fs[i] == fs[1..][i - 1] && ts[i] == ts[1..][i - 1];
      hide Holds, Truths, SideValues, PartTruth, PartsOf, TripleOf;
      PartTruths(caps, whole, fs[1..], truths, ts[1..]);
      assert ts == [ts[0]] + ts[1..];
      SideValuesCons(ts[0], ts[1..], true);
      SideValuesCons(ts[0], ts[1..], false);
      TruthsStep(parts.db, dbs, truths, ts[0].d, SideValues(ts[1..], true));
      TruthsStep(parts.post, posts, truths, ts[0].p, SideValues(ts[1..], false));
    }
  }

  lemma {:induction false} CutTriple(caps: Capabilities, f: Filter, truths: set<Condition>, ts: seq<Triple>)
    requires WellFormed(f) && ReadOnce(f) && f.Group? && IsSplit(PartsOf(caps, f)) && |ts| == |f.conditions|
    requires forall i :: 0 <= i < |ts| ==> TripleOf(f.conditions[i], PartsOf(caps, f.conditions[i]), truths) == ts[i]
    ensures TripleOf(f, PartsOf(caps, f), truths) ==
            Triple(Value(f.operator, Values(ts)), Some(Value(f.operator, SideValues(ts, true))),
                   Some(Value(f.operator, SideValues(ts, false))))
  {
    var o, fs := f.operator, f.conditions;
    WellFormedParts(caps, f);
    var (dbs, posts) := PartitionedAll(caps, f, fs).value;
    var parts := PartsOf(caps, f);
    assert parts == Parts(Some(Group(o, dbs)), Some(Group(o, posts)));
    assert WellFormed(Group(o, dbs)) && WellFormed(Group(o, posts));
    PartTruths(caps, f, fs, truths, ts);
    ValuesAt(ts);
    hide Holds, Value, SideValues, Values, Eval, PartsOf, PartitionedAll;
    GroupValue(o, fs, truths, Values(ts));
    GroupValue(o, dbs, truths, SideValues(ts, true));
    GroupValue(o, posts, truths, SideValues(ts, false));
  }

  /** Members that can tell a cut group from the conjunction, or disjunction, of its parts do so for the filter. */
  lemma {:induction false} GroupTellsForFilter(caps: Capabilities, f: Filter)
    requires WellFormed(f) && ReadOnce(f) && f.Group? && IsSplit(PartsOf(caps, f))
    ensures GroupTellsConjunction(f.operator, ShapesOf(caps, f.conditions)) ==> TellsConjunction(ShapeOf(caps, f))
    ensures GroupTellsDisjunction(f.operator, ShapesOf(caps, f.conditions)) ==> TellsDisjunction(ShapeOf(caps, f))
  {
    var fs, shapes := f.conditions, ShapesOf(caps, f.conditions);
    assert Apart(fs);
    hide WellFormed, ReadOnce, TripleOf, PartsOf, Value, Values, SideValues, From, GroupTellsConjunction,
      GroupTellsDisjunction, ShapeOf;
    if GroupTellsConjunction(f.operator, shapes) {
      var ts := TellingConjunction(f.operator, shapes);
      TripleForFilter(caps, f, ts);
    }
    if GroupTellsDisjunction(f.operator, shapes) {
      var ts := TellingDisjunction(f.operator, shapes);
      TripleForFilter(caps, f, ts);
    }
  }

  lemma {:induction false} TripleForFilter(caps: Capabilities, f: Filter, ts: seq<Triple>)
    requires WellFormed(f) && ReadOnce(f) && f.Group? && IsSplit(PartsOf(caps, f))
    requires From(ts, ShapesOf(caps, f.conditions))
    ensures Triple(Value(f.operator, Values(ts)), Some(Value(f.operator, SideValues(ts, true))),
                   Some(Value(f.operator, SideValues(ts, false)))) in ShapeOf(caps, f)
  {
    assert |ts| == |f.conditions|;
    hide TripleOf, PartsOf, Value, Values, SideValues, From, ShapeOf;
    var truths := OneAssignment(caps, f.conditions, ts);
    CutTriple(caps, f, truths, ts);
    InShape(caps, f, truths);
  }

  // ---------- exactness ----------

  lemma {:induction false} MembersProper(caps: Capabilities, f: Filter)
    requires WellFormed(f) && ReadOnce(f) && f.Group? && IsSplit(PartsOf(caps, f))
    ensures
      var shapes := ShapesOf(caps, f.conditions);
      AllProper(shapes) && Present(shapes, true) && Present(shapes, false)
  {
    var shapes := ShapesOf(caps, f.conditions);
    WellFormedParts(caps, f);
    forall i | 0 <= i < |shapes|
      ensures Proper(shapes[i])
      ensures PartsOf(caps, f.conditions[i]).db.Some? ==> !OnlyOn(shapes[i], false)
      ensures PartsOf(caps, f.conditions[i]).post.Some? ==> !OnlyOn(shapes[i], true)
    {
      ShapeIsProper(caps, f.conditions[i]);
    }
    SomeMember(caps, f, f.conditions);
    hide Proper, OnlyOn, ShapeOf;
    var i :| 0 <= i < |f.conditions| && PartsOf(caps, f.conditions[i]).db.Some?;
    var j :| 0 <= j < |f.conditions| && PartsOf(caps, f.conditions[j]).post.Some?;
    assert !OnlyOn(shapes[i], !true) && !OnlyOn(shapes[j], !false);
  }

  lemma {:induction false} SomeMember(caps: Capabilities, whole: Filter, fs: seq<Filter>)
    requires forall i :: 0 <= i < |fs| ==> fs[i] < whole
    requires PartitionedAll(caps, whole, fs).Ok?
    ensures
      var (dbs, posts) := PartitionedAll(caps, whole, fs).value;
      && (dbs != [] ==> exists i :: 0 <= i < |fs| && PartsOf(caps, fs[i]).db.Some?)
      && (posts != [] ==> exists i :: 0 <= i < |fs| && PartsOf(caps, fs[i]).post.Some?)
    decreases |fs|
  {
    if fs != [] {
      SomeMember(caps, whole, fs[1..]);
      assert forall i :: 0 <= i < |fs[1..]| ==> fs[1..][i] == fs[i + 1];
      assert PartsOf(caps, fs[0]) == Partitioned(caps, fs[0]).value;
      hide PartsOf, Partitioned;
    }
  }

  /** A mode that is not a conjunction, or not a disjunction, is so for a reason: some assignment shows it. */
  lemma {:induction false} ModeIsExact(caps: Capabilities, f: Filter)
    requires WellFormed(f) && ReadOnce(f) && IsSplit(PartsOf(caps, f))
    ensures !ModeOf(caps, f).conjunction ==> TellsConjunction(ShapeOf(caps, f))
    ensures !ModeOf(caps, f).disjunction ==> TellsDisjunction(ShapeOf(caps, f))
    decreases f, 1
  {
    WellFormedParts(caps, f);
    if |f.conditions| == 1 {
      SingleIsExact(caps, f);
    } else {
      GroupMode(caps, f);
      hide *;
      MembersProper(caps, f);
      GroupTellsForFilter(caps, f);
      MemberIsExact(caps, f);
      GroupIsExact(f.operator, ShapesOf(caps, f.conditions));
    }
  }

  /** The mode of a cut group of two or more members. */
  lemma {:induction false} GroupMode(caps: Capabilities, f: Filter)
    requires WellFormed(f) && ReadOnce(f) && f.Group? && IsSplit(PartsOf(caps, f)) && |f.conditions| >= 2
    ensures f.operator != Or && f.operator != Not && f.operator != UnknownLogical
    ensures
      ModeOf(caps, f) ==
      match f.operator
      case And => Mode(AllConjunctions(caps, f, f.conditions), false)
      case Nor => Mode(AllDisjunctions(caps, f, f.conditions), false)
      case Nand => Mode(false, AllConjunctions(caps, f, f.conditions))
      case _ => Mode(false, false)
  {
    WellFormedParts(caps, f);
    hide AllConjunctions, AllDisjunctions;
  }

  /** What a cut group of two or more members can be told apart from, operator by operator. */
  lemma {:induction false} GroupIsExact(o: LogicalOperator, shapes: seq<Shape>)
    requires AllProper(shapes) && Present(shapes, true) && Present(shapes, false) && |shapes| >= 2
    ensures
      var someNotConjunction := exists i :: 0 <= i < |shapes| && TellsConjunction(shapes[i]);
      var someNotDisjunction := exists i :: 0 <= i < |shapes| && TellsDisjunction(shapes[i]);
      && (o == And ==> GroupTellsDisjunction(o, shapes) && (someNotConjunction ==> GroupTellsConjunction(o, shapes)))
      && (o == Nor ==> GroupTellsDisjunction(o, shapes) && (someNotDisjunction ==> GroupTellsConjunction(o, shapes)))
      && (o == Nand ==> GroupTellsConjunction(o, shapes) && (someNotConjunction ==> GroupTellsDisjunction(o, shapes)))
      && (o == Xor || o == Xnor ==> GroupTellsConjunction(o, shapes) && GroupTellsDisjunction(o, shapes))
  {
    hide *;
    match o {
      case And =>
        AndTellsDisjunction(shapes);
        AndIfMember(shapes);
      case Nor =>
        NorIfMember(shapes);
        NorTells(shapes);
      case Nand =>
        AndTellsDisjunction(shapes);
        AndIfMember(shapes);
        NandTells(shapes);
      case Xor => ParityTells(shapes);
      case Xnor => ParityTells(shapes);
      case Or =>
      case Not =>
      case UnknownLogical =>
    }
  }

  lemma {:induction false} AndIfMember(shapes: seq<Shape>)
    requires AllProper(shapes) && Present(shapes, true) && Present(shapes, false)
    ensures (exists i :: 0 <= i < |shapes| && TellsConjunction(shapes[i])) ==> GroupTellsConjunction(And, shapes)
  {
    hide TellsConjunction, Present, AllProper, GroupTellsConjunction;
    if i :| 0 <= i < |shapes| && TellsConjunction(shapes[i]) {
      AndTellsConjunction(shapes, i);
    }
  }

  lemma {:induction false} NorIfMember(shapes: seq<Shape>)
    requires AllProper(shapes) && Present(shapes, true) && Present(shapes, false) && |shapes| >= 2
    ensures GroupTellsDisjunction(And, NotShapes(shapes))
    ensures (exists i :: 0 <= i < |shapes| && TellsDisjunction(shapes[i])) ==>
      GroupTellsConjunction(And, NotShapes(shapes))
  {
    hide *;
    NotShapesProper(shapes);
    AndTellsDisjunction(NotShapes(shapes));
    if i :| 0 <= i < |shapes| && TellsDisjunction(shapes[i]) {
      NotShapeTells(shapes[i]);
      AndTellsConjunction(NotShapes(shapes), i);
    }
  }

  /** A member that keeps the group from its mode is itself split, and some assignment shows it. */
  lemma {:induction false} MemberIsExact(caps: Capabilities, f: Filter)
    requires WellFormed(f) && ReadOnce(f) && f.Group? && IsSplit(PartsOf(caps, f))
    ensures
      var shapes := ShapesOf(caps, f.conditions);
      && (!AllConjunctions(caps, f, f.conditions) ==> exists i :: 0 <= i < |shapes| && TellsConjunction(shapes[i]))
      && (!AllDisjunctions(caps, f, f.conditions) ==> exists i :: 0 <= i < |shapes| && TellsDisjunction(shapes[i]))
    decreases f, 0
  {
    var shapes := ShapesOf(caps, f.conditions);
    forall i | 0 <= i < |shapes|
      ensures !ModeOf(caps, f.conditions[i]).conjunction ==> TellsConjunction(shapes[i])
      ensures !ModeOf(caps, f.conditions[i]).disjunction ==> TellsDisjunction(shapes[i])
    {
      var c := f.conditions[i];
      WellFormedParts(caps, c);
      if IsSplit(PartsOf(caps, c)) {
        ModeIsExact(caps, c);
      }
    }
    hide TellsConjunction, TellsDisjunction, ShapeOf, ModeOf;
  }

  /** A group of one split member: its triples are the member's or their negations. */
  lemma {:induction false} SingleIsExact(caps: Capabilities, f: Filter)
    requires WellFormed(f) && ReadOnce(f) && IsSplit(PartsOf(caps, f)) && f.Group? && |f.conditions| == 1
    ensures !ModeOf(caps, f).conjunction ==> TellsConjunction(ShapeOf(caps, f))
    ensures !ModeOf(caps, f).disjunction ==> TellsDisjunction(ShapeOf(caps, f))
    decreases f, 0
  {
    var c := f.conditions[0];
    WellFormedParts(caps, f);
    SplitOfOne(caps, f);
    ModeIsExact(caps, c);
    var shape, inner := ShapeOf(caps, f), ShapeOf(caps, c);
    forall t | t in inner
      ensures (if f.operator == And || f.operator == Xor then t else NotTriple(t)) in shape
    {
      SingleTriple(caps, f, t);
    }
    NotShapeMeans(shape, inner);
    hide ShapeOf;
  }

  lemma {:induction false} NotShapeMeans(shape: Shape, inner: Shape)
    ensures (forall t :: t in inner ==> t in shape) ==>
      (TellsConjunction(inner) ==> TellsConjunction(shape)) && (TellsDisjunction(inner) ==> TellsDisjunction(shape))
    ensures (forall t :: t in inner ==> NotTriple(t) in shape) ==>
      (TellsConjunction(inner) ==> TellsDisjunction(shape)) && (TellsDisjunction(inner) ==> TellsConjunction(shape))
  {
  }

  lemma {:induction false} SingleTriple(caps: Capabilities, f: Filter, t: Triple)
    requires WellFormed(f) && ReadOnce(f) && f.Group? && |f.conditions| == 1 && IsSplit(PartsOf(caps, f))
    requires t in ShapeOf(caps, f.conditions[0])
    ensures (if f.operator == And || f.operator == Xor then t else NotTriple(t)) in ShapeOf(caps, f)
  {
    var c := f.conditions[0];
    WellFormedParts(caps, f);
    SplitOfOne(caps, f);
    var inner := Partitioned(caps, c).value;
    var truths := TruthsFor(caps, c, t);
    Defined(c, truths);
    WellFormedParts(caps, c);
    Defined(inner.db.value, truths);
    Defined(inner.post.value, truths);
    assert f.conditions == [c] && f == Group(f.operator, [c]);
    SingleSpec(JudgeIn(truths), f.operator, c);
    SingleSpec(JudgeIn(truths), f.operator, inner.db.value);
    SingleSpec(JudgeIn(truths), f.operator, inner.post.value);
    InShape(caps, f, truths);
    hide Eval, ShapeOf, WellFormed, ReadOnce, Partitioned;
  }

  ghost predicate SplitSelects(caps: Capabilities, f: Filter, truths: set<Condition>) {
    var parts, judge := PartsOf(caps, f), JudgeIn(truths);
    Holds(judge, f) <==> Passes(judge, parts.db) && Passes(judge, parts.post)
  }

  // ---------- filters that never evaluate ----------

  /** An empty group, a Not of other than one member or an unknown operator, at any depth, fails every evaluation. */
  lemma {:induction false} IllFormedFails(judge: Judge, f: Filter)
    requires !WellFormed(f)
    ensures Eval(judge, f).Err?
  {
    if f.Group? {
      EvalAllSpec(judge, f, f.conditions);
      if i :| 0 <= i < |f.conditions| && !WellFormed(f.conditions[i]) {
        IllFormedFails(judge, f.conditions[i]);
      }
    }
  }

  /** Parts that are both well formed can be judged independently: they share no condition. */
  lemma {:induction false} JudgedTogether(caps: Capabilities, f: Filter, b: bool) returns (truths: set<Condition>)
    requires ReadOnce(f) && Partitioned(caps, f).Ok?
    requires
      var parts := PartsOf(caps, f);
      (parts.db.Some? ==> WellFormed(parts.db.value)) && (parts.post.Some? ==> WellFormed(parts.post.value))
    ensures var parts, judge := PartsOf(caps, f), JudgeIn(truths);
      Passes(judge, parts.db) && (parts.post.Some? ==> Holds(judge, parts.post.value) == b)
  {
    ReadOnceParts(caps, f);
    var parts := PartsOf(caps, f);
    hide Holds, WellFormed, ReadOnce, Partitioned, Atoms, JudgeIn;
    var fs := AsList(parts.db) + AsList(parts.post);
    var bs := (if parts.db.Some? then [true] else []) + if parts.post.Some? then [b] else [];
    var choices: seq<set<Condition>> := [];
    for i := 0 to |fs|
      invariant |choices| == i && forall j :: 0 <= j < i ==> Holds(JudgeIn(choices[j]), fs[j]) == bs[j]
    {
      var choice := Nonconstant(fs[i], bs[i]);
      choices := choices + [choice];
    }
    truths := Glued(fs, choices);
    forall i | 0 <= i < |fs|
      ensures Holds(JudgeIn(truths), fs[i]) == bs[i]
    {
      GluedAgrees(fs, choices, i);
      LocalHolds(fs[i], truths, choices[i]);
    }
    assert parts.db.Some? ==> fs[0] == parts.db.value && bs[0];
    assert parts.post.Some? ==> fs[|fs| - 1] == parts.post.value && bs[|fs| - 1] == b;
  }

  /**
   Whether a split is sound: a filter that can be evaluated must have a conjunction for its mode; one that never
   evaluates selects nothing, so one of its parts must keep what makes it fail.
  */
  predicate SplitsSoundly(caps: Capabilities, f: Filter)
    requires Partitioned(caps, f).Ok?
  {
    var parts := Partitioned(caps, f).value;
    if WellFormed(f) then ModeOf(caps, f).conjunction
    else (parts.db.Some? && !WellFormed(parts.db.value)) || (parts.post.Some? && !WellFormed(parts.post.value))
  }

  predicate NoTextSearch(f: Filter) {
    match f
    case Cond(_) => true
    case Group(_, conditions) => forall i :: 0 <= i < |conditions| ==> NoTextSearch(conditions[i])
    case TextSearch(_) => false
    case Invalid => true
  }

  /**
   Exactly when splitting is sound: for a filter that uses every condition once, the database part and the
   residual select together what the filter selects, for every truth of its conditions, if and only if it
   splits soundly.
  */
  lemma {:induction false} SplitSoundExactly(caps: Capabilities, f: Filter)
    requires ReadOnce(f) && NoTextSearch(f) && Partitioned(caps, f).Ok?
    ensures SplitsSoundly(caps, f) <==> forall truths :: SplitSelects(caps, f, truths)
  {
    if WellFormed(f) {
      WellFormedExactly(caps, f);
    } else {
      IllFormedExactly(caps, f);
    }
  }

  lemma {:induction false} IllFormedExactly(caps: Capabilities, f: Filter)
    requires ReadOnce(f) && !WellFormed(f) && Partitioned(caps, f).Ok?
    ensures SplitsSoundly(caps, f) <==> forall truths :: SplitSelects(caps, f, truths)
  {
    hide Eval, WellFormed, ReadOnce, Partitioned, JudgeIn;
    var parts := PartsOf(caps, f);
    forall truths
      ensures !Holds(JudgeIn(truths), f)
      ensures SplitsSoundly(caps, f) ==> !(Passes(JudgeIn(truths), parts.db) && Passes(JudgeIn(truths), parts.post))
    {
      IllFormedFails(JudgeIn(truths), f);
      if parts.db.Some? && !WellFormed(parts.db.value) {
        IllFormedFails(JudgeIn(truths), parts.db.value);
      }
      if parts.post.Some? && !WellFormed(parts.post.value) {
        IllFormedFails(JudgeIn(truths), parts.post.value);
      }
    }
    if !SplitsSoundly(caps, f) {
      var truths := JudgedTogether(caps, f, true);
      assert !SplitSelects(caps, f, truths);
    }
  }

  /** An empty group selects nothing, but it is dropped, which selects everything. */
  lemma {:induction false} EmptyGroupDropped(judge: Judge, caps: Capabilities, o: LogicalOperator)
    ensures !Holds(judge, Group(o, []))
    ensures
      var parts := PartsOf(caps, Group(o, []));
      parts == Parts(None, None) && Passes(judge, parts.db) && Passes(judge, parts.post)
  {
    IllFormedFails(judge, Group(o, []));
    assert PartitionedAll(caps, Group(o, []), []) == Ok(([], []));
  }

  lemma {:induction false} WellFormedExactly(caps: Capabilities, f: Filter)
    requires WellFormed(f) && ReadOnce(f)
    ensures ModeOf(caps, f).conjunction <==> forall truths :: SplitSelects(caps, f, truths)
  {
    WellFormedParts(caps, f);
    if ModeOf(caps, f).conjunction {
      forall truths
        ensures SplitSelects(caps, f, truths)
      {
        SplitIsSound(JudgeIn(truths), caps, f);
      }
    } else {
      ModeIsExact(caps, f);
      hide ModeOf, Eval, WellFormed, ReadOnce, PartsOf, Holds;
      var t :| t in ShapeOf(caps, f) && t.d.Some? && t.p.Some? && t.v != (t.d.value && t.p.value);
      var truths := TruthsFor(caps, f, t);
      assert !SplitSelects(caps, f, truths);
    }
  }
}
