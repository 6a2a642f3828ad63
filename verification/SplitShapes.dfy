/**
 How the value of a group relates to the values of its two parts, abstractly: every member contributes its own
 value and the values of its parts, and a group combines each of the three with the same operator. Shows for each
 operator that a cut group with two or more members can be told apart from the conjunction, or the disjunction,
 of its parts.
*/
module SplitShapes {
  import opened Wrappers
  import opened QueryFilters

  /** A member's value and the values of its database part and its residual, where it has them. */
  datatype Triple = Triple(v: bool, d: Option<bool>, p: Option<bool>)

  function Side(t: Triple, s: bool): Option<bool> {
    if s then t.d else t.p
  }

  /** Every combination of values a member can take. */
  type Shape = iset<Triple>

  /** A member on one side only: its part is itself. */
  ghost predicate OnlyOn(shape: Shape, s: bool) {
    forall t :: t in shape <==> t == (if s then Triple(t.v, Some(t.v), None) else Triple(t.v, None, Some(t.v)))
  }

  ghost predicate TellsConjunction(shape: Shape) {
    exists t :: t in shape && t.d.Some? && t.p.Some? && t.v != (t.d.value && t.p.value)
  }

  ghost predicate TellsDisjunction(shape: Shape) {
    exists t :: t in shape && t.d.Some? && t.p.Some? && t.v != (t.d.value || t.p.value)
  }

  /** A split member: its parts take all four combinations, and its own value both values. */
  ghost predicate SplitShape(shape: Shape) {
    && (forall t :: t in shape ==> t.d.Some? && t.p.Some?)
    && (forall x, y :: Reaches(shape, x, y))
    && Takes(shape, true) && Takes(shape, false)
  }

  ghost predicate Reaches(shape: Shape, x: bool, y: bool) {
    exists v :: Triple(v, Some(x), Some(y)) in shape
  }

  ghost predicate Takes(shape: Shape, v: bool) {
    exists t :: t in shape && t.v == v
  }

  ghost predicate Proper(shape: Shape) {
    OnlyOn(shape, true) || OnlyOn(shape, false) || SplitShape(shape)
  }

  // ---------- choosing triples ----------

  ghost function WithValue(shape: Shape, v: bool): (t: Triple)
    requires Proper(shape)
    ensures t in shape && t.v == v
  {
    if OnlyOn(shape, true) then Triple(v, Some(v), None)
    else if OnlyOn(shape, false) then Triple(v, None, Some(v))
    else
      assert Takes(shape, v);
      var t :| t in shape && t.v == v;
      t
  }

  ghost predicate Offers(part: Option<bool>, x: bool) {
    part.Some? ==> part.value == x
  }

  /** A triple whose parts, where present, have the given values. */
  ghost function WithParts(shape: Shape, x: bool, y: bool): (t: Triple)
    requires Proper(shape)
    ensures t in shape && Offers(t.d, x) && Offers(t.p, y)
  {
    if OnlyOn(shape, true) then Triple(x, Some(x), None)
    else if OnlyOn(shape, false) then Triple(y, None, Some(y))
    else
      assert Reaches(shape, x, y);
      var v :| Triple(v, Some(x), Some(y)) in shape;
      Triple(v, Some(x), Some(y))
  }

  ghost function WithSide(shape: Shape, s: bool, x: bool): (t: Triple)
    requires Proper(shape)
    ensures t in shape && Offers(Side(t, s), x)
  {
    if s then WithParts(shape, x, true) else WithParts(shape, true, x)
  }

  // ---------- groups ----------

  ghost predicate From(ts: seq<Triple>, shapes: seq<Shape>) {
    |ts| == |shapes| && forall i :: 0 <= i < |ts| ==> ts[i] in shapes[i]
  }

  ghost predicate AllProper(shapes: seq<Shape>) {
    forall i :: 0 <= i < |shapes| ==> Proper(shapes[i])
  }

  function Values(ts: seq<Triple>): seq<bool> {
    if ts == [] then [] else Values(ts[..|ts| - 1]) + [ts[|ts| - 1].v]
  }

  function AsBools(part: Option<bool>): seq<bool> {
    match part case Some(b) => [b] case None => []
  }

  function SideValues(ts: seq<Triple>, s: bool): seq<bool> {
    if ts == [] then [] else SideValues(ts[..|ts| - 1], s) + AsBools(Side(ts[|ts| - 1], s))
  }

  ghost predicate Value(o: LogicalOperator, bs: seq<bool>) {
    Combined(o, bs) == Ok(true)
  }

  /** Some member lies, at least in part, on the side. */
  ghost predicate Present(shapes: seq<Shape>, s: bool) {
    exists i :: 0 <= i < |shapes| && !OnlyOn(shapes[i], !s)
  }

  ghost predicate GroupTellsConjunction(o: LogicalOperator, shapes: seq<Shape>) {
    exists ts :: From(ts, shapes) &&
      Value(o, Values(ts)) != (Value(o, SideValues(ts, true)) && Value(o, SideValues(ts, false)))
  }

  ghost predicate GroupTellsDisjunction(o: LogicalOperator, shapes: seq<Shape>) {
    exists ts :: From(ts, shapes) &&
      Value(o, Values(ts)) != (Value(o, SideValues(ts, true)) || Value(o, SideValues(ts, false)))
  }

  // ---------- And ----------

  lemma {:induction false} AndValues(ts: seq<Triple>)
    ensures false in Values(ts) <==> exists i :: 0 <= i < |ts| && !ts[i].v
    ensures |Values(ts)| == |ts|
  {
    if ts != [] {
      var init := ts[..|ts| - 1];
      AndValues(init);
      assert forall i :: 0 <= i < |init| ==> ts[i] == init[i];
    }
  }

  lemma {:induction false} SideHas(ts: seq<Triple>, s: bool, b: bool)
    ensures b in SideValues(ts, s) <==> exists i :: 0 <= i < |ts| && Side(ts[i], s) == Some(b)
  {
    hide Side;
    if ts != [] {
      var init := ts[..|ts| - 1];
      SideHas(init, s, b);
      assert forall i :: 0 <= i < |init| ==> ts[i] == init[i];
    }
  }

  lemma {:induction false} AndSide(ts: seq<Triple>, s: bool)
    ensures false in SideValues(ts, s) <==> exists i :: 0 <= i < |ts| && Side(ts[i], s) == Some(false)
    ensures SideValues(ts, s) != [] <==> exists i :: 0 <= i < |ts| && Side(ts[i], s).Some?
  {
    hide Side, SideValues;
    SideHas(ts, s, true);
    SideHas(ts, s, false);
    if SideValues(ts, s) != [] {
      SideHas(ts, s, SideValues(ts, s)[0]);
    }
    if i :| 0 <= i < |ts| && Side(ts[i], s).Some? {
      assert Side(ts[i], s) == Some(if Side(ts[i], s).value then true else false);
    }
  }

  /** A side that some member lies on has a value there in every choice. */
  lemma {:induction false} SidePresent(ts: seq<Triple>, shapes: seq<Shape>, s: bool)
    requires From(ts, shapes) && AllProper(shapes) && Present(shapes, s)
    ensures exists i :: 0 <= i < |ts| && Side(ts[i], s).Some?
    ensures SideValues(ts, s) != []
  {
    var i :| 0 <= i < |shapes| && !OnlyOn(shapes[i], !s);
    assert Proper(shapes[i]) && ts[i] in shapes[i];
    assert Side(ts[i], s).Some?;
    AndSide(ts, s);
  }

  lemma {:induction false} AndWhole(ts: seq<Triple>, shapes: seq<Shape>)
    requires From(ts, shapes) && AllProper(shapes) && Present(shapes, true) && Present(shapes, false)
    ensures Value(And, Values(ts)) <==> forall i :: 0 <= i < |ts| ==> ts[i].v
    ensures forall s :: Value(And, SideValues(ts, s)) <==> forall i :: 0 <= i < |ts| ==> Side(ts[i], s) != Some(false)
  {
    AndValues(ts);
    forall s
      ensures Value(And, SideValues(ts, s)) <==> forall i :: 0 <= i < |ts| ==> Side(ts[i], s) != Some(false)
    {
      AndSide(ts, s);
      SidePresent(ts, shapes, s);
    }
    SidePresent(ts, shapes, true);
  }

  ghost function AllWithValue(shapes: seq<Shape>, v: bool): (ts: seq<Triple>)
    requires AllProper(shapes)
    ensures From(ts, shapes) && forall i :: 0 <= i < |ts| ==> ts[i].v == v
  {
    seq(|shapes|, i requires 0 <= i < |shapes| => WithValue(shapes[i], v))
  }

  ghost function AllWithParts(shapes: seq<Shape>, x: bool, y: bool): (ts: seq<Triple>)
    requires AllProper(shapes)
    ensures From(ts, shapes) && forall i :: 0 <= i < |ts| ==> Offers(ts[i].d, x) && Offers(ts[i].p, y)
  {
    seq(|shapes|, i requires 0 <= i < |shapes| => WithParts(shapes[i], x, y))
  }

  /** The group's value and the values of its parts under And, as plain facts about the members' triples. */
  lemma {:induction false} AndOutcome(ts: seq<Triple>, shapes: seq<Shape>, s: bool)
    requires From(ts, shapes) && AllProper(shapes) && Present(shapes, true) && Present(shapes, false)
    ensures Value(And, Values(ts)) <==> forall i :: 0 <= i < |ts| ==> ts[i].v
    ensures Value(And, SideValues(ts, s)) <==> forall i :: 0 <= i < |ts| ==> Side(ts[i], s) != Some(false)
  {
    AndWhole(ts, shapes);
  }

  /** True although one part is false. */
  lemma {:induction false} AndTrue(ts: seq<Triple>, shapes: seq<Shape>, i: nat, s: bool)
    requires From(ts, shapes) && AllProper(shapes) && Present(shapes, true) && Present(shapes, false)
    requires forall j :: 0 <= j < |ts| ==> ts[j].v
    requires i < |ts| && Side(ts[i], s) == Some(false)
    ensures Value(And, Values(ts)) && !Value(And, SideValues(ts, s))
  {
    AndOutcome(ts, shapes, s);
  }

  /** False although one part is true. */
  lemma {:induction false} AndFalse(ts: seq<Triple>, shapes: seq<Shape>, i: nat, s: bool)
    requires From(ts, shapes) && AllProper(shapes) && Present(shapes, true) && Present(shapes, false)
    requires i < |ts| && !ts[i].v
    requires forall j :: 0 <= j < |ts| ==> Side(ts[j], s) != Some(false)
    ensures !Value(And, Values(ts)) && Value(And, SideValues(ts, s))
  {
    AndOutcome(ts, shapes, s);
  }

  /** One member that is not the conjunction of its parts keeps an And from being one. */
  lemma {:induction false} AndTellsConjunction(shapes: seq<Shape>, i: nat)
    requires AllProper(shapes) && Present(shapes, true) && Present(shapes, false)
    requires i < |shapes| && TellsConjunction(shapes[i])
    ensures GroupTellsConjunction(And, shapes)
  {
    var t :| t in shapes[i] && t.d.Some? && t.p.Some? && t.v != (t.d.value && t.p.value);
    hide Value, Proper, Values, SideValues, Present, GroupTellsConjunction;
    if t.v {
      var ts := AllWithValue(shapes, true)[i := t];
      assert ts[i] == t;
      AndTrue(ts, shapes, i, t.d == Some(false));
      OutcomeTells(And, ts, shapes, t.d == Some(false));
    } else {
      var ts := AllWithParts(shapes, true, true)[i := t];
      assert ts[i] == t;
      AndFalse(ts, shapes, i, true);
      AndFalse(ts, shapes, i, false);
      TellsConjunctionIf(And, ts, shapes);
    }
  }

  /** An And of two or more members is never the disjunction of its parts. */
  lemma {:induction false} AndTellsDisjunction(shapes: seq<Shape>)
    requires AllProper(shapes) && Present(shapes, true) && Present(shapes, false) && |shapes| >= 2
    ensures GroupTellsDisjunction(And, shapes)
  {
    if i :| 0 <= i < |shapes| && TellsDisjunction(shapes[i]) {
      AndMemberTells(shapes, i);
    } else if i, s :| 0 <= i < |shapes| && OnlyOn(shapes[i], s) {
      AndOneSided(shapes, i, s);
    } else {
      AndDisjunctions(shapes);
    }
  }

  lemma {:induction false} AndMemberTells(shapes: seq<Shape>, i: nat)
    requires AllProper(shapes) && Present(shapes, true) && Present(shapes, false)
    requires i < |shapes| && TellsDisjunction(shapes[i])
    ensures GroupTellsDisjunction(And, shapes)
  {
    var t :| t in shapes[i] && t.d.Some? && t.p.Some? && t.v != (t.d.value || t.p.value);
    hide Value, Proper, Values, SideValues, Present, GroupTellsDisjunction;
    if t.v {
      var ts := AllWithValue(shapes, true)[i := t];
      assert ts[i] == t;
      AndTrue(ts, shapes, i, true);
      AndTrue(ts, shapes, i, false);
      TellsDisjunctionIf(And, ts, shapes);
    } else {
      var ts := AllWithParts(shapes, true, true)[i := t];
      assert ts[i] == t;
      AndFalse(ts, shapes, i, t.d == Some(true));
      OutcomeTells(And, ts, shapes, t.d == Some(true));
    }
  }

  lemma {:induction false} AndOneSided(shapes: seq<Shape>, i: nat, s: bool)
    requires AllProper(shapes) && Present(shapes, true) && Present(shapes, false)
    requires i < |shapes| && OnlyOn(shapes[i], s)
    ensures GroupTellsDisjunction(And, shapes)
  {
    var t := WithValue(shapes[i], false);
    var ts := AllWithParts(shapes, true, true)[i := t];
    assert ts[i] == t && Side(t, !s) == None;
    hide Value, Proper, Values, SideValues, Present;
    AndFalse(ts, shapes, i, !s);
  }

  lemma {:induction false} SidesOf(t: Triple)
    ensures Side(t, true) == t.d && Side(t, false) == t.p
  {
  }

  lemma {:induction false} AndDisjunctions(shapes: seq<Shape>)
    requires AllProper(shapes) && Present(shapes, true) && Present(shapes, false) && |shapes| >= 2
    requires forall i :: 0 <= i < |shapes| ==> SplitShape(shapes[i]) && !TellsDisjunction(shapes[i])
    ensures GroupTellsDisjunction(And, shapes)
  {
    var t, u := WithParts(shapes[0], true, false), WithParts(shapes[1], false, true);
    assert t.d == Some(true) && t.p == Some(false) && u.d == Some(false) && u.p == Some(true);
    assert t.v && u.v;
    var base := AllWithValue(shapes, true);
    hide *;
    FromTwice(base, shapes, 0, t, 1, u);
    var ts := base[0 := t][1 := u];
    SidesOf(t);
    SidesOf(u);
    AndTrue(ts, shapes, 1, true);
    AndTrue(ts, shapes, 0, false);
    TellsDisjunctionIf(And, ts, shapes);
  }

  // ---------- Nor and Nand ----------

  function NotPart(part: Option<bool>): Option<bool> {
    match part case Some(b) => Some(!b) case None => None
  }

  function NotTriple(t: Triple): (r: Triple)
    ensures forall s :: Side(r, s) == NotPart(Side(t, s))
  {
    Triple(!t.v, NotPart(t.d), NotPart(t.p))
  }

  ghost function NotShape(shape: Shape): Shape {
    iset t: Triple | NotTriple(t) in shape
  }

  ghost function NotShapes(shapes: seq<Shape>): (r: seq<Shape>)
    ensures |r| == |shapes| && forall i :: 0 <= i < |r| ==> r[i] == NotShape(shapes[i])
  {
    seq(|shapes|, i requires 0 <= i < |shapes| => NotShape(shapes[i]))
  }

  function NotTriples(ts: seq<Triple>): (r: seq<Triple>)
    ensures |r| == |ts| && forall i :: 0 <= i < |r| ==> r[i] == NotTriple(ts[i])
  {
    seq(|ts|, i requires 0 <= i < |ts| => NotTriple(ts[i]))
  }

  lemma {:induction false} NotTwice(t: Triple)
    ensures NotTriple(NotTriple(t)) == t
  {
  }

  lemma {:induction false} NotShapeOnly(shape: Shape, s: bool)
    ensures OnlyOn(NotShape(shape), s) <==> OnlyOn(shape, s)
  {
    forall t
      ensures NotTriple(NotTriple(t)) == t && (t in NotShape(shape) <==> NotTriple(t) in shape)
      ensures NotTriple(t) in NotShape(shape) <==> t in shape
    {
      NotTwice(t);
    }
    if OnlyOn(NotShape(shape), s) {
      forall t
        ensures t in shape <==> t == (if s then Triple(t.v, Some(t.v), None) else Triple(t.v, None, Some(t.v)))
      {
        assert NotTriple(t) in NotShape(shape) <==> t in shape;
      }
    }
    if OnlyOn(shape, s) {
      forall t
        ensures t in NotShape(shape) <==>
          t == if s then Triple(t.v, Some(t.v), None) else Triple(t.v, None, Some(t.v))
      {
        assert t in NotShape(shape) <==> NotTriple(t) in shape;
      }
    }
  }

  lemma {:induction false} NotShapeSplit(shape: Shape)
    requires SplitShape(shape)
    ensures SplitShape(NotShape(shape))
  {
    var r := NotShape(shape);
    forall x, y
      ensures Reaches(r, x, y)
    {
      assert Reaches(shape, !x, !y);
      var v :| Triple(v, Some(!x), Some(!y)) in shape;
      assert NotTriple(Triple(!v, Some(x), Some(y))) in shape;
      assert Triple(!v, Some(x), Some(y)) in r;
    }
    forall v
      ensures Takes(r, v)
    {
      assert Takes(shape, !v);
      var t :| t in shape && t.v == !v;
      NotTwice(t);
      assert NotTriple(t) in r;
    }
  }

  lemma {:induction false} NotShapeTells(shape: Shape)
    ensures TellsDisjunction(shape) ==> TellsConjunction(NotShape(shape))
    ensures TellsConjunction(shape) ==> TellsDisjunction(NotShape(shape))
  {
    if TellsDisjunction(shape) {
      var t :| t in shape && t.d.Some? && t.p.Some? && t.v != (t.d.value || t.p.value);
      NotTwice(t);
      assert NotTriple(t) in NotShape(shape);
    }
    if TellsConjunction(shape) {
      var t :| t in shape && t.d.Some? && t.p.Some? && t.v != (t.d.value && t.p.value);
      NotTwice(t);
      assert NotTriple(t) in NotShape(shape);
    }
  }

  lemma {:induction false} NotShapesProper(shapes: seq<Shape>)
    requires AllProper(shapes)
    ensures AllProper(NotShapes(shapes))
    ensures forall s :: Present(shapes, s) ==> Present(NotShapes(shapes), s)
  {
    forall i | 0 <= i < |shapes|
      ensures Proper(NotShape(shapes[i]))
      ensures forall s :: OnlyOn(NotShape(shapes[i]), s) <==> OnlyOn(shapes[i], s)
    {
      NotShapeOnly(shapes[i], true);
      NotShapeOnly(shapes[i], false);
      assert Proper(shapes[i]);
      if SplitShape(shapes[i]) {
        NotShapeSplit(shapes[i]);
      }
    }
    hide OnlyOn, SplitShape, NotShape;
    forall s | Present(shapes, s)
      ensures Present(NotShapes(shapes), s)
    {
      var i :| 0 <= i < |shapes| && !OnlyOn(shapes[i], !s);
      assert !OnlyOn(NotShapes(shapes)[i], !s);
    }
  }

  function NotBools(bs: seq<bool>): (r: seq<bool>)
    ensures |r| == |bs| && forall i :: 0 <= i < |r| ==> r[i] == !bs[i]
  {
    seq(|bs|, i requires 0 <= i < |bs| => !bs[i])
  }

  lemma {:induction false} NotValues(ts: seq<Triple>)
    ensures Values(NotTriples(ts)) == NotBools(Values(ts))
  {
    if ts != [] {
      NotValues(ts[..|ts| - 1]);
      assert NotTriples(ts)[..|ts| - 1] == NotTriples(ts[..|ts| - 1]);
    }
  }

  lemma {:induction false} NotSideValues(ts: seq<Triple>, s: bool)
    ensures SideValues(NotTriples(ts), s) == NotBools(SideValues(ts, s))
  {
    if ts != [] {
      NotSideValues(ts[..|ts| - 1], s);
      assert NotTriples(ts)[..|ts| - 1] == NotTriples(ts[..|ts| - 1]);
      assert AsBools(Side(NotTriple(ts[|ts| - 1]), s)) == NotBools(AsBools(Side(ts[|ts| - 1], s)));
    }
  }

  lemma {:induction false} NotFrom(us: seq<Triple>, shapes: seq<Shape>)
    requires From(us, NotShapes(shapes))
    ensures From(NotTriples(us), shapes)
  {
    assert forall i :: 0 <= i < |us| ==> us[i] in NotShape(shapes[i]);
  }

  /** Nor is And of the negations; Nand is the negation of And. */
  lemma {:induction false} NorIsAnd(bs: seq<bool>)
    requires bs != []
    ensures Value(Nor, NotBools(bs)) <==> Value(And, bs)
    ensures Value(Nand, bs) <==> !Value(And, bs)
  {
    var ns := NotBools(bs);
    if true in ns {
      var i :| 0 <= i < |ns| && ns[i] == true;
      assert bs[i] == false;
    }
    if false in bs {
      var i :| 0 <= i < |bs| && bs[i] == false;
      assert ns[i] == true;
    }
  }

  lemma {:induction false} NonEmptyValues(ts: seq<Triple>, shapes: seq<Shape>)
    requires From(ts, shapes) && AllProper(shapes) && Present(shapes, true) && Present(shapes, false)
    ensures Values(ts) != [] && SideValues(ts, true) != [] && SideValues(ts, false) != []
  {
    SidePresent(ts, shapes, true);
    SidePresent(ts, shapes, false);
    AndValues(ts);
  }

  lemma {:induction false} TellingConjunction(o: LogicalOperator, shapes: seq<Shape>) returns (ts: seq<Triple>)
    requires GroupTellsConjunction(o, shapes)
    ensures From(ts, shapes)
    ensures Value(o, Values(ts)) != (Value(o, SideValues(ts, true)) && Value(o, SideValues(ts, false)))
  {
    hide Value, Values, SideValues, From;
    ts :| From(ts, shapes) &&
      Value(o, Values(ts)) != (Value(o, SideValues(ts, true)) && Value(o, SideValues(ts, false)));
  }

  lemma {:induction false} TellingDisjunction(o: LogicalOperator, shapes: seq<Shape>) returns (ts: seq<Triple>)
    requires GroupTellsDisjunction(o, shapes)
    ensures From(ts, shapes)
    ensures Value(o, Values(ts)) != (Value(o, SideValues(ts, true)) || Value(o, SideValues(ts, false)))
  {
    hide Value, Values, SideValues, From;
    ts :| From(ts, shapes) &&
      Value(o, Values(ts)) != (Value(o, SideValues(ts, true)) || Value(o, SideValues(ts, false)));
  }

  lemma {:induction false} TellsConjunctionIf(o: LogicalOperator, ts: seq<Triple>, shapes: seq<Shape>)
    requires From(ts, shapes)
    requires Value(o, Values(ts)) != (Value(o, SideValues(ts, true)) && Value(o, SideValues(ts, false)))
    ensures GroupTellsConjunction(o, shapes)
  {
    hide Value, Values, SideValues, From;
  }

  lemma {:induction false} TellsDisjunctionIf(o: LogicalOperator, ts: seq<Triple>, shapes: seq<Shape>)
    requires From(ts, shapes)
    requires Value(o, Values(ts)) != (Value(o, SideValues(ts, true)) || Value(o, SideValues(ts, false)))
    ensures GroupTellsDisjunction(o, shapes)
  {
    hide Value, Values, SideValues, From;
  }

  lemma {:induction false} NorAt(us: seq<Triple>, shapes: seq<Shape>)
    requires AllProper(shapes) && Present(shapes, true) && Present(shapes, false)
    requires From(us, NotShapes(shapes))
    ensures From(NotTriples(us), shapes)
    ensures Value(Nor, Values(NotTriples(us))) == Value(And, Values(us))
    ensures Value(Nor, SideValues(NotTriples(us), true)) == Value(And, SideValues(us, true))
    ensures Value(Nor, SideValues(NotTriples(us), false)) == Value(And, SideValues(us, false))
  {
    hide *;
    NotShapesProper(shapes);
    NotFrom(us, shapes);
    NonEmptyValues(us, NotShapes(shapes));
    NotValues(us);
    NotSideValues(us, true);
    NotSideValues(us, false);
    NorIsAnd(Values(us));
    NorIsAnd(SideValues(us, true));
    NorIsAnd(SideValues(us, false));
  }

  lemma {:induction false} NandAt(ts: seq<Triple>, shapes: seq<Shape>)
    requires AllProper(shapes) && Present(shapes, true) && Present(shapes, false) && From(ts, shapes)
    ensures Value(Nand, Values(ts)) == !Value(And, Values(ts))
    ensures Value(Nand, SideValues(ts, true)) == !Value(And, SideValues(ts, true))
    ensures Value(Nand, SideValues(ts, false)) == !Value(And, SideValues(ts, false))
  {
    hide *;
    NonEmptyValues(ts, shapes);
    NorIsAnd(Values(ts));
    NorIsAnd(SideValues(ts, true));
    NorIsAnd(SideValues(ts, false));
  }

  lemma {:induction false} NorTells(shapes: seq<Shape>)
    requires AllProper(shapes) && Present(shapes, true) && Present(shapes, false)
    ensures GroupTellsConjunction(And, NotShapes(shapes)) ==> GroupTellsConjunction(Nor, shapes)
    ensures GroupTellsDisjunction(And, NotShapes(shapes)) ==> GroupTellsDisjunction(Nor, shapes)
  {
    NotShapesProper(shapes);
    hide *;
    if GroupTellsConjunction(And, NotShapes(shapes)) {
      var us := TellingConjunction(And, NotShapes(shapes));
      NorAt(us, shapes);
      TellsConjunctionIf(Nor, NotTriples(us), shapes);
    }
    if GroupTellsDisjunction(And, NotShapes(shapes)) {
      var us := TellingDisjunction(And, NotShapes(shapes));
      NorAt(us, shapes);
      TellsDisjunctionIf(Nor, NotTriples(us), shapes);
    }
  }

  lemma {:induction false} NandTells(shapes: seq<Shape>)
    requires AllProper(shapes) && Present(shapes, true) && Present(shapes, false)
    ensures GroupTellsConjunction(And, shapes) ==> GroupTellsDisjunction(Nand, shapes)
    ensures GroupTellsDisjunction(And, shapes) ==> GroupTellsConjunction(Nand, shapes)
  {
    hide *;
    if GroupTellsConjunction(And, shapes) {
      var ts := TellingConjunction(And, shapes);
      NandAt(ts, shapes);
      TellsDisjunctionIf(Nand, ts, shapes);
    }
    if GroupTellsDisjunction(And, shapes) {
      var ts := TellingDisjunction(And, shapes);
      NandAt(ts, shapes);
      TellsConjunctionIf(Nand, ts, shapes);
    }
  }

  // ---------- Xor and Xnor ----------

  datatype Which = Whole | OnSide(s: bool)

  function Weight(t: Triple, k: Which): nat {
    match k
    case Whole => if t.v then 1 else 0
    case OnSide(s) => if Side(t, s) == Some(true) then 1 else 0
  }

  function Tally(ts: seq<Triple>, k: Which): nat {
    if ts == [] then 0 else Tally(ts[..|ts| - 1], k) + Weight(ts[|ts| - 1], k)
  }

  lemma {:induction false} TallyUpdate(ts: seq<Triple>, i: nat, t: Triple, k: Which)
    requires i < |ts|
    ensures Tally(ts[i := t], k) == Tally(ts, k) - Weight(ts[i], k) + Weight(t, k)
  {
    var us := ts[i := t];
    if i < |ts| - 1 {
      TallyUpdate(ts[..|ts| - 1], i, t, k);
      assert us[..|ts| - 1] == ts[..|ts| - 1][i := t];
    } else {
      assert us[..|ts| - 1] == ts[..|ts| - 1];
    }
  }

  lemma {:induction false} TallyCounts(ts: seq<Triple>)
    ensures CountTrue(Values(ts)) == Tally(ts, Whole) && |Values(ts)| == |ts|
    ensures forall s :: CountTrue(SideValues(ts, s)) == Tally(ts, OnSide(s))
  {
    if ts != [] {
      var init, last := ts[..|ts| - 1], ts[|ts| - 1];
      TallyCounts(init);
      assert (Values(init) + [last.v])[..|Values(init)|] == Values(init);
      forall s
        ensures CountTrue(SideValues(ts, s)) == Tally(ts, OnSide(s))
      {
        var before := SideValues(init, s);
        match Side(last, s) {
          case None => assert before + [] == before;
          case Some(b) => assert (before + [b])[..|before|] == before;
        }
      }
    }
  }

  predicate Even(n: int) {
    n % 2 == 0
  }

  lemma {:induction false} CountOutcome(bs: seq<bool>)
    requires bs != []
    ensures Value(Xor, bs) <==> CountTrue(bs) == 1
    ensures Value(Xnor, bs) <==> Even(CountTrue(bs))
  {
    hide CountTrue;
  }

  lemma {:induction false} TallyOutcome(ts: seq<Triple>, shapes: seq<Shape>, s: bool)
    requires From(ts, shapes) && AllProper(shapes) && Present(shapes, true) && Present(shapes, false)
    ensures Value(Xor, Values(ts)) <==> Tally(ts, Whole) == 1
    ensures Value(Xor, SideValues(ts, s)) <==> Tally(ts, OnSide(s)) == 1
    ensures Value(Xnor, Values(ts)) <==> Even(Tally(ts, Whole))
    ensures Value(Xnor, SideValues(ts, s)) <==> Even(Tally(ts, OnSide(s)))
  {
    NonEmptyValues(ts, shapes);
    TallyCounts(ts);
    hide *;
    CountOutcome(Values(ts));
    CountOutcome(SideValues(ts, s));
  }

  lemma {:induction false} TallyNone(ts: seq<Triple>, k: Which)
    requires forall i :: 0 <= i < |ts| ==> Weight(ts[i], k) == 0
    ensures Tally(ts, k) == 0
  {
    if ts != [] {
      TallyNone(ts[..|ts| - 1], k);
    }
  }

  /** What suffices: the group true with one part false, or the group false with one part true. */
  lemma {:induction false} OutcomeTells(o: LogicalOperator, ts: seq<Triple>, shapes: seq<Shape>, s: bool)
    requires From(ts, shapes)
    ensures Value(o, Values(ts)) && !Value(o, SideValues(ts, s)) ==> GroupTellsConjunction(o, shapes)
    ensures !Value(o, Values(ts)) && Value(o, SideValues(ts, s)) ==> GroupTellsDisjunction(o, shapes)
  {
    hide Value, Values, SideValues, From;
  }

  /** Two choices for a split member that differ in its value and agree on one of its parts. */
  lemma {:induction false} Agreeing(shape: Shape) returns (t: Triple, u: Triple, s: bool)
    requires SplitShape(shape)
    ensures t in shape && u in shape && t.v && !u.v && Side(t, s) == Side(u, s) && Side(t, s).Some?
  {
    assert Takes(shape, true) && Takes(shape, false);
    t :| t in shape && t.v;
    u :| u in shape && !u.v;
    if t.d == u.d {
      s := true;
    } else if t.p == u.p {
      s := false;
    } else {
      assert Reaches(shape, t.d.value, u.p.value);
      var v :| Triple(v, Some(t.d.value), Some(u.p.value)) in shape;
      if v {
        t, s := Triple(v, Some(t.d.value), Some(u.p.value)), false;
      } else {
        u, s := Triple(v, Some(t.d.value), Some(u.p.value)), true;
      }
    }
  }

  /** A member that is present on the other side of a one-sided member. */
  lemma {:induction false} OtherMember(shapes: seq<Shape>, c: nat, s: bool) returns (j: nat)
    requires AllProper(shapes) && Present(shapes, !s) && c < |shapes| && OnlyOn(shapes[c], s)
    ensures j < |shapes| && j != c && forall t :: t in shapes[j] ==> Side(t, !s).Some?
  {
    j :| 0 <= j < |shapes| && !OnlyOn(shapes[j], s);
    assert Proper(shapes[j]);
  }

  /** Replacing two members, as the tallies see it. */
  lemma {:induction false} TallyTwice(ts: seq<Triple>, i: nat, t: Triple, j: nat, u: Triple, k: Which)
    requires i < |ts| && j < |ts| && i != j
    ensures
      Tally(ts[i := t][j := u], k) ==
      Tally(ts, k) - Weight(ts[i], k) - Weight(ts[j], k) + Weight(t, k) + Weight(u, k)
  {
    TallyUpdate(ts, i, t, k);
    TallyUpdate(ts[i := t], j, u, k);
  }

  lemma {:induction false} FromTwice(ts: seq<Triple>, shapes: seq<Shape>, i: nat, t: Triple, j: nat, u: Triple)
    requires From(ts, shapes) && i < |ts| && j < |ts| && i != j && t in shapes[i] && u in shapes[j]
    ensures From(ts[i := t][j := u], shapes)
  {
  }

  lemma {:induction false} TallyRest(ts: seq<Triple>, i: nat, j: nat, k: Which)
    requires i < |ts| && j < |ts| && i != j
    ensures Tally(ts, k) >= Weight(ts[i], k) + Weight(ts[j], k)
  {
    var none := Triple(false, None, None);
    TallyTwice(ts, i, none, j, none, k);
  }

  lemma {:induction false} NothingTrue(shapes: seq<Shape>)
    requires AllProper(shapes)
    ensures Tally(AllWithValue(shapes, false), Whole) == 0
  {
    TallyNone(AllWithValue(shapes, false), Whole);
  }

  lemma {:induction false} NoPartTrue(shapes: seq<Shape>, s: bool)
    requires AllProper(shapes)
    ensures Tally(AllWithParts(shapes, false, false), OnSide(s)) == 0
  {
    TallyNone(AllWithParts(shapes, false, false), OnSide(s));
  }

  lemma {:induction false} AllFromShapes(shapes: seq<Shape>)
    requires AllProper(shapes)
    ensures From(AllWithValue(shapes, false), shapes) && From(AllWithParts(shapes, false, false), shapes)
    ensures forall i :: 0 <= i < |shapes| ==> !AllWithValue(shapes, false)[i].v
    ensures forall i, s :: 0 <= i < |shapes| ==> Weight(AllWithParts(shapes, false, false)[i], OnSide(s)) == 0
  {
    hide Proper;
  }

  /** A tally after two members of a choice have been replaced. */
  function Replaced(base: seq<Triple>, i: nat, t: Triple, j: nat, u: Triple, k: Which): int
    requires i < |base| && j < |base|
  {
    Tally(base, k) - Weight(base[i], k) - Weight(base[j], k) + Weight(t, k) + Weight(u, k)
  }

  /** What the tallies after two replacements prove. */
  lemma {:induction false} ReplacedTells(
    shapes: seq<Shape>, base: seq<Triple>, i: nat, t: Triple, j: nat, u: Triple, s: bool)
    requires AllProper(shapes) && Present(shapes, true) && Present(shapes, false) && From(base, shapes)
    requires i < |base| && j < |base| && i != j && t in shapes[i] && u in shapes[j]
    ensures
      var whole, part := Replaced(base, i, t, j, u, Whole), Replaced(base, i, t, j, u, OnSide(s));
      && (whole == 1 && part != 1 ==> GroupTellsConjunction(Xor, shapes))
      && (whole != 1 && part == 1 ==> GroupTellsDisjunction(Xor, shapes))
      && (Even(whole) && !Even(part) ==> GroupTellsConjunction(Xnor, shapes))
      && (!Even(whole) && Even(part) ==> GroupTellsDisjunction(Xnor, shapes))
  {
    var ts := base[i := t][j := u];
    hide *;
    FromTwice(base, shapes, i, t, j, u);
    ReplacedIs(base, i, t, j, u, Whole);
    ReplacedIs(base, i, t, j, u, OnSide(s));
    TallyOutcome(ts, shapes, s);
    OutcomeTells(Xor, ts, shapes, s);
    OutcomeTells(Xnor, ts, shapes, s);
  }

  lemma {:induction false} WeightOf(t: Triple, s: bool)
    ensures Weight(t, Whole) == if t.v then 1 else 0
    ensures Side(t, s).None? ==> Weight(t, OnSide(s)) == 0
    ensures Side(t, s).Some? ==> Weight(t, OnSide(s)) == if Side(t, s).value then 1 else 0
  {
  }

  lemma {:induction false} OneSidedTriple(shape: Shape, s: bool, v: bool) returns (t: Triple)
    requires OnlyOn(shape, s)
    ensures t in shape && t.v == v && Weight(t, Whole) == (if v then 1 else 0) && Weight(t, OnSide(!s)) == 0
  {
    t := if s then Triple(v, Some(v), None) else Triple(v, None, Some(v));
  }

  /** A choice for a member that has a value on a side. */
  lemma {:induction false} SideTriple(shape: Shape, s: bool, x: bool) returns (t: Triple)
    requires Proper(shape) && forall t :: t in shape ==> Side(t, s).Some?
    ensures t in shape && Weight(t, OnSide(s)) == (if x then 1 else 0) && Weight(t, Whole) <= 1 && Side(t, s) == Some(x)
  {
    t := WithSide(shape, s, x);
  }

  lemma {:induction false} EvenNext(n: int)
    ensures Even(n + 1) <==> !Even(n)
  {
  }

  /** A choice whose part makes a sum even, or odd. */
  lemma {:induction false} SideParity(shape: Shape, s: bool, r: int, even: bool) returns (t: Triple)
    requires Proper(shape) && forall t :: t in shape ==> Side(t, s).Some?
    ensures t in shape && (Even(r + Weight(t, OnSide(s))) <==> even)
  {
    hide Proper, Even, Weight;
    EvenNext(r);
    t := SideTriple(shape, s, Even(r) != even);
  }

  /** A choice whose value makes a sum even, or odd, and that has no value on the other side. */
  lemma {:induction false} ValueParity(shape: Shape, s: bool, m: int, even: bool) returns (t: Triple)
    requires OnlyOn(shape, s)
    ensures t in shape && (Even(m + Weight(t, Whole)) <==> even) && Weight(t, OnSide(!s)) == 0
  {
    hide Even, Weight, OnlyOn;
    EvenNext(m);
    t := OneSidedTriple(shape, s, Even(m) != even);
  }

  /** Exactly one, or an even number, with a member on one side only: it moves the group, not the other part. */
  lemma {:induction false} BesideOneSided(shapes: seq<Shape>, c: nat, s: bool)
    requires AllProper(shapes) && Present(shapes, true) && Present(shapes, false)
    requires c < |shapes| && OnlyOn(shapes[c], s)
    ensures GroupTellsConjunction(Xor, shapes) && GroupTellsDisjunction(Xor, shapes)
    ensures GroupTellsConjunction(Xnor, shapes) && GroupTellsDisjunction(Xnor, shapes)
  {
    var j := OtherMember(shapes, c, s);
    assert Proper(shapes[j]);
    hide Proper, AllProper, Present, OnlyOn, GroupTellsConjunction, GroupTellsDisjunction;
    XorConjunctionBeside(shapes, c, s, j);
    XorDisjunctionBeside(shapes, c, s, j);
    XnorBeside(shapes, c, s, j, true);
    XnorBeside(shapes, c, s, j, false);
  }

  /** Exactly one member true while the other part is not: the one-sided member completes the count. */
  lemma {:induction false} OneBeside(shapes: seq<Shape>, base: seq<Triple>, c: nat, s: bool, j: nat)
    returns (t: Triple, u: Triple)
    requires |base| == |shapes| && c < |shapes| && OnlyOn(shapes[c], s) && j < |shapes| && j != c && Proper(shapes[j])
    requires Tally(base, Whole) == 0 && forall x :: x in shapes[j] ==> Side(x, !s).Some?
    ensures t in shapes[j] && u in shapes[c]
    ensures Replaced(base, j, t, c, u, Whole) == 1 && Replaced(base, j, t, c, u, OnSide(!s)) != 1
  {
    hide *;
    TallyRest(base, j, c, Whole);
    var r := Tally(base, OnSide(!s)) - Weight(base[j], OnSide(!s)) - Weight(base[c], OnSide(!s));
    t := SideTriple(shapes[j], !s, r == 1);
    WeightOf(t, !s);
    u := OneSidedTriple(shapes[c], s, !t.v);
    ReplacedIs(base, j, t, c, u, Whole);
    ReplacedIs(base, j, t, c, u, OnSide(!s));
  }

  lemma {:induction false} XorConjunctionBeside(shapes: seq<Shape>, c: nat, s: bool, j: nat)
    requires AllProper(shapes) && Present(shapes, true) && Present(shapes, false)
    requires c < |shapes| && OnlyOn(shapes[c], s) && j < |shapes| && j != c && Proper(shapes[j])
    requires forall t :: t in shapes[j] ==> Side(t, !s).Some?
    ensures GroupTellsConjunction(Xor, shapes)
  {
    var base := AllWithValue(shapes, false);
    AllFromShapes(shapes);
    NothingTrue(shapes);
    hide *;
    var t, u := OneBeside(shapes, base, c, s, j);
    ReplacedTells(shapes, base, j, t, c, u, !s);
  }

  lemma {:induction false} ReplacedIs(base: seq<Triple>, i: nat, t: Triple, j: nat, u: Triple, k: Which)
    requires i < |base| && j < |base|
    ensures Replaced(base, i, t, j, u, k) ==
            Tally(base, k) - Weight(base[i], k) - Weight(base[j], k) + Weight(t, k) + Weight(u, k)
    ensures i != j ==> Tally(base[i := t][j := u], k) == Replaced(base, i, t, j, u, k)
  {
    hide Tally, Weight;
    if i != j {
      TallyTwice(base, i, t, j, u, k);
    }
  }

  /** The other part true while the number of true members is not one. */
  lemma {:induction false} NotOneBeside(shapes: seq<Shape>, base: seq<Triple>, c: nat, s: bool, j: nat)
    returns (t: Triple, u: Triple)
    requires |base| == |shapes| && c < |shapes| && OnlyOn(shapes[c], s) && j < |shapes| && j != c && Proper(shapes[j])
    requires Tally(base, OnSide(!s)) == 0 && forall x :: x in shapes[j] ==> Side(x, !s).Some?
    ensures t in shapes[j] && u in shapes[c]
    ensures Replaced(base, j, t, c, u, Whole) != 1 && Replaced(base, j, t, c, u, OnSide(!s)) == 1
  {
    hide *;
    TallyRest(base, j, c, OnSide(!s));
    t := SideTriple(shapes[j], !s, true);
    var m := Tally(base, Whole) - Weight(base[j], Whole) - Weight(base[c], Whole) + Weight(t, Whole);
    u := OneSidedTriple(shapes[c], s, m == 1);
    ReplacedIs(base, j, t, c, u, Whole);
    ReplacedIs(base, j, t, c, u, OnSide(!s));
  }

  lemma {:induction false} XorDisjunctionBeside(shapes: seq<Shape>, c: nat, s: bool, j: nat)
    requires AllProper(shapes) && Present(shapes, true) && Present(shapes, false)
    requires c < |shapes| && OnlyOn(shapes[c], s) && j < |shapes| && j != c && Proper(shapes[j])
    requires forall t :: t in shapes[j] ==> Side(t, !s).Some?
    ensures GroupTellsDisjunction(Xor, shapes)
  {
    var base := AllWithParts(shapes, false, false);
    AllFromShapes(shapes);
    NoPartTrue(shapes, !s);
    hide *;
    var t, u := NotOneBeside(shapes, base, c, s, j);
    ReplacedTells(shapes, base, j, t, c, u, !s);
  }

  /** The part's value is chosen by one member, the group's by the other. */
  lemma {:induction false} XnorChoice(shapes: seq<Shape>, base: seq<Triple>, c: nat, s: bool, j: nat, b: bool)
    returns (t: Triple, u: Triple)
    requires |base| == |shapes| && c < |shapes| && OnlyOn(shapes[c], s) && j < |shapes| && j != c && Proper(shapes[j])
    requires forall x :: x in shapes[j] ==> Side(x, !s).Some?
    ensures t in shapes[j] && u in shapes[c]
    ensures Even(Replaced(base, j, t, c, u, OnSide(!s))) == b && Even(Replaced(base, j, t, c, u, Whole)) == !b
  {
    hide *;
    var r := Tally(base, OnSide(!s)) - Weight(base[j], OnSide(!s)) - Weight(base[c], OnSide(!s));
    t := SideParity(shapes[j], !s, r, b);
    var m := Tally(base, Whole) - Weight(base[j], Whole) - Weight(base[c], Whole) + Weight(t, Whole);
    u := ValueParity(shapes[c], s, m, !b);
    ReplacedIs(base, j, t, c, u, Whole);
    ReplacedIs(base, j, t, c, u, OnSide(!s));
    assert Replaced(base, j, t, c, u, OnSide(!s)) == r + Weight(t, OnSide(!s));
    assert Replaced(base, j, t, c, u, Whole) == m + Weight(u, Whole);
  }

  lemma {:induction false} XnorBeside(shapes: seq<Shape>, c: nat, s: bool, j: nat, b: bool)
    requires AllProper(shapes) && Present(shapes, true) && Present(shapes, false)
    requires c < |shapes| && OnlyOn(shapes[c], s) && j < |shapes| && j != c && Proper(shapes[j])
    requires forall t :: t in shapes[j] ==> Side(t, !s).Some?
    ensures if b then GroupTellsDisjunction(Xnor, shapes) else GroupTellsConjunction(Xnor, shapes)
  {
    var base := AllWithParts(shapes, false, false);
    AllFromShapes(shapes);
    hide *;
    var t, u := XnorChoice(shapes, base, c, s, j, b);
    ReplacedTells(shapes, base, j, t, c, u, !s);
  }

  /** The same when every member is split. */
  lemma {:induction false} AllSplit(shapes: seq<Shape>)
    requires |shapes| >= 2 && Present(shapes, true) && Present(shapes, false)
    requires forall i :: 0 <= i < |shapes| ==> SplitShape(shapes[i])
    ensures GroupTellsConjunction(Xor, shapes) && GroupTellsDisjunction(Xor, shapes)
    ensures GroupTellsConjunction(Xnor, shapes) && GroupTellsDisjunction(Xnor, shapes)
  {
    assert AllProper(shapes);
    var t, u, s := Agreeing(shapes[1]);
    assert Proper(shapes[0]) && forall x :: x in shapes[0] ==> Side(x, s).Some?;
    assert forall i, x, z :: 0 <= i < |shapes| && x in shapes[i] ==> Side(x, z).Some?;
    hide SplitShape, Present, GroupTellsConjunction, GroupTellsDisjunction, Proper, AllProper;
    XorConjunctionSplit(shapes, t, u, s);
    XorDisjunctionSplit(shapes, t, u, s);
    XnorSplit(shapes, t, u, s, true);
    XnorSplit(shapes, t, u, s, false);
  }

  lemma {:induction false} OneAmong(shapes: seq<Shape>, base: seq<Triple>, t: Triple, u: Triple, s: bool)
    returns (x: Triple, y: Triple)
    requires |shapes| >= 2 && |base| == |shapes| && Proper(shapes[0])
    requires forall z :: z in shapes[0] ==> Side(z, s).Some?
    requires t in shapes[1] && u in shapes[1] && t.v && !u.v && Side(t, s) == Side(u, s) && Side(t, s).Some?
    requires Tally(base, Whole) == 0
    ensures x in shapes[0] && y in shapes[1]
    ensures Replaced(base, 0, x, 1, y, Whole) == 1 && Replaced(base, 0, x, 1, y, OnSide(s)) != 1
  {
    hide *;
    TallyRest(base, 0, 1, Whole);
    WeightOf(t, s);
    WeightOf(u, s);
    var r := Tally(base, OnSide(s)) - Weight(base[0], OnSide(s)) - Weight(base[1], OnSide(s)) + Weight(t, OnSide(s));
    x := SideTriple(shapes[0], s, r == 1);
    WeightOf(x, s);
    y := if x.v then u else t;
    ReplacedIs(base, 0, x, 1, y, Whole);
    ReplacedIs(base, 0, x, 1, y, OnSide(s));
  }

  lemma {:induction false} XorConjunctionSplit(shapes: seq<Shape>, t: Triple, u: Triple, s: bool)
    requires AllProper(shapes) && Present(shapes, true) && Present(shapes, false) && |shapes| >= 2
    requires Proper(shapes[0]) && forall x :: x in shapes[0] ==> Side(x, s).Some?
    requires t in shapes[1] && u in shapes[1] && t.v && !u.v && Side(t, s) == Side(u, s) && Side(t, s).Some?
    ensures GroupTellsConjunction(Xor, shapes)
  {
    var base := AllWithValue(shapes, false);
    AllFromShapes(shapes);
    NothingTrue(shapes);
    hide *;
    var x, y := OneAmong(shapes, base, t, u, s);
    ReplacedTells(shapes, base, 0, x, 1, y, s);
  }

  /** Exactly one part true while the number of true members is not one. */
  lemma {:induction false} XorChoice(shapes: seq<Shape>, base: seq<Triple>, t: Triple, u: Triple, s: bool)
    returns (x: Triple, y: Triple)
    requires |shapes| >= 2 && |base| == |shapes| && Proper(shapes[0]) && Proper(shapes[1])
    requires forall z :: z in shapes[0] ==> Side(z, s).Some?
    requires forall z :: z in shapes[1] ==> Side(z, s).Some?
    requires t in shapes[1] && u in shapes[1] && t.v && !u.v && Side(t, s) == Side(u, s) && Side(t, s).Some?
    requires Tally(base, OnSide(s)) == 0
    ensures x in shapes[0] && y in shapes[1]
    ensures Replaced(base, 0, x, 1, y, OnSide(s)) == 1 && Replaced(base, 0, x, 1, y, Whole) != 1
  {
    hide *;
    TallyRest(base, 0, 1, OnSide(s));
    TallyRest(base, 0, 1, Whole);
    WeightOf(t, s);
    WeightOf(u, s);
    var m := Tally(base, Whole) - Weight(base[0], Whole) - Weight(base[1], Whole);
    if m == 1 {
      x := WithValue(shapes[0], true);
      WeightOf(x, s);
      y := SideTriple(shapes[1], s, !Side(x, s).value);
    } else if m == 0 {
      x := SideTriple(shapes[0], s, !Side(t, s).value);
      WeightOf(x, s);
      y := if x.v then t else u;
    } else {
      x := SideTriple(shapes[0], s, true);
      y := SideTriple(shapes[1], s, false);
    }
    ReplacedIs(base, 0, x, 1, y, Whole);
    ReplacedIs(base, 0, x, 1, y, OnSide(s));
  }

  lemma {:induction false} XorDisjunctionSplit(shapes: seq<Shape>, t: Triple, u: Triple, s: bool)
    requires AllProper(shapes) && Present(shapes, true) && Present(shapes, false) && |shapes| >= 2
    requires Proper(shapes[0]) && Proper(shapes[1])
    requires forall i, x, z :: 0 <= i < |shapes| && x in shapes[i] ==> Side(x, z).Some?
    requires t in shapes[1] && u in shapes[1] && t.v && !u.v && Side(t, s) == Side(u, s) && Side(t, s).Some?
    ensures GroupTellsDisjunction(Xor, shapes)
  {
    var base := AllWithParts(shapes, false, false);
    AllFromShapes(shapes);
    NoPartTrue(shapes, s);
    hide *;
    var x, y := XorChoice(shapes, base, t, u, s);
    ReplacedTells(shapes, base, 0, x, 1, y, s);
  }

  lemma {:induction false} XnorSplit(shapes: seq<Shape>, t: Triple, u: Triple, s: bool, b: bool)
    requires AllProper(shapes) && Present(shapes, true) && Present(shapes, false) && |shapes| >= 2
    requires Proper(shapes[0]) && forall x :: x in shapes[0] ==> Side(x, s).Some?
    requires t in shapes[1] && u in shapes[1] && t.v && !u.v && Side(t, s) == Side(u, s) && Side(t, s).Some?
    ensures if b then GroupTellsDisjunction(Xnor, shapes) else GroupTellsConjunction(Xnor, shapes)
  {
    var base := AllWithParts(shapes, false, false);
    AllFromShapes(shapes);
    hide *;
    WeightOf(t, s);
    WeightOf(u, s);
    var r := Tally(base, OnSide(s)) - Weight(base[0], OnSide(s)) - Weight(base[1], OnSide(s)) + Weight(t, OnSide(s));
    var x := SideParity(shapes[0], s, r, b);
    var m := Tally(base, Whole) - Weight(base[0], Whole) - Weight(base[1], Whole) + Weight(x, Whole);
    EvenNext(m);
    var y := if Even(m) == b then t else u;
    ReplacedIs(base, 0, x, 1, y, Whole);
    ReplacedIs(base, 0, x, 1, y, OnSide(s));
    assert Replaced(base, 0, x, 1, y, OnSide(s)) == r + Weight(x, OnSide(s));
    assert Replaced(base, 0, x, 1, y, Whole) == m + Weight(y, Whole);
    ReplacedTells(shapes, base, 0, x, 1, y, s);
  }

  /** A cut Xor or Xnor of two or more members is neither the conjunction nor the disjunction of its parts. */
  lemma {:induction false} ParityTells(shapes: seq<Shape>)
    requires AllProper(shapes) && Present(shapes, true) && Present(shapes, false) && |shapes| >= 2
    ensures GroupTellsConjunction(Xor, shapes) && GroupTellsDisjunction(Xor, shapes)
    ensures GroupTellsConjunction(Xnor, shapes) && GroupTellsDisjunction(Xnor, shapes)
  {
    hide OnlyOn, SplitShape, GroupTellsConjunction, GroupTellsDisjunction;
    if c, s :| 0 <= c < |shapes| && OnlyOn(shapes[c], s) {
      BesideOneSided(shapes, c, s);
    } else {
      assert forall i :: 0 <= i < |shapes| ==> Proper(shapes[i]);
      AllSplit(shapes);
    }
  }
}
