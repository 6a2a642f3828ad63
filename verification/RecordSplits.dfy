/**
 Splitting a filter as records see it: filters over the presence of fields realise every truth assignment, so what
 is lost or gained by an unsound split is lost or gained on actual records.
*/
module RecordSplits {
  import opened Wrappers
  import opened JsonValues
  import JsonPointers
  import opened QueryFilters
  import opened Partitioning
  import opened PartitionExactness

  /** Conditions ask whether a top-level field is there or missing, each of another field. */
  predicate AsksPresence(f: Filter) {
    && (forall c :: c in Atoms(f) ==>
      && (c.operator == Exists || c.operator == NotExists)
      && c.field != "" && '.' !in c.field && c.value.Literal?)
    && (forall c, d :: c in Atoms(f) && d in Atoms(f) && c.field == d.field ==> c == d)
  }

  /** The record on which exactly the given conditions of the filter are true. */
  function RecordFor(f: Filter, truths: set<Condition>): Record {
    var present := set c | c in Atoms(f) && (c in truths <==> c.operator == Exists) :: c.field;
    map field | field in present :: Bool(true)
  }

  /** The standard meaning of presence is not overridden. */
  predicate StandardPresence(env: Registered) {
    Exists !in env.operators && NotExists !in env.operators
  }

  lemma {:induction false} PresenceJudged(env: Registered, record: Record, c: Condition)
    requires StandardPresence(env) && (c.operator == Exists || c.operator == NotExists)
    requires c.field != "" && '.' !in c.field && c.value.Literal?
    requires forall field :: field in record ==> record[field] == Bool(true)
    ensures JudgeOf(env, record)(c) == Ok(c.field in record <==> c.operator == Exists)
  {
    JsonPointers.SplitPlain(c.field, '.');
    assert [c.field][1..] == [];
    assert ValueByPath(record, c.field) == ValueAt(Obj(record), [c.field]);
    if c.field in record {
      assert ValueAt(record[c.field], []) == record[c.field];
    }
  }

  lemma {:induction false} RecordRealises(env: Registered, f: Filter, truths: set<Condition>)
    requires StandardPresence(env) && AsksPresence(f)
    ensures forall c :: c in Atoms(f) ==> JudgeOf(env, RecordFor(f, truths))(c) == JudgeIn(truths)(c)
  {
    hide JudgeOf;
    var record := RecordFor(f, truths);
    forall c | c in Atoms(f)
      ensures JudgeOf(env, record)(c) == JudgeIn(truths)(c)
    {
      assert c.field in record <==> (c in truths <==> c.operator == Exists);
      PresenceJudged(env, record, c);
    }
  }

  /** The two parts select the record exactly when the filter does. */
  ghost predicate SplitSelectsRecord(env: Registered, caps: Capabilities, f: Filter, record: Record) {
    var parts, judge := PartsOf(caps, f), JudgeOf(env, record);
    Holds(judge, f) <==> Passes(judge, parts.db) && Passes(judge, parts.post)
  }

  lemma {:induction false} SelectsAlike(caps: Capabilities, f: Filter, env: Registered, truths: set<Condition>)
    requires StandardPresence(env) && AsksPresence(f) && ReadOnce(f) && Partitioned(caps, f).Ok?
    ensures SplitSelectsRecord(env, caps, f, RecordFor(f, truths)) <==> SplitSelects(caps, f, truths)
  {
    RecordRealises(env, f, truths);
    ReadOnceParts(caps, f);
    hide AsksPresence, RecordFor, JudgeOf, JudgeIn, Eval, Atoms, Partitioned;
    var parts, a, b := PartsOf(caps, f), JudgeOf(env, RecordFor(f, truths)), JudgeIn(truths);
    EvalLocal(f, a, b);
    if parts.db.Some? {
      EvalLocal(parts.db.value, a, b);
    }
    if parts.post.Some? {
      EvalLocal(parts.post.value, a, b);
    }
  }

  /**
   On records too: for a filter that asks each of its fields once for presence, the split selects what the filter
   selects on every record if and only if the filter splits soundly.
  */
  lemma {:induction false} RecordsSplitExactly(env: Registered, caps: Capabilities, f: Filter)
    requires StandardPresence(env) && AsksPresence(f) && ReadOnce(f) && NoTextSearch(f) && Partitioned(caps, f).Ok?
    ensures SplitsSoundly(caps, f) <==> forall record :: SplitSelectsRecord(env, caps, f, record)
  {
    hide AsksPresence, Eval, Atoms, JudgeOf;
    if SplitsSoundly(caps, f) {
      forall record
        ensures SplitSelectsRecord(env, caps, f, record)
      {
        SoundOnJudge(JudgeOf(env, record), caps, f);
      }
    } else {
      SplitSoundExactly(caps, f);
      hide SplitSelects, SplitSelectsRecord;
      var truths :| !SplitSelects(caps, f, truths);
      SelectsAlike(caps, f, env, truths);
      assert !SplitSelectsRecord(env, caps, f, RecordFor(f, truths));
    }
  }

  /** A filter that splits soundly does so under every judgement of its conditions, errors included. */
  lemma {:induction false} SoundOnJudge(judge: Judge, caps: Capabilities, f: Filter)
    requires NoTextSearch(f) && Partitioned(caps, f).Ok? && SplitsSoundly(caps, f)
    ensures
      var parts := PartsOf(caps, f);
      Holds(judge, f) <==> Passes(judge, parts.db) && Passes(judge, parts.post)
  {
    var parts := PartsOf(caps, f);
    hide Eval, ModeOf, Partitioned, WellFormed;
    if WellFormed(f) {
      WellFormedSplits(caps, f);
      SplitIsSound(judge, caps, f);
    } else {
      IllFormedFails(judge, f);
      if parts.db.Some? && !WellFormed(parts.db.value) {
        IllFormedFails(judge, parts.db.value);
      }
      if parts.post.Some? && !WellFormed(parts.post.value) {
        IllFormedFails(judge, parts.post.value);
      }
    }
  }

  const HERE := Cond(Condition("a", Exists, Literal(Null)))
  const GONE := Cond(Condition("a", NotExists, Literal(Null)))

  lemma {:induction false} XorCut()
    ensures Partitioned(Capabilities({Exists}, {}), Group(Xor, [HERE, GONE])) ==
            Ok(Parts(Some(Group(Xor, [HERE])), Some(Group(Xor, [GONE]))))
  {
    var caps, f := Capabilities({Exists}, {}), Group(Xor, [HERE, GONE]);
    assert f.conditions[1..] == [GONE] && [GONE][1..] == [];
    assert PartitionedAll(caps, f, []) == Ok(([], []));
    assert Partitioned(caps, HERE) == Ok(Parts(Some(HERE), None));
    assert Partitioned(caps, GONE) == Ok(Parts(None, Some(GONE)));
    assert AsList(None) + [] == [] && [GONE] + [] == [GONE] && [HERE] + [] == [HERE] && AsList(None) + [GONE] == [GONE];
    hide Partitioned;
    assert PartitionedAll(caps, f, [GONE]) == Ok(([], [GONE]));
    assert PartitionedAll(caps, f, f.conditions) == Ok(([HERE], [GONE]));
  }

  /** An Xor of two opposites always holds, while their two singleton groups never hold together. */
  lemma {:induction false} XorOfOpposites(judge: Judge, a: Filter, b: Filter)
    requires Eval(judge, a).Ok? && Eval(judge, b) == Ok(!Eval(judge, a).value)
    ensures Holds(judge, Group(Xor, [a, b])) && !(Holds(judge, Group(Xor, [a])) && Holds(judge, Group(Xor, [b])))
  {
    SingleSpec(judge, Xor, a);
    SingleSpec(judge, Xor, b);
    var f := Group(Xor, [a, b]);
    EvalAllSpec(judge, f, [a, b]);
    assert [a, b][0] == a && [a, b][1] == b;
    var bs := EvalAll(judge, f, [a, b]).value;
    assert Eval(judge, f) == Combined(Xor, bs);
    assert bs == [bs[0]] + [bs[1]];
    hide Eval, EvalAll;
    CountSingle(bs[0]);
    assert CountTrue(bs) == CountTrue([bs[0]]) + if bs[1] then 1 else 0;
  }

  /** A field is there or it is not; cut in two, that selects no record instead of every record. */
  lemma {:induction false} XorLosesEverything(env: Registered, record: Record)
    requires StandardPresence(env)
    ensures
      var f, parts := Group(Xor, [HERE, GONE]), Parts(Some(Group(Xor, [HERE])), Some(Group(Xor, [GONE])));
      && Partitioned(Capabilities({Exists}, {}), f) == Ok(parts)
      && Holds(JudgeOf(env, record), f)
      && !(Passes(JudgeOf(env, record), parts.db) && Passes(JudgeOf(env, record), parts.post))
  {
    XorCut();
    hide Partitioned, ValueByPath;
    assert Eval(JudgeOf(env, record), HERE) == Ok(!ValueByPath(record, "a").Null?);
    assert Eval(JudgeOf(env, record), GONE) == Ok(ValueByPath(record, "a").Null?);
    XorOfOpposites(JudgeOf(env, record), HERE, GONE);
  }
}
