/**
 In-memory joins, whole and streaming. Rows are combined documents; a join condition is a filter over the combined
 document. Channels are the sequences of documents that pass through them.
*/
module Joins {
  import opened Wrappers
  import opened JsonValues
  import opened QueryFilters
  import opened Projections

  datatype JoinType = InnerJoin | LeftJoin | RightJoin | FullJoin

  /** The names of the two sides, the condition, and the fields to keep if a projection is given. */
  datatype JoinConfig = JoinConfig(
    env: Registered, leftName: string, rightName: string, on: Filter, wanted: Option<seq<string>>)

  // ---------- rows ----------

  function Both(c: JoinConfig, l: Record, r: Record): Record {
    map[c.leftName := Obj(l)][c.rightName := Obj(r)]
  }

  function LeftOnly(c: JoinConfig, l: Record): Record {
    map[c.leftName := Obj(l)][c.rightName := Null]
  }

  /** The missing left side is an empty document, the missing right side null: so the program combines them. */
  function RightOnly(c: JoinConfig, r: Record): Record {
    map[c.leftName := Obj(map[])][c.rightName := Obj(r)]
  }

  ghost function Judged(c: JoinConfig, l: Record, r: Record): Result<bool, EvalError> {
    Eval(JudgeOf(c.env, Both(c, l, r)), c.on)
  }

  ghost predicate Matches(c: JoinConfig, l: Record, r: Record) {
    Judged(c, l, r) == Ok(true)
  }

  /** The condition evaluates without an error on every pair. */
  ghost predicate AllJudged(c: JoinConfig, ls: seq<Record>, rs: seq<Record>) {
    forall i, j :: 0 <= i < |ls| && 0 <= j < |rs| ==> Judged(c, ls[i], rs[j]).Ok?
  }

  /** The rows one left document makes with the right documents. */
  ghost function RowsOf(c: JoinConfig, l: Record, rs: seq<Record>): seq<Record> {
    if rs == [] then []
    else
      var r := rs[|rs| - 1];
      RowsOf(c, l, rs[..|rs| - 1]) + if Matches(c, l, r) then [Both(c, l, r)] else []
  }

  /** The rows one right document makes with the left documents. */
  ghost function ColumnOf(c: JoinConfig, ls: seq<Record>, r: Record): seq<Record> {
    if ls == [] then []
    else
      var l := ls[|ls| - 1];
      ColumnOf(c, ls[..|ls| - 1], r) + if Matches(c, l, r) then [Both(c, l, r)] else []
  }

  ghost predicate LeftMatched(c: JoinConfig, l: Record, rs: seq<Record>) {
    exists j :: 0 <= j < |rs| && Matches(c, l, rs[j])
  }

  ghost predicate RightMatched(c: JoinConfig, ls: seq<Record>, r: Record) {
    exists i :: 0 <= i < |ls| && Matches(c, ls[i], r)
  }

  ghost function InnerRows(c: JoinConfig, ls: seq<Record>, rs: seq<Record>): seq<Record> {
    if ls == [] then [] else InnerRows(c, ls[..|ls| - 1], rs) + RowsOf(c, ls[|ls| - 1], rs)
  }

  /** A left document without a match is kept with a null right side. */
  ghost function LeftRowsOf(c: JoinConfig, l: Record, rs: seq<Record>): seq<Record> {
    RowsOf(c, l, rs) + if LeftMatched(c, l, rs) then [] else [LeftOnly(c, l)]
  }

  ghost function LeftRows(c: JoinConfig, ls: seq<Record>, rs: seq<Record>): seq<Record> {
    if ls == [] then [] else LeftRows(c, ls[..|ls| - 1], rs) + LeftRowsOf(c, ls[|ls| - 1], rs)
  }

  ghost function UnmatchedLeft(c: JoinConfig, ls: seq<Record>, rs: seq<Record>): seq<Record> {
    if ls == [] then []
    else
      var l := ls[|ls| - 1];
      UnmatchedLeft(c, ls[..|ls| - 1], rs) + if LeftMatched(c, l, rs) then [] else [LeftOnly(c, l)]
  }

  ghost function UnmatchedRight(c: JoinConfig, ls: seq<Record>, rs: seq<Record>): seq<Record> {
    if rs == [] then []
    else
      var r := rs[|rs| - 1];
      UnmatchedRight(c, ls, rs[..|rs| - 1]) + if RightMatched(c, ls, r) then [] else [RightOnly(c, r)]
  }

  ghost function RightStreamRows(c: JoinConfig, ls: seq<Record>, rs: seq<Record>): seq<Record> {
    if rs == [] then []
    else
      var r := rs[|rs| - 1];
      RightStreamRows(c, ls, rs[..|rs| - 1]) + ColumnOf(c, ls, r) +
        if RightMatched(c, ls, r) then [] else [RightOnly(c, r)]
  }

  // ---------- both orders give the same rows ----------

  /** One more right document adds its column to the inner join. */
  lemma {:induction false} InnerColumn(c: JoinConfig, ls: seq<Record>, rs: seq<Record>, r: Record)
    ensures multiset(InnerRows(c, ls, rs + [r])) == multiset(InnerRows(c, ls, rs)) + multiset(ColumnOf(c, ls, r))
  {
    hide Matches, Both;
    if ls != [] {
      var init, l := ls[..|ls| - 1], ls[|ls| - 1];
      InnerColumn(c, init, rs, r);
      assert (rs + [r])[..|rs|] == rs;
    }
  }

  /** Left documents outermost or right documents outermost: the matched rows are the same. */
  lemma {:induction false} RightStreamIsBatch(c: JoinConfig, ls: seq<Record>, rs: seq<Record>)
    ensures multiset(RightStreamRows(c, ls, rs)) == multiset(InnerRows(c, ls, rs) + UnmatchedRight(c, ls, rs))
  {
    hide Matches, Both, RightOnly, RightMatched, ColumnOf;
    if rs == [] {
      InnerNothing(c, ls);
    } else {
      var init, r := rs[..|rs| - 1], rs[|rs| - 1];
      assert rs == init + [r];
      RightStreamIsBatch(c, ls, init);
      InnerColumn(c, ls, init, r);
      hide InnerRows;
    }
  }

  lemma {:induction false} InnerNothing(c: JoinConfig, ls: seq<Record>)
    ensures InnerRows(c, ls, []) == []
  {
    if ls != [] {
      InnerNothing(c, ls[..|ls| - 1]);
    }
  }

  /** A left join is the inner join and the unmatched left documents. */
  lemma {:induction false} LeftIsInner(c: JoinConfig, ls: seq<Record>, rs: seq<Record>)
    ensures multiset(LeftRows(c, ls, rs)) == multiset(InnerRows(c, ls, rs) + UnmatchedLeft(c, ls, rs))
  {
    hide Matches, LeftOnly, RowsOf, LeftMatched;
    if ls != [] {
      LeftIsInner(c, ls[..|ls| - 1], rs);
    }
  }

  /** A full join has the rows of the left join and the unmatched right documents, streaming or not. */
  lemma {:induction false} FullStreamIsBatch(c: JoinConfig, ls: seq<Record>, rs: seq<Record>)
    ensures multiset(InnerRows(c, ls, rs) + UnmatchedLeft(c, ls, rs) + UnmatchedRight(c, ls, rs)) ==
            multiset(LeftRows(c, ls, rs) + UnmatchedRight(c, ls, rs))
  {
    LeftIsInner(c, ls, rs);
  }

  // ---------- projection of rows ----------

  function Finished(c: JoinConfig, row: Record): Record {
    match c.wanted
    case Some(names) => Projected(row, names)
    case None => row
  }

  function FinishedAll(c: JoinConfig, rows: seq<Record>): (r: seq<Record>)
    ensures |r| == |rows|
  {
    if rows == [] then [] else FinishedAll(c, rows[..|rows| - 1]) + [Finished(c, rows[|rows| - 1])]
  }

  lemma {:induction false} FinishedConcat(c: JoinConfig, a: seq<Record>, b: seq<Record>)
    ensures FinishedAll(c, a + b) == FinishedAll(c, a) + FinishedAll(c, b)
  {
    hide Finished;
    if b == [] {
      assert a + b == a;
    } else {
      FinishedConcat(c, a, b[..|b| - 1]);
      assert (a + b)[..|a + b| - 1] == a + b[..|b| - 1];
    }
  }

  /** Projecting rows keeps the same rows the same, in whatever order they come. */
  lemma {:induction false} FinishedMultiset(c: JoinConfig, a: seq<Record>, b: seq<Record>)
    requires multiset(a) == multiset(b)
    ensures multiset(FinishedAll(c, a)) == multiset(FinishedAll(c, b))
    decreases |a|
  {
    hide Finished;
    if a == [] {
      SameSize(a, b);
    } else {
      var n := |a| - 1;
      var j := Taken(a, b);
      var rest := b[..j] + b[j + 1..];
      FinishedMultiset(c, a[..n], rest);
      FinishedTaken(c, a, n);
      FinishedTaken(c, b, j);
      assert a[..n] + a[n + 1..] == a[..n];
    }
  }

  /** Taking one row out takes its projection out. */
  lemma {:induction false} FinishedTaken(c: JoinConfig, rows: seq<Record>, j: nat)
    requires j < |rows|
    ensures multiset(FinishedAll(c, rows)) ==
            multiset(FinishedAll(c, rows[..j] + rows[j + 1..])) + multiset{Finished(c, rows[j])}
  {
    var one := [rows[j]];
    assert rows == rows[..j] + one + rows[j + 1..];
    FinishedConcat(c, rows[..j] + one, rows[j + 1..]);
    FinishedConcat(c, rows[..j], one);
    FinishedConcat(c, rows[..j], rows[j + 1..]);
    assert FinishedAll(c, one) == [Finished(c, rows[j])];
    hide Finished, FinishedAll;
  }

  lemma {:induction false} Taken(a: seq<Record>, b: seq<Record>) returns (j: nat)
    requires a != [] && multiset(a) == multiset(b)
    ensures j < |b| && b[j] == a[|a| - 1]
    ensures multiset(a[..|a| - 1]) == multiset(b[..j] + b[j + 1..])
  {
    var row := a[|a| - 1];
    assert a == a[..|a| - 1] + [row];
    assert row in multiset(b);
    j :| 0 <= j < |b| && b[j] == row;
    assert b == b[..j] + [row] + b[j + 1..];
    MultisetWithout(a, |a| - 1);
    MultisetWithout(b, j);
    assert a[..|a| - 1] + a[|a| - 1 + 1..] == a[..|a| - 1];
    Cancel(multiset(a[..|a| - 1]), multiset(b[..j] + b[j + 1..]), row);
  }

  lemma {:induction false} MultisetWithout(a: seq<Record>, j: nat)
    requires j < |a|
    ensures multiset(a) == multiset(a[..j] + a[j + 1..]) + multiset{a[j]}
  {
    assert a == a[..j] + [a[j]] + a[j + 1..];
  }

  lemma {:induction false} Cancel(x: multiset<Record>, y: multiset<Record>, row: Record)
    requires x + multiset{row} == y + multiset{row}
    ensures x == y
  {
    assert x == (x + multiset{row}) - multiset{row};
    assert y == (y + multiset{row}) - multiset{row};
  }

  lemma {:induction false} SameSize(a: seq<Record>, b: seq<Record>)
    requires multiset(a) == multiset(b)
    ensures |a| == |b|
  {
    assert |multiset(a)| == |a| && |multiset(b)| == |b|;
  }

  // ---------- the joins ----------

  /** What each join type returns, row order included. */
  ghost function BatchRows(c: JoinConfig, kind: JoinType, ls: seq<Record>, rs: seq<Record>): seq<Record> {
    match kind
    case InnerJoin => InnerRows(c, ls, rs)
    case LeftJoin => LeftRows(c, ls, rs)
    case RightJoin => InnerRows(c, ls, rs) + UnmatchedRight(c, ls, rs)
    case FullJoin => LeftRows(c, ls, rs) + UnmatchedRight(c, ls, rs)
  }

  ghost function StreamRows(c: JoinConfig, kind: JoinType, ls: seq<Record>, rs: seq<Record>): seq<Record> {
    match kind
    case InnerJoin => InnerRows(c, ls, rs)
    case LeftJoin => LeftRows(c, ls, rs)
    case RightJoin => RightStreamRows(c, ls, rs)
    case FullJoin => InnerRows(c, ls, rs) + UnmatchedLeft(c, ls, rs) + UnmatchedRight(c, ls, rs)
  }

  /**
   Streaming joins agree with whole joins: inner and left joins row by row in the same order, right and full joins
   in the rows they contain.
  */
  lemma {:induction false} StreamsAgree(c: JoinConfig, kind: JoinType, ls: seq<Record>, rs: seq<Record>)
    ensures multiset(FinishedAll(c, StreamRows(c, kind, ls, rs))) ==
            multiset(FinishedAll(c, BatchRows(c, kind, ls, rs)))
    ensures kind.InnerJoin? || kind.LeftJoin? ==> StreamRows(c, kind, ls, rs) == BatchRows(c, kind, ls, rs)
  {
    RightStreamIsBatch(c, ls, rs);
    FullStreamIsBatch(c, ls, rs);
    hide FinishedAll, InnerRows, LeftRows, UnmatchedLeft, UnmatchedRight, RightStreamRows;
    if kind.RightJoin? || kind.FullJoin? {
      FinishedMultiset(c, StreamRows(c, kind, ls, rs), BatchRows(c, kind, ls, rs));
    }
  }

  /** The positions of the unmatched right documents whose row is the given one. */
  ghost function UnmatchedAs(c: JoinConfig, ls: seq<Record>, rs: seq<Record>, row: Record): set<nat> {
    set j | 0 <= j < |rs| && !RightMatched(c, ls, rs[j]) && RightOnly(c, rs[j]) == row
  }

  lemma {:induction false} UnmatchedCounted(c: JoinConfig, ls: seq<Record>, rs: seq<Record>, row: Record)
    ensures multiset(UnmatchedRight(c, ls, rs))[row] == |UnmatchedAs(c, ls, rs, row)|
    decreases |rs|
  {
    hide RightMatched, RightOnly;
    if rs != [] {
      var n := |rs| - 1;
      UnmatchedCounted(c, ls, rs[..n], row);
      UnmatchedStep(c, ls, rs, row);
      hide UnmatchedAs;
    }
  }

  lemma {:induction false} UnmatchedStep(c: JoinConfig, ls: seq<Record>, rs: seq<Record>, row: Record)
    requires rs != []
    ensures
      var n := |rs| - 1;
      |UnmatchedAs(c, ls, rs, row)| == |UnmatchedAs(c, ls, rs[..n], row)| +
        if !RightMatched(c, ls, rs[n]) && RightOnly(c, rs[n]) == row then 1 else 0
  {
    hide RightMatched, RightOnly;
    var n := |rs| - 1;
    var before, after := UnmatchedAs(c, ls, rs[..n], row), UnmatchedAs(c, ls, rs, row);
    assert forall j :: 0 <= j < n ==> rs[..n][j] == rs[j];
    if !RightMatched(c, ls, rs[n]) && RightOnly(c, rs[n]) == row {
      assert after == before + {n};
    } else {
      assert after == before;
    }
  }

  /**
   A full join is the left join followed by the rows of the right documents no left document matches: each row
   as often as there are such documents with it, and no other row.
  */
  lemma {:induction false} FullIsLeftAndRest(c: JoinConfig, ls: seq<Record>, rs: seq<Record>)
    ensures BatchRows(c, FullJoin, ls, rs)[..|LeftRows(c, ls, rs)|] == BatchRows(c, LeftJoin, ls, rs)
    ensures
      var rest := BatchRows(c, FullJoin, ls, rs)[|LeftRows(c, ls, rs)|..];
      forall row :: multiset(rest)[row] == |UnmatchedAs(c, ls, rs, row)|
  {
    hide UnmatchedAs, UnmatchedRight, LeftRows;
    var rest := BatchRows(c, FullJoin, ls, rs)[|LeftRows(c, ls, rs)|..];
    assert rest == UnmatchedRight(c, ls, rs);
    forall row
      ensures multiset(rest)[row] == |UnmatchedAs(c, ls, rs, row)|
    {
      UnmatchedCounted(c, ls, rs, row);
    }
  }

  // ---------- the rows of a join, counted ----------

  /** The row has exactly the two names, with a value under each. */
  ghost predicate Holding(c: JoinConfig, row: Record, left: Json, right: Json) {
    row.Keys == {c.leftName, c.rightName} && row[c.leftName] == left && row[c.rightName] == right
  }

  /** The join condition is true of the row that holds the two documents. */
  ghost predicate TrueOf(c: JoinConfig, l: Record, r: Record) {
    Eval(JudgeOf(c.env, map[c.leftName := Obj(l), c.rightName := Obj(r)]), c.on) == Ok(true)
  }

  /** The pairs of documents whose row this is, the condition being true of it. */
  ghost function Pairs(c: JoinConfig, ls: seq<Record>, rs: seq<Record>, row: Record): set<(nat, nat)> {
    set i: nat, j: nat | i < |ls| && j < |rs| && PairAt(c, ls[i], rs[j], row) :: (i, j)
  }

  ghost predicate PairAt(c: JoinConfig, l: Record, r: Record, row: Record) {
    Holding(c, row, Obj(l), Obj(r)) && TrueOf(c, l, r)
  }

  ghost predicate IsLeftAlone(c: JoinConfig, l: Record, rs: seq<Record>, row: Record) {
    Holding(c, row, Obj(l), Null) && forall j :: 0 <= j < |rs| ==> !TrueOf(c, l, rs[j])
  }

  ghost predicate IsRightAlone(c: JoinConfig, ls: seq<Record>, r: Record, row: Record) {
    Holding(c, row, Obj(map[]), Obj(r)) && forall i :: 0 <= i < |ls| ==> !TrueOf(c, ls[i], r)
  }

  /** The left documents no right document goes with, whose row this is: null stands under the right name. */
  ghost function LeftAlone(c: JoinConfig, ls: seq<Record>, rs: seq<Record>, row: Record): set<nat> {
    set i: nat | i < |ls| && IsLeftAlone(c, ls[i], rs, row)
  }

  /** The right documents no left document goes with: an empty object stands under the left name. */
  ghost function RightAlone(c: JoinConfig, ls: seq<Record>, rs: seq<Record>, row: Record): set<nat> {
    set j: nat | j < |rs| && IsRightAlone(c, ls, rs[j], row)
  }

  /** How often a join has a row. */
  ghost function TimesIn(c: JoinConfig, kind: JoinType, ls: seq<Record>, rs: seq<Record>, row: Record): nat {
    |Pairs(c, ls, rs, row)| +
    (if kind.LeftJoin? || kind.FullJoin? then |LeftAlone(c, ls, rs, row)| else 0) +
    (if kind.RightJoin? || kind.FullJoin? then |RightAlone(c, ls, rs, row)| else 0)
  }

  lemma {:induction false} RowsHold(c: JoinConfig, l: Record, r: Record, row: Record)
    requires c.leftName != c.rightName
    ensures Matches(c, l, r) <==> TrueOf(c, l, r)
    ensures row == Both(c, l, r) <==> Holding(c, row, Obj(l), Obj(r))
    ensures row == LeftOnly(c, l) <==> Holding(c, row, Obj(l), Null)
    ensures row == RightOnly(c, r) <==> Holding(c, row, Obj(map[]), Obj(r))
  {
    hide Eval, JudgeOf;
    TwoNames(c, row, Obj(l), Obj(r));
    TwoNames(c, row, Obj(l), Null);
    TwoNames(c, row, Obj(map[]), Obj(r));
  }

  lemma {:induction false} TwoNames(c: JoinConfig, row: Record, left: Json, right: Json)
    requires c.leftName != c.rightName
    ensures map[c.leftName := left][c.rightName := right] == map[c.leftName := left, c.rightName := right]
    ensures row == map[c.leftName := left][c.rightName := right] <==> Holding(c, row, left, right)
  {
  }

  ghost function PairsOf(c: JoinConfig, l: Record, rs: seq<Record>, row: Record): set<nat> {
    set j: nat | j < |rs| && PairAt(c, l, rs[j], row)
  }

  lemma {:induction false} RowsOfCounted(c: JoinConfig, l: Record, rs: seq<Record>, row: Record)
    requires c.leftName != c.rightName
    ensures multiset(RowsOf(c, l, rs))[row] == |PairsOf(c, l, rs, row)|
  {
    hide Matches, Both, PairAt, PairsOf;
    PairsOfStep(c, l, rs, row);
    if rs != [] {
      var n := |rs| - 1;
      RowsOfCounted(c, l, rs[..n], row);
      PairIsRow(c, l, rs[n], row);
    }
  }

  lemma {:induction false} PairIsRow(c: JoinConfig, l: Record, r: Record, row: Record)
    requires c.leftName != c.rightName
    ensures PairAt(c, l, r, row) <==> Matches(c, l, r) && row == Both(c, l, r)
  {
    RowsHold(c, l, r, row);
    hide Matches, Both, Holding, TrueOf;
  }

  lemma {:induction false} PairsOfStep(c: JoinConfig, l: Record, rs: seq<Record>, row: Record)
    ensures rs == [] ==> PairsOf(c, l, rs, row) == {}
    ensures rs != [] ==>
      var n := |rs| - 1;
      |PairsOf(c, l, rs, row)| == |PairsOf(c, l, rs[..n], row)| + if PairAt(c, l, rs[n], row) then 1 else 0
  {
    hide PairAt;
    if rs != [] {
      PairsOfLast(c, l, rs[..|rs| - 1], rs[|rs| - 1], row);
      assert rs[..|rs| - 1] + [rs[|rs| - 1]] == rs;
      hide PairsOf;
    }
  }

  lemma {:induction false} PairsOfLast(c: JoinConfig, l: Record, rs: seq<Record>, r: Record, row: Record)
    ensures |rs| !in PairsOf(c, l, rs, row)
    ensures PairsOf(c, l, rs + [r], row) == PairsOf(c, l, rs, row) + if PairAt(c, l, r, row) then {|rs|} else {}
  {
    hide PairAt;
  }

  ghost function Tag(n: nat, js: set<nat>): set<(nat, nat)> {
    set j | j in js :: (n, j)
  }

  lemma {:induction false} Tagged(n: nat, js: set<nat>)
    ensures |Tag(n, js)| == |js|
  {
    if js == {} {
      assert Tag(n, js) == {};
    } else {
      var j :| j in js;
      Tagged(n, js - {j});
      assert Tag(n, js) == Tag(n, js - {j}) + {(n, j)};
    }
  }

  lemma {:induction false} InnerCounted(c: JoinConfig, ls: seq<Record>, rs: seq<Record>, row: Record)
    requires c.leftName != c.rightName
    ensures multiset(InnerRows(c, ls, rs))[row] == |Pairs(c, ls, rs, row)|
  {
    hide PairAt, RowsOf, Pairs, PairsOf, Tag;
    PairsSplit(c, ls, rs, row);
    if ls != [] {
      var n := |ls| - 1;
      InnerCounted(c, ls[..n], rs, row);
      RowsOfCounted(c, ls[n], rs, row);
      Tagged(n, PairsOf(c, ls[n], rs, row));
    }
  }

  lemma {:induction false} PairsSplit(c: JoinConfig, ls: seq<Record>, rs: seq<Record>, row: Record)
    ensures ls == [] ==> Pairs(c, ls, rs, row) == {}
    ensures ls != [] ==>
      var n: nat := |ls| - 1;
      var last := Tag(n, PairsOf(c, ls[n], rs, row));
      Pairs(c, ls, rs, row) == Pairs(c, ls[..n], rs, row) + last && Pairs(c, ls[..n], rs, row) !! last
  {
    hide PairAt;
    if ls != [] {
      var n: nat := |ls| - 1;
      assert forall i :: 0 <= i < n ==> ls[..n][i] == ls[i];
    }
  }

  lemma {:induction false} LeftAloneCounted(c: JoinConfig, ls: seq<Record>, rs: seq<Record>, row: Record)
    requires c.leftName != c.rightName
    ensures multiset(UnmatchedLeft(c, ls, rs))[row] == |LeftAlone(c, ls, rs, row)|
  {
    hide LeftMatched, LeftOnly, LeftAlone, IsLeftAlone;
    LeftAloneStep(c, ls, rs, row);
    if ls != [] {
      var n := |ls| - 1;
      LeftAloneCounted(c, ls[..n], rs, row);
      MatchedLeft(c, ls[n], rs, row);
    }
  }

  lemma {:induction false} LeftAloneStep(c: JoinConfig, ls: seq<Record>, rs: seq<Record>, row: Record)
    ensures ls == [] ==> LeftAlone(c, ls, rs, row) == {}
    ensures ls != [] ==>
      var n := |ls| - 1;
      |LeftAlone(c, ls, rs, row)| == |LeftAlone(c, ls[..n], rs, row)| + if IsLeftAlone(c, ls[n], rs, row) then 1 else 0
  {
    hide IsLeftAlone;
    if ls != [] {
      LeftAloneLast(c, ls[..|ls| - 1], ls[|ls| - 1], rs, row);
      assert ls[..|ls| - 1] + [ls[|ls| - 1]] == ls;
      hide LeftAlone;
    }
  }

  lemma {:induction false} LeftAloneLast(c: JoinConfig, ls: seq<Record>, l: Record, rs: seq<Record>, row: Record)
    ensures |ls| !in LeftAlone(c, ls, rs, row)
    ensures LeftAlone(c, ls + [l], rs, row) ==
      LeftAlone(c, ls, rs, row) + if IsLeftAlone(c, l, rs, row) then {|ls|} else {}
  {
    hide IsLeftAlone;
  }

  lemma {:induction false} MatchedLeft(c: JoinConfig, l: Record, rs: seq<Record>, row: Record)
    requires c.leftName != c.rightName
    ensures IsLeftAlone(c, l, rs, row) <==> !LeftMatched(c, l, rs) && row == LeftOnly(c, l)
  {
    RowsHold(c, l, map[], row);
    forall j | 0 <= j < |rs|
      ensures Matches(c, l, rs[j]) <==> TrueOf(c, l, rs[j])
    {
      RowsHold(c, l, rs[j], row);
    }
    hide Matches, Holding, TrueOf, LeftOnly;
  }

  lemma {:induction false} RightAloneCounted(c: JoinConfig, ls: seq<Record>, rs: seq<Record>, row: Record)
    requires c.leftName != c.rightName
    ensures multiset(UnmatchedRight(c, ls, rs))[row] == |RightAlone(c, ls, rs, row)|
  {
    hide IsRightAlone, RightMatched, RightOnly;
    UnmatchedCounted(c, ls, rs, row);
    forall j: nat | j < |rs|
      ensures j in UnmatchedAs(c, ls, rs, row) <==> j in RightAlone(c, ls, rs, row)
    {
      MatchedRight(c, ls, rs[j], row);
    }
    assert UnmatchedAs(c, ls, rs, row) == RightAlone(c, ls, rs, row);
  }

  lemma {:induction false} MatchedRight(c: JoinConfig, ls: seq<Record>, r: Record, row: Record)
    requires c.leftName != c.rightName
    ensures IsRightAlone(c, ls, r, row) <==> !RightMatched(c, ls, r) && row == RightOnly(c, r)
  {
    RowsHold(c, map[], r, row);
    forall i | 0 <= i < |ls|
      ensures Matches(c, ls[i], r) <==> TrueOf(c, ls[i], r)
    {
      RowsHold(c, ls[i], r, row);
    }
    hide Matches, Holding, TrueOf, RightOnly;
  }

  /**
   The rows of a join of documents under two different names: one for every pair the condition is true of, each
   document under its own name, and, as the join's type asks for, one for every document without a partner.
  */
  lemma {:induction false} RowsCounted(c: JoinConfig, kind: JoinType, ls: seq<Record>, rs: seq<Record>, row: Record)
    requires c.leftName != c.rightName && c.wanted.None?
    ensures multiset(FinishedAll(c, BatchRows(c, kind, ls, rs)))[row] == TimesIn(c, kind, ls, rs, row)
  {
    hide Pairs, LeftAlone, RightAlone, InnerRows, LeftRows, UnmatchedLeft, UnmatchedRight;
    NothingFinished(c, BatchRows(c, kind, ls, rs));
    InnerCounted(c, ls, rs, row);
    LeftAloneCounted(c, ls, rs, row);
    RightAloneCounted(c, ls, rs, row);
    LeftIsInner(c, ls, rs);
  }

  lemma {:induction false} NothingFinished(c: JoinConfig, rows: seq<Record>)
    requires c.wanted.None?
    ensures FinishedAll(c, rows) == rows
  {
    if rows != [] {
      NothingFinished(c, rows[..|rows| - 1]);
    }
  }

  lemma {:induction false} AllRowsCounted(c: JoinConfig, kind: JoinType, ls: seq<Record>, rs: seq<Record>)
    ensures c.leftName != c.rightName && c.wanted.None? ==>
      forall row :: multiset(FinishedAll(c, BatchRows(c, kind, ls, rs)))[row] == TimesIn(c, kind, ls, rs, row)
  {
    hide FinishedAll, BatchRows, TimesIn;
    if c.leftName != c.rightName && c.wanted.None? {
      forall row
        ensures multiset(FinishedAll(c, BatchRows(c, kind, ls, rs)))[row] == TimesIn(c, kind, ls, rs, row)
      {
        RowsCounted(c, kind, ls, rs, row);
      }
    }
  }

  lemma {:induction false} RowsStep(c: JoinConfig, l: Record, rs: seq<Record>, j: nat)
    requires j < |rs|
    ensures RowsOf(c, l, rs[..j + 1]) ==
            RowsOf(c, l, rs[..j]) + if Matches(c, l, rs[j]) then [Both(c, l, rs[j])] else []
  {
    assert rs[..j + 1][..j] == rs[..j];
  }

  lemma {:induction false} ColumnStep(c: JoinConfig, ls: seq<Record>, r: Record, i: nat)
    requires i < |ls|
    ensures ColumnOf(c, ls[..i + 1], r) ==
            ColumnOf(c, ls[..i], r) + if Matches(c, ls[i], r) then [Both(c, ls[i], r)] else []
  {
    assert ls[..i + 1][..i] == ls[..i];
  }

  /** Combines a left document with every right document, noting which right documents matched. */
  method MatchRow(c: JoinConfig, l: Record, rs: seq<Record>, matchedRight: set<nat>)
    returns (r: Result<(seq<Record>, set<nat>), EvalError>)
    ensures r.Ok? <==> AllJudged(c, [l], rs)
    ensures r.Ok? ==> r.value.0 == RowsOf(c, l, rs) && (r.value.0 != [] <==> LeftMatched(c, l, rs))
    ensures r.Ok? ==> forall j :: j in r.value.1 <==> j in matchedRight || (0 <= j < |rs| && Matches(c, l, rs[j]))
  {
    hide Eval, JudgeOf, Both;
    var rows: seq<Record>, matched := [], matchedRight;
    for j := 0 to |rs|
      invariant rows == RowsOf(c, l, rs[..j])
      invariant rows != [] <==> exists k :: 0 <= k < j && Matches(c, l, rs[k])
      invariant forall k :: k in matched <==> k in matchedRight || (0 <= k < j && Matches(c, l, rs[k]))
      invariant forall k :: 0 <= k < j ==> Judged(c, l, rs[k]).Ok?
    {
      RowsStep(c, l, rs, j);
      var combined := Both(c, l, rs[j]);
      var matches := EvaluateFilter(c.env, combined, c.on);
      if matches.Err? {
        assert !Judged(c, [l][0], rs[j]).Ok?;
        return Err(matches.error);
      }
      if matches.value {
        rows := rows + [combined];
        matched := matched + {j};
      }
    }
    assert rs[..|rs|] == rs;
    return Ok((rows, matched));
  }

  /** Combines a right document with every left document. */
  method MatchColumn(c: JoinConfig, ls: seq<Record>, r: Record) returns (res: Result<seq<Record>, EvalError>)
    ensures res.Ok? <==> AllJudged(c, ls, [r])
    ensures res.Ok? ==> res.value == ColumnOf(c, ls, r) && (res.value != [] <==> RightMatched(c, ls, r))
  {
    hide Eval, JudgeOf, Both;
    var rows: seq<Record> := [];
    for i := 0 to |ls|
      invariant rows == ColumnOf(c, ls[..i], r)
      invariant rows != [] <==> exists k :: 0 <= k < i && Matches(c, ls[k], r)
      invariant forall k :: 0 <= k < i ==> Judged(c, ls[k], r).Ok?
    {
      ColumnStep(c, ls, r, i);
      var combined := Both(c, ls[i], r);
      var matches := EvaluateFilter(c.env, combined, c.on);
      if matches.Err? {
        assert !Judged(c, ls[i], [r][0]).Ok?;
        return Err(matches.error);
      }
      if matches.value {
        rows := rows + [combined];
      }
    }
    assert ls[..|ls|] == ls;
    return Ok(rows);
  }

  lemma {:induction false} JudgedRow(c: JoinConfig, ls: seq<Record>, rs: seq<Record>, i: nat)
    requires i < |ls|
    ensures AllJudged(c, ls[..i + 1], rs) <==> AllJudged(c, ls[..i], rs) && AllJudged(c, [ls[i]], rs)
    ensures AllJudged(c, ls, rs) ==> AllJudged(c, [ls[i]], rs)
  {
    hide Judged;
    if AllJudged(c, ls[..i + 1], rs) {
      assert ls[..i + 1][i] == ls[i] && forall k :: 0 <= k < i ==> ls[..i + 1][k] == ls[..i][k];
      assert forall j :: 0 <= j < |rs| ==> Judged(c, ls[..i + 1][i], rs[j]).Ok?;
    }
    if AllJudged(c, ls[..i], rs) && AllJudged(c, [ls[i]], rs) {
      assert forall j :: 0 <= j < |rs| ==> Judged(c, [ls[i]][0], rs[j]).Ok?;
      assert forall k :: 0 <= k < i ==> ls[..i + 1][k] == ls[..i][k];
    }
  }

  lemma {:induction false} JoinSteps(c: JoinConfig, ls: seq<Record>, rs: seq<Record>, i: nat)
    requires i < |ls|
    ensures InnerRows(c, ls[..i + 1], rs) == InnerRows(c, ls[..i], rs) + RowsOf(c, ls[i], rs)
    ensures LeftRows(c, ls[..i + 1], rs) == LeftRows(c, ls[..i], rs) + LeftRowsOf(c, ls[i], rs)
    ensures UnmatchedLeft(c, ls[..i + 1], rs) ==
            UnmatchedLeft(c, ls[..i], rs) + if LeftMatched(c, ls[i], rs) then [] else [LeftOnly(c, ls[i])]
  {
    assert ls[..i + 1][..i] == ls[..i];
    hide RowsOf, LeftRowsOf, LeftMatched, LeftOnly;
  }

  lemma {:induction false} RightSteps(c: JoinConfig, ls: seq<Record>, rs: seq<Record>, j: nat)
    requires j < |rs|
    ensures UnmatchedRight(c, ls, rs[..j + 1]) ==
            UnmatchedRight(c, ls, rs[..j]) + if RightMatched(c, ls, rs[j]) then [] else [RightOnly(c, rs[j])]
    ensures RightStreamRows(c, ls, rs[..j + 1]) ==
            RightStreamRows(c, ls, rs[..j]) + ColumnOf(c, ls, rs[j]) +
            if RightMatched(c, ls, rs[j]) then [] else [RightOnly(c, rs[j])]
  {
    assert rs[..j + 1][..j] == rs[..j];
    hide ColumnOf, RightMatched, RightOnly;
  }

  ghost predicate MarksRight(c: JoinConfig, ls: seq<Record>, rs: seq<Record>, matched: set<nat>) {
    forall j :: 0 <= j < |rs| ==> (j in matched <==> RightMatched(c, ls, rs[j]))
  }

  ghost predicate MarksLeft(c: JoinConfig, ls: seq<Record>, rs: seq<Record>, matched: set<nat>) {
    forall i :: 0 <= i < |ls| ==> (i in matched <==> LeftMatched(c, ls[i], rs))
  }

  lemma {:induction false} MarksStep(
    c: JoinConfig, ls: seq<Record>, rs: seq<Record>, i: nat, before: set<nat>, after: set<nat>)
    requires i < |ls| && MarksRight(c, ls[..i], rs, before)
    requires forall j :: j in after <==> j in before || (0 <= j < |rs| && Matches(c, ls[i], rs[j]))
    ensures MarksRight(c, ls[..i + 1], rs, after)
  {
    hide Matches;
    forall j | 0 <= j < |rs|
      ensures j in after <==> RightMatched(c, ls[..i + 1], rs[j])
    {
      assert forall k :: 0 <= k < i ==> ls[..i + 1][k] == ls[..i][k];
      assert ls[..i + 1][i] == ls[i];
      assert j in before <==> RightMatched(c, ls[..i], rs[j]);
      if RightMatched(c, ls[..i + 1], rs[j]) {
        var k :| 0 <= k < i + 1 && Matches(c, ls[..i + 1][k], rs[j]);
        if k < i {
          assert Matches(c, ls[..i][k], rs[j]);
        }
      }
    }
  }

  /**
   Left documents outermost: the matched rows, with or without the unmatched left documents in place, and which
   documents of either side matched.
  */
  method MatchAll(c: JoinConfig, ls: seq<Record>, rs: seq<Record>, keepLeft: bool)
    returns (r: Result<seq<Record>, EvalError>, matchedLeft: set<nat>, matchedRight: set<nat>)
    ensures r.Ok? <==> AllJudged(c, ls, rs)
    ensures r.Ok? ==> r.value == if keepLeft then LeftRows(c, ls, rs) else InnerRows(c, ls, rs)
    ensures r.Ok? ==> MarksLeft(c, ls, rs, matchedLeft) && MarksRight(c, ls, rs, matchedRight)
  {
    hide Eval, JudgeOf, Both, LeftOnly, Matches, Judged, AllJudged, RowsOf, LeftRows, InnerRows, LeftMatched,
      MarksRight;
    var rows: seq<Record> := [];
    matchedLeft, matchedRight := {}, {};
    MatchNothing(c, ls, rs);
    for i := 0 to |ls|
      invariant AllJudged(c, ls[..i], rs)
      invariant rows == if keepLeft then LeftRows(c, ls[..i], rs) else InnerRows(c, ls[..i], rs)
      invariant MarksRight(c, ls[..i], rs, matchedRight)
      invariant forall k :: 0 <= k < i ==> (k in matchedLeft <==> LeftMatched(c, ls[k], rs))
      invariant forall k :: k in matchedLeft ==> k < i
    {
      JudgedRow(c, ls, rs, i);
      JoinSteps(c, ls, rs, i);
      var row := MatchRow(c, ls[i], rs, matchedRight);
      if row.Err? {
        return Err(row.error), matchedLeft, matchedRight;
      }
      MarksStep(c, ls, rs, i, matchedRight, row.value.1);
      rows := rows + row.value.0;
      matchedRight := row.value.1;
      if row.value.0 != [] {
        matchedLeft := matchedLeft + {i};
      } else if keepLeft {
        rows := rows + [LeftOnly(c, ls[i])];
      }
    }
    assert ls[..|ls|] == ls;
    return Ok(rows), matchedLeft, matchedRight;
  }

  lemma {:induction false} MatchNothing(c: JoinConfig, ls: seq<Record>, rs: seq<Record>)
    ensures AllJudged(c, ls[..0], rs) && MarksRight(c, ls[..0], rs, {})
    ensures LeftRows(c, ls[..0], rs) == [] && InnerRows(c, ls[..0], rs) == []
  {
    hide Judged, Matches;
  }

  /** The right documents that are not marked, each with an empty left side. */
  method RestOfRight(c: JoinConfig, ghost ls: seq<Record>, rs: seq<Record>, matchedRight: set<nat>)
    returns (rows: seq<Record>)
    requires MarksRight(c, ls, rs, matchedRight)
    ensures rows == UnmatchedRight(c, ls, rs)
  {
    hide RightMatched, RightOnly;
    rows := [];
    for j := 0 to |rs|
      invariant rows == UnmatchedRight(c, ls, rs[..j])
    {
      assert rs[..j + 1][..j] == rs[..j];
      if j !in matchedRight {
        rows := rows + [RightOnly(c, rs[j])];
      }
    }
    assert rs[..|rs|] == rs;
  }

  method RestOfLeft(c: JoinConfig, ls: seq<Record>, ghost rs: seq<Record>, matchedLeft: set<nat>)
    returns (rows: seq<Record>)
    requires MarksLeft(c, ls, rs, matchedLeft)
    ensures rows == UnmatchedLeft(c, ls, rs)
  {
    hide LeftMatched, LeftOnly;
    rows := [];
    for i := 0 to |ls|
      invariant rows == UnmatchedLeft(c, ls[..i], rs)
    {
      assert ls[..i + 1][..i] == ls[..i];
      if i !in matchedLeft {
        rows := rows + [LeftOnly(c, ls[i])];
      }
    }
    assert ls[..|ls|] == ls;
  }

  /** Projects the rows of a finished join. */
  method FinishRows(c: JoinConfig, rows: seq<Record>) returns (finished: seq<Record>)
    ensures finished == FinishedAll(c, rows)
  {
    hide Finished;
    finished := [];
    for i := 0 to |rows|
      invariant finished == FinishedAll(c, rows[..i])
    {
      assert rows[..i + 1][..i] == rows[..i];
      finished := finished + [Finished(c, rows[i])];
    }
    assert rows[..|rows|] == rows;
  }

  /** A join of two collections: all its rows, or the first error of its condition. */
  method Join(c: JoinConfig, kind: JoinType, ls: seq<Record>, rs: seq<Record>)
    returns (r: Result<seq<Record>, EvalError>)
    ensures r.Ok? <==> AllJudged(c, ls, rs)
    ensures r.Ok? ==> r.value == FinishedAll(c, BatchRows(c, kind, ls, rs))
    ensures r.Ok? && c.leftName != c.rightName && c.wanted.None? ==>
      forall row :: multiset(r.value)[row] == TimesIn(c, kind, ls, rs, row)
  {
    AllRowsCounted(c, kind, ls, rs);
    hide TimesIn;
    hide AllJudged, MarksLeft, MarksRight, LeftRows, InnerRows, FinishedAll, UnmatchedRight;
    var matched, _, matchedRight := MatchAll(c, ls, rs, kind.LeftJoin? || kind.FullJoin?);
    if matched.Err? {
      return matched;
    }
    var rows := matched.value;
    if kind.RightJoin? || kind.FullJoin? {
      var rest := RestOfRight(c, ls, rs, matchedRight);
      rows := rows + rest;
    }
    var finished := FinishRows(c, rows);
    return Ok(finished);
  }

  /** A streaming right join: left documents are buffered, right documents pass through. */
  method StreamRight(c: JoinConfig, ls: seq<Record>, rs: seq<Record>) returns (r: Result<seq<Record>, EvalError>)
    ensures r.Ok? <==> AllJudged(c, ls, rs)
    ensures r.Ok? ==> r.value == RightStreamRows(c, ls, rs)
  {
    hide Eval, JudgeOf, Both, RightOnly, Matches, Judged, ColumnOf, RightMatched;
    var rows: seq<Record> := [];
    for j := 0 to |rs|
      invariant forall i, k :: 0 <= i < |ls| && 0 <= k < j ==> Judged(c, ls[i], rs[k]).Ok?
      invariant rows == RightStreamRows(c, ls, rs[..j])
    {
      RightSteps(c, ls, rs, j);
      var column := MatchColumn(c, ls, rs[j]);
      JudgedColumn(c, ls, rs, j);
      if column.Err? {
        return Err(column.error);
      }
      rows := rows + column.value;
      if column.value == [] {
        rows := rows + [RightOnly(c, rs[j])];
      }
    }
    assert rs[..|rs|] == rs;
    return Ok(rows);
  }

  lemma {:induction false} JudgedColumn(c: JoinConfig, ls: seq<Record>, rs: seq<Record>, j: nat)
    requires j < |rs|
    ensures AllJudged(c, ls, [rs[j]]) <==> forall i :: 0 <= i < |ls| ==> Judged(c, ls[i], rs[j]).Ok?
    ensures AllJudged(c, ls, rs) ==> AllJudged(c, ls, [rs[j]])
  {
    hide Judged;
    if AllJudged(c, ls, [rs[j]]) {
      assert forall i :: 0 <= i < |ls| ==> Judged(c, ls[i], [rs[j]][0]).Ok?;
    }
  }

  /**
   A join of two streams: the rows in the order they are sent. It ends with an error exactly when the whole join
   fails, and otherwise sends the whole join's rows.
  */
  method JoinStreams(c: JoinConfig, kind: JoinType, ls: seq<Record>, rs: seq<Record>)
    returns (r: Result<seq<Record>, EvalError>)
    ensures r.Ok? <==> AllJudged(c, ls, rs)
    ensures r.Ok? ==> r.value == FinishedAll(c, StreamRows(c, kind, ls, rs))
    ensures r.Ok? ==> multiset(r.value) == multiset(FinishedAll(c, BatchRows(c, kind, ls, rs)))
    ensures r.Ok? && (kind.InnerJoin? || kind.LeftJoin?) ==> r.value == FinishedAll(c, BatchRows(c, kind, ls, rs))
    ensures r.Ok? && c.leftName != c.rightName && c.wanted.None? ==>
      forall row :: multiset(r.value)[row] == TimesIn(c, kind, ls, rs, row)
  {
    AllRowsCounted(c, kind, ls, rs);
    hide TimesIn;
    hide AllJudged, MarksLeft, MarksRight, LeftRows, InnerRows, FinishedAll, UnmatchedRight, UnmatchedLeft,
      RightStreamRows;
    StreamsAgree(c, kind, ls, rs);
    var sent: Result<seq<Record>, EvalError>;
    if kind.RightJoin? {
      sent := StreamRight(c, ls, rs);
    } else {
      var matchedLeft, matchedRight;
      sent, matchedLeft, matchedRight := MatchAll(c, ls, rs, kind.LeftJoin?);
      if kind.FullJoin? && sent.Ok? {
        var restOfLeft := RestOfLeft(c, ls, rs, matchedLeft);
        var restOfRight := RestOfRight(c, ls, rs, matchedRight);
        sent := Ok(sent.value + restOfLeft + restOfRight);
      }
    }
    if sent.Err? {
      return sent;
    }
    var finished := FinishRows(c, sent.value);
    return Ok(finished);
  }
}
