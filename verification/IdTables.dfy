/**
 The open-addressing hash index from ids to entry positions: linear probing, tombstones, growth and
 compaction by rehashing. `Model` is the finite map the arrays stand for.
*/
module IdTables {
  import opened Wrappers
  import opened Handles

  datatype CellState = Empty | Occupied | Tomb

  const MIN_CAP := 8

  function Xor(a: nat, b: nat): nat
    decreases a + b
  {
    if a == 0 && b == 0 then 0 else (a + b) % 2 + 2 * Xor(a / 2, b / 2)
  }

  /** The 64-bit finalizer: xor-shifts by 33 and multiplications that wrap around. */
  function HashUint64(x: Word): nat {
    var a := Xor(x, x / 0x2_0000_0000);
    var b := (a * 0xff51_afd7_ed55_8ccd) % TWO_64;
    var c := Xor(b, b / 0x2_0000_0000);
    var d := (c * 0xc4ce_b9fe_1a85_ec53) % TWO_64;
    Xor(d, d / 0x2_0000_0000)
  }

  predicate PowerOfTwo(c: nat) {
    c == 1 || (c > 0 && c % 2 == 0 && PowerOfTwo(c / 2))
  }

  /** Masking with `cap - 1`, which for a power of two is the remainder. */
  function Home(id: Word, cap: nat): (i: nat)
    requires cap > 0
    ensures i < cap
  {
    HashUint64(id) % cap
  }

  /** How many probe steps lead from cell `a` to cell `b`, going around the end. */
  function Dist(a: nat, b: nat, cap: nat): (d: nat)
    requires a < cap && b < cap
    ensures d < cap
  {
    if a <= b then b - a else b - a + cap
  }

  function Next(i: nat, cap: nat): (j: nat)
    requires i < cap
    ensures j < cap
  {
    if i + 1 == cap then 0 else i + 1
  }

  function CountOf(state: seq<CellState>, c: CellState): nat {
    if state == [] then 0
    else CountOf(state[..|state| - 1], c) + if state[|state| - 1] == c then 1 else 0
  }

  lemma {:induction false} CountUpdate(state: seq<CellState>, i: nat, s: CellState, c: CellState)
    requires i < |state|
    ensures CountOf(state[i := s], c) ==
      CountOf(state, c) - (if state[i] == c then 1 else 0) + (if s == c then 1 else 0)
  {
    var n := |state| - 1;
    if i == n {
      assert state[i := s][..n] == state[..n];
    } else {
      assert state[i := s][..n] == state[..n][i := s];
      CountUpdate(state[..n], i, s, c);
    }
  }

  lemma {:induction false} CountPrefix(state: seq<CellState>, k: nat, c: CellState)
    requires k <= |state|
    ensures CountOf(state[..k], c) <= CountOf(state, c)
  {
    if k == |state| {
      assert state[..k] == state;
    } else {
      var n := |state| - 1;
      assert state[..n][..k] == state[..k];
      CountPrefix(state[..n], k, c);
    }
  }

  lemma {:induction false} CountAllEmpty(state: seq<CellState>, c: CellState)
    requires forall i :: 0 <= i < |state| ==> state[i] == Empty
    ensures c != Empty ==> CountOf(state, c) == 0
  {
    if state != [] {
      CountAllEmpty(state[..|state| - 1], c);
    }
  }

  /** A table whose occupied and deleted cells are fewer than its cells has an empty one. */
  lemma {:induction false} HasEmpty(state: seq<CellState>)
    requires CountOf(state, Occupied) + CountOf(state, Tomb) < |state|
    ensures exists e :: 0 <= e < |state| && state[e] == Empty
  {
    var n := |state| - 1;
    if state[n] != Empty {
      HasEmpty(state[..n]);
      var e :| 0 <= e < n && state[..n][e] == Empty;
      assert state[e] == Empty;
    }
  }

  // ---------- the map a table stands for ----------

  ghost predicate NoDuplicates(keys: seq<Word>, state: seq<CellState>)
    requires |keys| == |state|
  {
    forall i, j :: 0 <= i < j < |state| && state[i] == Occupied && state[j] == Occupied ==> keys[i] != keys[j]
  }

  /** No empty cell lies on the probe path from a key's home to the key. */
  ghost predicate Reachable(keys: seq<Word>, state: seq<CellState>)
    requires |keys| == |state|
  {
    forall i, j :: 0 <= i < |state| && 0 <= j < |state| && state[i] == Occupied
      && Dist(Home(keys[i], |state|), j, |state|) < Dist(Home(keys[i], |state|), i, |state|)
      ==> state[j] != Empty
  }

  ghost function Denoted(keys: seq<Word>, vals: seq<int>, state: seq<CellState>): (m: map<Word, int>)
    requires |keys| == |vals| == |state| && NoDuplicates(keys, state)
    ensures forall i :: 0 <= i < |state| && state[i] == Occupied ==> keys[i] in m && m[keys[i]] == vals[i]
    ensures forall id :: id in m ==> exists i :: 0 <= i < |state| && state[i] == Occupied && keys[i] == id
  {
    map i | 0 <= i < |state| && state[i] == Occupied :: keys[i] := vals[i]
  }

  /** Two maps agree when they map the same keys, cell by cell: the extensionality used below. */
  lemma {:induction false} DenotedIs(keys: seq<Word>, vals: seq<int>, state: seq<CellState>, m: map<Word, int>)
    requires |keys| == |vals| == |state| && NoDuplicates(keys, state)
    requires forall i :: 0 <= i < |state| && state[i] == Occupied ==> keys[i] in m && m[keys[i]] == vals[i]
    requires forall id :: id in m ==> exists i :: 0 <= i < |state| && state[i] == Occupied && keys[i] == id
    ensures Denoted(keys, vals, state) == m
  {
    var d := Denoted(keys, vals, state);
    forall id
      ensures id in d <==> id in m
    {
    }
    forall id | id in m
      ensures d[id] == m[id]
    {
      var i :| 0 <= i < |state| && state[i] == Occupied && keys[i] == id;
    }
  }

  /** The cells a probe for `id` visits before cell `i` are non-empty and do not hold `id`. */
  ghost predicate Passed(keys: seq<Word>, state: seq<CellState>, id: Word, i: nat)
    requires |keys| == |state| && i < |state|
  {
    var cap := |state|;
    forall j :: 0 <= j < cap && Dist(Home(id, cap), j, cap) < Dist(Home(id, cap), i, cap)
      ==> state[j] != Empty && !(state[j] == Occupied && keys[j] == id)
  }

  /** A probe that meets an empty cell before the key proves the key absent. */
  lemma {:induction false} Absent(keys: seq<Word>, state: seq<CellState>, id: Word, i: nat)
    requires |keys| == |state| && Reachable(keys, state)
    requires i < |state| && state[i] == Empty && Passed(keys, state, id, i)
    ensures forall k :: 0 <= k < |state| && state[k] == Occupied ==> keys[k] != id
  {
    hide Home;
  }

  /** One more probe step: a probe that has met no empty cell has not gone around. */
  lemma {:induction false} PassedStep(keys: seq<Word>, state: seq<CellState>, id: Word, i: nat)
    requires |keys| == |state| && i < |state| && Passed(keys, state, id, i)
    requires state[i] != Empty && !(state[i] == Occupied && keys[i] == id)
    requires exists e :: 0 <= e < |state| && state[e] == Empty
    ensures Passed(keys, state, id, Next(i, |state|))
    ensures ProbeLeft(id, Next(i, |state|), |state|) == ProbeLeft(id, i, |state|) - 1
  {
    hide Home;
    var cap := |state|;
    var h := Home(id, cap);
    var e :| 0 <= e < cap && state[e] == Empty;
    assert Dist(h, i, cap) < Dist(h, e, cap);
    assert Dist(h, Next(i, cap), cap) == Dist(h, i, cap) + 1;
    forall j | 0 <= j < cap && Dist(h, j, cap) < Dist(h, Next(i, cap), cap)
      ensures state[j] != Empty && !(state[j] == Occupied && keys[j] == id)
    {
      assert j == i || Dist(h, j, cap) < Dist(h, i, cap);
    }
  }

  /** Probe steps left before the probe would be around. */
  function ProbeLeft(id: Word, i: nat, cap: nat): (n: nat)
    requires i < cap
  {
    cap - Dist(Home(id, cap), i, cap)
  }

  /** Writing a fresh key into a free cell that its probe path reaches keeps every probe path... */
  lemma {:induction false} PlacedReachable(keys: seq<Word>, state: seq<CellState>, t: nat, id: Word)
    requires |keys| == |state| && Reachable(keys, state)
    requires t < |state| && Passed(keys, state, id, t)
    ensures Reachable(keys[t := id], state[t := Occupied])
  {
    hide Home;
    var cap := |state|;
    var keys', state' := keys[t := id], state[t := Occupied];
    forall i, j | 0 <= i < cap && 0 <= j < cap && state'[i] == Occupied
      && Dist(Home(keys'[i], cap), j, cap) < Dist(Home(keys'[i], cap), i, cap)
      ensures state'[j] != Empty
    {
      if i != t && j != t {
        assert keys'[i] == keys[i];
      }
    }
  }

  /** ...and adds exactly that key to the map. */
  lemma {:induction false} PlacedDenoted(
    keys: seq<Word>, vals: seq<int>, state: seq<CellState>, t: nat, id: Word, val: int)
    requires |keys| == |vals| == |state| && NoDuplicates(keys, state)
    requires t < |state| && state[t] != Occupied
    requires forall k :: 0 <= k < |state| && state[k] == Occupied ==> keys[k] != id
    ensures NoDuplicates(keys[t := id], state[t := Occupied])
    ensures Denoted(keys[t := id], vals[t := val], state[t := Occupied]) == Denoted(keys, vals, state)[id := val]
  {
    var keys', vals', state' := keys[t := id], vals[t := val], state[t := Occupied];
    var m := Denoted(keys, vals, state)[id := val];
    forall x | x in m
      ensures exists i :: 0 <= i < |state'| && state'[i] == Occupied && keys'[i] == x
    {
      if x == id {
        assert state'[t] == Occupied && keys'[t] == x;
      } else {
        var i :| 0 <= i < |state| && state[i] == Occupied && keys[i] == x;
        assert state'[i] == Occupied && keys'[i] == x;
      }
    }
    DenotedIs(keys', vals', state', m);
  }

  /** Overwriting the value of an occupied cell changes that key's value only. */
  lemma {:induction false} UpdatedSpec(keys: seq<Word>, vals: seq<int>, state: seq<CellState>, t: nat, val: int)
    requires |keys| == |vals| == |state| && NoDuplicates(keys, state)
    requires t < |state| && state[t] == Occupied
    ensures Denoted(keys, vals[t := val], state) == Denoted(keys, vals, state)[keys[t] := val]
  {
    DenotedIs(keys, vals[t := val], state, Denoted(keys, vals, state)[keys[t] := val]);
  }

  /** Turning an occupied cell into a tombstone keeps every probe path... */
  lemma {:induction false} RemovedReachable(keys: seq<Word>, state: seq<CellState>, t: nat)
    requires |keys| == |state| && Reachable(keys, state) && t < |state|
    ensures Reachable(keys, state[t := Tomb])
  {
    hide Home;
    var cap := |state|;
    forall i, j | 0 <= i < cap && 0 <= j < cap && state[t := Tomb][i] == Occupied
      && Dist(Home(keys[i], cap), j, cap) < Dist(Home(keys[i], cap), i, cap)
      ensures state[t := Tomb][j] != Empty
    {
    }
  }

  /** ...and removes exactly its key. */
  lemma {:induction false} RemovedDenoted(keys: seq<Word>, vals: seq<int>, state: seq<CellState>, t: nat)
    requires |keys| == |vals| == |state| && NoDuplicates(keys, state)
    requires t < |state| && state[t] == Occupied
    ensures NoDuplicates(keys, state[t := Tomb])
    ensures Denoted(keys, vals, state[t := Tomb]) == Denoted(keys, vals, state) - {keys[t]}
  {
    var state' := state[t := Tomb];
    var m := Denoted(keys, vals, state) - {keys[t]};
    forall x | x in m
      ensures exists i :: 0 <= i < |state'| && state'[i] == Occupied && keys[i] == x
    {
      var i :| 0 <= i < |state| && state[i] == Occupied && keys[i] == x;
      assert state'[i] == Occupied;
    }
    forall i | 0 <= i < |state'| && state'[i] == Occupied
      ensures keys[i] in m && m[keys[i]] == vals[i]
    {
      if i < t {
        assert keys[i] != keys[t];
      } else {
        assert keys[t] != keys[i];
      }
    }
    DenotedIs(keys, vals, state', m);
  }

  /** The map of the first `n` cells, built in the order a rehash reads them. */
  ghost function PrefixModel(keys: seq<Word>, vals: seq<int>, state: seq<CellState>, n: nat): map<Word, int>
    requires |keys| == |vals| == |state| && n <= |state|
  {
    if n == 0 then map[]
    else
      var m := PrefixModel(keys, vals, state, n - 1);
      if state[n - 1] == Occupied then m[keys[n - 1] := vals[n - 1]] else m
  }

  lemma {:induction false} PrefixModelIs(keys: seq<Word>, vals: seq<int>, state: seq<CellState>, n: nat)
    requires |keys| == |vals| == |state| && n <= |state| && NoDuplicates(keys, state)
    ensures forall i :: 0 <= i < n && state[i] == Occupied ==>
      keys[i] in PrefixModel(keys, vals, state, n) && PrefixModel(keys, vals, state, n)[keys[i]] == vals[i]
    ensures forall id :: id in PrefixModel(keys, vals, state, n) ==>
      exists i :: 0 <= i < n && state[i] == Occupied && keys[i] == id
  {
    if n > 0 {
      PrefixModelIs(keys, vals, state, n - 1);
    }
  }

  lemma {:induction false} FreshInPrefix(keys: seq<Word>, vals: seq<int>, state: seq<CellState>, n: nat)
    requires |keys| == |vals| == |state| && n < |state| && NoDuplicates(keys, state) && state[n] == Occupied
    ensures keys[n] !in PrefixModel(keys, vals, state, n)
    ensures PrefixModel(keys, vals, state, n + 1) == PrefixModel(keys, vals, state, n)[keys[n] := vals[n]]
  {
    PrefixModelIs(keys, vals, state, n);
  }

  /** The model of a table that may not exist yet. */
  ghost function ModelOf(t: IdTable?): map<Word, int>
    requires t != null ==> t.Valid()
    reads t, if t == null then {} else {t.keys, t.vals, t.state}
  {
    if t == null then map[] else t.Model()
  }

  ghost function Footprint(t: IdTable?): set<object> {
    if t == null then {} else {t, t.keys, t.vals, t.state}
  }

  class IdTable {
    const keys: array<Word>
    const vals: array<int>
    const state: array<CellState>
    var count: nat
    var tomb: nat

    ghost predicate Shape()
      reads this, state
    {
      && keys.Length == vals.Length == state.Length
      && state.Length >= MIN_CAP && PowerOfTwo(state.Length)
      && count == CountOf(state[..], Occupied) && tomb == CountOf(state[..], Tomb)
    }

    /** At least three cells in ten are empty. */
    ghost predicate Loaded(occupied: nat)
    {
      occupied * 10 < state.Length * 7
    }

    ghost predicate Valid()
      reads this, keys, vals, state
    {
      && Shape()
      && Loaded(count + tomb)
      && NoDuplicates(keys[..], state[..])
      && Reachable(keys[..], state[..])
    }

    ghost function Model(): map<Word, int>
      requires Valid()
      reads this, keys, vals, state
    {
      Denoted(keys[..], vals[..], state[..])
    }

    constructor (capacityHint: nat)
      ensures Valid() && Model() == map[] && count == 0 && tomb == 0
      ensures capacityHint <= state.Length
      ensures PowerOfTwo(capacityHint) && capacityHint >= MIN_CAP ==> state.Length == capacityHint
      ensures fresh(keys) && fresh(vals) && fresh(state)
    {
      var c := MIN_CAP;
      assert PowerOfTwo(8) by { assert PowerOfTwo(4) by { assert PowerOfTwo(2); } }
      while c < capacityHint
        invariant c >= MIN_CAP && PowerOfTwo(c)
        invariant PowerOfTwo(capacityHint) && capacityHint >= MIN_CAP ==> c <= capacityHint
        decreases capacityHint - c
      {
        if PowerOfTwo(capacityHint) && capacityHint >= MIN_CAP {
          DoubleFits(c, capacityHint);
        }
        c := c * 2;
      }
      keys := new Word[c](_ => 0);
      vals := new int[c](_ => 0);
      state := new CellState[c](_ => Empty);
      count, tomb := 0, 0;
      new;
      CountAllEmpty(state[..], Occupied);
      CountAllEmpty(state[..], Tomb);
      assert Model() == map[] by { DenotedIs(keys[..], vals[..], state[..], map[]); }
    }

    method Clone() returns (t: IdTable)
      requires Valid()
      ensures t.Valid() && t.Model() == Model()
      ensures fresh(t) && fresh(t.keys) && fresh(t.vals) && fresh(t.state)
      ensures t.keys[..] == keys[..] && t.vals[..] == vals[..] && t.state[..] == state[..]
      ensures t.count == count && t.tomb == tomb
    {
      t := new IdTable.CopyOf(this);
    }

    constructor CopyOf(t: IdTable)
      requires t.Valid()
      ensures fresh(keys) && fresh(vals) && fresh(state)
      ensures keys[..] == t.keys[..] && vals[..] == t.vals[..] && state[..] == t.state[..]
      ensures count == t.count && tomb == t.tomb
    {
      keys := new Word[t.keys.Length](i requires 0 <= i < t.keys.Length reads t, t.keys => t.keys[i]);
      vals := new int[t.vals.Length](i requires 0 <= i < t.vals.Length reads t, t.vals => t.vals[i]);
      state := new CellState[t.state.Length](i requires 0 <= i < t.state.Length reads t, t.state => t.state[i]);
      count, tomb := t.count, t.tomb;
    }

    /** Linear probing from the id's home: finds the cell of a mapped id, and stops at an empty cell otherwise. */
    method Find(id: Word) returns (r: Option<nat>)
      requires Valid()
      ensures r.Some? <==> id in Model()
      ensures r.Some? ==> r.value < state.Length && state[r.value] == Occupied && keys[r.value] == id
    {
      hide Home;
      var cap := state.Length;
      var i: nat := Home(id, cap);
      HasEmpty(state[..]);
      while true
        invariant i < cap && Passed(keys[..], state[..], id, i)
        decreases ProbeLeft(id, i, cap)
      {
        if state[i] == Empty {
          Absent(keys[..], state[..], id, i);
          return None;
        }
        if state[i] == Occupied && keys[i] == id {
          return Some(i);
        }
        PassedStep(keys[..], state[..], id, i);
        i := Next(i, cap);
      }
      assert false;
    }

    method Lookup(id: Word) returns (r: Option<int>)
      requires Valid()
      ensures r.Some? <==> id in Model()
      ensures r.Some? ==> r.value == Model()[id]
    {
      var idx := Find(id);
      match idx
      case None => return None;
      case Some(i) => return Some(vals[i]);
    }

    /** The probe of an insertion: stops at the id's cell or at an empty one, remembering the first tombstone passed. */
    method Probe(id: Word) returns (i: nat, firstTomb: Option<nat>)
      requires Valid()
      ensures i < state.Length && Passed(keys[..], state[..], id, i)
      ensures state[i] == Empty || (state[i] == Occupied && keys[i] == id)
      ensures firstTomb.Some? ==>
        && firstTomb.value < state.Length
        && state[firstTomb.value] == Tomb
        && Passed(keys[..], state[..], id, firstTomb.value)
    {
      hide Home;
      i := Home(id, state.Length);
      firstTomb := None;
      HasEmpty(state[..]);
      while state[i] != Empty && !(state[i] == Occupied && keys[i] == id)
        invariant i < state.Length && Passed(keys[..], state[..], id, i)
        invariant firstTomb.Some? ==>
          && firstTomb.value < state.Length
          && state[firstTomb.value] == Tomb
          && Passed(keys[..], state[..], id, firstTomb.value)
        decreases ProbeLeft(id, i, state.Length)
      {
        if state[i] == Tomb && firstTomb.None? {
          firstTomb := Some(i);
        }
        PassedStep(keys[..], state[..], id, i);
        i := Next(i, state.Length);
      }
    }

    /** Updates the id's cell, or places a fresh id in the first tombstone passed, or else in the empty cell. */
    method InsertOrUpdateInPlace(id: Word, val: int)
      requires Valid() && Loaded(count + tomb + 1)
      modifies this, keys, vals, state
      ensures Valid() && Model() == old(Model())[id := val]
      ensures count <= old(count) + 1 && count + tomb <= old(count + tomb) + 1
      ensures old(tomb) == 0 ==> tomb == 0
      ensures id !in old(Model()) ==> count == old(count) + 1
    {
      hide Home;
      var i, firstTomb := Probe(id);
      if state[i] == Occupied {
        UpdateValue(i, val);
      } else {
        Absent(keys[..], state[..], id, i);
        Place(if firstTomb.Some? then firstTomb.value else i, id, val);
      }
    }

    method UpdateValue(i: nat, val: int)
      requires Valid() && i < state.Length && state[i] == Occupied
      modifies vals
      ensures Valid() && Model() == old(Model())[keys[i] := val]
      ensures keys[i] in old(Model())
    {
      UpdatedSpec(keys[..], vals[..], state[..], i, val);
      ghost var v := vals[..][i := val];
      vals[i] := val;
      assert vals[..] == v;
    }

    /** Writes a fresh id into a free cell on its probe path. */
    method Place(target: nat, id: Word, val: int)
      requires Valid() && Loaded(count + tomb + 1)
      requires target < state.Length && state[target] != Occupied && Passed(keys[..], state[..], id, target)
      requires forall k :: 0 <= k < |state[..]| && state[..][k] == Occupied ==> keys[..][k] != id
      modifies this, keys, vals, state
      ensures Valid() && Model() == old(Model())[id := val]
      ensures count == old(count) + 1
      ensures tomb == old(tomb) - if old(state[target]) == Tomb then 1 else 0
    {
      hide Home, Dist, PowerOfTwo;
      PlacedReachable(keys[..], state[..], target, id);
      PlacedDenoted(keys[..], vals[..], state[..], target, id, val);
      CountUpdate(state[..], target, Occupied, Occupied);
      CountUpdate(state[..], target, Occupied, Tomb);
      ghost var k, v, s := keys[..][target := id], vals[..][target := val], state[..][target := Occupied];
      if state[target] == Tomb {
        tomb := tomb - 1;
      }
      keys[target] := id;
      vals[target] := val;
      state[target] := Occupied;
      count := count + 1;
      assert keys[..] == k && vals[..] == v && state[..] == s;
    }

    method MakeTomb(i: nat)
      requires Valid() && i < state.Length && state[i] == Occupied
      modifies this, state
      ensures Valid() && Model() == old(Model()) - {keys[i]}
      ensures count == old(count) - 1 && tomb == old(tomb) + 1
    {
      RemovedReachable(keys[..], state[..], i);
      RemovedDenoted(keys[..], vals[..], state[..], i);
      CountUpdate(state[..], i, Tomb, Occupied);
      CountUpdate(state[..], i, Tomb, Tomb);
      ghost var s := state[..][i := Tomb];
      state[i] := Tomb;
      count := count - 1;
      tomb := tomb + 1;
      assert state[..] == s;
    }

    /** Copies every occupied cell into a new table without tombstones. */
    method Rehashed(newCap: nat) returns (nt: IdTable)
      requires Valid()
      requires newCap >= MIN_CAP && count * 10 < newCap * 7
      ensures fresh(nt) && fresh(nt.keys) && fresh(nt.vals) && fresh(nt.state)
      ensures nt.Valid() && nt.Model() == Model()
      ensures nt.count == count && nt.tomb == 0
      ensures newCap <= nt.state.Length
    {
      hide Home, NoDuplicates, Reachable, Denoted, PrefixModel, CountOf, PowerOfTwo;
      nt := new IdTable(newCap);
      ghost var k, v, s := keys[..], vals[..], state[..];
      RehashStart(k, v, s);
      for i := 0 to state.Length
        invariant fresh(nt) && fresh(nt.keys) && fresh(nt.vals) && fresh(nt.state)
        invariant nt.Valid() && nt.tomb == 0 && newCap <= nt.state.Length
        invariant nt.count == CountOf(s[..i], Occupied)
        invariant nt.Model() == PrefixModel(k, v, s, i)
      {
        RehashStep(k, v, s, i);
        if state[i] == Occupied {
          nt.InsertOrUpdateInPlace(keys[i], vals[i]);
        }
      }
    }
  }

  lemma {:induction false} RehashStart(keys: seq<Word>, vals: seq<int>, state: seq<CellState>)
    requires |keys| == |vals| == |state| && NoDuplicates(keys, state)
    ensures CountOf(state[..0], Occupied) == 0 && PrefixModel(keys, vals, state, 0) == map[]
    ensures state[..|state|] == state && PrefixModel(keys, vals, state, |state|) == Denoted(keys, vals, state)
  {
    PrefixModelIs(keys, vals, state, |state|);
    DenotedIs(keys, vals, state, PrefixModel(keys, vals, state, |state|));
  }

  /** One more cell: an occupied one adds an id not met before. */
  lemma {:induction false} RehashStep(keys: seq<Word>, vals: seq<int>, state: seq<CellState>, i: nat)
    requires |keys| == |vals| == |state| && i < |state| && NoDuplicates(keys, state)
    ensures CountOf(state[..i + 1], Occupied) ==
            CountOf(state[..i], Occupied) + if state[i] == Occupied then 1 else 0
    ensures CountOf(state[..i + 1], Occupied) <= CountOf(state, Occupied)
    ensures PrefixModel(keys, vals, state, i + 1) ==
            if state[i] == Occupied then PrefixModel(keys, vals, state, i)[keys[i] := vals[i]]
            else PrefixModel(keys, vals, state, i)
    ensures state[i] == Occupied ==> keys[i] !in PrefixModel(keys, vals, state, i)
  {
    assert state[..i + 1][..i] == state[..i];
    CountPrefix(state, i + 1, Occupied);
    if state[i] == Occupied {
      FreshInPrefix(keys, vals, state, i);
    }
  }

  /** The smallest capacity, doubling from 8, that n entries fill to at most six tenths. */
  method CapForCount(n: nat) returns (c: nat)
    ensures c >= MIN_CAP && PowerOfTwo(c) && n <= c * 6 / 10
    ensures c == MIN_CAP || c / 2 * 6 / 10 < n
  {
    c := MIN_CAP;
    assert PowerOfTwo(8) by { assert PowerOfTwo(4) by { assert PowerOfTwo(2); } }
    while c * 6 / 10 < n
      invariant c >= MIN_CAP && PowerOfTwo(c)
      invariant c == MIN_CAP || c / 2 * 6 / 10 < n
      decreases n - c * 6 / 10
    {
      c := c * 2;
    }
  }

  /** A private copy with room for one more entry: rehashed to a larger or cleaner table at seven tenths. */
  method WithRoom(t: IdTable?) returns (nt: IdTable)
    requires t != null ==> t.Valid()
    ensures fresh(Footprint(nt)) && nt.Valid() && nt.Loaded(nt.count + nt.tomb + 1)
    ensures nt.Model() == ModelOf(t)
  {
    hide Home, Denoted, NoDuplicates, Reachable, CountOf, PowerOfTwo;
    if t == null {
      nt := new IdTable(MIN_CAP);
    } else if (t.count + t.tomb + 1) * 10 >= t.state.Length * 7 {
      var c := CapForCount(t.count + 1);
      nt := t.Rehashed(c);
    } else {
      nt := t.Clone();
    }
  }

  /** A new table with the id mapped to the value; the old table is left as it was. */
  method InsertOrUpdate(t: IdTable?, id: Word, val: int) returns (nt: IdTable)
    requires t != null ==> t.Valid()
    ensures fresh(Footprint(nt)) && nt.Valid()
    ensures ModelOf(nt) == ModelOf(t)[id := val]
  {
    hide Home, Denoted, NoDuplicates, Reachable, CountOf, PowerOfTwo;
    nt := WithRoom(t);
    nt.InsertOrUpdateInPlace(id, val);
  }

  /** A new table without the id, rehashed at the same size once enough tombstones have gathered. */
  method Delete(t: IdTable?, id: Word, compactionThreshold: int) returns (nt: IdTable?, compacted: bool)
    requires t != null ==> t.Valid()
    ensures nt != null ==> nt.Valid()
    ensures ModelOf(nt) == ModelOf(t) - {id}
    ensures id !in ModelOf(t) ==> nt == t && !compacted
    ensures id in ModelOf(t) ==>
      && nt != null && fresh(Footprint(nt))
      && (compacted <==> t.tomb + 1 >= compactionThreshold)
      && nt.count + 1 == t.count
      && nt.tomb == if compacted then 0 else t.tomb + 1
  {
    hide Home, Denoted, NoDuplicates, Reachable, CountOf, PowerOfTwo;
    if t == null {
      return t, false;
    }
    var idx := t.Find(id);
    if idx.None? {
      assert t.Model() - {id} == t.Model();
      return t, false;
    }
    var u := t.Clone();
    u.MakeTomb(idx.value);
    if u.tomb >= compactionThreshold {
      nt := u.Rehashed(u.state.Length);
      return nt, true;
    }
    return u, false;
  }

  lemma {:induction false} DoubleFits(c: nat, d: nat)
    requires PowerOfTwo(c) && PowerOfTwo(d) && c < d
    ensures 2 * c <= d
    decreases c
  {
    if c > 1 {
      DoubleFits(c / 2, d / 2);
    }
  }
}
