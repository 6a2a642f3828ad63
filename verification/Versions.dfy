/**
 Versions packed into 64 bits so that numbers compare as versions do, histories of versions, and 10-bit addresses
 into them. Fields are unbounded and masked when packed, so every operation has a last value after which it wraps;
 a tag version that was parsed can be negative.
*/
module Versions {
  import opened Wrappers
  import opened Handles

  type Rank = r: nat | r < 256

  const STABLE: Rank := 255
  const MAX_HISTORY := 1024
  const FIELD := 0x1_0000
  const TAG := 256

  datatype Version = Version(major: nat, minor: nat, patch: nat, tagType: Rank, tagVersion: int)

  datatype VersionError = HistoryFull | InvalidAddress | NotPrerelease | AlreadyStable | VersionNotFound | UnknownTag

  // ---------- packing and order ----------

  /** What a packed version keeps of a version. */
  function Masked(v: Version): (m: Version)
    ensures Fits(m)
  {
    Version(v.major % FIELD, v.minor % FIELD, v.patch % FIELD, v.tagType, v.tagVersion % TAG)
  }

  predicate Fits(v: Version) {
    v.major < FIELD && v.minor < FIELD && v.patch < FIELD && 0 <= v.tagVersion < TAG
  }

  function Digits(m: Version): nat
    requires m.tagVersion >= 0
  {
    m.tagVersion + TAG * (m.tagType + TAG * (m.patch + FIELD * (m.minor + FIELD * m.major)))
  }

  /** Sixteen bits each for major, minor and patch, eight for the rank of the tag and eight for its version. */
  function ToUint64(v: Version): (w: Word) {
    DigitsBound(Masked(v));
    Digits(Masked(v))
  }

  lemma {:induction false} DigitsBound(m: Version)
    requires Fits(m)
    ensures Digits(m) < TWO_64
  {
  }

  /** Shifts and masks field by field; shifting twice is shifting by the sum. */
  function NewVersionFromUint64(w: Word): Version {
    var release := w / TAG / TAG;
    Version(release / FIELD / FIELD % FIELD, release / FIELD % FIELD, release % FIELD, w / TAG % TAG, w % TAG)
  }

  function Compare(a: Version, b: Version): int {
    if ToUint64(a) < ToUint64(b) then -1 else if ToUint64(a) > ToUint64(b) then 1 else 0
  }

  /** Unpacking gives back what was kept, and every word is the packing of its own version. */
  lemma {:induction false} PackingIsExact(v: Version, w: Word)
    ensures NewVersionFromUint64(ToUint64(v)) == Masked(v)
    ensures ToUint64(NewVersionFromUint64(w)) == w
  {
    Unpacked(Masked(v));
    Repacked(w);
    hide Digits;
  }

  lemma {:induction false} Unpacked(m: Version)
    requires Fits(m)
    ensures 0 <= Digits(m) < TWO_64 && NewVersionFromUint64(Digits(m)) == m
  {
    DigitsBound(m);
    var q3 := m.minor + FIELD * m.major;
    var q2 := m.patch + FIELD * q3;
    var q1 := m.tagType + TAG * q2;
    DivRange(q1, TAG, m.tagVersion);
    DivRange(q2, TAG, m.tagType);
    DivRange(q3, FIELD, m.patch);
    DivRange(m.major, FIELD, m.minor);
    DivRange(0, FIELD, m.major);
  }

  lemma {:induction false} Repacked(w: Word)
    ensures Masked(NewVersionFromUint64(w)) == NewVersionFromUint64(w) && Digits(NewVersionFromUint64(w)) == w
  {
    var q1 := w / TAG;
    var q2 := q1 / TAG;
    var q3 := q2 / FIELD;
    var q4 := q3 / FIELD;
    assert w == w % TAG + TAG * q1 && q1 == q1 % TAG + TAG * q2;
    assert q2 == q2 % FIELD + FIELD * q3 && q3 == q3 % FIELD + FIELD * q4;
    assert q4 < FIELD;
    DivRange(0, FIELD, q4);
    DivRange(0, FIELD, q3 % FIELD);
    DivRange(0, FIELD, q2 % FIELD);
    DivRange(0, TAG, w % TAG);
  }

  /** The order of versions: by major, minor, patch, rank and tag version. */
  predicate Before(x: Version, y: Version) {
    x.major < y.major || (x.major == y.major &&
      (x.minor < y.minor || (x.minor == y.minor &&
        (x.patch < y.patch || (x.patch == y.patch &&
          (x.tagType < y.tagType || (x.tagType == y.tagType && x.tagVersion < y.tagVersion)))))))
  }

  lemma {:induction false} DigitOrder(base: nat, x: nat, d: nat, y: nat, e: nat)
    requires d < base && e < base
    ensures d + base * x < e + base * y <==> x < y || (x == y && d < e)
  {
    MulMonotone(base, x + 1, y);
    MulMonotone(base, y + 1, x);
    assert base * (x + 1) == base * x + base && base * (y + 1) == base * y + base;
  }

  lemma {:induction false} DigitsOrder(x: Version, y: Version)
    requires Fits(x) && Fits(y)
    ensures Digits(x) < Digits(y) <==> Before(x, y)
  {
    var x3, y3 := x.minor + FIELD * x.major, y.minor + FIELD * y.major;
    var x2, y2 := x.patch + FIELD * x3, y.patch + FIELD * y3;
    DigitOrder(FIELD, x.major, x.minor, y.major, y.minor);
    DigitOrder(FIELD, x3, x.patch, y3, y.patch);
    DigitOrder(TAG, x2, x.tagType, y2, y.tagType);
    DigitOrder(TAG, x.tagType + TAG * x2, x.tagVersion, y.tagType + TAG * y2, y.tagVersion);
  }

  lemma {:induction false} BeforeIsTotal(x: Version, y: Version)
    ensures x == y || Before(x, y) || Before(y, x)
  {
  }

  /** Packed versions compare as versions do. */
  lemma {:induction false} OrderIsLexicographic(a: Version, b: Version)
    ensures Compare(a, b) < 0 <==> Before(Masked(a), Masked(b))
    ensures Compare(a, b) == 0 <==> Masked(a) == Masked(b)
    ensures Compare(a, b) > 0 <==> Before(Masked(b), Masked(a))
  {
    DigitsOrder(Masked(a), Masked(b));
    DigitsOrder(Masked(b), Masked(a));
    BeforeIsTotal(Masked(a), Masked(b));
    hide Digits, Before, Masked;
  }

  // ---------- operations ----------

  datatype Op =
    | BumpMajor | BumpMinor | BumpPatch
    | Prerelease(tag: string) | Increment | Promote(tag: string) | Stabilize

  type Tags = map<string, Rank>

  function IsPrerelease(v: Version): bool {
    v.tagType != STABLE
  }

  /** The version an operation makes of the current one. */
  function Next(tags: Tags, v: Version, op: Op): Result<Version, VersionError> {
    match op
    case BumpMajor => Ok(Version(v.major + 1, 0, 0, STABLE, 0))
    case BumpMinor => Ok(Version(v.major, v.minor + 1, 0, STABLE, 0))
    case BumpPatch => Ok(Version(v.major, v.minor, v.patch + 1, STABLE, 0))
    case Prerelease(tag) =>
      if tag !in tags then Err(UnknownTag) else Ok(Version(v.major, v.minor + 1, 0, tags[tag], 1))
    case Increment =>
      if !IsPrerelease(v) then Err(NotPrerelease) else Ok(v.(tagVersion := v.tagVersion + 1))
    case Promote(tag) =>
      if !IsPrerelease(v) then Err(NotPrerelease)
      else if tag !in tags then Err(UnknownTag)
      else Ok(v.(tagType := tags[tag], tagVersion := 1))
    case Stabilize =>
      if !IsPrerelease(v) then Err(AlreadyStable) else Ok(v.(tagType := STABLE, tagVersion := 0))
  }

  /** The field the operation counts up has not reached its last value; a promotion goes to a higher tag. */
  predicate Advances(tags: Tags, v: Version, op: Op) {
    match op
    case BumpMajor => v.major % FIELD != FIELD - 1
    case BumpMinor => v.minor % FIELD != FIELD - 1
    case BumpPatch => v.patch % FIELD != FIELD - 1
    case Prerelease(_) => v.minor % FIELD != FIELD - 1
    case Increment => v.tagVersion % TAG != TAG - 1
    case Promote(tag) =>
      tag in tags && (tags[tag] > v.tagType || (tags[tag] == v.tagType && v.tagVersion % TAG == 0))
    case Stabilize => true
  }

  /** An operation makes a later version exactly when it advances; otherwise the packed order goes back or stays. */
  lemma {:induction false} NextIsLater(tags: Tags, v: Version, op: Op)
    requires Next(tags, v, op).Ok?
    ensures Compare(v, Next(tags, v, op).value) < 0 <==> Advances(tags, v, op)
  {
    OrderIsLexicographic(v, Next(tags, v, op).value);
    Succ(v.major, FIELD);
    Succ(v.minor, FIELD);
    Succ(v.patch, FIELD);
    Succ(v.tagVersion, TAG);
    hide Compare;
  }

  lemma {:induction false} Succ(n: int, base: nat)
    requires base == FIELD || base == TAG
    ensures (n + 1) % base == if n % base == base - 1 then 0 else n % base + 1
  {
  }

  // ---------- histories ----------

  /** A current version and the ones it came from, oldest first. Operations return a new value. */
  datatype Versionable = Versionable(current: Version, history: seq<Version>)

  function All(v: Versionable): seq<Version> {
    v.history + [v.current]
  }

  /** Only a major bump goes through the check of the history's size. */
  function Applied(tags: Tags, v: Versionable, op: Op): Result<Versionable, VersionError> {
    match Next(tags, v.current, op)
    case Err(e) => Err(e)
    case Ok(next) =>
      if op.BumpMajor? && |v.history| >= MAX_HISTORY then Err(HistoryFull)
      else Ok(Versionable(next, v.history + [v.current]))
  }

  /** The fields of the version an operation leads to: what it counts up, what it resets and what it keeps. */
  lemma {:induction false} FieldsAfter(tags: Tags, v: Versionable, op: Op)
    requires Applied(tags, v, op).Ok?
    ensures
      var w, c, n := Applied(tags, v, op).value, v.current, Applied(tags, v, op).value.current;
      && w.history == v.history + [c]
      && (op.BumpMajor? ==> n.major == c.major + 1 && n.minor == 0 && n.patch == 0)
      && (op.BumpMinor? || op.Prerelease? ==> n.major == c.major && n.minor == c.minor + 1 && n.patch == 0)
      && (op.BumpPatch? ==> n.major == c.major && n.minor == c.minor && n.patch == c.patch + 1)
      && (op.Increment? || op.Promote? || op.Stabilize? ==>
        n.major == c.major && n.minor == c.minor && n.patch == c.patch && c.tagType != 255)
      && (op.BumpMajor? || op.BumpMinor? || op.BumpPatch? || op.Stabilize? ==> n.tagType == 255 && n.tagVersion == 0)
      && (op.Increment? ==> n.tagType == c.tagType && n.tagVersion == c.tagVersion + 1)
      && (op.Prerelease? || op.Promote? ==> op.tag in tags && n.tagType == tags[op.tag] && n.tagVersion == 1)
  {
  }

  /** When an operation fails, and why; the size of the history counts for a major bump only. */
  lemma {:induction false} FailsExactly(tags: Tags, v: Versionable, op: Op)
    ensures
      var stable := v.current.tagType == 255;
      Applied(tags, v, op).Err? <==>
        || (op.BumpMajor? && |v.history| >= 1024)
        || (op.Prerelease? && op.tag !in tags)
        || (op.Promote? && (stable || op.tag !in tags))
        || ((op.Increment? || op.Stabilize?) && stable)
    ensures Applied(tags, v, op).Err? ==>
      Applied(tags, v, op).error ==
        match op
        case BumpMajor => HistoryFull
        case Stabilize => AlreadyStable
        case Increment => NotPrerelease
        case Promote(_) => if v.current.tagType == 255 then NotPrerelease else UnknownTag
        case _ => UnknownTag
  {
  }

  /** A run of operations; one that fails leaves the value as it is. */
  function Ran(tags: Tags, v: Versionable, ops: seq<Op>): Versionable {
    if ops == [] then v
    else
      var before := Ran(tags, v, ops[..|ops| - 1]);
      match Applied(tags, before, ops[|ops| - 1])
      case Ok(after) => after
      case Err(_) => before
  }

  ghost predicate Rising(vs: seq<Version>) {
    forall i, j :: 0 <= i < j < |vs| ==> Compare(vs[i], vs[j]) < 0
  }

  /** Every operation of the run that did something advanced. */
  ghost predicate AlwaysAdvances(tags: Tags, v: Versionable, ops: seq<Op>) {
    forall k {:trigger ops[k]} :: 0 <= k < |ops| && Applied(tags, Ran(tags, v, ops[..k]), ops[k]).Ok? ==>
      Advances(tags, Ran(tags, v, ops[..k]).current, ops[k])
  }

  lemma {:induction false} Pushed(vs: seq<Version>, next: Version)
    requires vs != [] && Rising(vs)
    ensures Rising(vs + [next]) <==> Compare(vs[|vs| - 1], next) < 0
  {
    var all := vs + [next];
    if Rising(all) {
      assert Compare(all[|vs| - 1], all[|vs|]) < 0;
    }
    if Compare(vs[|vs| - 1], next) < 0 {
      forall i, j | 0 <= i < j < |all|
        ensures Compare(all[i], all[j]) < 0
      {
        if j == |vs| && i < |vs| - 1 {
          assert Compare(vs[i], vs[|vs| - 1]) < 0;
        }
      }
    }
  }

  /** Over every run the history never loses a version; with the current one it keeps rising as long as it advances. */
  lemma {:induction false} RunRises(tags: Tags, v: Versionable, ops: seq<Op>)
    requires Rising(All(v))
    ensures All(v) <= All(Ran(tags, v, ops))
    ensures Rising(All(Ran(tags, v, ops))) <==> AlwaysAdvances(tags, v, ops)
  {
    hide Compare, Next, Advances, Rising, Applied;
    if ops != [] {
      hide AlwaysAdvances, All;
      var n := |ops| - 1;
      RunRises(tags, v, ops[..n]);
      StepRises(tags, Ran(tags, v, ops[..n]), ops[n]);
      RunSplits(tags, v, ops);
    }
  }

  lemma {:induction false} RunSplits(tags: Tags, v: Versionable, ops: seq<Op>)
    requires ops != []
    ensures
      var n := |ops| - 1;
      var before := Ran(tags, v, ops[..n]);
      AlwaysAdvances(tags, v, ops) <==>
      && AlwaysAdvances(tags, v, ops[..n])
      && (Applied(tags, before, ops[n]).Ok? ==> Advances(tags, before.current, ops[n]))
  {
    hide Applied, Advances, Ran;
    var n := |ops| - 1;
    assert forall k :: 0 <= k < n ==> ops[..n][..k] == ops[..k] && ops[..n][k] == ops[k];
    if AlwaysAdvances(tags, v, ops) {
      assert Applied(tags, Ran(tags, v, ops[..n]), ops[n]).Ok? ==>
        Advances(tags, Ran(tags, v, ops[..n]).current, ops[n]);
      forall k | 0 <= k < n && Applied(tags, Ran(tags, v, ops[..n][..k]), ops[..n][k]).Ok?
        ensures Advances(tags, Ran(tags, v, ops[..n][..k]).current, ops[..n][k])
      {
        assert ops[..n][k] == ops[k];
      }
    }
  }

  lemma {:induction false} StepRises(tags: Tags, v: Versionable, op: Op)
    ensures Applied(tags, v, op).Ok? ==>
      var w := Applied(tags, v, op).value;
      && All(v) <= All(w)
      && (Rising(All(w)) <==> Rising(All(v)) && Advances(tags, v.current, op))
  {
    if Applied(tags, v, op).Ok? {
      var w := Applied(tags, v, op).value;
      NextIsLater(tags, v.current, op);
      hide Compare, Next, Advances;
      assert All(w) == All(v) + [w.current] && All(v)[|All(v)| - 1] == v.current;
      if Rising(All(v)) {
        Pushed(All(v), w.current);
      }
      if Rising(All(w)) {
        assert forall i :: 0 <= i < |All(v)| ==> All(w)[i] == All(v)[i];
      }
    }
  }

  // ---------- addresses ----------

  type Address = a: nat | a < 0x1_0000

  /** Two bits of epoch and eight of index, followed by six unused bits. */
  function NewHistoryAddress(epoch: nat, index: nat): Address
    requires index < 256
  {
    epoch % 4 * 0x4000 + index * 64
  }

  function DecodeHistoryAddress(a: Address): (nat, nat) {
    (a / 0x4000 % 4, a / 64 % 256)
  }

  function HistoryAddressToAbsolute(a: Address): nat {
    var (epoch, index) := DecodeHistoryAddress(a);
    epoch * 256 + index
  }

  function AbsoluteToHistoryAddress(absolute: int): Address {
    if absolute < 0 || absolute >= MAX_HISTORY then 0
    else NewHistoryAddress(absolute / 256, absolute % 256)
  }

  /** An address names a position exactly below 1024; every position from there on gets the first one's address. */
  lemma {:induction false} AddressesAreExact(absolute: nat)
    ensures AbsoluteToHistoryAddress(absolute) == if absolute < 1024 then 64 * absolute else 0
    ensures HistoryAddressToAbsolute(AbsoluteToHistoryAddress(absolute)) == if absolute < 1024 then absolute else 0
  {
    if absolute < MAX_HISTORY {
      var e, i := absolute / 256, absolute % 256;
      var a := NewHistoryAddress(e, i);
      assert e < 4 && a == e * 0x4000 + i * 64;
      assert a / 0x4000 == e && a / 64 == e * 256 + i;
    }
  }

  function Resolved(history: seq<Version>, a: Address): Result<Version, VersionError> {
    var absolute := HistoryAddressToAbsolute(a);
    if absolute >= |history| then Err(InvalidAddress) else Ok(history[absolute])
  }

  /** The position of the first version equal to the given one, or the length of the history. */
  ghost function FirstEqual(history: seq<Version>, v: Version): (i: nat)
    ensures i <= |history|
    ensures i < |history| ==> Compare(history[i], v) == 0
    ensures forall j :: 0 <= j < i ==> Compare(history[j], v) != 0
  {
    if history == [] then 0
    else if Compare(history[0], v) == 0 then 0
    else 1 + FirstEqual(history[1..], v)
  }

  lemma {:induction false} FirstEqualIs(history: seq<Version>, v: Version, i: nat)
    requires i <= |history| && (i < |history| ==> Compare(history[i], v) == 0)
    requires forall j :: 0 <= j < i ==> Compare(history[j], v) != 0
    ensures FirstEqual(history, v) == i
  {
    hide Compare;
    var _ := FirstEqual(history, v);
  }

  /** The address of the first version in the history that equals the given one. */
  method Index(history: seq<Version>, version: Option<Version>) returns (r: Result<Address, VersionError>)
    ensures version.None? ==> r == Err(VersionNotFound)
    ensures version.Some? ==>
      var i := FirstEqual(history, version.value);
      r == if i < |history| then Ok(AbsoluteToHistoryAddress(i)) else Err(VersionNotFound)
  {
    hide Compare;
    if version.None? {
      return Err(VersionNotFound);
    }
    for i := 0 to |history|
      invariant forall j :: 0 <= j < i ==> Compare(history[j], version.value) != 0
    {
      if Compare(history[i], version.value) == 0 {
        FirstEqualIs(history, version.value, i);
        return Ok(AbsoluteToHistoryAddress(i));
      }
    }
    FirstEqualIs(history, version.value, |history|);
    return Err(VersionNotFound);
  }

  /** Resolving the address of a version gives an equal version exactly when its first place is below 1024. */
  lemma {:induction false} ResolveIndex(history: seq<Version>, v: Version)
    requires FirstEqual(history, v) < |history|
    ensures
      var found := Resolved(history, AbsoluteToHistoryAddress(FirstEqual(history, v)));
      && found.Ok?
      && (Compare(found.value, v) == 0 <==> FirstEqual(history, v) < MAX_HISTORY)
  {
    AddressesAreExact(FirstEqual(history, v));
    hide Compare, AbsoluteToHistoryAddress, HistoryAddressToAbsolute;
  }

  /** Nothing but a major bump stops a history from growing past the addressable size. */
  lemma {:induction false} HistoriesOutgrowAddresses(tags: Tags, v: Versionable, n: nat)
    ensures
      var w, c := Ran(tags, v, Patches(n)), v.current;
      && |w.history| == |v.history| + n
      && w.current == if n == 0 then c else Version(c.major, c.minor, c.patch + n, STABLE, 0)
  {
    if n > 0 {
      HistoriesOutgrowAddresses(tags, v, n - 1);
      assert Patches(n)[..n - 1] == Patches(n - 1);
    }
  }

  function Patches(n: nat): (ops: seq<Op>)
    ensures |ops| == n
  {
    seq(n, _ => BumpPatch)
  }

  /** In a rising history every version from position 1024 on resolves to an earlier one. */
  lemma {:induction false} LateVersionsMisresolved(history: seq<Version>, i: nat)
    requires Rising(history) && MAX_HISTORY <= i < |history|
    ensures
      var v := history[i];
      && FirstEqual(history, v) == i
      && Resolved(history, AbsoluteToHistoryAddress(i)) == Ok(history[0]) && Compare(history[0], v) < 0
  {
    forall j | 0 <= j < i
      ensures Compare(history[j], history[i]) != 0
    {
      assert Compare(history[j], history[i]) < 0;
    }
    FirstEqualIs(history, history[i], i);
    AddressesAreExact(i);
  }
}
