/**
 The packed 64-bit handle: a slot index in bits 0..15, a length of N bits above it, and an
 id in the remaining 48-N bits. Shifts and masks of the program are written as division and
 remainder by powers of two: `x >> k` is `x / Pow2(k)`, `x & (2^k - 1)` is `x % Pow2(k)`, and
 `|` of fields that share no bit is `+`.
*/
module Handles {
  import opened Wrappers

  const MAX_OFFSET := 0x1_0000
  const TWO_32 := 0x1_0000_0000
  const TWO_64 := 0x1_0000_0000_0000_0000

  type Word = x: nat | x < TWO_64
  type Handle = Word

  /** The configured width of the length field, as NewHandleSpec hands it out. */
  newtype HandleSpec = bits: int | 1 <= bits <= 32 witness 32

  datatype HandleError = LengthExceedsBitSpace | LengthNegative | OffsetOutOfBounds | IdExceedsBitSpace

  function Pow2(k: nat): (p: nat)
    ensures p >= 1
  {
    if k == 0 then 1 else 2 * Pow2(k - 1)
  }

  lemma {:induction false} Pow2Add(a: nat, b: nat)
    ensures Pow2(a + b) == Pow2(a) * Pow2(b)
  {
    if a == 0 {
    } else {
      Pow2Add(a - 1, b);
    }
  }

  lemma {:induction false} Pow2Monotone(a: nat, b: nat)
    requires a <= b
    ensures Pow2(a) <= Pow2(b)
  {
    if a < b {
      Pow2Monotone(a, b - 1);
    }
  }

  lemma {:induction false} Pow2Values()
    ensures Pow2(16) == MAX_OFFSET && Pow2(32) == TWO_32 && Pow2(48) == 0x1_0000_0000_0000
    ensures Pow2(64) == TWO_64
  {
    assert Pow2(4) == 16;
    assert Pow2(8) == 256 by { Pow2Add(4, 4); }
    assert Pow2(16) == MAX_OFFSET by { Pow2Add(8, 8); }
    Pow2Add(16, 16);
    Pow2Add(16, 32);
    Pow2Add(32, 32);
  }

  /** Adds the defaulting of a zero width to 32 bits and the refusal of widths above 32. */
  function NewHandleSpec(lengthBits: nat): (r: Option<HandleSpec>)
    ensures r.None? <==> lengthBits > 32
    ensures r.Some? && lengthBits != 0 ==> r.value as int == lengthBits
  {
    var bits := if lengthBits == 0 then 32 else lengthBits;
    if bits > 32 then None else Some(bits as HandleSpec)
  }

  function LengthSpace(s: HandleSpec): (p: nat)
    ensures p >= 1
  {
    Pow2(s as int)
  }

  function IdSpace(s: HandleSpec): (p: nat)
    ensures p >= 1
  {
    Pow2(48 - s as int)
  }

  function MaxLength(s: HandleSpec): nat {
    LengthSpace(s) - 1
  }

  function MaxId(s: HandleSpec): nat {
    IdSpace(s) - 1
  }

  lemma {:induction false} FieldSpaces(s: HandleSpec)
    ensures MAX_OFFSET * (LengthSpace(s) * IdSpace(s)) == TWO_64
    ensures 2 <= LengthSpace(s) <= TWO_32
  {
    Pow2Values();
    Pow2Add(s as int, 48 - s as int);
    Pow2Monotone(1, s as int);
    Pow2Monotone(s as int, 32);
  }

  lemma {:induction false} IdSpaceBound(s: HandleSpec)
    ensures IdSpace(s) < TWO_64
  {
    Pow2Values();
    Pow2Monotone(48 - s as int, 48);
  }

  /** The word whose three fields hold exactly the given values. */
  function Pack(s: HandleSpec, offset: nat, length: nat, id: nat): (h: Handle)
    requires offset < MAX_OFFSET && length < LengthSpace(s) && id < IdSpace(s)
  {
    PackBound(s, offset, length, id);
    offset + MAX_OFFSET * (length + LengthSpace(s) * id)
  }

  lemma {:induction false} PackBound(s: HandleSpec, offset: nat, length: nat, id: nat)
    requires offset < MAX_OFFSET && length < LengthSpace(s) && id < IdSpace(s)
    ensures length + LengthSpace(s) * id < LengthSpace(s) * IdSpace(s)
    ensures offset + MAX_OFFSET * (length + LengthSpace(s) * id) < TWO_64
  {
    FieldSpaces(s);
    hide LengthSpace, IdSpace;
    DigitBound(LengthSpace(s), IdSpace(s), length, id);
  }

  lemma {:induction false} DigitBound(l: nat, m: nat, length: nat, id: nat)
    requires length < l && id < m
    ensures length + l * id < l * m
  {
    MulMonotone(l, id + 1, m);
    assert l * (id + 1) == l * id + l;
  }

  /** Bits 0..15. */
  function Offset(h: Handle): (o: nat)
    ensures o < MAX_OFFSET
  {
    h % MAX_OFFSET
  }

  /** The raw length field: what every caller obtains through the unsigned 32-bit conversion of Length. */
  function Length(s: HandleSpec, h: Handle): (l: nat)
    ensures l < LengthSpace(s)
    ensures l < TWO_32
  {
    FieldSpaces(s);
    (h / MAX_OFFSET) % LengthSpace(s)
  }

  /** A 32-bit length as the signed integer the program returns: the top bit is a sign. */
  function Signed(length: nat): int
    requires length < TWO_32
  {
    if length < 0x8000_0000 then length else length - TWO_32
  }

  function Id(s: HandleSpec, h: Handle): (id: nat)
    ensures id < IdSpace(s)
    ensures id < TWO_64
  {
    IdSpaceBound(s);
    (h / MAX_OFFSET / LengthSpace(s)) % IdSpace(s)
  }

  /** Packs an offset and a length with id zero. Offset 65536 passes the range check and is masked to zero. */
  function Make(s: HandleSpec, offset: int, length: int): (r: Result<Handle, HandleError>)
  {
    if offset < 0 || offset > MAX_OFFSET then Err(OffsetOutOfBounds)
    else if length < 0 then Err(LengthNegative)
    else if length > MaxLength(s) then Err(LengthExceedsBitSpace)
    else Ok(Pack(s, offset % MAX_OFFSET, length, 0))
  }

  /** Clears the id field and writes a new one. */
  function SetId(s: HandleSpec, h: Handle, id: nat): (r: Result<Handle, HandleError>)
  {
    if id > MaxId(s) then Err(IdExceedsBitSpace)
    else Ok(Pack(s, Offset(h), Length(s, h), id))
  }

  /** Moves the offset by delta; offset 65536 passes the range check and is masked to zero. */
  function Shift(s: HandleSpec, h: Handle, delta: int): (r: Result<Handle, HandleError>)
  {
    var o := Offset(h) + delta;
    if o < 0 || o > MAX_OFFSET then Err(OffsetOutOfBounds)
    else Ok(h - Offset(h) + o % MAX_OFFSET)
  }

  lemma {:induction false} MulMonotone(k: nat, a: nat, b: nat)
    ensures a <= b ==> k * a <= k * b
  {
  }

  lemma {:induction false} QuotientUnique(m: nat, q: nat, r: nat, d: nat, e: nat)
    requires r < m && e < m && m * q + r == m * d + e
    ensures q == d && r == e
  {
    MulMonotone(m, q + 1, d);
    MulMonotone(m, d + 1, q);
  }

  lemma {:induction false} DivRange(q: nat, m: nat, r: nat)
    requires r < m
    ensures (r + m * q) / m == q && (r + m * q) % m == r
  {
    var n := r + m * q;
    QuotientUnique(m, q, r, n / m, n % m);
  }

  /** Packing and the three field readers are inverse: every triple within the widths is recovered... */
  lemma {:induction false} UnpackPack(s: HandleSpec, offset: nat, length: nat, id: nat)
    requires offset < MAX_OFFSET && length < LengthSpace(s) && id < IdSpace(s)
    ensures Offset(Pack(s, offset, length, id)) == offset
    ensures Length(s, Pack(s, offset, length, id)) == length
    ensures Id(s, Pack(s, offset, length, id)) == id
  {
    hide LengthSpace, IdSpace;
    UnpackFields(LengthSpace(s), IdSpace(s), offset, length, id);
  }

  lemma {:induction false} UnpackFields(l: nat, m: nat, offset: nat, length: nat, id: nat)
    requires offset < MAX_OFFSET && length < l && id < m
    ensures
      var h := offset + MAX_OFFSET * (length + l * id);
      h % MAX_OFFSET == offset && (h / MAX_OFFSET) % l == length && (h / MAX_OFFSET / l) % m == id
  {
    DivRange(length + l * id, MAX_OFFSET, offset);
    DivRange(id, l, length);
    assert id % m == id by { DivRange(0, m, id); }
  }

  lemma {:induction false} QuotientBelow(q: nat, l: nat, m: nat)
    requires l > 0 && q < l * m
    ensures q / l < m
  {
    assert q == l * (q / l) + q % l;
    MulMonotone(l, m, q / l);
  }

  /** ...and every 64-bit word is the packing of its own fields, so packing is a bijection. */
  lemma {:induction false} PackUnpack(s: HandleSpec, h: Handle)
    ensures Pack(s, Offset(h), Length(s, h), Id(s, h)) == h
  {
    FieldSpaces(s);
    var q := h / MAX_OFFSET;
    FieldsOf(q, LengthSpace(s), IdSpace(s));
  }

  lemma {:induction false} FieldsOf(q: nat, l: nat, m: nat)
    requires l > 0 && m > 0 && q < l * m
    ensures q % l + l * ((q / l) % m) == q
  {
    QuotientBelow(q, l, m);
    assert (q / l) % m == q / l by { DivRange(0, m, q / l); }
    assert q == q % l + l * (q / l);
  }

  /** Where the fields are: the offset lowest, the length above its 16 bits, the id above the length. */
  lemma {:induction false} FieldsAddUp(s: HandleSpec, h: Handle)
    ensures h == Offset(h) + 0x1_0000 * Length(s, h) + 0x1_0000 * (Pow2(s as int) * Id(s, h))
    ensures Offset(h) < 0x1_0000 && Length(s, h) < Pow2(s as int) && Id(s, h) < Pow2(48 - s as int)
  {
    PackUnpack(s, h);
    hide Pow2;
  }

  /**
   Make succeeds exactly on lengths that fit and offsets up to and including 65536; below that the fields read back.
  */
  lemma {:induction false} MakeSpec(s: HandleSpec, offset: int, length: int)
    ensures Make(s, offset, length).Ok? <==> 0 <= offset <= MAX_OFFSET && 0 <= length <= MaxLength(s)
    ensures Make(s, offset, length).Ok? ==>
      var h := Make(s, offset, length).value;
      && Length(s, h) == length
      && Id(s, h) == 0
      && (Offset(h) == offset <==> offset < MAX_OFFSET)
  {
    if Make(s, offset, length).Ok? {
      UnpackPack(s, offset % MAX_OFFSET, length, 0);
    }
  }

  /** SetId changes the id and nothing else. */
  lemma {:induction false} SetIdSpec(s: HandleSpec, h: Handle, id: nat)
    ensures SetId(s, h, id).Ok? <==> id <= MaxId(s)
    ensures SetId(s, h, id).Ok? ==>
      var g := SetId(s, h, id).value;
      Offset(g) == Offset(h) && Length(s, g) == Length(s, h) && Id(s, g) == id
  {
    if id <= MaxId(s) {
      UnpackPack(s, Offset(h), Length(s, h), id);
    }
  }

  /** Shift moves the offset by delta and keeps length and id, except that reaching 65536 wraps it to zero. */
  lemma {:induction false} ShiftSpec(s: HandleSpec, h: Handle, delta: int)
    ensures Shift(s, h, delta).Ok? <==> 0 <= Offset(h) + delta <= MAX_OFFSET
    ensures Shift(s, h, delta).Ok? ==>
      var g := Shift(s, h, delta).value;
      && Length(s, g) == Length(s, h)
      && Id(s, g) == Id(s, h)
      && (Offset(g) == Offset(h) + delta <==> Offset(h) + delta < MAX_OFFSET)
  {
    if Shift(s, h, delta).Ok? {
      var g := Shift(s, h, delta).value;
      var o := (Offset(h) + delta) % MAX_OFFSET;
      DivRange(h / MAX_OFFSET, MAX_OFFSET, o);
      assert g == o + MAX_OFFSET * (h / MAX_OFFSET);
    }
  }
}
