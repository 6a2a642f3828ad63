/** Unsigned integers as little-endian byte strings, the layout of the header words and of the export format. */
module LittleEndian {
  import opened Handles

  type byte = x: nat | x < 0x100

  function Encode(v: nat, width: nat): (bs: seq<byte>)
    ensures |bs| == width
  {
    if width == 0 then [] else [v % 0x100] + Encode(v / 0x100, width - 1)
  }

  function Decode(bs: seq<byte>): (v: nat) {
    if bs == [] then 0 else bs[0] + 0x100 * Decode(bs[1..])
  }

  lemma {:induction false} DecodeEncode(v: nat, width: nat)
    requires v < Pow2(8 * width)
    ensures Decode(Encode(v, width)) == v
  {
    if width == 0 {
    } else {
      BytePow(width);
      DecodeEncode(v / 0x100, width - 1);
      assert Encode(v, width)[1..] == Encode(v / 0x100, width - 1);
    }
  }

  /** The number four bytes stand for, lowest first... */
  function Number32(bs: seq<byte>, at: nat): (v: nat)
    requires at + 4 <= |bs|
    ensures v < 0x1_0000_0000
  {
    bs[at] as nat + 0x100 * bs[at + 1] as nat + 0x1_0000 * bs[at + 2] as nat + 0x100_0000 * bs[at + 3] as nat
  }

  /** ...and eight. */
  function Number64(bs: seq<byte>, at: nat): (v: nat)
    requires at + 8 <= |bs|
    ensures v < TWO_64
  {
    Number32(bs, at) + 0x1_0000_0000 * Number32(bs, at + 4)
  }

  lemma {:induction false} DecodeFour(bs: seq<byte>, at: nat)
    requires at + 4 <= |bs|
    ensures Decode(bs[at..at + 4]) == Number32(bs, at)
  {
    var s := bs[at..at + 4];
    DecodeCons(s[0], s[1..]);
    DecodeCons(s[1], s[2..]);
    DecodeCons(s[2], s[3..]);
    DecodeCons(s[3], []);
    assert s == [s[0]] + s[1..] && s[1..] == [s[1]] + s[2..] && s[2..] == [s[2]] + s[3..] && s[3..] == [s[3]] + [];
  }

  lemma {:induction false} DecodeConcat(a: seq<byte>, b: seq<byte>)
    requires |a| == 4
    ensures Decode(a + b) == Decode(a) + 0x1_0000_0000 * Decode(b)
  {
    DecodeCons(a[0], a[1..] + b);
    DecodeCons(a[1], a[2..] + b);
    DecodeCons(a[2], a[3..] + b);
    DecodeCons(a[3], b);
    assert a + b == [a[0]] + (a[1..] + b) && a[1..] + b == [a[1]] + (a[2..] + b);
    assert a[2..] + b == [a[2]] + (a[3..] + b) && a[3..] + b == [a[3]] + b;
    DecodeFour(a, 0);
    assert a[0..0 + 4] == a;
  }

  lemma {:induction false} DecodeCons(b: byte, rest: seq<byte>)
    ensures Decode([b] + rest) == b + 0x100 * Decode(rest)
  {
  }

  lemma {:induction false} DecodeEight(bs: seq<byte>, at: nat)
    requires at + 8 <= |bs|
    ensures Decode(bs[at..at + 8]) == Number64(bs, at)
  {
    DecodeFour(bs, at);
    DecodeFour(bs, at + 4);
    DecodeConcat(bs[at..at + 4], bs[at + 4..at + 8]);
    assert bs[at..at + 8] == bs[at..at + 4] + bs[at + 4..at + 8];
  }

  lemma {:induction false} BytePow(width: nat)
    requires width > 0
    ensures Pow2(8 * width) == 0x100 * Pow2(8 * (width - 1))
  {
    assert Pow2(8) == 0x100;
    Pow2Add(8, 8 * (width - 1));
  }

  lemma {:induction false} DecodeBound(bs: seq<byte>)
    ensures Decode(bs) < Pow2(8 * |bs|)
  {
    if bs == [] {
    } else {
      DecodeBound(bs[1..]);
      BytePow(|bs|);
    }
  }

  /** A 64-bit word and a 32-bit word: decoding what was encoded gives it back. */
  lemma {:induction false} Word64(v: nat)
    requires v < TWO_64
    ensures Decode(Encode(v, 8)) == v
  {
    Pow2Values();
    DecodeEncode(v, 8);
  }

  lemma {:induction false} Word32(v: nat)
    requires v < TWO_32
    ensures Decode(Encode(v, 4)) == v
  {
    Pow2Values();
    DecodeEncode(v, 4);
  }

  lemma {:induction false} Decode64Bound(bs: seq<byte>)
    requires |bs| == 8
    ensures Decode(bs) < TWO_64
  {
    Pow2Values();
    DecodeBound(bs);
  }
}
