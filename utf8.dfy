/** UTF-8 as Go uses it for strings. A Go string is a sequence of bytes;
    conversion to runes and `range` over a string decode it. Encoding
    follows section 3 of RFC 3629; decoding accepts exactly the well-formed
    sequences of RFC 3629 (no overlong forms, no surrogates, nothing above
    U+10FFFF) and, on anything else, yields U+FFFD and moves on by one byte,
    as the Go reference's "For statements with range clause" and
    "Conversions to and from a string type" prescribe. */
module Utf8 {

  newtype Byte = b: int | 0 <= b < 0x100

  /** U+FFFD, the rune yielded for an ill-formed byte sequence. */
  const RuneError: int := 0xFFFD

  /** A Unicode scalar value: a code point that is not a surrogate. */
  predicate IsScalar(r: int)
  {
    0 <= r <= 0x10FFFF && !(0xD800 <= r <= 0xDFFF)
  }

  /** A continuation byte 10xxxxxx. */
  predicate IsCont(b: Byte)
  {
    0x80 <= b <= 0xBF
  }

  /** The number of bytes RFC 3629 uses for r. */
  function EncodedLength(r: int): nat
  {
    if r < 0x80 then 1 else if r < 0x800 then 2 else if r < 0x10000 then 3 else 4
  }

  /** The UTF-8 encoding of r, section 3 of RFC 3629. */
  function EncodeRune(r: int): (bs: seq<Byte>)
    requires IsScalar(r)
    ensures |bs| == EncodedLength(r)
  {
    if r < 0x80 then
      [r as Byte]
    else if r < 0x800 then
      [(0xC0 + r / 0x40) as Byte, (0x80 + r % 0x40) as Byte]
    else if r < 0x10000 then
      [(0xE0 + r / 0x1000) as Byte, (0x80 + r / 0x40 % 0x40) as Byte, (0x80 + r % 0x40) as Byte]
    else
      [(0xF0 + r / 0x40000) as Byte, (0x80 + r / 0x1000 % 0x40) as Byte,
       (0x80 + r / 0x40 % 0x40) as Byte, (0x80 + r % 0x40) as Byte]
  }

  // The value a well-formed sequence of 2, 3 or 4 bytes stands for.
  function Value2(b0: Byte, b1: Byte): int
  {
    (b0 as int - 0xC0) * 0x40 + (b1 as int - 0x80)
  }

  function Value3(b0: Byte, b1: Byte, b2: Byte): int
  {
    (b0 as int - 0xE0) * 0x1000 + (b1 as int - 0x80) * 0x40 + (b2 as int - 0x80)
  }

  function Value4(b0: Byte, b1: Byte, b2: Byte, b3: Byte): int
  {
    (b0 as int - 0xF0) * 0x40000 + (b1 as int - 0x80) * 0x1000 + (b2 as int - 0x80) * 0x40 + (b3 as int - 0x80)
  }

  /** The smallest and largest second byte allowed after a 3- or 4-byte
      lead byte (RFC 3629 section 4): E0 and F0 exclude overlong forms,
      ED excludes surrogates, F4 excludes code points above U+10FFFF. */
  function SecondLow(b0: Byte): Byte
  {
    if b0 == 0xE0 then 0xA0 else if b0 == 0xF0 then 0x90 else 0x80
  }

  function SecondHigh(b0: Byte): Byte
  {
    if b0 == 0xED then 0x9F else if b0 == 0xF4 then 0x8F else 0xBF
  }

  /** Go's utf8.DecodeRune at the start of a non-empty s: the rune and the
      number of bytes it spans. A well-formed sequence decodes to its code
      point; anything else gives (RuneError, 1). */
  function DecodeRune(s: seq<Byte>): (d: (int, nat))
    requires |s| > 0
    ensures 1 <= d.1 <= |s| && d.1 <= 4
    ensures s[0] < 0x80 ==> d == (s[0] as int, 1)
    ensures s[0] >= 0x80 && d.1 == 1 ==> d.0 == RuneError
  {
    var b0 := s[0];
    if b0 < 0x80 then
      (b0 as int, 1)
    else if 0xC2 <= b0 <= 0xDF then
      if |s| >= 2 && IsCont(s[1]) then (Value2(b0, s[1]), 2) else (RuneError, 1)
    else if 0xE0 <= b0 <= 0xEF then
      if |s| >= 3 && SecondLow(b0) <= s[1] <= SecondHigh(b0) && IsCont(s[2]) then
        (Value3(b0, s[1], s[2]), 3)
      else (RuneError, 1)
    else if 0xF0 <= b0 <= 0xF4 then
      if |s| >= 4 && SecondLow(b0) <= s[1] <= SecondHigh(b0) && IsCont(s[2]) && IsCont(s[3]) then
        (Value4(b0, s[1], s[2], s[3]), 4)
      else (RuneError, 1)
    else
      (RuneError, 1)
  }

  /** DecodeRune accepts only well-formed sequences: it always yields a
      scalar value, and when it consumes more than one byte, those bytes are
      exactly the RFC 3629 encoding of the rune it yields. */
  lemma DecodeRuneWellFormed(s: seq<Byte>)
    requires |s| > 0
    ensures IsScalar(DecodeRune(s).0)
    ensures DecodeRune(s).1 > 1 ==> s[..DecodeRune(s).1] == EncodeRune(DecodeRune(s).0)
  {
    var b0 := s[0];
    if 0xC2 <= b0 <= 0xDF && |s| >= 2 && IsCont(s[1]) {
      Encode2(b0, s[1]);
      assert s[..2] == [b0, s[1]];
    } else if 0xE0 <= b0 <= 0xEF && |s| >= 3 && SecondLow(b0) <= s[1] <= SecondHigh(b0) && IsCont(s[2]) {
      Encode3(b0, s[1], s[2]);
      assert s[..3] == [b0, s[1], s[2]];
    } else if 0xF0 <= b0 <= 0xF4 && |s| >= 4 && SecondLow(b0) <= s[1] <= SecondHigh(b0) && IsCont(s[2]) && IsCont(s[3]) {
      Encode4(b0, s[1], s[2], s[3]);
      assert s[..4] == [b0, s[1], s[2], s[3]];
    }
  }

  lemma Encode2(b0: Byte, b1: Byte)
    requires 0xC2 <= b0 <= 0xDF && IsCont(b1)
    ensures IsScalar(Value2(b0, b1)) && 0x80 <= Value2(b0, b1) < 0x800
    ensures EncodeRune(Value2(b0, b1)) == [b0, b1]
  {
    var r := Value2(b0, b1);
    assert r / 0x40 == b0 as int - 0xC0;
    assert r % 0x40 == b1 as int - 0x80;
  }

  lemma Encode3(b0: Byte, b1: Byte, b2: Byte)
    requires 0xE0 <= b0 <= 0xEF && SecondLow(b0) <= b1 <= SecondHigh(b0) && IsCont(b2)
    ensures IsScalar(Value3(b0, b1, b2)) && 0x800 <= Value3(b0, b1, b2) < 0x10000
    ensures EncodeRune(Value3(b0, b1, b2)) == [b0, b1, b2]
  {
    var r := Value3(b0, b1, b2);
    assert r / 0x1000 == b0 as int - 0xE0;
    assert r / 0x40 == (b0 as int - 0xE0) * 0x40 + (b1 as int - 0x80);
    assert r / 0x40 % 0x40 == b1 as int - 0x80;
    assert r % 0x40 == b2 as int - 0x80;
  }

  lemma Encode4(b0: Byte, b1: Byte, b2: Byte, b3: Byte)
    requires 0xF0 <= b0 <= 0xF4 && SecondLow(b0) <= b1 <= SecondHigh(b0) && IsCont(b2) && IsCont(b3)
    ensures IsScalar(Value4(b0, b1, b2, b3)) && 0x10000 <= Value4(b0, b1, b2, b3)
    ensures EncodeRune(Value4(b0, b1, b2, b3)) == [b0, b1, b2, b3]
  {
    var r := Value4(b0, b1, b2, b3);
    assert r / 0x40000 == b0 as int - 0xF0;
    assert r / 0x1000 == (b0 as int - 0xF0) * 0x40 + (b1 as int - 0x80);
    assert r / 0x1000 % 0x40 == b1 as int - 0x80;
    assert r / 0x40 == ((b0 as int - 0xF0) * 0x40 + (b1 as int - 0x80)) * 0x40 + (b2 as int - 0x80);
    assert r / 0x40 % 0x40 == b2 as int - 0x80;
    assert r % 0x40 == b3 as int - 0x80;
  }

  /** Decoding undoes encoding: a scalar value's encoding, followed by any
      bytes at all, decodes to that value and spans exactly its encoding. */
  lemma DecodeEncode(r: int, rest: seq<Byte>)
    requires IsScalar(r)
    ensures DecodeRune(EncodeRune(r) + rest) == (r, EncodedLength(r))
  {
    if r < 0x80 {
    } else if r < 0x800 {
      DecodeEncode2(r, rest);
    } else if r < 0x10000 {
      DecodeEncode3(r, rest);
    } else {
      DecodeEncode4(r, rest);
    }
  }

  lemma DecodeEncode2(r: int, rest: seq<Byte>)
    requires 0x80 <= r < 0x800
    ensures DecodeRune(EncodeRune(r) + rest) == (r, 2)
  {
    var s := EncodeRune(r) + rest;
    var b0, b1 := s[0], s[1];
    assert b0 as int == 0xC0 + r / 0x40 && b1 as int == 0x80 + r % 0x40;
    assert 0xC2 <= b0 <= 0xDF && IsCont(b1);
    assert Value2(b0, b1) == r;
  }

  lemma DecodeEncode3(r: int, rest: seq<Byte>)
    requires 0x800 <= r < 0x10000 && IsScalar(r)
    ensures DecodeRune(EncodeRune(r) + rest) == (r, 3)
  {
    var s := EncodeRune(r) + rest;
    var b0, b1, b2 := s[0], s[1], s[2];
    var c0, c1, c2 := r / 0x1000, r / 0x40 % 0x40, r % 0x40;
    assert b0 as int == 0xE0 + c0 && b1 as int == 0x80 + c1 && b2 as int == 0x80 + c2;
    assert r / 0x40 == c0 * 0x40 + c1;
    assert r == c0 * 0x1000 + c1 * 0x40 + c2;
    assert b0 == 0xE0 ==> b1 >= 0xA0;
    assert b0 == 0xED ==> b1 <= 0x9F;
    assert SecondLow(b0) <= b1 <= SecondHigh(b0) && IsCont(b2);
    assert Value3(b0, b1, b2) == r;
  }

  lemma DecodeEncode4(r: int, rest: seq<Byte>)
    requires 0x10000 <= r && IsScalar(r)
    ensures DecodeRune(EncodeRune(r) + rest) == (r, 4)
  {
    var s := EncodeRune(r) + rest;
    var b0, b1, b2, b3 := s[0], s[1], s[2], s[3];
    Digits4(r);
    assert b0 as int == 0xF0 + r / 0x40000 && b1 as int == 0x80 + r / 0x1000 % 0x40;
    assert b2 as int == 0x80 + r / 0x40 % 0x40 && b3 as int == 0x80 + r % 0x40;
    assert SecondLow(b0) <= b1 <= SecondHigh(b0) && IsCont(b2) && IsCont(b3);
    assert Value4(b0, b1, b2, b3) == r;
  }

  /** The four 6-bit groups (3 bits in the first) of a code point from
      U+10000 to U+10FFFF. */
  lemma Digits4(r: int)
    requires 0x10000 <= r <= 0x10FFFF
    ensures var c0, c1, c2, c3 := r / 0x40000, r / 0x1000 % 0x40, r / 0x40 % 0x40, r % 0x40;
            && r == c0 * 0x40000 + c1 * 0x1000 + c2 * 0x40 + c3
            && 0 <= c0 <= 4 && 0 <= c1 < 0x40 && 0 <= c2 < 0x40 && 0 <= c3 < 0x40
            && (c0 == 0 ==> c1 >= 0x10) && (c0 == 4 ==> c1 <= 0x0F)
  {
    var c0, c1, c2, c3 := r / 0x40000, r / 0x1000 % 0x40, r / 0x40 % 0x40, r % 0x40;
    assert r / 0x1000 == c0 * 0x40 + c1;
    assert r / 0x40 == (c0 * 0x40 + c1) * 0x40 + c2;
  }

  // ---------------------------------------------------------------------
  // Whole strings

  /** The concatenation of the encodings of rs. */
  function EncodeAll(rs: seq<int>): (bs: seq<Byte>)
    requires forall k :: 0 <= k < |rs| ==> IsScalar(rs[k])
  {
    if rs == [] then [] else EncodeRune(rs[0]) + EncodeAll(rs[1..])
  }

  /** One step of `for i, r := range s`: the byte offset where a rune
      starts, and the rune. */
  datatype Step = Step(offset: nat, rune: int)

  /** The steps of `range` over s, whose first byte sits at offset `base`
      of the whole string. */
  function DecodeFrom(s: seq<Byte>, base: nat): (steps: seq<Step>)
    ensures |steps| <= |s|
    ensures |s| > 0 ==> |steps| > 0 && steps[0] == Step(base, DecodeRune(s).0)
    decreases |s|
  {
    if |s| == 0 then []
    else
      var d := DecodeRune(s);
      [Step(base, d.0)] + DecodeFrom(s[d.1..], base + d.1)
  }

  /** `for i, r := range s` over the whole string. */
  function Decode(s: seq<Byte>): seq<Step>
  {
    DecodeFrom(s, 0)
  }

  /** `[]rune(s)`: the runes of the range steps, offsets dropped. */
  function Runes(s: seq<Byte>): (rs: seq<int>)
  {
    seq(|Decode(s)|, k requires 0 <= k < |Decode(s)| => Decode(s)[k].rune)
  }

  /** Decoding the encoding of rs gives back rs, each rune at the offset
      where its encoding starts: the sum of the lengths before it. */
  lemma {:induction false} DecodeFromEncodeAll(rs: seq<int>, base: nat)
    requires forall k :: 0 <= k < |rs| ==> IsScalar(rs[k])
    ensures |DecodeFrom(EncodeAll(rs), base)| == |rs|
    ensures forall k :: 0 <= k < |rs| ==>
              DecodeFrom(EncodeAll(rs), base)[k] == Step(base + |EncodeAll(rs[..k])|, rs[k])
    decreases |rs|
  {
    if rs != [] {
      var r, tail := rs[0], rs[1..];
      assert EncodeAll(rs) == EncodeRune(r) + EncodeAll(tail);
      DecodeFromCons(r, EncodeAll(tail), base);
      var n := EncodedLength(r);
      DecodeFromEncodeAll(tail, base + n);
      forall k | 0 <= k < |rs|
        ensures DecodeFrom(EncodeAll(rs), base)[k] == Step(base + |EncodeAll(rs[..k])|, rs[k])
      {
        if k > 0 {
          PrefixCons(rs, k);
        } else {
          assert rs[..0] == [];
        }
      }
    }
  }

  /** `range` over an encoded rune followed by more bytes: one step for the
      rune, then the steps of the rest, shifted by the rune's length. */
  lemma DecodeFromCons(r: int, bs: seq<Byte>, base: nat)
    requires IsScalar(r)
    ensures DecodeFrom(EncodeRune(r) + bs, base) == [Step(base, r)] + DecodeFrom(bs, base + EncodedLength(r))
  {
    DecodeEncode(r, bs);
    assert (EncodeRune(r) + bs)[EncodedLength(r)..] == bs;
  }

  /** The encoding of the first k runes is that of the first rune followed
      by that of the next k - 1. */
  lemma PrefixCons(rs: seq<int>, k: nat)
    requires forall j :: 0 <= j < |rs| ==> IsScalar(rs[j])
    requires 0 < k <= |rs|
    ensures |EncodeAll(rs[..k])| == EncodedLength(rs[0]) + |EncodeAll(rs[1..][..k - 1])|
  {
    assert rs[..k][0] == rs[0];
    assert rs[..k][1..] == rs[1..][..k - 1];
  }

  /** `[]rune` of a string built from runes gives those runes back. */
  lemma RunesOfEncoding(rs: seq<int>)
    requires forall k :: 0 <= k < |rs| ==> IsScalar(rs[k])
    ensures Runes(EncodeAll(rs)) == rs
  {
    DecodeFromEncodeAll(rs, 0);
  }

  /** The byte length of an encoding is the sum of the runes' lengths. */
  lemma {:induction false} EncodeAllLength(rs: seq<int>, k: nat)
    requires forall j :: 0 <= j < |rs| ==> IsScalar(rs[j])
    requires k < |rs|
    ensures |EncodeAll(rs[..k + 1])| == |EncodeAll(rs[..k])| + EncodedLength(rs[k])
    decreases k
  {
    if k > 0 {
      assert rs[..k + 1][1..] == rs[1..][..k];
      assert rs[..k][1..] == rs[1..][..k - 1];
      EncodeAllLength(rs[1..], k - 1);
    } else {
      assert rs[..1] == [rs[0]];
      assert rs[..0] == [];
    }
  }
}
