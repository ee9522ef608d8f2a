/** Go strings as byte sequences: `len` and slicing count bytes and never
    check UTF-8, while `[]rune(s)` and `range` decode runes (module Utf8).
    The programs of chapter3/examples/strings and chapter4/examples/loops. */
module GoStrings {
  import opened Runtime
  import opened Utf8
  import Slices

  /** The code points of a string written in Dafny's own notation, whose
      characters are Unicode scalar values. */
  function CodePoints(s: string): (rs: seq<int>)
    ensures |rs| == |s|
    ensures forall k :: 0 <= k < |s| ==> rs[k] == s[k] as int && IsScalar(rs[k])
  {
    seq(|s|, k requires 0 <= k < |s| => s[k] as int)
  }

  /** A Go string literal: the UTF-8 encoding of its characters. */
  function Utf8Bytes(s: string): seq<Byte>
  {
    EncodeAll(CodePoints(s))
  }

  /** `len(s)` on a string: its number of bytes. Every character takes at
      least one byte, and exactly one for all of them iff the string is
      ASCII. */
  function ByteLength(s: string): (n: nat)
    ensures n >= |s|
    ensures n == |s| <==> forall k :: 0 <= k < |s| ==> s[k] as int < 0x80
  {
    EncodeAllLengthBounds(CodePoints(s));
    |Utf8Bytes(s)|
  }

  /** Each rune encodes to at least one byte, and to one byte iff it is
      below 0x80. */
  lemma {:induction false} EncodeAllLengthBounds(rs: seq<int>)
    requires forall k :: 0 <= k < |rs| ==> IsScalar(rs[k])
    ensures |EncodeAll(rs)| >= |rs|
    ensures |EncodeAll(rs)| == |rs| <==> forall k :: 0 <= k < |rs| ==> rs[k] < 0x80
  {
    if rs != [] {
      var tail := rs[1..];
      EncodeAllLengthBounds(tail);
      assert forall k :: 0 < k < |rs| ==> rs[k] == tail[k - 1];
      assert |EncodeAll(rs)| == EncodedLength(rs[0]) + |EncodeAll(tail)|;
    }
  }

  /** "café" is 5 bytes: é (U+00E9) takes two. */
  lemma CafeLength()
    ensures ByteLength("café") == 5
  {
    var rs := CodePoints("café");
    assert rs == CodePoints("caf") + [0xE9];
    EncodeAllConcat(CodePoints("caf"), [0xE9]);
    assert ByteLength("caf") == 3;
    assert |EncodeAll([0xE9])| == 2;
  }

  /** A literal of ASCII characters is the sequence of their byte values. */
  lemma AsciiBytes(s: string, bs: seq<Byte>)
    requires |s| == |bs|
    requires forall k :: 0 <= k < |s| ==> s[k] as int < 0x80 && s[k] as int == bs[k] as int
    ensures Utf8Bytes(s) == bs
  {
    var rs := CodePoints(s);
    EncodeAllAscii(rs);
    var lit := EncodeAll(rs);
    assert |lit| == |bs|;
    forall k | 0 <= k < |bs| ensures lit[k] == bs[k] {
      assert lit[k] == rs[k] as Byte;
    }
  }

  /** `s[lo:hi]` on a string: bytes lo .. hi, whatever they encode; panics
      unless 0 <= lo <= hi <= len(s). */
  function ByteSlice(s: seq<Byte>, lo: int, hi: int): (r: Outcome<seq<Byte>>)
    ensures r.Ok? <==> 0 <= lo <= hi <= |s|
    ensures r.Panic? ==> r.error == SliceBoundsOutOfRange
    ensures r.Ok? ==> |r.value| == hi - lo && forall k :: 0 <= k < hi - lo ==> r.value[k] == s[lo + k]
  {
    if 0 <= lo <= hi <= |s| then Ok(s[lo..hi]) else Panic(SliceBoundsOutOfRange)
  }

  // ---------------------------------------------------------------------
  // chapter3/examples/strings

  const Globe: int := 0x1F30E

  /** The bytes of a concatenation are the bytes of its parts. */
  lemma Utf8BytesConcat(s1: string, s2: string)
    ensures Utf8Bytes(s1 + s2) == Utf8Bytes(s1) + Utf8Bytes(s2)
  {
    assert CodePoints(s1 + s2) == CodePoints(s1) + CodePoints(s2);
    EncodeAllConcat(CodePoints(s1), CodePoints(s2));
  }

  /** "Hello 🌎" is 10 bytes: six ASCII characters and the four bytes of
      U+1F30E. */
  lemma HelloBytes()
    ensures Utf8Bytes("Hello 🌎") == [0x48, 0x65, 0x6C, 0x6C, 0x6F, 0x20, 0xF0, 0x9F, 0x8C, 0x8E]
  {
    var ascii: seq<Byte>, globe: seq<Byte> := [0x48, 0x65, 0x6C, 0x6C, 0x6F, 0x20], [0xF0, 0x9F, 0x8C, 0x8E];
    assert "Hello 🌎" == "Hello " + "🌎";
    Utf8BytesConcat("Hello ", "🌎");
    AsciiBytes("Hello ", ascii);
    assert CodePoints("🌎") == [Globe];
    GlobeBytes();
    assert Utf8Bytes("Hello 🌎") == ascii + globe;
  }

  /** U+1F30E takes four bytes. */
  lemma GlobeBytes()
    ensures EncodeAll([Globe]) == [0xF0, 0x9F, 0x8C, 0x8E]
  {
    assert Globe / 0x40000 == 0 && Globe / 0x1000 % 0x40 == 0x1F;
    assert Globe / 0x40 % 0x40 == 0x0C && Globe % 0x40 == 0x0E;
    assert EncodeRune(Globe) == [0xF0, 0x9F, 0x8C, 0x8E];
    assert EncodeAll([Globe]) == EncodeRune(Globe) + EncodeAll([]);
  }

  /** The seven code points of "Hello 🌎". */
  lemma HelloCodePoints()
    ensures CodePoints("Hello 🌎") == [0x48, 0x65, 0x6C, 0x6C, 0x6F, 0x20, Globe]
    ensures CodePoints("Hello ") == [0x48, 0x65, 0x6C, 0x6C, 0x6F, 0x20]
  {
  }

  /** Bytes 4..7 cut the globe's encoding after its first byte, so `range`
      over them yields U+FFFD for that byte. */
  lemma CutRunes()
    ensures Runes([0x6F, 0x20, 0xF0]) == [0x6F, 0x20, RuneError]
  {
    var cut: seq<Byte> := [0x6F, 0x20, 0xF0];
    DecodeAsciiPrefix([0x6F, 0x20], [0xF0], 0);
    assert cut == [0x6F, 0x20] + [0xF0];
    assert DecodeFrom([0xF0], 2) == [Step(2, RuneError)];
    assert Decode(cut) == [Step(0, 0x6F), Step(1, 0x20), Step(2, RuneError)];
  }

  /** chapter3/examples/strings, slicing: `len` counts the 10 bytes;
      `s[4:7]` is three bytes that end inside the globe's encoding, and
      `s[6:]` is exactly that encoding. */
  lemma HelloSlices()
    ensures var s := Utf8Bytes("Hello 🌎");
      && |s| == 10
      && ByteSlice(s, 4, 7) == Ok([0x6F, 0x20, 0xF0])
      && ByteSlice(s, 6, |s|) == Ok(EncodeRune(Globe))
  {
    HelloBytes();
    var s := Utf8Bytes("Hello 🌎");
    assert s[4..7] == [0x6F, 0x20, 0xF0];
    assert s[6..10] == EncodeRune(Globe) == [0xF0, 0x9F, 0x8C, 0x8E];
  }

  /** chapter3/examples/strings, `[]rune(s)`: the 7 code points come back. */
  lemma HelloRunes()
    ensures Runes(Utf8Bytes("Hello 🌎")) == [0x48, 0x65, 0x6C, 0x6C, 0x6F, 0x20, Globe]
  {
    HelloCodePoints();
    RunesOfEncoding(CodePoints("Hello 🌎"));
  }

  /** `[]byte(s)`: a new slice holding the bytes of s in order. */
  method ToBytes(s: seq<Byte>) returns (b: Slices.Slice<Byte>)
    ensures Slices.Valid(b) && fresh(b.data)
    ensures Slices.Elements(b) == s
  {
    b := Slices.Literal(s);
  }

  /** `[]rune(s)`: a new slice holding the runes that `range` decodes. */
  method ToRunes(s: seq<Byte>) returns (r: Slices.Slice<int>)
    ensures Slices.Valid(r) && fresh(r.data)
    ensures Slices.Elements(r) == Runes(s)
  {
    r := Slices.Literal(Runes(s));
  }

  /** chapter3/examples/strings, conversions: `[]byte(s)` has the 10 bytes
      in order, `[]rune(s)` the 7 code points ending with U+1F30E, and the
      bytes are the concatenated encodings of the runes. */
  method HelloConversions() returns (bytes: seq<Byte>, runes: seq<int>)
    ensures bytes == [0x48, 0x65, 0x6C, 0x6C, 0x6F, 0x20, 0xF0, 0x9F, 0x8C, 0x8E]
    ensures runes == [0x48, 0x65, 0x6C, 0x6C, 0x6F, 0x20, Globe]
    ensures EncodeAll(runes) == bytes
  {
    var s := Utf8Bytes("Hello 🌎");
    HelloBytes();
    HelloRunes();
    HelloCodePoints();
    var b := ToBytes(s);
    var r := ToRunes(s);
    bytes, runes := Slices.Elements(b), Slices.Elements(r);
  }

  /** A string of ASCII characters encodes one byte per character. */
  lemma {:induction false} EncodeAllAscii(rs: seq<int>)
    requires forall k :: 0 <= k < |rs| ==> 0 <= rs[k] < 0x80
    ensures |EncodeAll(rs)| == |rs|
    ensures forall k :: 0 <= k < |rs| ==> EncodeAll(rs)[k] == rs[k] as Byte
  {
    if rs != [] {
      EncodeAllAscii(rs[1..]);
    }
  }

  /** Encoding is a homomorphism from rune sequences to byte sequences. */
  lemma {:induction false} EncodeAllConcat(a: seq<int>, b: seq<int>)
    requires forall k :: 0 <= k < |a| ==> IsScalar(a[k])
    requires forall k :: 0 <= k < |b| ==> IsScalar(b[k])
    ensures EncodeAll(a + b) == EncodeAll(a) + EncodeAll(b)
  {
    if a != [] {
      assert (a + b)[1..] == a[1..] + b;
      EncodeAllConcat(a[1..], b);
    } else {
      assert a + b == b;
    }
  }

  /** The steps of `range` over ASCII bytes starting at offset base: one
      per byte, at consecutive offsets. */
  function AsciiSteps(p: seq<Byte>, base: nat): (steps: seq<Step>)
    ensures |steps| == |p|
    ensures forall k :: 0 <= k < |p| ==> steps[k] == Step(base + k, p[k] as int)
  {
    if p == [] then [] else [Step(base, p[0] as int)] + AsciiSteps(p[1..], base + 1)
  }

  /** An ASCII byte at the head decodes as a one-byte step. */
  lemma DecodeFromAsciiHead(s: seq<Byte>, base: nat)
    requires s != [] && s[0] < 0x80
    ensures DecodeFrom(s, base) == [Step(base, s[0] as int)] + DecodeFrom(s[1..], base + 1)
  {
  }

  /** `range` over bytes that start with ASCII characters: one step per
      byte, at consecutive offsets, then the steps of the rest. */
  lemma {:induction false} DecodeAsciiPrefix(p: seq<Byte>, q: seq<Byte>, base: nat)
    requires forall k :: 0 <= k < |p| ==> p[k] < 0x80
    ensures DecodeFrom(p + q, base) == AsciiSteps(p, base) + DecodeFrom(q, base + |p|)
    decreases |p|
  {
    if p != [] {
      var pq := p + q;
      assert pq[0] == p[0] && pq[1..] == p[1..] + q;
      DecodeFromAsciiHead(pq, base);
      DecodeAsciiPrefix(p[1..], q, base + 1);
      assert AsciiSteps(p, base) == [Step(base, p[0] as int)] + AsciiSteps(p[1..], base + 1);
    } else {
      assert p + q == q;
    }
  }

  // ---------------------------------------------------------------------
  // chapter4/examples/loops

  /** `for i, r := range s`: decodes one rune at a time, recording where
      each starts, until the bytes run out. */
  method Range(s: seq<Byte>) returns (steps: seq<Step>)
    ensures steps == Decode(s)
  {
    steps := [];
    var i := 0;
    while i < |s|
      invariant 0 <= i <= |s|
      invariant Decode(s) == steps + DecodeFrom(s[i..], i)
      decreases |s| - i
    {
      var d := DecodeRune(s[i..]);
      assert s[i..][d.1..] == s[i + d.1..];
      steps := steps + [Step(i, d.0)];
      i := i + d.1;
    }
  }

  /** `range` over ASCII bytes: one step per byte, the offset equal to the
      index. */
  lemma DecodeAscii(s: seq<Byte>)
    requires forall k :: 0 <= k < |s| ==> s[k] < 0x80
    ensures |Decode(s)| == |s|
    ensures forall k :: 0 <= k < |s| ==> Decode(s)[k] == Step(k, s[k] as int)
  {
    DecodeAsciiPrefix(s, [], 0);
    assert s + [] == s;
  }

  /** "hello" encodes to its five ASCII bytes. */
  lemma HelloWordBytes()
    ensures Utf8Bytes("hello") == [0x68, 0x65, 0x6C, 0x6C, 0x6F]
  {
    AsciiBytes("hello", [0x68, 0x65, 0x6C, 0x6C, 0x6F]);
  }

  /** The first sample of the first loop, over the bytes HelloWordBytes
      gives: ASCII runes sit at consecutive offsets. */
  lemma RangeHello(hello: seq<Byte>)
    requires hello == [0x68, 0x65, 0x6C, 0x6C, 0x6F]
    ensures Decode(hello) ==
              [Step(0, 'h' as int), Step(1, 'e' as int), Step(2, 'l' as int), Step(3, 'l' as int), Step(4, 'o' as int)]
  {
    DecodeAscii(hello);
    var d := Decode(hello);
    assert |d| == 5;
    assert d[0] == Step(0, 0x68) && d[1] == Step(1, 0x65) && d[2] == Step(2, 0x6C);
    assert d[3] == Step(3, 0x6C) && d[4] == Step(4, 0x6F);
  }

  /** "apple_π!" encodes to the ASCII bytes of "apple_" followed by the two
      bytes of π and the byte of '!'. */
  lemma AppleBytes()
    ensures Utf8Bytes("apple_π!") == [0x61, 0x70, 0x70, 0x6C, 0x65, 0x5F, 0xCF, 0x80, 0x21]
  {
    var apple := CodePoints("apple_");
    AsciiBytes("apple_", [0x61, 0x70, 0x70, 0x6C, 0x65, 0x5F]);
    assert CodePoints("apple_π!") == apple + [0x3C0, 0x21];
    EncodeAllConcat(apple, [0x3C0, 0x21]);
    PiBangBytes();
  }

  /** U+03C0 (π) encodes as CF 80. */
  lemma PiBytes()
    ensures EncodeRune(0x3C0) == [0xCF, 0x80]
  {
    assert 0x3C0 / 0x40 == 0x0F && 0x3C0 % 0x40 == 0;
  }

  /** π takes two bytes and '!' one. */
  lemma PiBangBytes()
    ensures EncodeAll([0x3C0, 0x21]) == [0xCF, 0x80, 0x21]
  {
    PiBytes();
    assert EncodeAll([0x21]) == [0x21] + EncodeAll([]);
    assert EncodeAll([0x3C0, 0x21]) == EncodeRune(0x3C0) + EncodeAll([0x21]);
  }

  /** `range` over π followed by '!': a two-byte step, then a one-byte one. */
  lemma DecodePiBang(rest: seq<Byte>, base: nat)
    requires rest == [0xCF, 0x80, 0x21]
    ensures DecodeFrom(rest, base) == [Step(base, 0x3C0), Step(base + 2, 0x21)]
  {
    PiBytes();
    assert rest == EncodeRune(0x3C0) + [0x21];
    DecodeEncode(0x3C0, [0x21]);
    assert rest[2..] == [0x21];
  }

  /** The second sample of the first loop, over the bytes AppleBytes gives:
      the two-byte π moves the offset of '!' on by two. */
  lemma RangeApple(apple: seq<Byte>)
    requires apple == [0x61, 0x70, 0x70, 0x6C, 0x65, 0x5F, 0xCF, 0x80, 0x21]
    ensures Decode(apple) ==
              [Step(0, 'a' as int), Step(1, 'p' as int), Step(2, 'p' as int), Step(3, 'l' as int),
               Step(4, 'e' as int), Step(5, '_' as int), Step(6, 0x3C0), Step(8, '!' as int)]
  {
    var prefix, rest := apple[..6], apple[6..];
    assert rest == [0xCF, 0x80, 0x21];
    assert apple == prefix + rest;
    DecodeAsciiPrefix(prefix, rest, 0);
    var ascii := AsciiSteps(prefix, 0);
    assert ascii == [Step(0, 0x61), Step(1, 0x70), Step(2, 0x70), Step(3, 0x6C), Step(4, 0x65), Step(5, 0x5F)];
    DecodePiBang(rest, 6);
  }

  /** What the second loop prints for each word. */
  datatype Line = FoundZ(index: nat) | NoZIn(word: seq<Byte>)

  /** The offset of the first rune equal to target that `range` over s
      meets from offset i on, if there is one. */
  function FindRuneFrom(s: seq<Byte>, i: nat, target: int): (r: Option<nat>)
    requires i <= |s|
    decreases |s| - i
  {
    if i == |s| then None
    else
      var d := DecodeRune(s[i..]);
      if d.0 == target then Some(i) else FindRuneFrom(s, i + d.1, target)
  }

  /** The offset of the first step whose rune is target. */
  function FirstOffset(steps: seq<Step>, target: int): (r: Option<nat>)
  {
    if steps == [] then None
    else if steps[0].rune == target then Some(steps[0].offset)
    else FirstOffset(steps[1..], target)
  }

  /** FirstOffset finds a step with the target rune exactly when there is
      one, and the one it finds comes before every other. */
  lemma {:induction false} FirstOffsetFinds(steps: seq<Step>, target: int)
    ensures FirstOffset(steps, target).None? <==> forall k :: 0 <= k < |steps| ==> steps[k].rune != target
    ensures FirstOffset(steps, target).Some? ==>
              exists k :: 0 <= k < |steps| && steps[k] == Step(FirstOffset(steps, target).value, target)
                && forall j :: 0 <= j < k ==> steps[j].rune != target
  {
    if steps != [] && steps[0].rune != target {
      var rest := steps[1..];
      FirstOffsetFinds(rest, target);
      assert forall k :: 0 <= k < |rest| ==> rest[k] == steps[k + 1];
      if FirstOffset(rest, target).Some? {
        var k :| 0 <= k < |rest| && rest[k] == Step(FirstOffset(rest, target).value, target)
                 && forall j :: 0 <= j < k ==> rest[j].rune != target;
        assert steps[k + 1] == rest[k];
        forall j | 0 <= j < k + 1 ensures steps[j].rune != target {
          if j > 0 {
            assert steps[j] == rest[j - 1];
          }
        }
      } else {
        forall j | 0 <= j < |steps| ensures steps[j].rune != target {
          if j > 0 {
            assert steps[j] == rest[j - 1];
          }
        }
      }
    } else if steps != [] {
      assert steps[0] == Step(steps[0].offset, target);
    }
  }

  /** Searching while decoding finds what `range` would reach first. */
  lemma {:induction false} FindRuneFirstStep(s: seq<Byte>, i: nat, target: int)
    requires i <= |s|
    ensures FindRuneFrom(s, i, target) == FirstOffset(DecodeFrom(s[i..], i), target)
    decreases |s| - i
  {
    if i < |s| {
      var d := DecodeRune(s[i..]);
      assert s[i..][d.1..] == s[i + d.1..];
      assert DecodeFrom(s[i..], i)[1..] == DecodeFrom(s[i + d.1..], i + d.1);
      FindRuneFirstStep(s, i + d.1, target);
    }
  }

  /** The lines the second loop prints: "No z in" for each word without a
      'z', up to the first word that has one, for which it prints the
      offset of the first 'z' and stops altogether. */
  function ZSearch(words: seq<seq<Byte>>): seq<Line>
  {
    if words == [] then []
    else
      match FindRuneFrom(words[0], 0, 'z' as int)
      case Some(i) => [FoundZ(i)]
      case None => [NoZIn(words[0])] + ZSearch(words[1..])
  }

  /** The labelled loops: the inner `range` stops at the first 'z', and
      `break outer` also ends the loop over the words. */
  method SearchZ(words: seq<seq<Byte>>) returns (lines: seq<Line>)
    ensures lines == ZSearch(words)
  {
    lines := [];
    var w := 0;
    label outer: while w < |words|
      invariant 0 <= w <= |words|
      invariant ZSearch(words) == lines + ZSearch(words[w..])
    {
      var word := words[w];
      var i := 0;
      while i < |word|
        invariant 0 <= i <= |word|
        invariant FindRuneFrom(word, 0, 'z' as int) == FindRuneFrom(word, i, 'z' as int)
        decreases |word| - i
      {
        var d := DecodeRune(word[i..]);
        if d.0 == 'z' as int {
          ZSearchFound(words, w, i);
          lines := lines + [FoundZ(i)];
          break outer;
        }
        i := i + d.1;
      }
      ZSearchNotFound(words, w, i);
      assert lines + ([NoZIn(word)] + ZSearch(words[w + 1..])) == (lines + [NoZIn(word)]) + ZSearch(words[w + 1..]);
      lines := lines + [NoZIn(word)];
      w := w + 1;
    }
  }

  /** The word at w has a 'z' at offset i: the search ends with that line. */
  lemma ZSearchFound(words: seq<seq<Byte>>, w: nat, i: nat)
    requires w < |words| && FindRuneFrom(words[w], 0, 'z' as int) == Some(i)
    ensures ZSearch(words[w..]) == [FoundZ(i)]
  {
    assert words[w..][0] == words[w];
  }

  /** The word at w has no 'z': its line, then the search of the rest. */
  lemma ZSearchNotFound(words: seq<seq<Byte>>, w: nat, i: nat)
    requires w < |words| && i == |words[w]|
    requires FindRuneFrom(words[w], 0, 'z' as int) == FindRuneFrom(words[w], i, 'z' as int)
    ensures ZSearch(words[w..]) == [NoZIn(words[w])] + ZSearch(words[w + 1..])
  {
    assert words[w..][0] == words[w] && words[w..][1..] == words[w + 1..];
  }

  /** Skipping ASCII bytes that are not the target moves the search on by
      one byte each. */
  lemma {:induction false} FindPastAscii(s: seq<Byte>, i: nat, j: nat, target: int)
    requires i <= j <= |s|
    requires forall k :: i <= k < j ==> s[k] < 0x80 && s[k] as int != target
    ensures FindRuneFrom(s, i, target) == FindRuneFrom(s, j, target)
    decreases j - i
  {
    if i < j {
      assert s[i..][0] == s[i];
      FindPastAscii(s, i + 1, j, target);
    }
  }

  /** "potato" has no 'z'. */
  lemma PotatoHasNoZ()
    ensures FindRuneFrom(Utf8Bytes("potato"), 0, 'z' as int) == None
  {
    var potato: seq<Byte> := [0x70, 0x6F, 0x74, 0x61, 0x74, 0x6F];
    AsciiBytes("potato", potato);
    FindPastAscii(potato, 0, 6, 'z' as int);
  }

  /** The first 'z' of "rendezvous" is at byte 5. */
  lemma RendezvousZAt5()
    ensures FindRuneFrom(Utf8Bytes("rendezvous"), 0, 'z' as int) == Some(5)
  {
    var rende: seq<Byte> := [0x72, 0x65, 0x6E, 0x64, 0x65];
    var zvous: seq<Byte> := [0x7A, 0x76, 0x6F, 0x75, 0x73];
    var word := rende + zvous;
    AsciiBytes("rendezvous", word);
    FindPastAscii(word, 0, 5, 'z' as int);
    assert word[5..][0] == 0x7A;
  }

  /** The words of the program: a line for "potato", then the offset of the
      'z' of "rendezvous", and nothing after it. */
  lemma ZSearchSample()
    ensures ZSearch([Utf8Bytes("potato"), Utf8Bytes("rendezvous")]) ==
              [NoZIn(Utf8Bytes("potato")), FoundZ(5)]
  {
    PotatoHasNoZ();
    RendezvousZAt5();
    var words := [Utf8Bytes("potato"), Utf8Bytes("rendezvous")];
    assert words[1..] == [Utf8Bytes("rendezvous")];
  }
}
