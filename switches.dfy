/** The switch statements of chapter 4: a switch on the length of a word,
    written once with a tag and case lists and once without a tag, and a
    tagless switch on divisibility. */
module Switches {
  import opened GoInt
  import GoStrings

  /** Which case of the word switch runs; the case for 7 and 8 has an
      empty body. */
  datatype WordClass = Short | Nice | Quiet | Long

  /** `switch size { case 1, 2, 3, 4: ... case 5, 6: ... case 7, 8: default: }`:
      a case list matches only the listed values, so length 0 falls to
      the default. */
  function TagSwitch(size: nat): (c: WordClass)
    ensures c == Short <==> 1 <= size <= 4
    ensures c == Nice <==> size == 5 || size == 6
    ensures c == Quiet <==> size == 7 || size == 8
    ensures c == Long <==> size == 0 || size > 8
  {
    match size
    case 1 | 2 | 3 | 4 => Short
    case 5 | 6 => Nice
    case 7 | 8 => Quiet
    case _ => Long
  }

  /** `switch { case size <= 4: ... case size == 5 || size == 6: ... }`:
      the first true condition wins. */
  function TaglessSwitch(size: nat): (c: WordClass)
    ensures c == Short <==> size <= 4
    ensures c == Nice <==> size == 5 || size == 6
    ensures c == Quiet <==> size == 7 || size == 8
    ensures c == Long <==> size > 8
  {
    if size <= 4 then Short
    else if size == 5 || size == 6 then Nice
    else if size == 7 || size == 8 then Quiet
    else Long
  }

  /** The two switches agree on every non-empty word and disagree on the
      empty one, which the tagged switch calls long and the tagless one
      short. */
  lemma SwitchesAgree(size: nat)
    ensures size >= 1 ==> TagSwitch(size) == TaglessSwitch(size)
    ensures size == 0 ==> TagSwitch(size) == Long && TaglessSwitch(size) == Short
  {
  }

  /** The line printed for a word, if any. */
  function Describe(word: string, c: WordClass): seq<string>
  {
    match c
    case Short => [word + " is short"]
    case Nice => [word + " is nice"]
    case Quiet => []
    case Long => [word + " is long"]
  }

  /** One of the two switches. */
  function Switch(tagged: bool, size: nat): WordClass
  {
    if tagged then TagSwitch(size) else TaglessSwitch(size)
  }

  /** The lines a loop over the words prints, with the tagged or the
      tagless switch. */
  function Report(words: seq<string>, tagged: bool): seq<string>
  {
    if words == [] then []
    else
      var last := words[|words| - 1];
      Report(words[..|words| - 1], tagged) + Describe(last, Switch(tagged, GoStrings.ByteLength(last)))
  }

  /** The first loop of main. */
  method TagLoop(words: seq<string>) returns (lines: seq<string>)
    ensures lines == Report(words, true)
  {
    lines := [];
    for i := 0 to |words|
      invariant lines == Report(words[..i], true)
    {
      var word := words[i];
      assert words[..i + 1][..i] == words[..i];
      match GoStrings.ByteLength(word)
      case 1 | 2 | 3 | 4 =>
        lines := lines + [word + " is short"];
      case 5 | 6 =>
        lines := lines + [word + " is nice"];
      case 7 | 8 =>
      case _ =>
        lines := lines + [word + " is long"];
    }
    assert words[..|words|] == words;
  }

  /** The second loop of main. */
  method TaglessLoop(words: seq<string>) returns (lines: seq<string>)
    ensures lines == Report(words, false)
  {
    lines := [];
    for i := 0 to |words|
      invariant lines == Report(words[..i], false)
    {
      var word := words[i];
      var size := GoStrings.ByteLength(word);
      assert words[..i + 1][..i] == words[..i];
      if size <= 4 {
        lines := lines + [word + " is short"];
      } else if size == 5 || size == 6 {
        lines := lines + [word + " is nice"];
      } else if size == 7 || size == 8 {
      } else {
        lines := lines + [word + " is long"];
      }
    }
    assert words[..|words|] == words;
  }

  /** Over words that are all non-empty both loops print the same lines. */
  lemma {:induction false} LoopsAgree(words: seq<string>)
    requires forall i :: 0 <= i < |words| ==> |words[i]| >= 1
    ensures Report(words, true) == Report(words, false)
  {
    if words != [] {
      LoopsAgree(words[..|words| - 1]);
      SwitchesAgree(GoStrings.ByteLength(words[|words| - 1]));
    }
  }

  /** A loop over one word prints that word's line, if any. */
  lemma ReportOne(w: string, tagged: bool)
    ensures Report([w], tagged) == Describe(w, Switch(tagged, GoStrings.ByteLength(w)))
  {
    assert [w][..0] == [];
  }

  /** Four words of 4, 6, 7 and 11 bytes: the third prints nothing. */
  lemma ReportFour(w1: string, w2: string, w3: string, w4: string, tagged: bool)
    requires GoStrings.ByteLength(w1) == 4 && GoStrings.ByteLength(w2) == 6
    requires GoStrings.ByteLength(w3) == 7 && GoStrings.ByteLength(w4) == 11
    ensures Report([w1, w2, w3, w4], tagged) == [w1 + " is short", w2 + " is nice", w4 + " is long"]
  {
    var words := [w1, w2, w3, w4];
    assert words[..3] == [w1, w2, w3];
    assert words[..3][..2] == [w1, w2];
    assert words[..3][..2][..1] == [w1];
    assert Switch(tagged, 4) == Short && Switch(tagged, 6) == Nice;
    assert Switch(tagged, 7) == Quiet && Switch(tagged, 11) == Long;
    ReportOne(w1, tagged);
    assert Report([w1, w2], tagged) == [w1 + " is short", w2 + " is nice"];
    assert Report([w1, w2, w3], tagged) == [w1 + " is short", w2 + " is nice"];
  }

  /** The byte lengths of the words of main. */
  lemma SampleWordLengths()
    ensures GoStrings.ByteLength("bird") == 4 && GoStrings.ByteLength("potato") == 6
    ensures GoStrings.ByteLength("monitor") == 7 && GoStrings.ByteLength("motherboard") == 11
  {
    assert forall k :: 0 <= k < 4 ==> "bird"[k] as int < 0x80;
    assert forall k :: 0 <= k < 6 ==> "potato"[k] as int < 0x80;
    assert forall k :: 0 <= k < 7 ==> "monitor"[k] as int < 0x80;
    assert forall k :: 0 <= k < 11 ==> "motherboard"[k] as int < 0x80;
  }

  /** The words of main: "monitor" has 7 bytes and prints nothing. */
  lemma SampleWords()
    ensures Report(["bird", "potato", "monitor", "motherboard"], true) ==
              ["bird is short", "potato is nice", "motherboard is long"]
    ensures Report(["bird", "potato", "monitor", "motherboard"], false) ==
              ["bird is short", "potato is nice", "motherboard is long"]
  {
    SampleWordLengths();
    ReportFour("bird", "potato", "monitor", "motherboard", true);
    ReportFour("bird", "potato", "monitor", "motherboard", false);
    SampleLines();
  }

  /** The three printed lines of main, spelled out. */
  lemma SampleLines()
    ensures "bird" + " is short" == "bird is short"
    ensures "potato" + " is nice" == "potato is nice"
    ensures "motherboard" + " is long" == "motherboard is long"
  {
  }

  /** `len` counts bytes, not characters: "café" has four characters but
      five bytes, so both loops call it nice. */
  lemma NonAsciiWord()
    ensures Report(["café"], true) == ["café is nice"]
    ensures Report(["café"], false) == ["café is nice"]
  {
    GoStrings.CafeLength();
    ReportOne("café", true);
    ReportOne("café", false);
    assert "café" + " is nice" == "café is nice";
  }

  // ---------------------------------------------------------------------
  // chapter4/exercises/1and2

  datatype Divisibility = Six | Two | Three | NeverMind

  /** The tagless switch over `n % 6`, `n % 2` and `n % 3`, with Go's
      truncated remainder. */
  function Classify(n: int): Divisibility
  {
    if Rem(n, 6) == 0 then Six
    else if Rem(n, 2) == 0 then Two
    else if Rem(n, 3) == 0 then Three
    else NeverMind
  }

  /** What each case means: the first case holds exactly when n is even
      and a multiple of 3, the condition left commented out beside it. */
  lemma ClassifyMeaning(n: int)
    ensures Classify(n) == Six <==> n % 2 == 0 && n % 3 == 0
    ensures Classify(n) == Two <==> n % 2 == 0 && n % 3 != 0
    ensures Classify(n) == Three <==> n % 2 != 0 && n % 3 == 0
    ensures Classify(n) == NeverMind <==> n % 2 != 0 && n % 3 != 0
  {
    RemZeroIff(n, 6);
    RemZeroIff(n, 2);
    RemZeroIff(n, 3);
    SixIffTwoAndThree(n);
  }

  lemma SixIffTwoAndThree(n: int)
    ensures n % 6 == 0 <==> n % 2 == 0 && n % 3 == 0
  {
    var q, r := n / 6, n % 6;
    SixParts(n, q, r);
  }

  /** The remainders by 2 and 3 of n = 6q + r follow from r alone. */
  lemma SixParts(n: int, q: int, r: int)
    requires n == q * 6 + r && 0 <= r < 6
    ensures n % 6 == 0 <==> n % 2 == 0 && n % 3 == 0
  {
    EuclidUnique(n, 6, q, r);
    if r == 0 {
      EuclidUnique(n, 2, 3 * q, 0);
    } else if r == 1 {
      EuclidUnique(n, 2, 3 * q, 1);
    } else if r == 2 {
      EuclidUnique(n, 3, 2 * q, 2);
    } else if r == 3 {
      EuclidUnique(n, 2, 3 * q + 1, 1);
    } else if r == 4 {
      EuclidUnique(n, 3, 2 * q + 1, 1);
    } else {
      EuclidUnique(n, 2, 3 * q + 2, 1);
    }
    if r == 0 {
      EuclidUnique(n, 3, 2 * q, 0);
    }
  }

  function Message(d: Divisibility): string
  {
    match d
    case Six => "Six!"
    case Two => "Two!"
    case Three => "Three!"
    case NeverMind => "Never mind"
  }

  /** The loop over the drawn numbers prints one line per number. */
  method DivisibilityLines(numbers: seq<int>) returns (lines: seq<string>)
    ensures |lines| == |numbers|
    ensures forall i :: 0 <= i < |numbers| ==> lines[i] == Message(Classify(numbers[i]))
  {
    lines := [];
    for i := 0 to |numbers|
      invariant |lines| == i
      invariant forall j :: 0 <= j < i ==> lines[j] == Message(Classify(numbers[j]))
    {
      var n := numbers[i];
      if Rem(n, 6) == 0 {
        lines := lines + ["Six!"];
      } else if Rem(n, 2) == 0 {
        lines := lines + ["Two!"];
      } else if Rem(n, 3) == 0 {
        lines := lines + ["Three!"];
      } else {
        lines := lines + ["Never mind"];
      }
    }
  }
}
