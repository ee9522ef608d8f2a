/** Decimal conversion between Go's int and strings: `strconv.Atoi`, which
    the calculator uses to read its operands, and the decimal form in which
    `fmt.Println` prints an int. */
module Strconv {
  import opened Runtime
  import opened GoInt

  predicate IsDigit(c: char)
  {
    '0' <= c <= '9'
  }

  predicate AllDigits(s: string)
  {
    forall i :: 0 <= i < |s| ==> IsDigit(s[i])
  }

  function DigitValue(c: char): nat
    requires IsDigit(c)
  {
    c as int - '0' as int
  }

  function DigitChar(d: nat): (c: char)
    requires d < 10
    ensures IsDigit(c) && DigitValue(c) == d
  {
    ('0' as int + d) as char
  }

  /** The number a string of decimal digits stands for, most significant
      digit first. */
  function DigitsValue(s: string): nat
    requires AllDigits(s)
  {
    if s == [] then 0 else DigitsValue(s[..|s| - 1]) * 10 + DigitValue(s[|s| - 1])
  }

  /** The shortest decimal form of n: no leading zeros, "0" for zero. */
  function NatDigits(n: nat): (s: string)
    ensures |s| >= 1 && AllDigits(s)
    ensures |s| > 1 ==> s[0] != '0'
    decreases n
  {
    if n < 10 then [DigitChar(n)] else NatDigits(n / 10) + [DigitChar(n % 10)]
  }

  /** The decimal form of an int, with a '-' in front when it is negative. */
  function Itoa(x: int): (s: string)
    ensures |s| >= 1 && (s[0] == '-' || IsDigit(s[0]))
  {
    if x < 0 then "-" + NatDigits(-x) else NatDigits(x)
  }

  /** A run of one or more decimal digits, and its value. */
  function ParseDigits(s: string): (r: Option<nat>)
    ensures r.Some? <==> |s| >= 1 && AllDigits(s)
  {
    if |s| >= 1 && AllDigits(s) then Some(DigitsValue(s)) else None
  }

  /** `strconv.Atoi(s)` on a 64-bit platform: an optional '+' or '-', then
      one or more decimal digits (no spaces, no underscores, no base
      prefix), whose value must fit in an int. Anything else is an error,
      modelled as None; the error's text is not modelled. */
  function Atoi(s: string): (r: Option<Int64>)
    ensures r.Some? ==> |s| >= 1 && AllDigits(s[1..])
    ensures r.Some? ==> IsDigit(s[0]) || ((s[0] == '+' || s[0] == '-') && |s| >= 2)
  {
    var signed := |s| >= 1 && (s[0] == '+' || s[0] == '-');
    var digits := if signed then s[1..] else s;
    match ParseDigits(digits)
    case None => None
    case Some(n) =>
      var x: int := if signed && s[0] == '-' then -(n as int) else n;
      if InInt64(x) then Some(x as Int64) else None
  }

  /** Reading back the digits of n gives n. */
  lemma {:induction false} NatDigitsValue(n: nat)
    ensures DigitsValue(NatDigits(n)) == n
    decreases n
  {
    if n >= 10 {
      var s := NatDigits(n);
      assert s[..|s| - 1] == NatDigits(n / 10);
      NatDigitsValue(n / 10);
    }
  }

  /** The decimal form of any integer reads back as that integer when it
      fits in Go's int, and as a range error otherwise. */
  lemma AtoiOfItoa(x: int)
    ensures Atoi(Itoa(x)) == if InInt64(x) then Some(x as Int64) else None
  {
    var s := Itoa(x);
    if x < 0 {
      assert s[0] == '-' && s[1..] == NatDigits(-x);
      NatDigitsValue(-x);
      assert ParseDigits(s[1..]) == Some(-x);
    } else {
      assert s == NatDigits(x);
      assert IsDigit(s[0]);
      NatDigitsValue(x);
      assert ParseDigits(s) == Some(x);
    }
  }

  /** Every int printed in decimal reads back as itself. */
  lemma AtoiItoa(x: Int64)
    ensures Atoi(Itoa(x as int)) == Some(x)
  {
    AtoiOfItoa(x as int);
  }

  /** The decimal form of a number outside Go's int range does not read
      back: Atoi reports a range error for it. */
  lemma AtoiOutOfRange(x: int)
    requires !InInt64(x)
    ensures Atoi(Itoa(x)) == None
  {
    AtoiOfItoa(x);
  }

  /** A single digit reads as its value. */
  lemma AtoiOneDigit(c: char)
    requires IsDigit(c)
    ensures Atoi([c]) == Some(DigitValue(c) as Int64)
  {
    var s := [c];
    assert s[..0] == [];
    assert DigitsValue(s) == DigitValue(c);
  }

  /** Two digits read as ten times the first plus the second. */
  lemma AtoiTwoDigits(c: char, d: char)
    requires IsDigit(c) && IsDigit(d)
    ensures Atoi([c, d]) == Some((DigitValue(c) * 10 + DigitValue(d)) as Int64)
  {
    var s := [c, d];
    assert s[..1] == [c] && s[1] == d && [c][..0] == [];
    assert DigitsValue([c]) == DigitValue(c);
    assert DigitsValue(s) == DigitValue(c) * 10 + DigitValue(d);
  }

  /** The operands the calculator rejects: a word where a number should be. */
  lemma AtoiRejectsWords()
    ensures Atoi("hello") == None && Atoi("bye") == None
  {
    assert !IsDigit("hello"[1]);
    assert !IsDigit("bye"[1]);
  }
}
