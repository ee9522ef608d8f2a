/** chapter5/examples/named_return: two versions of a division that returns
    quotient, remainder and error; the first through named results that
    start at their zero values, the second with explicit values. */
module NamedReturn {
  import opened Runtime
  import opened GoInt

  const DivByZero: string := "Cannot divide by zero"

  /** `divAndRemainderV2`: the zero values and the error for a zero
      denominator, and otherwise the truncated quotient and the remainder
      that has the dividend's sign and is smaller than the divisor, which
      together give back the dividend unless the quotient overflows. */
  function DivAndRemainderV2(num: Int64, denom: Int64): (r: (Int64, Int64, Option<string>))
    ensures r.2.Some? <==> denom == 0
    ensures denom == 0 ==> r == (0, 0, Some(DivByZero))
    ensures denom != 0 && !(num as int == MinInt64 && denom == -1) ==>
              num as int == r.0 as int * denom as int + r.1 as int
    ensures denom != 0 ==> Abs(r.1 as int) < Abs(denom as int)
    ensures denom != 0 ==> r.1 == 0 || (r.1 < 0 <==> num < 0)
  {
    if denom == 0 then (0, 0, Some(DivByZero))
    else
      QuoRemLaw(num as int, denom as int);
      (QuoInt64(num, denom), RemInt64(num, denom), None)
  }

  /** `divAndRemainder`: the named results start at zero, so with a zero
      denominator the bare values returned beside the error are zero; it
      returns exactly what the second version returns. */
  method DivAndRemainder(num: Int64, denom: Int64) returns (result: Int64, remainder: Int64, err: Option<string>)
    ensures (result, remainder, err) == DivAndRemainderV2(num, denom)
  {
    result, remainder, err := 0, 0, None;
    if denom == 0 {
      err := Some(DivByZero);
      return result, remainder, err;
    }
    result, remainder := QuoInt64(num, denom), RemInt64(num, denom);
    return result, remainder, err;
  }

  /** The most negative int divided by -1 overflows: quotient itself, no
      remainder, no error, and no panic either. */
  lemma MinIntByMinusOne()
    ensures DivAndRemainderV2(MinInt64 as Int64, -1) == (MinInt64 as Int64, 0, None)
  {
    QuoRemLaw(MinInt64, -1);
  }

  /** `main`: both calls divide 5 by 2. */
  method FiveByTwo() returns (x: Int64, y: Int64, err: Option<string>, x2: Int64, y2: Int64, err2: Option<string>)
    ensures x == 2 && y == 1 && err == None
    ensures x2 == 2 && y2 == 1 && err2 == None
  {
    x, y, err := DivAndRemainder(5, 2);
    assert Quo(5, 2) == 2 && Rem(5, 2) == 1;
    x2, y2, err2 := DivAndRemainder(5, 2);
  }
}
