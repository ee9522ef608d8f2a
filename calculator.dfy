/** The calculator of chapter5/exercises/1: operators looked up by name in a
    map of function values, each returning a value and an error, and a loop
    over the inputs that reports the first problem of each and moves on. */
module Calculator {
  import opened Runtime
  import opened GoInt
  import opened Strconv

  /** The `(int, error)` pair every operator returns; an error is its
      message. */
  datatype OpResult = OpResult(value: Int64, err: Option<string>)

  /** The `Op` function type. */
  type Op = (Int64, Int64) -> OpResult

  const DivByZero: string := "Cannot divide by 0"

  /** `add`: never fails; a sum outside int64 wraps by 2^64. */
  function Add(x: Int64, y: Int64): (r: OpResult)
    ensures r.err == None
    ensures InInt64(x as int + y as int) ==> r.value as int == x as int + y as int
    ensures x as int + y as int > MaxInt64 ==> r.value as int == x as int + y as int - Two64
    ensures x as int + y as int < MinInt64 ==> r.value as int == x as int + y as int + Two64
  {
    OpResult(AddInt64(x, y), None)
  }

  /** `sub`: never fails; a difference outside int64 wraps by 2^64. */
  function Sub(x: Int64, y: Int64): (r: OpResult)
    ensures r.err == None
    ensures InInt64(x as int - y as int) ==> r.value as int == x as int - y as int
    ensures x as int - y as int > MaxInt64 ==> r.value as int == x as int - y as int - Two64
    ensures x as int - y as int < MinInt64 ==> r.value as int == x as int - y as int + Two64
  {
    OpResult(SubInt64(x, y), None)
  }

  /** `mult`: never fails; the product is the one int64 congruent to
      x * y modulo 2^64, so an overflowing product wraps. */
  function Mult(x: Int64, y: Int64): (r: OpResult)
    ensures r.err == None
    ensures InInt64(x as int * y as int) ==> r.value as int == x as int * y as int
    ensures (x as int * y as int - r.value as int) % Two64 == 0
  {
    OpResult(MulInt64(x, y), None)
  }

  /** `div`: an error with value 0 for a zero divisor, and otherwise the
      quotient truncated toward zero, so that x == q * y + Rem(x, y), except
      that the most negative int divided by -1 overflows back to itself. */
  function Div(x: Int64, y: Int64): (r: OpResult)
    ensures r.err.Some? <==> y == 0
    ensures y == 0 ==> r == OpResult(0, Some(DivByZero))
    ensures y != 0 && !(x as int == MinInt64 && y == -1) ==>
              x as int == r.value as int * y as int + Rem(x as int, y as int)
    ensures y != 0 && !(x as int == MinInt64 && y == -1) ==> r.value as int == Quo(x as int, y as int)
    ensures x as int == MinInt64 && y == -1 ==> r == OpResult(MinInt64 as Int64, None)
  {
    if y == 0 then
      OpResult(0, Some(DivByZero))
    else
      QuoRemLaw(x as int, y as int);
      OpResult(QuoInt64(x, y), None)
  }

  /** The overflowing inputs Atoi lets through: the largest int plus 1,
      the smallest minus 1, and the smallest divided by -1. */
  lemma OverflowWraps()
    ensures Add(MaxInt64 as Int64, 1).value as int == MinInt64
    ensures Sub(MinInt64 as Int64, 1).value as int == MaxInt64
    ensures Div(MinInt64 as Int64, -1).value as int == MinInt64
    ensures Mult(MaxInt64 as Int64, 2).value == -2
  {
    var p := Mult(MaxInt64 as Int64, 2).value as int;
    assert (2 * MaxInt64 - p) % Two64 == 0;
    assert 2 * MaxInt64 - (-2) == Two64;
  }

  /** `opMap`. */
  const OpMap: map<string, Op> := map["+" := Add, "-" := Sub, "*" := Mult, "/" := Div]

  /** The result line: "Result:" and the value in decimal, separated by a
      space as `fmt.Println` separates its operands. */
  function ResultLine(v: Int64): string
  {
    "Result: " + Itoa(v as int)
  }

  /** The line the loop prints for one input: the first problem found,
      checked in the order length, first number, operator, second number,
      operation; or the result. */
  function Evaluate(input: seq<string>): string
  {
    if |input| != 3 then "3 values are needed"
    else
      match Atoi(input[0])
      case None => "First number is invalid"
      case Some(x) =>
        if input[1] !in OpMap then "Invalid operator"
        else
          match Atoi(input[2])
          case None => "Second number is invalid"
          case Some(y) =>
            var r := OpMap[input[1]](x, y);
            if r.err.Some? then r.err.value else ResultLine(r.value)
  }

  /** The operators are exactly the four names of the map. */
  lemma OperatorNames()
    ensures OpMap.Keys == {"+", "-", "*", "/"}
    ensures forall op :: op !in {"+", "-", "*", "/"} ==> op !in OpMap
  {
  }

  /** An input is computed exactly when it has three parts, both numbers
      parse and the operator is known; then the line is the operator's
      error or its result, and a result line reads back, through Atoi, as
      the value the operator computed. */
  lemma EvaluateComputes(input: seq<string>)
    ensures (|input| == 3 && Atoi(input[0]).Some? && input[1] in OpMap && Atoi(input[2]).Some?) ==>
              var r := OpMap[input[1]](Atoi(input[0]).value, Atoi(input[2]).value);
              && (r.err.Some? ==> Evaluate(input) == r.err.value)
              && (r.err.None? ==> Evaluate(input)[..8] == "Result: " && Atoi(Evaluate(input)[8..]) == Some(r.value))
  {
    if |input| == 3 && Atoi(input[0]).Some? && input[1] in OpMap && Atoi(input[2]).Some? {
      var r := OpMap[input[1]](Atoi(input[0]).value, Atoi(input[2]).value);
      if r.err.None? {
        AtoiItoa(r.value);
        assert ResultLine(r.value)[8..] == Itoa(r.value as int);
      }
    }
  }

  /** Only a division by zero produces an operator error, so every other
      computed input prints a result. */
  lemma OnlyDivisionFails(input: seq<string>)
    requires |input| == 3 && Atoi(input[0]).Some? && input[1] in OpMap && Atoi(input[2]).Some?
    ensures Evaluate(input) == DivByZero <==> input[1] == "/" && Atoi(input[2]).value == 0
  {
    var r := OpMap[input[1]](Atoi(input[0]).value, Atoi(input[2]).value);
    if r.err.None? {
      assert Evaluate(input) == ResultLine(r.value);
      assert Evaluate(input)[0] == 'R';
    }
  }

  /** The checks of Evaluate one at a time, in their order. */
  lemma EvaluateSteps(input: seq<string>)
    ensures |input| != 3 ==> Evaluate(input) == "3 values are needed"
    ensures |input| == 3 && Atoi(input[0]).None? ==> Evaluate(input) == "First number is invalid"
    ensures |input| == 3 && Atoi(input[0]).Some? && input[1] !in OpMap ==> Evaluate(input) == "Invalid operator"
    ensures |input| == 3 && Atoi(input[0]).Some? && input[1] in OpMap && Atoi(input[2]).None? ==>
              Evaluate(input) == "Second number is invalid"
    ensures |input| == 3 && Atoi(input[0]).Some? && input[1] in OpMap && Atoi(input[2]).Some? ==>
              var r := OpMap[input[1]](Atoi(input[0]).value, Atoi(input[2]).value);
              Evaluate(input) == if r.err.Some? then r.err.value else ResultLine(r.value)
  {
  }

  /** The body of `main`'s loop for one input: each check prints its
      message and `continue`s with the next input (here: leaves the block
      of checks with the line to print). */
  method Check(input: seq<string>) returns (line: string)
    ensures line == Evaluate(input)
  {
    EvaluateSteps(input);
    label check: {
      if |input| != 3 {
        line := "3 values are needed";
        break check;
      }
      var x := Atoi(input[0]);
      if x.None? {
        line := "First number is invalid";
        break check;
      }
      if input[1] !in OpMap {
        line := "Invalid operator";
        break check;
      }
      var op := OpMap[input[1]];
      var y := Atoi(input[2]);
      if y.None? {
        line := "Second number is invalid";
        break check;
      }
      var result := op(x.value, y.value);
      if result.err.Some? {
        line := result.err.value;
        break check;
      }
      line := ResultLine(result.value);
    }
  }

  /** The lines `main`'s loop prints for the inputs seen so far. */
  function Printed(inputs: seq<seq<string>>): (lines: seq<string>)
    ensures |lines| == |inputs|
    ensures forall i :: 0 <= i < |inputs| ==> lines[i] == Evaluate(inputs[i])
  {
    if inputs == [] then []
    else Printed(inputs[..|inputs| - 1]) + [Evaluate(inputs[|inputs| - 1])]
  }

  /** `main`'s loop: one line per input, in order. */
  method Run(inputs: seq<seq<string>>) returns (lines: seq<string>)
    ensures |lines| == |inputs|
    ensures forall i :: 0 <= i < |inputs| ==> lines[i] == Evaluate(inputs[i])
  {
    lines := [];
    for i := 0 to |inputs|
      invariant lines == Printed(inputs[..i])
    {
      var line := Check(inputs[i]);
      assert inputs[..i + 1][..i] == inputs[..i];
      lines := lines + [line];
    }
    assert inputs[..|inputs|] == inputs;
  }

  /** The four inputs of `main` that compute: 5 + 10, 10 - 25, 50 * 7 and
      60 / 12. */
  lemma SampleResults()
    ensures Evaluate(["5", "+", "10"]) == "Result: 15"
    ensures Evaluate(["10", "-", "25"]) == "Result: -15"
    ensures Evaluate(["50", "*", "7"]) == "Result: 350"
    ensures Evaluate(["60", "/", "12"]) == "Result: 5"
  {
    SampleAdd();
    SampleSub();
    SampleMult();
    SampleDiv();
  }

  lemma SampleAdd()
    ensures Evaluate(["5", "+", "10"]) == "Result: 15"
  {
    var input := ["5", "+", "10"];
    AtoiOneDigit('5');
    AtoiTwoDigits('1', '0');
    EvaluateSteps(input);
    assert Itoa(15) == "15";
  }

  lemma SampleSub()
    ensures Evaluate(["10", "-", "25"]) == "Result: -15"
  {
    var input := ["10", "-", "25"];
    AtoiTwoDigits('1', '0');
    AtoiTwoDigits('2', '5');
    EvaluateSteps(input);
    assert Itoa(-15) == "-15";
  }

  lemma SampleMult()
    ensures Evaluate(["50", "*", "7"]) == "Result: 350"
  {
    var input := ["50", "*", "7"];
    AtoiTwoDigits('5', '0');
    AtoiOneDigit('7');
    EvaluateSteps(input);
    assert Itoa(350) == "350";
  }

  lemma SampleDiv()
    ensures Evaluate(["60", "/", "12"]) == "Result: 5"
  {
    var input := ["60", "/", "12"];
    AtoiTwoDigits('6', '0');
    AtoiTwoDigits('1', '2');
    EvaluateSteps(input);
    assert Quo(60, 12) == 5;
    assert Itoa(5) == "5";
  }

  /** The five inputs of `main` that print a problem, one for each check:
      too few values, a word for the first number, an unknown operator, a
      word for the second number, and a division by zero. */
  lemma SampleErrors()
    ensures Evaluate(["40"]) == "3 values are needed"
    ensures Evaluate(["hello", "+", "10"]) == "First number is invalid"
    ensures Evaluate(["10", "sum", "40"]) == "Invalid operator"
    ensures Evaluate(["50", "*", "bye"]) == "Second number is invalid"
    ensures Evaluate(["9", "/", "0"]) == DivByZero
  {
    AtoiRejectsWords();
    var hello, sum, bye, byZero := ["hello", "+", "10"], ["10", "sum", "40"], ["50", "*", "bye"], ["9", "/", "0"];
    EvaluateSteps(["40"]);
    EvaluateSteps(hello);
    assert "sum" !in OpMap;
    AtoiTwoDigits('1', '0');
    EvaluateSteps(sum);
    AtoiTwoDigits('5', '0');
    EvaluateSteps(bye);
    AtoiOneDigit('9');
    AtoiOneDigit('0');
    EvaluateSteps(byZero);
  }
}
