/** chapter5/examples/defer2: a `defer` statement evaluates the arguments of
    the call at once and pushes the call; when the function returns, the
    pushed calls run in the reverse order (Go reference, section "Defer
    statements"). */
module Defer {
  import opened GoInt

  /** A deferred call `func(n int) { fmt.Println(prefix, n) }(a)`, with its
      argument already evaluated. */
  datatype DeferredCall = DeferredCall(prefix: string, arg: Int64)

  /** A printed line `prefix n`, which fmt renders as the prefix, a space
      and n in decimal. */
  datatype OutputLine = OutputLine(prefix: string, n: Int64)

  /** The line a deferred call prints. */
  function Line(d: DeferredCall): OutputLine
  {
    OutputLine(d.prefix, d.arg)
  }

  /** The lines the pending calls print when the function returns: the last
      one pushed first. */
  function Unwound(pending: seq<DeferredCall>): (lines: seq<OutputLine>)
    ensures |lines| == |pending|
  {
    if pending == [] then [] else [Line(pending[|pending| - 1])] + Unwound(pending[..|pending| - 1])
  }

  /** Last in, first out: the call pushed at position i prints the
      (|pending| - 1 - i)-th line of the unwinding. */
  lemma {:induction false} UnwoundReverses(pending: seq<DeferredCall>, i: nat)
    requires i < |pending|
    ensures Unwound(pending)[|pending| - 1 - i] == Line(pending[i])
    decreases |pending|
  {
    var front := pending[..|pending| - 1];
    assert Unwound(pending) == [Line(pending[|pending| - 1])] + Unwound(front);
    if i < |pending| - 1 {
      UnwoundReverses(front, i);
      assert front[i] == pending[i];
    }
  }

  /** A running call of `main`: its pending deferred calls and what it has
      printed so far. */
  class Frame {
    var pending: seq<DeferredCall>
    var output: seq<OutputLine>

    constructor ()
      ensures pending == [] && output == []
    {
      pending := [];
      output := [];
    }

    /** `defer f(args)`: the call is pushed with the argument values of this
        moment. */
    method Defer(d: DeferredCall)
      modifies this
      ensures pending == old(pending) + [d] && output == old(output)
    {
      pending := pending + [d];
    }

    method Println(line: OutputLine)
      modifies this
      ensures output == old(output) + [line] && pending == old(pending)
    {
      output := output + [line];
    }

    /** Returning from the function: the pending calls run, most recent
        first, until none is left. */
    method Return()
      modifies this
      ensures pending == [] && output == old(output) + Unwound(old(pending))
    {
      ghost var target := output + Unwound(pending);
      var rest, out := pending, output;
      while rest != []
        invariant out + Unwound(rest) == target
        decreases |rest|
      {
        PopLast(out, rest);
        out := out + [Line(rest[|rest| - 1])];
        rest := rest[..|rest| - 1];
      }
      pending, output := rest, out;
    }
  }

  /** Running the most recent call moves its line from the unwinding to the
      output. */
  lemma PopLast(out: seq<OutputLine>, rest: seq<DeferredCall>)
    requires rest != []
    ensures out + Unwound(rest) == (out + [Line(rest[|rest| - 1])]) + Unwound(rest[..|rest| - 1])
  {
    var last, front := [Line(rest[|rest| - 1])], Unwound(rest[..|rest| - 1]);
    assert Unwound(rest) == last + front;
    assert out + (last + front) == (out + last) + front;
  }

  /** `main`: a is 10 when the first call is deferred and 20 when the
      second is; the body prints "third: 30" and then the deferred calls
      print "second: 20" and "first: 10". */
  method Defer2Main() returns (output: seq<OutputLine>)
    ensures output == [OutputLine("third:", 30), OutputLine("second:", 20), OutputLine("first:", 10)]
  {
    var frame := new Frame();
    var a: Int64 := 10;
    frame.Defer(DeferredCall("first:", a));
    a := 20;
    frame.Defer(DeferredCall("second:", a));
    a := 30;
    frame.Println(OutputLine("third:", a));
    var first, second := DeferredCall("first:", 10), DeferredCall("second:", 20);
    assert frame.pending == [first, second];
    frame.Return();
    output := frame.output;
    assert [first, second][..1] == [first];
  }
}
