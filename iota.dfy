/** Constant declarations with `iota` (chapter7/examples/iota): inside a
    parenthesised const block, iota is the index of the line, and a line
    without an expression repeats the expression of the last line that has
    one, evaluated with its own iota. The rules are those of the Go
    reference, sections "Iota" and "Constant declarations". */
module Iota {
  import opened Runtime

  /** The constant expressions the blocks use. */
  datatype ConstExpr =
    | Lit(n: int)
    | IotaValue
    | Plus(left: ConstExpr, right: ConstExpr)
    | Shl(operand: ConstExpr, count: ConstExpr)

  /** One line of a const block: an explicit expression, or none. */
  datatype ConstSpec = Explicit(e: ConstExpr) | Omitted

  function Pow2(n: nat): (p: nat)
    ensures p >= 1
  {
    if n == 0 then 1 else 2 * Pow2(n - 1)
  }

  /** The value of e on the line where iota is `iota`; a negative shift
      count is an error (a compile-time one in Go). */
  function Eval(e: ConstExpr, iota: nat): (r: Option<int>)
    ensures e.Lit? ==> r == Some(e.n)
    ensures e.IotaValue? ==> r == Some(iota)
  {
    match e
    case Lit(n) => Some(n)
    case IotaValue => Some(iota)
    case Plus(a, b) =>
      (match (Eval(a, iota), Eval(b, iota))
       case (Some(x), Some(y)) => Some(x + y)
       case _ => None)
    case Shl(a, c) =>
      (match (Eval(a, iota), Eval(c, iota))
       case (Some(x), Some(k)) => if k < 0 then None else Some(x * Pow2(k))
       case _ => None)
  }

  /** The two shapes the program uses: `c + iota` is c plus the line's
      index, and `c << iota` is c times 2^index, so `1 << iota` doubles
      from one line to the next. */
  lemma IotaForms(c: int, i: nat)
    ensures Eval(Plus(Lit(c), IotaValue), i) == Some(c + i)
    ensures Eval(Shl(Lit(c), IotaValue), i) == Some(c * Pow2(i))
    ensures Eval(Shl(Lit(1), IotaValue), i) == Some(Pow2(i))
    ensures Eval(Shl(Lit(1), IotaValue), i + 1).value == 2 * Eval(Shl(Lit(1), IotaValue), i).value
  {
    assert Pow2(i + 1) == 2 * Pow2(i);
  }

  /** The powers the `1 << iota` block reaches. */
  lemma SmallPowers()
    ensures Pow2(0) == 1 && Pow2(1) == 2 && Pow2(2) == 4 && Pow2(3) == 8
  {
  }

  /** Every subexpression of e, e included. */
  function Subterms(e: ConstExpr): (s: set<ConstExpr>)
    ensures e in s
  {
    match e
    case Lit(_) => {e}
    case IotaValue => {e}
    case Plus(a, b) => {e} + Subterms(a) + Subterms(b)
    case Shl(a, c) => {e} + Subterms(a) + Subterms(c)
  }

  /** s is a shift whose count has a value, and that value is negative. */
  predicate NegativeShift(s: ConstExpr, iota: nat)
  {
    s.Shl? && Eval(s.count, iota).Some? && Eval(s.count, iota).value < 0
  }

  /** The only error in evaluating a constant expression is a negative
      shift count: evaluation fails exactly when some shift inside the
      expression has a count that evaluates to a negative number. */
  lemma {:induction false} EvalFailsIffNegativeShift(e: ConstExpr, iota: nat)
    ensures Eval(e, iota).None? <==> exists s :: s in Subterms(e) && NegativeShift(s, iota)
  {
    match e
    case Lit(_) =>
    case IotaValue =>
    case Plus(a, b) =>
      EvalFailsIffNegativeShift(a, iota);
      EvalFailsIffNegativeShift(b, iota);
    case Shl(a, c) =>
      EvalFailsIffNegativeShift(a, iota);
      EvalFailsIffNegativeShift(c, iota);
      if Eval(c, iota).Some? && Eval(c, iota).value < 0 {
        assert NegativeShift(e, iota);
      }
      if Eval(e, iota).Some? {
        forall s | s in Subterms(e)
          ensures !NegativeShift(s, iota)
        {
          if s == e {
            assert Eval(c, iota).value >= 0;
          }
        }
      }
  }

  /** The lines from i on, where `prev` is the expression the previous
      line used. */
  function EvalFrom(specs: seq<ConstSpec>, i: nat, prev: ConstExpr): Option<seq<int>>
    requires i <= |specs|
    decreases |specs| - i
  {
    if i == |specs| then Some([])
    else
      var e := if specs[i].Explicit? then specs[i].e else prev;
      match Eval(e, i)
      case None => None
      case Some(v) =>
        match EvalFrom(specs, i + 1, e)
        case None => None
        case Some(vs) => Some([v] + vs)
  }

  /** A whole const block; its first line must have an expression. */
  function EvalBlock(specs: seq<ConstSpec>): Option<seq<int>>
  {
    if specs == [] then Some([])
    else if specs[0].Omitted? then None
    else EvalFrom(specs, 0, specs[0].e)
  }

  /** The expression that governs line i: its own, or that of the nearest
      line above it that has one. */
  function Governing(specs: seq<ConstSpec>, i: nat): ConstExpr
    requires i < |specs| && specs[0].Explicit?
  {
    if specs[i].Explicit? then specs[i].e else Governing(specs, i - 1)
  }

  /** A block is evaluated line by line: it has a value exactly when its
      first line has an expression and every line's governing expression
      evaluates with that line's iota, and then the value of line i is
      that evaluation. */
  lemma EvalBlockMeaning(specs: seq<ConstSpec>)
    requires specs != []
    ensures EvalBlock(specs).Some? <==>
              specs[0].Explicit? && forall i :: 0 <= i < |specs| ==> Eval(Governing(specs, i), i).Some?
    ensures EvalBlock(specs).Some? ==>
              |EvalBlock(specs).value| == |specs|
              && forall i :: 0 <= i < |specs| ==> EvalBlock(specs).value[i] == Eval(Governing(specs, i), i).value
  {
    if specs[0].Explicit? {
      EvalFromMeaning(specs, 0, specs[0].e);
    }
  }

  lemma {:induction false} EvalFromMeaning(specs: seq<ConstSpec>, i: nat, prev: ConstExpr)
    requires 0 < |specs| && i <= |specs| && specs[0].Explicit?
    requires i == 0 ==> prev == specs[0].e
    requires i > 0 ==> prev == Governing(specs, i - 1)
    ensures EvalFrom(specs, i, prev).Some? <==>
              forall j :: i <= j < |specs| ==> Eval(Governing(specs, j), j).Some?
    ensures EvalFrom(specs, i, prev).Some? ==>
              |EvalFrom(specs, i, prev).value| == |specs| - i
              && forall j :: i <= j < |specs| ==> EvalFrom(specs, i, prev).value[j - i] == Eval(Governing(specs, j), j).value
    decreases |specs| - i
  {
    if i < |specs| {
      var e := if specs[i].Explicit? then specs[i].e else prev;
      assert e == Governing(specs, i);
      EvalFromMeaning(specs, i + 1, e);
    }
  }

  // ---------------------------------------------------------------------
  // The three blocks of the program

  /** `Uncategorized MailCategory = iota` and four bare lines. */
  const MailCategories: seq<ConstSpec> := [Explicit(IotaValue), Omitted, Omitted, Omitted, Omitted]

  /** Field1 .. Field6. */
  const Fields: seq<ConstSpec> :=
    [Explicit(Lit(0)), Explicit(Plus(Lit(1), IotaValue)), Explicit(Lit(20)), Omitted, Omitted, Explicit(IotaValue)]

  /** `Bit1 BitField = 1 << iota` and three bare lines. */
  const Bits: seq<ConstSpec> := [Explicit(Shl(Lit(1), IotaValue)), Omitted, Omitted, Omitted]

  /** iota restarts at 0 and each bare line repeats `iota`: 0 .. 4. */
  lemma MailCategoryValues(specs: seq<ConstSpec>)
    requires specs == MailCategories
    ensures EvalBlock(specs) == Some([0, 1, 2, 3, 4])
  {
    EvalBlockMeaning(specs);
    forall i | 0 <= i < 5 ensures Eval(Governing(specs, i), i) == Some(i) {
      GoverningBareRun(specs, 0, i);
    }
    var v := EvalBlock(specs).value;
    assert v[0] == 0 && v[1] == 1 && v[2] == 2 && v[3] == 3 && v[4] == 4;
    assert v == [0, 1, 2, 3, 4];
  }

  /** One line of the unrolling: line i takes value v and the lines after
      it take vs. */
  lemma EvalFromLine(specs: seq<ConstSpec>, i: nat, prev: ConstExpr, e: ConstExpr, v: int, vs: seq<int>)
    requires i < |specs| && e == (if specs[i].Explicit? then specs[i].e else prev)
    requires Eval(e, i) == Some(v) && EvalFrom(specs, i + 1, e) == Some(vs)
    ensures EvalFrom(specs, i, prev) == Some([v] + vs)
  {
  }

  /** `1 + iota` on line 1 is 2; the bare lines after `20` repeat 20; and
      `iota` on line 5 is 5, because iota counts lines, not expressions. */
  lemma FieldValues(specs: seq<ConstSpec>)
    requires specs == Fields
    ensures EvalBlock(specs) == Some([0, 2, 20, 20, 20, 5])
  {
    FieldsBlock(specs);
  }

  lemma FieldsBlock(specs: seq<ConstSpec>)
    requires |specs| == 6 && specs[0] == Explicit(Lit(0)) && specs[1] == Explicit(Plus(Lit(1), IotaValue))
    requires specs[2] == Explicit(Lit(20)) && specs[3] == Omitted && specs[4] == Omitted
    requires specs[5] == Explicit(IotaValue)
    ensures EvalBlock(specs) == Some([0, 2, 20, 20, 20, 5])
  {
    var one := Plus(Lit(1), IotaValue);
    FieldsFromLine2(specs);
    assert Eval(one, 1) == Some(2);
    EvalFromLine(specs, 1, Lit(0), one, 2, [20, 20, 20, 5]);
    assert [2] + [20, 20, 20, 5] == [2, 20, 20, 20, 5];
    EvalFromLine(specs, 0, Lit(0), Lit(0), 0, [2, 20, 20, 20, 5]);
    assert [0] + [2, 20, 20, 20, 5] == [0, 2, 20, 20, 20, 5];
  }

  /** Lines 2 .. 5 of the Field block. */
  lemma FieldsFromLine2(specs: seq<ConstSpec>)
    requires |specs| == 6 && specs[2] == Explicit(Lit(20)) && specs[3] == Omitted && specs[4] == Omitted
    requires specs[5] == Explicit(IotaValue)
    ensures EvalFrom(specs, 2, Plus(Lit(1), IotaValue)) == Some([20, 20, 20, 5])
  {
    EvalFromLine(specs, 5, Lit(20), IotaValue, 5, []);
    assert [5] + [] == [5];
    EvalFromLine(specs, 4, Lit(20), Lit(20), 20, [5]);
    assert [20] + [5] == [20, 5];
    EvalFromLine(specs, 3, Lit(20), Lit(20), 20, [20, 5]);
    assert [20] + [20, 5] == [20, 20, 5];
    EvalFromLine(specs, 2, Plus(Lit(1), IotaValue), Lit(20), 20, [20, 20, 5]);
    assert [20] + [20, 20, 5] == [20, 20, 20, 5];
  }

  /** `1 << iota` repeated: 1, 2, 4, 8. */
  lemma BitValues(specs: seq<ConstSpec>)
    requires specs == Bits
    ensures EvalBlock(specs) == Some([1, 2, 4, 8])
  {
    EvalBlockMeaning(specs);
    BitsLines(specs);
    SmallPowers();
    var v := EvalBlock(specs).value;
    assert v[0] == 1 && v[1] == 2 && v[2] == 4 && v[3] == 8;
    assert v == [1, 2, 4, 8];
  }

  /** Every line of the block is governed by `1 << iota`, so line i is 2^i. */
  lemma BitsLines(specs: seq<ConstSpec>)
    requires specs == Bits
    ensures forall i :: 0 <= i < 4 ==> Eval(Governing(specs, i), i) == Some(Pow2(i))
  {
    forall i | 0 <= i < 4 ensures Eval(Governing(specs, i), i) == Some(Pow2(i)) {
      GoverningBareRun(specs, 0, i);
      IotaForms(1, i);
    }
  }

  /** Every line of a run of bare lines is governed by the explicit line
      that starts the run. */
  lemma {:induction false} GoverningBareRun(specs: seq<ConstSpec>, start: nat, i: nat)
    requires start <= i < |specs| && specs[0].Explicit? && specs[start].Explicit?
    requires forall j :: start < j <= i ==> specs[j].Omitted?
    ensures Governing(specs, i) == specs[start].e
    decreases i
  {
    if i > start {
      GoverningBareRun(specs, start, i - 1);
    }
  }
}
