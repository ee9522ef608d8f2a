/** Interface values (chapter7/examples/compare_interfaces, type_assertion and
    nil_interface). An interface value is a pair of a dynamic type and a
    dynamic value, or nil, which has neither. Two interface values are equal
    when both are nil, or when their dynamic types are identical and their
    dynamic values are equal; when the types are identical but not
    comparable, `==` panics. A type assertion `x.(T)` needs the dynamic type
    to be identical to T. The rules are those of the Go reference, sections
    "Interface types", "Comparison operators" and "Type assertions". */
module Interfaces {
  import opened Runtime
  import opened GoInt
  import opened Slices

  /** The types the three programs use. A defined type (`type MyInt int`)
      has a name and an underlying type, and is identical only to itself. */
  datatype GoType =
    | IntType
    | StringType
    | BoolType
    | Named(name: string, underlying: GoType)
    | PointerTo(elem: GoType)
    | SliceOf(elem: GoType)
    | StructOf(fields: seq<GoType>)

  /** Dynamic values. A pointer is the variable it points to, or null for
      the nil pointer; a slice is its header over a shared array. */
  datatype Value =
    | IntVal(i: Int64)
    | StrVal(s: string)
    | BoolVal(b: bool)
    | Pointer(target: object?)
    | NilSlice
    | SliceVal(header: Slice<Int64>)
    | StructVal(fieldValues: seq<Value>)

  /** An interface value: nil, or a dynamic type with a dynamic value. */
  datatype Iface = NilIface | Boxed(dyn: GoType, val: Value)

  /** Slices are not comparable; arrays of them are not modelled, and a
      struct is comparable when all its fields are. */
  predicate Comparable(t: GoType)
  {
    match t
    case SliceOf(_) => false
    case Named(_, u) => Comparable(u)
    case StructOf(fs) => forall i :: 0 <= i < |fs| ==> Comparable(fs[i])
    case _ => true
  }

  /** v is a value of type t. */
  predicate HasType(v: Value, t: GoType)
  {
    match t
    case IntType => v.IntVal?
    case StringType => v.StrVal?
    case BoolType => v.BoolVal?
    case Named(_, u) => HasType(v, u)
    case PointerTo(_) => v.Pointer?
    case SliceOf(e) => e == IntType && (v.NilSlice? || v.SliceVal?)
    case StructOf(fs) =>
      v.StructVal? && |v.fieldValues| == |fs|
      && forall i :: 0 <= i < |fs| ==> HasType(v.fieldValues[i], fs[i])
  }

  /** The slices of the model hold ints: every slice type inside t is
      `[]int`. */
  predicate Supported(t: GoType)
  {
    match t
    case Named(_, u) => Supported(u)
    case PointerTo(e) => Supported(e)
    case SliceOf(e) => e == IntType
    case StructOf(fs) => forall i :: 0 <= i < |fs| ==> Supported(fs[i])
    case _ => true
  }

  /** The zero value of a type: 0, "", false, the nil pointer, the nil
      slice, or a struct of zero values; it is a value of that type. */
  function ZeroValue(t: GoType): (v: Value)
    requires Supported(t)
    ensures HasType(v, t)
    ensures t == IntType ==> v == IntVal(0)
    ensures t == BoolType ==> v == BoolVal(false)
    ensures t.PointerTo? ==> v == Pointer(null)
  {
    match t
    case IntType => IntVal(0)
    case StringType => StrVal("")
    case BoolType => BoolVal(false)
    case Named(_, u) => ZeroValue(u)
    case PointerTo(_) => Pointer(null)
    case SliceOf(_) => NilSlice
    case StructOf(fs) => StructVal(seq(|fs|, i requires 0 <= i < |fs| => ZeroValue(fs[i])))
  }

  /** `x == y` on interface values. */
  function Equal(x: Iface, y: Iface): (r: Outcome<bool>)
    ensures r.Panic? <==> x.Boxed? && y.Boxed? && x.dyn == y.dyn && !Comparable(x.dyn)
    ensures r.Panic? ==> r.error == IncomparableTypes
    ensures r == Ok(true) <==> x == y && (x.Boxed? ==> Comparable(x.dyn))
  {
    match (x, y)
    case (NilIface, NilIface) => Ok(true)
    case (Boxed(t, v), Boxed(u, w)) =>
      if t != u then Ok(false)
      else if !Comparable(t) then Panic(IncomparableTypes)
      else Ok(v == w)
    case _ => Ok(false)
  }

  // ---------------------------------------------------------------------
  // compare_interfaces

  /** `type DoubleInt int`, as a variable whose address is taken. */
  class DoubleInt {
    var value: Int64

    constructor (v: Int64)
      ensures value == v
    {
      value := v;
    }

    /** `func (d *DoubleInt) Double()`: doubles the variable in place, with
        the wrap-around of Go's int. */
    method Double()
      modifies this
      ensures value == MulInt64(old(value), 2)
      ensures InInt64(2 * old(value) as int) ==> value as int == 2 * old(value) as int
    {
      value := MulInt64(value, 2);
    }
  }

  /** A variable of type DoubleIntSlice, whose address `&diSlice` is taken. */
  class SliceVar {
    var header: Slice<Int64>

    constructor (s: Slice<Int64>)
      ensures header == s
    {
      header := s;
    }
  }

  /** `func (dis DoubleIntSlice) Double()`: the receiver is a copy of the
      header, but it shares the caller's array, so every element the caller
      sees is doubled in place; nothing outside the slice's window changes. */
  method DoubleSlice(dis: Slice<Int64>)
    requires Valid(dis)
    modifies dis.data
    ensures |Elements(dis)| == |old(Elements(dis))|
    ensures forall i :: 0 <= i < dis.len ==> Elements(dis)[i] == MulInt64(old(Elements(dis))[i], 2)
    ensures forall j :: 0 <= j < dis.data.Length && !(dis.offset <= j < dis.offset + dis.len) ==>
              dis.data[j] == old(dis.data[j])
  {
    ghost var before := Elements(dis);
    for i := 0 to dis.len
      invariant forall k :: 0 <= k < i ==> Elements(dis)[k] == MulInt64(before[k], 2)
      invariant forall k :: i <= k < dis.len ==> Elements(dis)[k] == before[k]
      invariant forall j :: 0 <= j < dis.data.Length && !(dis.offset <= j < dis.offset + i) ==>
                  dis.data[j] == old(dis.data[j])
    {
      dis.data[dis.offset + i] := MulInt64(dis.data[dis.offset + i], 2);
    }
  }

  const DoubleIntT: GoType := Named("DoubleInt", IntType)
  const DoubleIntSliceT: GoType := Named("DoubleIntSlice", SliceOf(IntType))

  /** Pointers are comparable whatever they point to, so two interfaces
      holding pointers of the same type are equal exactly when the pointers
      are: pointers to two distinct variables compare unequal. */
  lemma PointerComparison(t: GoType, p: object, q: object)
    ensures Equal(Boxed(PointerTo(t), Pointer(p)), Boxed(PointerTo(t), Pointer(q))) == Ok(p == q)
  {
  }

  /** Interfaces with different dynamic types are unequal and never panic,
      even when the types are not comparable. */
  lemma DifferentTypes(t: GoType, v: Value, u: GoType, w: Value)
    requires t != u
    ensures Equal(Boxed(t, v), Boxed(u, w)) == Ok(false)
  {
  }

  /** A defined type is comparable exactly when its underlying type is:
      DoubleInt is, DoubleIntSlice is not. */
  lemma SampleComparability()
    ensures Comparable(DoubleIntT) && Comparable(PointerTo(DoubleIntSliceT))
    ensures !Comparable(DoubleIntSliceT)
  {
  }

  /** `main`: three comparisons print false, the fourth panics. */
  method CompareMain() returns (printed: seq<bool>, failure: RuntimeError)
    ensures printed == [false, false, false] && failure == IncomparableTypes
  {
    var di := new DoubleInt(14);
    var di2 := new DoubleInt(41);
    var s1 := Literal([1, 2, 3]);
    var s2 := Literal([4, 5, 6]);
    var diSlice := new SliceVar(s1);
    var diSlice2 := new SliceVar(s2);
    var r1 := Equal(Boxed(PointerTo(DoubleIntT), Pointer(di)), Boxed(PointerTo(DoubleIntT), Pointer(di2)));
    var r2 := Equal(Boxed(PointerTo(DoubleIntSliceT), Pointer(diSlice)),
                    Boxed(PointerTo(DoubleIntSliceT), Pointer(diSlice2)));
    var r3 := Equal(Boxed(PointerTo(DoubleIntT), Pointer(di)), Boxed(DoubleIntSliceT, SliceVal(diSlice.header)));
    var r4 := Equal(Boxed(DoubleIntSliceT, SliceVal(diSlice.header)), Boxed(DoubleIntSliceT, SliceVal(diSlice2.header)));
    printed := [r1.value, r2.value, r3.value];
    failure := r4.error;
  }

  /** The slice's Double through a copied header: the caller's {1, 2, 3}
      becomes {2, 4, 6}. */
  method DoubleSliceDemo() returns (after: seq<Int64>)
    ensures after == [2, 4, 6]
  {
    var s := Literal([1, 2, 3]);
    DoubleSlice(s);
    after := Elements(s);
    assert after[0] == 2 && after[1] == 4 && after[2] == 6;
  }

  // ---------------------------------------------------------------------
  // type_assertion

  /** `x.(T)`: the dynamic value when the dynamic type is identical to T,
      and a panic otherwise (including when x is nil). */
  function Assert(x: Iface, t: GoType): (r: Outcome<Value>)
    ensures r.Ok? <==> x.Boxed? && x.dyn == t
    ensures r.Ok? ==> r.value == x.val
    ensures r.Panic? ==> r.error == TypeAssertionFailed
  {
    if x.Boxed? && x.dyn == t then Ok(x.val) else Panic(TypeAssertionFailed)
  }

  /** `v, ok := x.(T)`: never panics; it gives the value and true exactly
      when the single-value form succeeds, and T's zero value and false
      exactly when that form would panic. */
  function AssertOk(x: Iface, t: GoType): (r: (Value, bool))
    requires Supported(t)
    ensures r.1 <==> Assert(x, t).Ok?
    ensures r.1 ==> r.0 == Assert(x, t).value
    ensures !r.1 ==> r.0 == ZeroValue(t)
  {
    match Assert(x, t)
    case Ok(v) => (v, true)
    case Panic(_) => (ZeroValue(t), false)
  }

  /** Identical types are required: a value of a defined type does not
      assert to its underlying type. */
  lemma NamedIsNotUnderlying(name: string, u: GoType, v: Value)
    ensures Assert(Boxed(Named(name, u), v), u).Panic?
  {
    assert Named(name, u) != u;
  }

  const MyIntT: GoType := Named("MyInt", IntType)

  /** `main`: `a.(MyInt)` gives 100, so `b + 20` is 120; `a.(string)` and
      `a.(int)` would panic; `a.(bool)` in the comma-ok form gives false,
      false. */
  method TypeAssertionMain() returns (sum: Int64, asString: Outcome<Value>, asInt: Outcome<Value>,
                                      e: Value, ok: bool)
    ensures sum == 120
    ensures asString == Panic(TypeAssertionFailed) && asInt == Panic(TypeAssertionFailed)
    ensures e == BoolVal(false) && !ok
  {
    var mi: Int64 := 100;
    var a := Boxed(MyIntT, IntVal(mi));
    var b := Assert(a, MyIntT);
    sum := AddInt64(b.value.i, 20);
    asString := Assert(a, StringType);
    asInt := Assert(a, IntType);
    e, ok := AssertOk(a, BoolType).0, AssertOk(a, BoolType).1;
  }

  // ---------------------------------------------------------------------
  // nil_interface

  /** `x == nil`: never panics, and holds exactly when x has no dynamic
      type, whatever the dynamic value; a typed nil pointer is not a nil
      interface. */
  lemma NilComparison(x: Iface)
    ensures Equal(x, NilIface) == Ok(x.NilIface?)
  {
  }

  const SomethingT: GoType := Named("Something", StructOf([IntType]))

  /** `main`: the zero interface is nil, the zero `*Something` is nil, and
      the interface holding that nil pointer is not. */
  method NilInterfaceMain() returns (wNil: bool, sNil: bool, wNilAfter: bool)
    ensures wNil && sNil && !wNilAfter
  {
    var w := NilIface;
    wNil := Equal(w, NilIface).value;
    var s := ZeroValue(PointerTo(SomethingT));
    sNil := s == Pointer(null);
    w := Boxed(PointerTo(SomethingT), s);
    wNilAfter := Equal(w, NilIface).value;
  }
}
