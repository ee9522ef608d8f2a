/** The slice programs of chapters 3, 4 and 6, run against the slice model.
    Each method performs the program's steps in order and states, as its
    postcondition, what the program's comments and output promise. */
module SliceExamples {
  import opened Runtime
  import opened Slices

  /** chapter3/examples/3: full slice expressions cap the views y and z, so
      that appending to them moves them to new arrays instead of
      overwriting x, while appending to x writes into its spare slot. */
  method FullSliceAppends()
    returns (x0: seq<string>, capX0: nat, y0: seq<string>, capY0: nat, z0: seq<string>, capZ0: nat,
             x: seq<string>, capX: nat, y: seq<string>, capY: nat, z: seq<string>, capZ: nat,
             ySharesX: bool, zSharesX: bool)
    ensures x0 == ["a", "b", "c", "d"] && capX0 == 5
    ensures y0 == ["a", "b"] && capY0 == 2
    ensures z0 == ["c", "d"] && capZ0 == 2
    ensures x == ["a", "b", "c", "d", "x"] && capX == 5
    ensures y == ["a", "b", "i", "j"] && capY >= 4
    ensures z == ["c", "d", "z"] && capZ >= 3
    ensures !ySharesX && !zSharesX
  {
    x0, capX0, y0, capY0, z0, capZ0, x, capX, y, capY, z, capZ, ySharesX, zSharesX :=
      FullSliceAppendsOf("a", "b", "c", "d", "x", "i", "j", "z", "");
  }

  /** The steps of chapter3/examples/3 for any eight element values and the
      element type's zero value. */
  method FullSliceAppendsOf<T>(a: T, b: T, c: T, d: T, ex: T, i: T, j: T, zed: T, zero: T)
    returns (x0: seq<T>, capX0: nat, y0: seq<T>, capY0: nat, z0: seq<T>, capZ0: nat,
             x: seq<T>, capX: nat, y: seq<T>, capY: nat, z: seq<T>, capZ: nat,
             ySharesX: bool, zSharesX: bool)
    ensures x0 == [a, b, c, d] && capX0 == 5
    ensures y0 == [a, b] && capY0 == 2
    ensures z0 == [c, d] && capZ0 == 2
    ensures x == [a, b, c, d, ex] && capX == 5
    ensures y == [a, b, i, j] && capY >= 4
    ensures z == [c, d, zed] && capZ >= 3
    ensures !ySharesX && !zSharesX
  {
    var made := Make(zero, 0, 5);
    var xs := made.value;
    assert xs.len == 0 && xs.cap == 5;
    xs := Append(xs, [a, b, c, d], zero);
    var ys := SubFull(xs, 0, 2, 2).value;
    var zs := SubFull(xs, 2, 4, 4).value;
    SubFullElements(xs, 0, 2, 2);
    SubFullElements(xs, 2, 4, 4);
    x0, capX0, y0, capY0, z0, capZ0 := Elements(xs), xs.cap, Elements(ys), ys.cap, Elements(zs), zs.cap;

    // len(x) == 4 < cap(x) == 5: written into slot 4 of the shared array
    xs := Append(xs, [ex], zero);
    x := Elements(xs);
    // len(y) == cap(y) == 2: a new array; the shared one is not written
    ys := Append(ys, [i, j], zero);
    ySharesX := ys.data == xs.data;
    // len(z) == cap(z) == 2: a new array as well
    zs := Append(zs, [zed], zero);
    zSharesX := zs.data == xs.data;
    assert Elements(xs) == x;
    capX, y, capY, z, capZ := xs.cap, Elements(ys), ys.cap, Elements(zs), zs.cap;
  }

  /** chapter3/examples/4: copy copies min(len(dst), len(src)) elements and
      leaves the rest of dst, and all of src, as they were. */
  method CopyTruncates()
    returns (x: seq<int>, y: seq<int>, lenY: nat, capY: nat, num: nat,
             a: seq<string>, b: seq<string>, lenB: nat, num2: nat)
    ensures x == [1, 2, 3, 4]
    ensures y == [1, 2] && lenY == 2 && capY == 4 && num == 2
    ensures a == ["a", "b", "c", "d", "f"]
    ensures b == ["c", "d", "f", "", "", "", "", "", "", ""] && lenB == 10 && num2 == 3
  {
    var xs := Literal([1, 2, 3, 4]);
    var made := Make(0, 2, 4);
    var ys := made.value;
    assert Elements(ys) == [0, 0];
    num := Copy(ys, xs);
    x, y, lenY, capY := Elements(xs), Elements(ys), ys.len, ys.cap;

    var as_ := Literal(["a", "b", "c", "d", "f"]);
    var made2 := Make("", 10, 10);
    var bs := made2.value;
    assert Elements(bs) == seq(10, _ => "");
    var tail := Sub(as_, 2, as_.len).value;
    SubElements(as_, 2, as_.len);
    assert Elements(tail) == ["c", "d", "f"];
    num2 := Copy(bs, tail);
    a, b, lenB := Elements(as_), Elements(bs), bs.len;
  }

  /** chapter3/exercises/1: simple slice expressions over one literal are
      overlapping views of the same array, with capacity cap(s) - lo. */
  lemma OverlappingViews(greetings: Slice<string>)
    requires Valid(greetings) && greetings.len == 5 && greetings.cap == 5
    ensures Sub(greetings, 0, 2).Ok? && Sub(greetings, 1, 4).Ok? && Sub(greetings, 3, 5).Ok?
    ensures
      var first2, middle3, last2 := Sub(greetings, 0, 2).value, Sub(greetings, 1, 4).value, Sub(greetings, 3, 5).value;
      && Elements(first2) == Elements(greetings)[..2]
      && Elements(middle3) == Elements(greetings)[1..4]
      && Elements(last2) == Elements(greetings)[3..]
      && first2.cap == 5 && middle3.cap == 4 && last2.cap == 2
      && first2.data == middle3.data && Slot(first2, 1) == Slot(middle3, 0)
  {
    SubElements(greetings, 0, 2);
    SubElements(greetings, 1, 4);
    SubElements(greetings, 3, 5);
  }

  /** chapter6/examples/slices, addValue: the slice header is passed by
      value; the append fits in the spare capacity and so writes into the
      caller's array, but only the local header grows. */
  method AddValue(numbers: Slice<int>) returns (local: Slice<int>)
    requires Valid(numbers)
    modifies numbers.data
    ensures Valid(local) && Elements(local) == old(Elements(numbers)) + [6]
    ensures Elements(numbers) == old(Elements(numbers))
    ensures numbers.len < numbers.cap ==>
              && local.data == numbers.data
              && numbers.data[..] == old(numbers.data[..])[Slot(numbers, numbers.len) := 6]
    ensures numbers.len == numbers.cap ==> fresh(local.data) && numbers.data[..] == old(numbers.data[..])
  {
    local := Append(numbers, [6], 0);
    if numbers.len < numbers.cap {
      assert Elements(local)[numbers.len] == 6;
      OneSlotWritten(old(numbers.data[..]), numbers.data[..], Slot(numbers, numbers.len), 6);
      forall k | 0 <= k < numbers.len
        ensures Elements(numbers)[k] == old(Elements(numbers))[k]
      {
        assert Slot(numbers, k) < Slot(numbers, numbers.len);
      }
    }
  }

  /** A write of one slot: `after` is `before` with slot p set to v. */
  lemma OneSlotWritten<T>(before: seq<T>, after: seq<T>, p: nat, v: T)
    requires |before| == |after| && p < |after| && after[p] == v
    requires forall j :: 0 <= j < |after| && j != p ==> after[j] == before[j]
    ensures after == before[p := v]
  {
  }

  /** chapter6/examples/slices, main. */
  method PassSliceByValue()
    returns (callerElems: seq<int>, callerLen: nat, callerCap: nat, localElems: seq<int>, slot5: int)
    ensures callerElems == [1, 2, 3, 4, 5] && callerLen == 5 && callerCap == 10
    ensures localElems == [1, 2, 3, 4, 5, 6]
    ensures slot5 == 6
  {
    var made := Make(0, 0, 10);
    var numbers := made.value;
    for i := 1 to 6
      invariant Valid(numbers) && fresh(numbers.data)
      invariant numbers.offset == 0 && numbers.len == i - 1 && numbers.cap == 10
      invariant Elements(numbers) == seq(i - 1, j => j + 1)
    {
      numbers := Append(numbers, [i], 0);
    }
    var local := AddValue(numbers);
    callerElems, callerLen, callerCap := Elements(numbers), numbers.len, numbers.cap;
    localElems, slot5 := Elements(local), numbers.data[5];
  }

  /** chapter6/exercises/2, UpdateSlice: an index write through the copied
      header lands in the caller's array. Panics on an empty slice, where
      len - 1 is not an index. */
  method UpdateSlice(strings: Slice<string>, s: string) returns (r: Outcome<()>)
    requires Valid(strings)
    modifies strings.data
    ensures strings.len >= 1 ==>
              && r.Ok? && Elements(strings) == old(Elements(strings))[strings.len - 1 := s]
              && strings.data[..] == old(strings.data[..])[Slot(strings, strings.len - 1) := s]
    ensures strings.len == 0 ==> r == Panic(IndexOutOfRange) && strings.data[..] == old(strings.data[..])
  {
    var size: int := strings.len;
    r := SetIndex(strings, size - 1, s);
  }

  /** chapter6/exercises/2, GrowSlice: the append result is only local; the
      caller's visible elements stay as they were. */
  method GrowSlice(strings: Slice<string>, s: string) returns (local: seq<string>)
    requires Valid(strings)
    modifies strings.data
    ensures local == old(Elements(strings)) + [s]
    ensures Elements(strings) == old(Elements(strings))
    ensures strings.len < strings.cap ==> strings.data[..] == old(strings.data[..])[Slot(strings, strings.len) := s]
    ensures strings.len == strings.cap ==> strings.data[..] == old(strings.data[..])
  {
    var grown := Append(strings, [s], "");
    local := Elements(grown);
    if strings.len < strings.cap {
      assert local[strings.len] == s;
      OneSlotWritten(old(strings.data[..]), strings.data[..], Slot(strings, strings.len), s);
    }
  }

  /** chapter6/exercises/2, main. */
  method PassSliceToFunctions()
    returns (initial: seq<string>, afterUpdate: seq<string>, grownLocal: seq<string>, afterGrow: seq<string>)
    ensures initial == ["Hello", "Gob", "Goodbye"]
    ensures afterUpdate == ["Hello", "Gob", "Potato"]
    ensures grownLocal == ["Hello", "Gob", "Potato", "Tomato"]
    ensures afterGrow == ["Hello", "Gob", "Potato"]
  {
    var strings := Literal(["Hello", "Gob", "Goodbye"]);
    initial := Elements(strings);
    var _ := UpdateSlice(strings, "Potato");
    afterUpdate := Elements(strings);
    grownLocal := GrowSlice(strings, "Tomato");
    afterGrow := Elements(strings);
  }

  /** chapter4/exercises/1and2: ten draws appended to a slice made with
      length 0 and capacity 100. The draws come from a seeded random source
      and are inputs here. */
  method FillNumbers(draws: seq<int>) returns (numbers: seq<int>, len: nat, cap: nat)
    requires |draws| == 10
    ensures numbers == draws && len == 10 && cap == 100
  {
    var made := Make(0, 0, 100);
    var s := made.value;
    for i := 0 to 10
      invariant Valid(s) && fresh(s.data)
      invariant s.len == i && s.cap == 100
      invariant Elements(s) == draws[..i]
    {
      s := Append(s, [draws[i]], 0);
    }
    numbers, len, cap := Elements(s), s.len, s.cap;
  }
}
