/** Value and pointer receivers (chapter7/examples/receivers and
    method_values_expressions). A `Counter` struct is a value: assigning it
    or passing it to a function copies it. A variable of type Counter lives
    at an address; `Increment` has a pointer receiver and changes the
    variable it is given the address of, while `String` has a value
    receiver and reads a copy. Method values and method expressions are
    other ways to reach the same two methods. */
module Receivers {
  import opened Runtime
  import opened GoInt
  import opened Strconv

  /** The struct value. Its `lastUpdated` field, set from the wall clock,
      is not part of this model. */
  datatype Counter = Counter(total: Int64)

  /** A variable of type Counter: the thing `&c` points to. */
  class CounterVar {
    var value: Counter

    /** `var c Counter`: the zero value. */
    constructor ()
      ensures value == Counter(0)
    {
      value := Counter(0);
    }

    /** `func (c *Counter) Increment()`: adds one to the total of the
        variable the receiver points to (with the wrap-around of Go's int)
        and changes nothing else. */
    method Increment()
      modifies this
      ensures value == Incremented(old(value))
    {
      value := value.(total := AddInt64(value.total, 1));
    }
  }

  /** The counter that Increment leaves behind: the total goes up by one. */
  function Incremented(c: Counter): (d: Counter)
    ensures c.total as int < MaxInt64 ==> d.total as int == c.total as int + 1
    ensures c.total as int == MaxInt64 ==> d.total as int == MinInt64
  {
    Counter(AddInt64(c.total, 1))
  }

  /** `func (c Counter) String() string`: reads a copy; the text starts with
      "total: " followed by the total in decimal, which reads back as the
      total. */
  function String(c: Counter): (s: string)
    ensures |s| > 7 && s[..7] == "total: "
    ensures Atoi(s[7..]) == Some(c.total)
  {
    AtoiItoa(c.total);
    var s := "total: " + Itoa(c.total as int);
    assert s[7..] == Itoa(c.total as int);
    s
  }

  /** `doUpdateWrong(c Counter)`: increments its own copy, which it shows;
      the caller's variable is not reachable from here, so it keeps its
      total. */
  method DoUpdateWrong(c: Counter) returns (shown: string)
    ensures shown == String(Incremented(c))
  {
    var copy := new CounterVar();
    copy.value := c;
    copy.Increment();
    shown := String(copy.value);
  }

  /** `doUpdateRight(c *Counter)`: increments the caller's variable. */
  method DoUpdateRight(p: CounterVar) returns (shown: string)
    modifies p
    ensures p.value == Incremented(old(p.value))
    ensures shown == String(p.value)
  {
    p.Increment();
    shown := String(p.value);
  }

  /** `main` of receivers: the totals the six printed lines show are 0, 1,
      then 2 inside doUpdateWrong but 1 back in main, then 2 inside
      doUpdateRight and 2 in main. */
  method ReceiversMain() returns (shown: seq<string>)
    ensures shown == [String(Counter(0)), String(Counter(1)), String(Counter(2)),
                      String(Counter(1)), String(Counter(2)), String(Counter(2))]
  {
    var c := new CounterVar();
    var line0 := String(c.value);
    c.Increment();
    var line1 := String(c.value);
    var line2 := DoUpdateWrong(c.value);
    var line3 := String(c.value);
    var line4 := DoUpdateRight(c);
    var line5 := String(c.value);
    shown := [line0, line1, line2, line3, line4, line5];
  }

  // ---------------------------------------------------------------------
  // method_values_expressions

  /** `func (c Counter) String() string` of method_values_expressions: the
      total in decimal, then ", " (and then the time, which is not part of
      this model); the part before ", " reads back as the total. */
  function ShortString(c: Counter): (s: string)
    ensures |s| >= 3 && s[|s| - 2..] == ", "
    ensures Atoi(s[..|s| - 2]) == Some(c.total)
  {
    AtoiItoa(c.total);
    var s := Itoa(c.total as int) + ", ";
    assert s[..|s| - 2] == Itoa(c.total as int);
    s
  }

  /** The method value `c.Increment`: Increment bound to the address of c. */
  datatype BoundIncrement = BoundIncrement(receiver: CounterVar)

  /** Calling a method value `f1()` increments the variable it was bound
      to. */
  method CallBound(f: BoundIncrement)
    modifies f.receiver
    ensures f.receiver.value == Incremented(old(f.receiver.value))
  {
    f.receiver.Increment();
  }

  /** `main` of method_values_expressions: `f1()` raises c's total to 1,
      which `fmt.Println(c)` shows through String, `(*Counter).Increment`
      applied to `&c` raises it to 2, and the method expression
      `Counter.String` takes a copy and leaves it at 2. */
  method MethodValuesMain() returns (afterF1: Int64, printed: string, afterF2: Int64, shown: string, afterF3: Int64)
    ensures afterF1 == 1 && afterF2 == 2 && afterF3 == 2
    ensures printed == ShortString(Counter(1))
    ensures shown == ShortString(Counter(2))
  {
    var c := new CounterVar();
    var f1 := BoundIncrement(c);
    CallBound(f1);
    afterF1 := c.value.total;
    printed := ShortString(c.value);
    // `f2 := (*Counter).Increment; f2(&c)`: the method expression takes
    // the receiver as its first argument.
    c.Increment();
    afterF2 := c.value.total;
    var f3 := ShortString;
    shown := f3(c.value);
    afterF3 := c.value.total;
  }
}
