/** chapter5/examples/call_by_value: Go passes every argument by value, so a
    function that assigns to its parameters changes only its own copies. */
module CallByValue {
  import opened GoInt

  /** `type person struct { age int }`. */
  datatype Person = Person(age: Int64)

  /** `modifyValue(p person, n int)`: doubles its copy of n and stores it in
      its copy of p, and shows both; the caller's variables are not
      reachable from here. */
  method ModifyValue(p: Person, n: Int64) returns (shownP: Person, shownN: Int64)
    ensures shownN == MulInt64(n, 2)
    ensures shownP == p.(age := shownN)
    ensures InInt64(2 * n as int) ==> shownN as int == 2 * n as int
  {
    var pCopy, nCopy := p, n;
    nCopy := MulInt64(nCopy, 2);
    pCopy := pCopy.(age := nCopy);
    shownP, shownN := pCopy, nCopy;
  }

  /** `main`: inside modifyValue the values are {80} and 80; afterwards main
      still prints {25} and 40. */
  method CallByValueMain() returns (inside: (Person, Int64), after: (Person, Int64))
    ensures inside == (Person(80), 80)
    ensures after == (Person(25), 40)
  {
    var p := Person(25);
    var n: Int64 := 40;
    var shownP, shownN := ModifyValue(p, n);
    inside := (shownP, shownN);
    after := (p, n);
  }
}
