/** Go's map[string]int: a reference to a table of entries. A lookup of a
    missing key is not an error: it yields the zero value 0, and the
    two-result form also reports whether the key was present. The rules are
    those of the Go reference, sections "Index expressions", "Deletion of
    map elements" and "Clear". */
module Maps {

  import opened GoInt

  // ---------------------------------------------------------------------
  // The operations on the table of entries, as values

  /** `v, ok := m[k]`. */
  function Lookup(m: map<string, Int64>, k: string): (r: (Int64, bool))
    ensures r.1 <==> k in m
    ensures r.1 ==> r.0 == m[k]
    ensures !r.1 ==> r.0 == 0
  {
    if k in m then (m[k], true) else (0, false)
  }

  /** `m[k] = v`: inserts k or overwrites its value. */
  function Assign(m: map<string, Int64>, k: string, v: Int64): (r: map<string, Int64>)
    ensures r.Keys == m.Keys + {k}
    ensures Lookup(r, k) == (v, true)
    ensures forall j :: j != k ==> Lookup(r, j) == Lookup(m, j)
  {
    m[k := v]
  }

  /** `m[k]++`: read with the zero default, then store one more, with the
      wrap-around of Go's 64-bit `int`. */
  function Incremented(m: map<string, Int64>, k: string): (r: map<string, Int64>)
    ensures r.Keys == m.Keys + {k}
    ensures k in m && m[k] as int < MaxInt64 ==> r[k] as int == m[k] as int + 1
    ensures k in m && m[k] as int == MaxInt64 ==> r[k] as int == MinInt64
    ensures k !in m ==> r[k] == 1
    ensures forall j :: j != k ==> Lookup(r, j) == Lookup(m, j)
  {
    Assign(m, k, AddInt64(Lookup(m, k).0, 1))
  }

  /** `delete(m, k)`: removes k if present; a missing key is no error. */
  function Deleted(m: map<string, Int64>, k: string): (r: map<string, Int64>)
    ensures r.Keys == m.Keys - {k}
    ensures Lookup(r, k) == (0, false)
    ensures forall j :: j != k ==> Lookup(r, j) == Lookup(m, j)
    ensures k in m ==> |r| == |m| - 1
    ensures k !in m ==> r == m
  {
    var r := m - {k};
    assert r.Keys == m.Keys - {k};
    if k in m then
      assert |r.Keys| == |m.Keys| - 1 by {
        assert m.Keys == r.Keys + {k};
      }
      r
    else
      assert r == m;
      r
  }

  /** Storing three distinct keys in an empty map gives three entries, and
      each key reads back its own value. */
  lemma ThreeDistinctKeys(k1: string, v1: Int64, k2: string, v2: Int64, k3: string, v3: Int64)
    requires k1 != k2 && k1 != k3 && k2 != k3
    ensures var m := Assign(Assign(Assign(map[], k1, v1), k2, v2), k3, v3);
            && |m| == 3
            && Lookup(m, k1) == (v1, true) && Lookup(m, k2) == (v2, true) && Lookup(m, k3) == (v3, true)
  {
    var m := Assign(Assign(Assign(map[], k1, v1), k2, v2), k3, v3);
    assert m.Keys == {k1, k2, k3};
    assert |{k1, k2, k3}| == 3 by {
      assert {k1, k2, k3} == {k1} + {k2} + {k3};
    }
  }

  /** Reading a missing key yields 0 and leaves the map as it was; a
      following `m[k]++` stores 1. */
  lemma MissingKeyReadsZero(m: map<string, Int64>, k: string)
    requires k !in m
    ensures Lookup(m, k) == (0, false)
    ensures Lookup(Incremented(m, k), k) == (1, true)
    ensures |Incremented(m, k)| == |m| + 1
  {
    assert Incremented(m, k).Keys == m.Keys + {k};
  }

  /** After `m[k] = v; delete(m, k)` the key reads as missing again, and
      every other key reads as it did before the assignment. */
  lemma AssignThenDelete(m: map<string, Int64>, k: string, v: Int64)
    ensures Lookup(Deleted(Assign(m, k, v), k), k) == (0, false)
    ensures forall j :: j != k ==> Lookup(Deleted(Assign(m, k, v), k), j) == Lookup(m, j)
  {
  }

  // ---------------------------------------------------------------------
  // The map object

  /** A map value in Go is a reference to its table: every copy of it sees
      every change, so the table is an object whose methods update it. */
  class StringIntMap {
    var entries: map<string, Int64>

    /** `make(map[string]int, hint)`: the hint only reserves room. */
    constructor (hint: int)
      ensures entries == map[]
    {
      entries := map[];
    }

    /** `len(m)`. */
    function Len(): nat
      reads this
    {
      |entries|
    }

    /** `m[k]` in an expression: the zero value for a missing key. */
    method Get(k: string) returns (v: Int64)
      ensures k in entries ==> v == entries[k]
      ensures k !in entries ==> v == 0
    {
      v := Lookup(entries, k).0;
    }

    /** `v, ok := m[k]`. */
    method GetOk(k: string) returns (v: Int64, ok: bool)
      ensures (v, ok) == Lookup(entries, k)
    {
      v, ok := Lookup(entries, k).0, Lookup(entries, k).1;
    }

    method Set(k: string, v: Int64)
      modifies this
      ensures entries == Assign(old(entries), k, v)
    {
      entries := entries[k := v];
    }

    /** `m[k]++`. */
    method Increment(k: string)
      modifies this
      ensures entries == Incremented(old(entries), k)
    {
      var v := Get(k);
      entries := entries[k := AddInt64(v, 1)];
    }

    method Delete(k: string)
      modifies this
      ensures entries == Deleted(old(entries), k)
    {
      entries := entries - {k};
    }

    /** `clear(m)`: removes every entry; the map object stays the same. */
    method Clear()
      modifies this
      ensures entries == map[]
    {
      entries := map[];
    }
  }

  /** The contents of `ages` after the three stores, after `ages["Maria"]++`
      and after `delete(ages, "Hanna")`, and what main reads from each. */
  lemma AgesStates(m3: map<string, Int64>, m4: map<string, Int64>, m5: map<string, Int64>)
    requires m3 == Assign(Assign(Assign(map[], "Marco", 30), "Hanna", 29), "Juan", 25)
    requires m4 == Incremented(m3, "Maria") && m5 == Deleted(m4, "Hanna")
    ensures |m3| == 3 && Lookup(m3, "Juan") == (25, true) && Lookup(m3, "Maria") == (0, false)
    ensures Lookup(m4, "Maria") == (1, true) && Lookup(m4, "Ryan") == (0, false)
    ensures |m5| == 3 && Lookup(m5, "Hanna") == (0, false) && Lookup(m5, "Marco") == (30, true)
  {
    assert "Marco" != "Hanna" && "Maria" != "Marco" && "Maria" != "Hanna";
    StoresThenChanges("Marco", "Hanna", "Juan", "Maria", "Ryan", m3, m4, m5);
  }

  /** Three stores of distinct keys, an increment of a fourth key and a
      deletion of the second one, read at a fifth key that is never
      stored. */
  lemma StoresThenChanges(k1: string, k2: string, k3: string, k4: string, k5: string,
                          m3: map<string, Int64>, m4: map<string, Int64>, m5: map<string, Int64>)
    requires k1 != k2 && k1 != k3 && k2 != k3
    requires k4 != k1 && k4 != k2 && k4 != k3
    requires k5 != k1 && k5 != k2 && k5 != k3 && k5 != k4
    requires m3 == Assign(Assign(Assign(map[], k1, 30), k2, 29), k3, 25)
    requires m4 == Incremented(m3, k4) && m5 == Deleted(m4, k2)
    ensures |m3| == 3 && Lookup(m3, k3) == (25, true) && Lookup(m3, k4) == (0, false)
    ensures Lookup(m4, k4) == (1, true) && Lookup(m4, k5) == (0, false)
    ensures |m5| == 3 && Lookup(m5, k2) == (0, false) && Lookup(m5, k1) == (30, true)
  {
    ThreeDistinctKeys(k1, 30, k2, 29, k3, 25);
    assert m3.Keys == {k1, k2, k3};
    MissingKeyReadsZero(m3, k4);
    assert Lookup(m4, k2) == (29, true);
  }

  /** chapter3/examples/maps: the `ages` map through each step of main. */
  method AgesExample()
    returns (len0: nat, len3: nat, juan: Int64, maria0: Int64, maria1: Int64, ryan: (Int64, bool),
             lenAfterDelete: nat, hanna: (Int64, bool), marco: (Int64, bool), lenAfterClear: nat)
    ensures len0 == 0 && len3 == 3
    ensures juan == 25 && maria0 == 0 && maria1 == 1
    ensures ryan == (0, false)
    ensures lenAfterDelete == 3 && hanna == (0, false) && marco == (30, true)
    ensures lenAfterClear == 0
  {
    var ages := new StringIntMap(5);
    len0 := ages.Len();
    ages.Set("Marco", 30);
    ages.Set("Hanna", 29);
    ages.Set("Juan", 25);
    ghost var m3 := ages.entries;
    len3 := ages.Len();
    juan := ages.Get("Juan");
    maria0 := ages.Get("Maria");
    ages.Increment("Maria");
    ghost var m4 := ages.entries;
    maria1 := ages.Get("Maria");
    var v, ok := ages.GetOk("Ryan");
    ryan := (v, ok);
    ages.Delete("Hanna");
    AgesStates(m3, m4, ages.entries);
    lenAfterDelete := ages.Len();
    hanna := Lookup(ages.entries, "Hanna");
    marco := Lookup(ages.entries, "Marco");
    ages.Clear();
    lenAfterClear := ages.Len();
  }
}
