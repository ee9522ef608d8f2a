/** Go slices: a header (offset, length, capacity) over a backing array that
    several slices may share. Slice expressions build new headers over the
    same array; `append` writes into the shared array while the result fits
    in the capacity and otherwise moves the elements to a new array; `copy`
    and index assignment write through the header into the shared array.
    The rules are those of the Go reference, sections "Slice types",
    "Slice expressions", "Index expressions", "Making slices, maps and
    channels" and "Appending to and copying slices". */
module Slices {
  import opened Runtime

  /** A slice value. `data` is the backing array; the slice sees
      data[offset .. offset + len] and may grow in place up to
      data[offset .. offset + cap]. */
  datatype Slice<T> = Slice(data: array<T>, offset: nat, len: nat, cap: nat)

  /** 0 <= len <= cap and the capacity lies inside the backing array. */
  predicate Valid<T>(s: Slice<T>)
  {
    s.len <= s.cap && s.offset + s.cap <= s.data.Length
  }

  /** The elements s[0], ..., s[len(s) - 1]. */
  function Elements<T>(s: Slice<T>): seq<T>
    requires Valid(s)
    reads s.data
  {
    s.data[s.offset .. s.offset + s.len]
  }

  /** The index in the backing array that holds s[i]. */
  function Slot<T>(s: Slice<T>, i: nat): nat
  {
    s.offset + i
  }

  function Min(a: nat, b: nat): nat
  {
    if a <= b then a else b
  }

  // ---------------------------------------------------------------------
  // Creating slices

  /** `make([]T, len, cap)`: a new zero-filled array of `cap` elements, of
      which the first `len` are visible. Panics when len < 0 or len > cap. */
  method Make<T>(zero: T, len: int, cap: int) returns (r: Outcome<Slice<T>>)
    ensures len < 0 ==> r == Panic(MakeLenOutOfRange)
    ensures 0 <= len && cap < len ==> r == Panic(MakeCapOutOfRange)
    ensures 0 <= len <= cap ==>
              && r.Ok? && Valid(r.value) && fresh(r.value.data)
              && r.value.offset == 0 && r.value.len == len && r.value.cap == cap
              && r.value.data[..] == seq(cap, _ => zero)
  {
    if len < 0 {
      return Panic(MakeLenOutOfRange);
    }
    if cap < len {
      return Panic(MakeCapOutOfRange);
    }
    var a := new T[cap](_ => zero);
    r := Ok(Slice(a, 0, len, cap));
  }

  /** A composite literal `[]T{e0, e1, ...}`: a new array holding exactly
      the listed elements, with len == cap. */
  method Literal<T>(elems: seq<T>) returns (s: Slice<T>)
    ensures Valid(s) && fresh(s.data)
    ensures s.offset == 0 && s.len == |elems| && s.cap == |elems|
    ensures Elements(s) == elems
  {
    var a := new T[|elems|](i requires 0 <= i < |elems| => elems[i]);
    s := Slice(a, 0, |elems|, |elems|);
  }

  // ---------------------------------------------------------------------
  // Slice expressions

  /** The simple slice expression `s[lo:hi]`. For a slice the upper bound
      may reach cap(s), not only len(s); the result shares s's array and
      keeps the capacity from lo to the end of s's capacity. */
  function Sub<T>(s: Slice<T>, lo: int, hi: int): (r: Outcome<Slice<T>>)
    requires Valid(s)
    ensures r.Ok? <==> 0 <= lo <= hi <= s.cap
    ensures r.Panic? ==> r.error == SliceBoundsOutOfRange
    ensures r.Ok? ==>
              && Valid(r.value) && r.value.data == s.data
              && r.value.len == hi - lo && r.value.cap == s.cap - lo
              && forall i: nat :: i <= r.value.cap ==> Slot(r.value, i) == Slot(s, lo + i)
  {
    if 0 <= lo <= hi <= s.cap then
      Ok(Slice(s.data, s.offset + lo, hi - lo, s.cap - lo))
    else
      Panic(SliceBoundsOutOfRange)
  }

  /** The full slice expression `s[lo:hi:max]`: as Sub, but the capacity of
      the result is cut down to max - lo. */
  function SubFull<T>(s: Slice<T>, lo: int, hi: int, max: int): (r: Outcome<Slice<T>>)
    requires Valid(s)
    ensures r.Ok? <==> 0 <= lo <= hi <= max <= s.cap
    ensures r.Panic? ==> r.error == SliceBoundsOutOfRange
    ensures r.Ok? ==>
              && Valid(r.value) && r.value.data == s.data
              && r.value.len == hi - lo && r.value.cap == max - lo
              && forall i: nat :: i <= r.value.cap ==> Slot(r.value, i) == Slot(s, lo + i)
  {
    if 0 <= lo <= hi <= max <= s.cap then
      Ok(Slice(s.data, s.offset + lo, hi - lo, max - lo))
    else
      Panic(SliceBoundsOutOfRange)
  }

  /** A view taken within the length of s holds exactly s's elements lo .. hi. */
  lemma SubElements<T>(s: Slice<T>, lo: int, hi: int)
    requires Valid(s) && 0 <= lo <= hi <= s.len
    ensures Sub(s, lo, hi).Ok? && Elements(Sub(s, lo, hi).value) == Elements(s)[lo..hi]
  {
  }

  /** A view that reaches past len(s) (hi up to cap(s)) exposes the array
      slots beyond s's length: slicing never copies. */
  lemma SubBeyondLength<T>(s: Slice<T>, lo: int, hi: int)
    requires Valid(s) && 0 <= lo <= hi <= s.cap
    ensures Sub(s, lo, hi).Ok?
    ensures Elements(Sub(s, lo, hi).value) == s.data[s.offset + lo .. s.offset + hi]
  {
  }

  lemma SubFullElements<T>(s: Slice<T>, lo: int, hi: int, max: int)
    requires Valid(s) && 0 <= lo <= hi <= s.len && hi <= max <= s.cap
    ensures SubFull(s, lo, hi, max).Ok?
    ensures Elements(SubFull(s, lo, hi, max).value) == Elements(s)[lo..hi]
  {
  }

  // ---------------------------------------------------------------------
  // Index expressions

  /** `s[i]`: the element at i, or a panic when i is outside [0, len(s)). */
  function Get<T>(s: Slice<T>, i: int): (r: Outcome<T>)
    requires Valid(s)
    reads s.data
    ensures r.Ok? <==> 0 <= i < s.len
    ensures r.Ok? ==> r.value == Elements(s)[i]
    ensures r.Panic? ==> r.error == IndexOutOfRange
  {
    if 0 <= i < s.len then Ok(s.data[s.offset + i]) else Panic(IndexOutOfRange)
  }

  /** `s[i] = v`: writes the shared array slot of s[i]; every slice that
      sees that slot sees v. Panics when i is outside [0, len(s)). */
  method SetIndex<T>(s: Slice<T>, i: int, v: T) returns (r: Outcome<()>)
    requires Valid(s)
    modifies s.data
    ensures r.Ok? <==> 0 <= i < s.len
    ensures r.Ok? ==> s.data[..] == old(s.data[..])[Slot(s, i) := v]
    ensures r.Ok? ==> Elements(s) == old(Elements(s))[i := v]
    ensures r.Panic? ==> r.error == IndexOutOfRange && s.data[..] == old(s.data[..])
  {
    if 0 <= i < s.len {
      s.data[s.offset + i] := v;
      r := Ok(());
    } else {
      r := Panic(IndexOutOfRange);
    }
  }

  // ---------------------------------------------------------------------
  // append and copy

  /** The capacity the runtime chooses when `needed` elements no longer fit
      in `oldCap`: the needed length if that is more than double the old
      capacity, double the old capacity while it is small, and otherwise
      growth by about a quarter until the needed length fits. The Go
      reference fixes none of this; the model relies only on c >= needed. */
  function GrowCap(oldCap: nat, needed: nat): (c: nat)
    ensures c >= needed
  {
    if needed > 2 * oldCap then needed
    else if oldCap < 256 then 2 * oldCap
    else GrowByQuarter(oldCap, needed)
  }

  function GrowByQuarter(c: nat, needed: nat): (r: nat)
    requires c > 0
    ensures r >= needed
    decreases needed - c
  {
    if c >= needed then c else GrowByQuarter(c + (c + 3 * 256) / 4, needed)
  }

  /** `append(s, items...)`. When len(s) + |items| <= cap(s) the items are
      written into s's array right after its visible elements, and the
      result shares that array, offset and capacity; nothing else in the
      array changes. Otherwise a new zero-filled array of capacity at least
      len(s) + |items| receives s's elements followed by the items, and s's
      array is left untouched. Either way the result's elements are s's
      elements followed by the items. */
  method Append<T>(s: Slice<T>, items: seq<T>, zero: T) returns (r: Slice<T>)
    requires Valid(s)
    modifies s.data
    ensures Valid(r) && r.len == s.len + |items|
    ensures Elements(r) == old(Elements(s)) + items
    ensures s.len + |items| <= s.cap ==>
              && r == Slice(s.data, s.offset, s.len + |items|, s.cap)
              && forall j :: 0 <= j < s.data.Length && !(Slot(s, s.len) <= j < Slot(s, s.len) + |items|) ==>
                               s.data[j] == old(s.data[j])
    ensures s.len + |items| > s.cap ==>
              && fresh(r.data) && r.offset == 0 && r.cap >= r.len
              && r.data[r.len .. r.cap] == seq(r.cap - r.len, _ => zero)
              && s.data[..] == old(s.data[..])
  {
    var n := s.len + |items|;
    if n <= s.cap {
      var base := s.offset + s.len;
      forall j | base <= j < base + |items| {
        s.data[j] := items[j - base];
      }
      r := Slice(s.data, s.offset, n, s.cap);
      assert Elements(r) == old(Elements(s)) + items;
    } else {
      var contents := Elements(s) + items;
      assert |contents| == n;
      var newCap := GrowCap(s.cap, n);
      var a := new T[newCap]((i: nat) => if i < |contents| then contents[i] else zero);
      r := Slice(a, 0, n, newCap);
      assert Elements(r) == contents;
    }
  }

  /** `copy(dst, src)`: copies min(len(dst), len(src)) elements of src into
      the first slots of dst and returns that count. Neither header changes
      and no array is allocated; the slots of dst's array past the count
      keep their values. Overlapping src and dst behave as if src were
      read in full before dst is written. */
  method Copy<T>(dst: Slice<T>, src: Slice<T>) returns (n: nat)
    requires Valid(dst) && Valid(src)
    modifies dst.data
    ensures n == Min(dst.len, src.len)
    ensures Elements(dst) == old(Elements(src))[..n] + old(Elements(dst))[n..]
    ensures forall j :: 0 <= j < dst.data.Length && !(dst.offset <= j < dst.offset + n) ==>
                          dst.data[j] == old(dst.data[j])
  {
    n := Min(dst.len, src.len);
    var from := src.data[src.offset .. src.offset + n];
    forall j | dst.offset <= j < dst.offset + n {
      dst.data[j] := from[j - dst.offset];
    }
    ghost var want := old(Elements(src))[..n] + old(Elements(dst))[n..];
    forall k | 0 <= k < dst.len
      ensures Elements(dst)[k] == want[k]
    {
      if k < n {
        assert dst.data[dst.offset + k] == from[k];
      } else {
        assert dst.data[dst.offset + k] == old(dst.data[dst.offset + k]);
      }
    }
  }
}
