/** Go's integer arithmetic where it differs from Dafny's mathematical
    integers: division and remainder truncate toward zero, and the sized
    integer types wrap around on overflow instead of growing. */
module GoInt {

  function Abs(x: int): nat
  {
    if x < 0 then -x else x
  }

  /** Go's `x / y` on integers: the quotient truncated toward zero. */
  function Quo(x: int, y: int): int
    requires y != 0
  {
    if (x < 0) == (y < 0) then Abs(x) / Abs(y) else -(Abs(x) / Abs(y))
  }

  /** Go's `x % y` on integers: the remainder that takes the sign of the dividend. */
  function Rem(x: int, y: int): int
    requires y != 0
  {
    if x < 0 then -(Abs(x) % Abs(y)) else Abs(x) % Abs(y)
  }

  /** The rule of the Go reference's "Arithmetic operators": q = x / y and
      r = x % y satisfy x == q * y + r with |r| < |y|, q truncated toward
      zero, so that r is zero or has the sign of x. */
  lemma QuoRemLaw(x: int, y: int)
    requires y != 0
    ensures x == Quo(x, y) * y + Rem(x, y)
    ensures Abs(Rem(x, y)) < Abs(y)
    ensures Rem(x, y) == 0 || (Rem(x, y) < 0 <==> x < 0)
    ensures Abs(Quo(x, y)) * Abs(y) <= Abs(x)
  {
    var a, b := Abs(x), Abs(y);
    EuclidNonNegative(a, b);
    SignedParts(x, y, a / b, a % b, Quo(x, y), Rem(x, y));
  }

  /** The truncated law from the unsigned one: if |x| == q * |y| + r then x
      is (+-q) * y + (+-r), with the signs of the sign rule. */
  lemma SignedParts(x: int, y: int, q: int, r: int, qs: int, rs: int)
    requires y != 0 && Abs(x) == q * Abs(y) + r && 0 <= r < Abs(y) && 0 <= q
    requires qs == (if (x < 0) == (y < 0) then q else -q) && rs == (if x < 0 then -r else r)
    ensures x == qs * y + rs
    ensures Abs(rs) < Abs(y)
    ensures rs == 0 || (rs < 0 <==> x < 0)
    ensures Abs(qs) * Abs(y) <= Abs(x)
  {
    assert Abs(qs) == q && Abs(rs) == r;
    NegMul(q, y);
    if y < 0 {
      NegMul(q, -y);
    }
  }

  /** For a >= 0 and b > 0, Dafny's a / b and a % b are the truncated ones. */
  lemma EuclidNonNegative(a: nat, b: nat)
    requires b > 0
    ensures a == (a / b) * b + a % b && 0 <= a % b < b && a / b >= 0
  {
  }

  lemma NegMul(q: int, y: int)
    ensures (-q) * y == -(q * y) && q * (-y) == -(q * y)
  {
  }

  /** The three conditions of QuoRemLaw determine the quotient and the
      remainder: Quo and Rem are the only pair that meets them. */
  lemma QuoRemUnique(x: int, y: int, q: int, r: int)
    requires y != 0
    requires x == q * y + r
    requires Abs(r) < Abs(y)
    requires r == 0 || (r < 0 <==> x < 0)
    ensures q == Quo(x, y) && r == Rem(x, y)
  {
    QuoRemLaw(x, y);
    var q0, r0 := Quo(x, y), Rem(x, y);
    var d := q - q0;
    SubMul(q, q0, y);
    assert d * y == r0 - r;
    if d != 0 {
      MulAbsAtLeast(d, y);
      assert false;
    }
  }

  lemma SubMul(q: int, q0: int, y: int)
    ensures (q - q0) * y == q * y - q0 * y
  {
  }

  lemma MulAbsAtLeast(d: int, y: int)
    requires d != 0 && y != 0
    ensures Abs(d * y) >= Abs(y)
  {
    var e, b := Abs(d), Abs(y);
    AbsMul(d, y);
    assert e * b == (e - 1) * b + b;
    MulNonNegative(e - 1, b);
  }

  lemma MulNonNegative(a: nat, b: nat)
    ensures a * b >= 0
  {
  }

  lemma AbsMul(k: int, y: int)
    ensures Abs(k * y) == Abs(k) * Abs(y)
  {
    NegMul(k, y);
    NegMul(-k, y);
    NegMul(k, -y);
    MulNonNegative(Abs(k), Abs(y));
  }

  /** Whether the remainder is zero does not depend on the rounding:
      Go's `x % y == 0` and Dafny's Euclidean `x % y == 0` agree. */
  lemma RemZeroIff(x: int, y: int)
    requires y != 0
    ensures Rem(x, y) == 0 <==> x % y == 0
  {
    if Rem(x, y) == 0 {
      RemZeroEuclid(x, y);
    }
    if x % y == 0 {
      EuclidRemZero(x, y);
    }
  }

  lemma RemZeroEuclid(x: int, y: int)
    requires y != 0 && Rem(x, y) == 0
    ensures x % y == 0
  {
    QuoRemLaw(x, y);
    MultipleRem(x, y, Quo(x, y));
  }

  lemma EuclidRemZero(x: int, y: int)
    requires y != 0 && x % y == 0
    ensures Rem(x, y) == 0
  {
    var k := x / y;
    assert x == k * y;
    QuoRemUnique(x, y, k, 0);
  }

  lemma MultipleRem(x: int, y: int, k: int)
    requires y != 0 && x == k * y
    ensures x % y == 0
  {
    var q, r := x / y, x % y;
    assert x == q * y + r && 0 <= r < Abs(y);
    SubMul(k, q, y);
    assert (k - q) * y == r;
    if k != q {
      MulAbsAtLeast(k - q, y);
      assert false;
    }
  }

  // ---------------------------------------------------------------------
  // Fixed-width integer types

  newtype Uint8 = x: int | 0 <= x < 0x100
  newtype Int32 = x: int | -0x8000_0000 <= x < 0x8000_0000
  newtype Uint64 = x: int | 0 <= x < 0x1_0000_0000_0000_0000
  /** Go's int on a 64-bit platform. */
  newtype Int64 = x: int | -0x8000_0000_0000_0000 <= x < 0x8000_0000_0000_0000

  const MinInt64: int := -0x8000_0000_0000_0000
  const MaxInt64: int := -MinInt64 - 1
  const Two64: int := 0x1_0000_0000_0000_0000

  predicate InInt64(x: int)
  {
    MinInt64 <= x < -MinInt64
  }

  /** Reduces x modulo m into [0, m): unsigned arithmetic on an n-bit type, m == 2^n. */
  function WrapUnsigned(x: int, m: int): (r: int)
    requires m > 0
    ensures 0 <= r < m
    ensures 0 <= x < m ==> r == x
    ensures m <= x < 2 * m ==> r == x - m
    ensures -m <= x < 0 ==> r == x + m
    ensures (x - r) % m == 0
  {
    EuclidRanges(x, m);
    x % m
  }

  /** Dafny's x % m for m > 0, near 0: x itself in [0, m), x - m in
      [m, 2m), x + m in [-m, 0); and x - x % m is a multiple of m. */
  lemma EuclidRanges(x: int, m: int)
    requires m > 0
    ensures 0 <= x < m ==> x % m == x
    ensures m <= x < 2 * m ==> x % m == x - m
    ensures -m <= x < 0 ==> x % m == x + m
    ensures (x - x % m) % m == 0
  {
    if 0 <= x < m {
      EuclidUnique(x, m, 0, x);
    } else if m <= x < 2 * m {
      EuclidUnique(x, m, 1, x - m);
    } else if -m <= x < 0 {
      EuclidUnique(x, m, -1, x + m);
    }
    MultipleRem(x - x % m, m, x / m);
  }

  /** Dafny's Euclidean remainder is the only r in [0, m) with x == q * m + r. */
  lemma EuclidUnique(x: int, m: int, q: int, r: int)
    requires m > 0 && x == q * m + r && 0 <= r < m
    ensures x % m == r
  {
    var q0, r0 := x / m, x % m;
    assert x == q0 * m + r0 && 0 <= r0 < m;
    SubMul(q, q0, m);
    if q != q0 {
      MulAbsAtLeast(q - q0, m);
      assert false;
    }
  }

  /** Reduces x modulo m into [-m/2, m/2): two's complement arithmetic on an
      n-bit type, m == 2^n. */
  function WrapSigned(x: int, m: int): (r: int)
    requires m > 0 && m % 2 == 0
    ensures -(m / 2) <= r < m / 2
    ensures -(m / 2) <= x < m / 2 ==> r == x
    ensures m / 2 <= x < m + m / 2 ==> r == x - m
    ensures -(m / 2) - m <= x < -(m / 2) ==> r == x + m
    ensures (x - r) % m == 0
  {
    WrapUnsigned(x + m / 2, m) - m / 2
  }

  /** `+` on Go's byte (uint8): addition modulo 2^8, never a panic. */
  function AddUint8(a: Uint8, b: Uint8): (r: Uint8)
    ensures a as int + b as int < 0x100 ==> r as int == a as int + b as int
    ensures a as int + b as int >= 0x100 ==> r as int == a as int + b as int - 0x100
  {
    WrapUnsigned(a as int + b as int, 0x100) as Uint8
  }

  /** `+` on Go's int32: two's complement addition, never a panic. */
  function AddInt32(a: Int32, b: Int32): (r: Int32)
    ensures -0x8000_0000 <= a as int + b as int < 0x8000_0000 ==> r as int == a as int + b as int
    ensures a as int + b as int >= 0x8000_0000 ==> r as int == a as int + b as int - 0x1_0000_0000
    ensures a as int + b as int < -0x8000_0000 ==> r as int == a as int + b as int + 0x1_0000_0000
  {
    WrapSigned(a as int + b as int, 0x1_0000_0000) as Int32
  }

  /** `+` on Go's uint64: addition modulo 2^64, never a panic. */
  function AddUint64(a: Uint64, b: Uint64): (r: Uint64)
    ensures a as int + b as int < 0x1_0000_0000_0000_0000 ==> r as int == a as int + b as int
    ensures a as int + b as int >= 0x1_0000_0000_0000_0000 ==>
              r as int == a as int + b as int - 0x1_0000_0000_0000_0000
  {
    WrapUnsigned(a as int + b as int, 0x1_0000_0000_0000_0000) as Uint64
  }

  /** `+` on Go's int: the exact sum when it fits, and otherwise the sum
      wrapped to 64 bits; it never panics. */
  function AddInt64(a: Int64, b: Int64): (r: Int64)
    ensures InInt64(a as int + b as int) ==> r as int == a as int + b as int
    ensures a as int + b as int > MaxInt64 ==> r as int == a as int + b as int - Two64
    ensures a as int + b as int < MinInt64 ==> r as int == a as int + b as int + Two64
    ensures (a as int + b as int - r as int) % Two64 == 0
  {
    WrapSigned(a as int + b as int, Two64) as Int64
  }

  /** `-` on Go's int. */
  function SubInt64(a: Int64, b: Int64): (r: Int64)
    ensures InInt64(a as int - b as int) ==> r as int == a as int - b as int
    ensures a as int - b as int > MaxInt64 ==> r as int == a as int - b as int - Two64
    ensures a as int - b as int < MinInt64 ==> r as int == a as int - b as int + Two64
    ensures (a as int - b as int - r as int) % Two64 == 0
  {
    WrapSigned(a as int - b as int, Two64) as Int64
  }

  /** `*` on Go's int. */
  function MulInt64(a: Int64, b: Int64): (r: Int64)
    ensures InInt64(a as int * b as int) ==> r as int == a as int * b as int
    ensures (a as int * b as int - r as int) % Two64 == 0
  {
    WrapSigned(a as int * b as int, Two64) as Int64
  }

  /** `/` on Go's int (the caller rules out a zero divisor, which panics):
      the truncated quotient, except that the most negative int divided by
      -1 overflows back to itself. */
  function QuoInt64(a: Int64, b: Int64): (r: Int64)
    requires b != 0
    ensures !(a as int == MinInt64 && b == -1) ==> r as int == Quo(a as int, b as int)
    ensures a as int == MinInt64 && b == -1 ==> r as int == MinInt64
  {
    QuoBound(a as int, b as int);
    QuoRemLaw(a as int, b as int);
    WrapSigned(Quo(a as int, b as int), Two64) as Int64
  }

  /** A truncated quotient is no larger than the dividend, and strictly
      smaller once the divisor's size exceeds 1. */
  lemma QuoBound(x: int, y: int)
    requires y != 0
    ensures Abs(Quo(x, y)) <= Abs(x)
    ensures Abs(y) > 1 && x != 0 ==> Abs(Quo(x, y)) < Abs(x)
  {
    QuoRemLaw(x, y);
    var q, b := Abs(Quo(x, y)), Abs(y);
    MulMonotone(q, b, 1);
    if b > 1 {
      MulMonotone(q, b, 2);
    }
  }

  lemma MulMonotone(q: nat, b: nat, c: nat)
    requires c <= b
    ensures q * c <= q * b
  {
    assert q * b - q * c == q * (b - c);
  }

  /** `%` on Go's int: never overflows, since its size is below the
      divisor's. */
  function RemInt64(a: Int64, b: Int64): (r: Int64)
    requires b != 0
    ensures r as int == Rem(a as int, b as int)
  {
    QuoRemLaw(a as int, b as int);
    Rem(a as int, b as int) as Int64
  }

  /** The program of chapter 2: each variable starts at its type's maximum
      and `+= 1` wraps it to the type's minimum. */
  method OverflowExample() returns (b: Uint8, smallI: Int32, bigI: Uint64)
    ensures b == 0
    ensures smallI == -0x8000_0000
    ensures bigI == 0
  {
    b := 255;
    smallI := 2_147_483_647;
    bigI := 18_446_744_073_709_551_615;

    b := AddUint8(b, 1);
    smallI := AddInt32(smallI, 1);
    bigI := AddUint64(bigI, 1);
  }
}
