/** Machine arithmetic of the C++ sources, written out over unbounded numbers. */
module Numbers {
  const TWO31: int := 0x8000_0000
  const TWO32: int := 0x1_0000_0000
  const TWO63: int := 0x8000_0000_0000_0000
  const TWO64: int := 0x1_0000_0000_0000_0000

  type uint32 = x: int | 0 <= x < TWO32 witness 0
  type uint64 = x: int | 0 <= x < TWO64 witness 0

  predicate FitsInt32(x: int) {
    -TWO31 <= x < TWO31
  }

  /** Conversion to `uint32_t` or `unsigned int`. */
  function ToU32(x: int): uint32 {
    x % TWO32
  }

  /** Conversion to `uint64_t`. */
  function ToU64(x: int): uint64 {
    x % TWO64
  }

  /** Integer division of C++, which truncates towards zero. */
  function TruncDiv(x: int, d: int): int
    requires d > 0
  {
    if x >= 0 then x / d else -((-x) / d)
  }

  /** Conversion of a floating value to an integer type, which truncates towards zero. */
  function Trunc(x: real): int {
    if x >= 0.0 then x.Floor else -((-x).Floor)
  }

  /** `std::round`: to the nearest integer, halves away from zero. */
  function Round(x: real): int {
    if x >= 0.0 then (x + 0.5).Floor else -((-x + 0.5).Floor)
  }

  lemma DivLess(n: nat, m: nat, k: nat)
    requires m > 0
    ensures n / m < k <==> n < k * m
  {
    assert n == m * (n / m) + n % m;
    if n / m < k {
      assert m * (n / m + 1) <= m * k;
    } else {
      assert m * k <= m * (n / m);
    }
  }

  lemma AddMultiple(x: int, k: int)
    ensures (x + TWO32 * k) % TWO32 == x % TWO32
  {
  }

  lemma Add64(x: int, k: int)
    ensures (x + TWO64 * k) % TWO64 == x % TWO64
  {
  }

  lemma Wrapped64(x: nat, y: nat)
    ensures ToU64(ToU64(x) + y) == ToU64(x + y)
  {
  }

  function Min(x: int, y: int): (m: int)
    ensures m <= x && m <= y && (m == x || m == y)
  {
    if x <= y then x else y
  }

  function MinReal(x: real, y: real): (m: real)
    ensures m <= x && m <= y && (m == x || m == y)
  {
    if x <= y then x else y
  }

  // ----- The conversions in plain numbers -----

  /** Unsigned conversions keep the value modulo 2^32 and 2^64, and a signed word of 32 bits ends at 2147483647. */
  lemma MachineWords(x: int)
    ensures 0 <= ToU32(x) < 4294967296 && (x - ToU32(x)) % 4294967296 == 0
    ensures 0 <= ToU64(x) < 18446744073709551616 && (x - ToU64(x)) % 18446744073709551616 == 0
    ensures FitsInt32(x) <==> -2147483648 <= x <= 2147483647
    ensures TWO31 == 2147483648 && TWO32 == 4294967296
    ensures TWO63 == 9223372036854775808 && TWO64 == 18446744073709551616
  {
    assert x - x % TWO32 == TWO32 * (x / TWO32);
    assert x - x % TWO64 == TWO64 * (x / TWO64);
  }

  /** The quotient of C++: its remainder has the sign of the dividend. */
  lemma QuotientTruncates(x: int, d: int)
    requires d > 0
    ensures var r := x - d * TruncDiv(x, d); if x >= 0 then 0 <= r < d else -d < r <= 0
  {
    if x < 0 {
      assert -x == d * ((-x) / d) + (-x) % d;
    }
  }

  /** Truncation drops the fraction, whatever the sign. */
  lemma TruncationDropsFraction(x: real)
    ensures if x >= 0.0 then Trunc(x) as real <= x < Trunc(x) as real + 1.0
            else Trunc(x) as real - 1.0 < x <= Trunc(x) as real
  {
  }

  /** Rounding goes to a nearest integer, and away from zero between two. */
  lemma RoundsToNearest(x: real)
    ensures -0.5 <= Round(x) as real - x <= 0.5
    ensures Round(x) as real - x == 0.5 ==> x > 0.0
    ensures Round(x) as real - x == -0.5 ==> x < 0.0
  {
  }

  /** The cases of a C++ `double` that the averages can take; rounding is not modelled. */
  datatype Double = NaN | Infinite(negative: bool) | Finite(value: real)

  function Plus(x: Double, y: Double): Double {
    match (x, y)
    case (Finite(a), Finite(b)) => Finite(a + b)
    case (Infinite(a), Infinite(b)) => if a == b then x else NaN
    case (Infinite(_), Finite(_)) => x
    case (Finite(_), Infinite(_)) => y
    case _ => NaN
  }

  /** An integer count times a double: zero times NaN, or times an infinity, is NaN. */
  function Scale(count: nat, x: Double): Double {
    match x
    case NaN => NaN
    case Infinite(_) => if count == 0 then NaN else x
    case Finite(a) => Finite(count as real * a)
  }

  /** A double divided by an integer count, with the IEEE results for a zero count. */
  function Over(x: Double, count: nat): Double {
    match x
    case NaN => NaN
    case Infinite(_) => x
    case Finite(a) =>
      if count > 0 then Finite(a / count as real)
      else if a == 0.0 then NaN
      else Infinite(a < 0.0)
  }

  function RoundDouble(x: Double): Double {
    if x.Finite? then Finite(Round(x.value) as real) else x
  }
}
