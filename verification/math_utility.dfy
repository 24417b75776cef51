/** FMath's generic helpers from SolidAngleMathUtility.h: range tests,
    clamping, three-way min/max, the power-of-two test and integer division
    with rounding. The templates are modelled on mathematical integers; the
    power-of-two test on 32-bit unsigned words, where its bit trick lives. */
module MathUtility {
  import opened IntTypes
  import opened PlatformMath

  /** MinValue <= TestValue < MaxValue. */
  predicate IsWithin(test: int, lo: int, hi: int) {
    lo <= test && test < hi
  }

  /** MinValue <= TestValue <= MaxValue. */
  predicate IsWithinInclusive(test: int, lo: int, hi: int) {
    lo <= test && test <= hi
  }

  /** A value is a power of two, or zero, exactly when clearing its lowest
      set bit leaves nothing. */
  function IsPowerOfTwo(value: bv32): (r: bool)
    ensures r <==> value == 0 || value == 1 << FloorLog2(value)
  {
    value & (value - 1) == 0
  }

  /** The powers of two that RoundUpToPowerOfTwo produces pass the test. */
  lemma RoundUpIsPowerOfTwo(value: bv32)
    requires value <= 0x8000_0000
    ensures IsPowerOfTwo(RoundUpToPowerOfTwo(value))
  {
  }

  function Max3(a: int, b: int, c: int): (r: int)
    ensures r >= a && r >= b && r >= c
    ensures r == a || r == b || r == c
  {
    Max(Max(a, b), c)
  }

  function Min3(a: int, b: int, c: int): (r: int)
    ensures r <= a && r <= b && r <= c
    ensures r == a || r == b || r == c
  {
    Min(Min(a, b), c)
  }

  /** Min when below it, else Max when not below Max, else X itself. */
  function Clamp(x: int, lo: int, hi: int): (r: int)
    ensures lo <= hi ==> IsWithinInclusive(r, lo, hi)
    ensures x < lo ==> r == lo
    ensures lo <= x < hi ==> r == x
    ensures !(x < lo) && !(x < hi) ==> r == hi
  {
    if x < lo then lo else if x < hi then x else hi
  }

  /** A value lies in the closed range exactly when clamping it to that
      range leaves it unchanged. */
  lemma InclusiveIffClampFixes(x: int, lo: int, hi: int)
    requires lo <= hi
    ensures IsWithinInclusive(x, lo, hi) <==> Clamp(x, lo, hi) == x
  {
  }

  /** The half-open range is the closed range without its upper end; it is
      empty unless MinValue < MaxValue. */
  lemma WithinIsInclusiveWithoutMax(x: int, lo: int, hi: int)
    ensures IsWithin(x, lo, hi) <==> IsWithinInclusive(x, lo, hi) && x != hi
    ensures IsWithin(x, lo, hi) ==> lo < hi
  {
  }

  /** Clamping twice changes nothing more. */
  lemma ClampIdempotent(x: int, lo: int, hi: int)
    requires lo <= hi
    ensures Clamp(Clamp(x, lo, hi), lo, hi) == Clamp(x, lo, hi)
  {
  }

  /** C++ integer division: for non-negative operands the quotient rounded
      down (negative quotients round toward zero). */
  function DivideAndRoundDown(dividend: int, divisor: int): (r: int)
    requires divisor != 0
    ensures 0 <= dividend && 0 < divisor ==> r * divisor <= dividend < (r + 1) * divisor
  {
    TruncDiv(dividend, divisor)
  }

  /** DivideAndRoundUp as the engine writes it: the dividend is added to
      itself where the divisor was meant. For positive operands the result
      is twice the dividend less one, divided and rounded down. */
  function DivideAndRoundUpAsWritten(dividend: int, divisor: int): (r: int)
    requires divisor != 0
    ensures 0 < dividend && 0 < divisor ==> r * divisor <= 2 * dividend - 1 < (r + 1) * divisor
  {
    TruncDiv(dividend + dividend - 1, divisor)
  }

  /** With dividend 4 and divisor 2 the written formula gives 3, not 2. */
  lemma DivideAndRoundUpAsWrittenOvershoots()
    ensures DivideAndRoundUpAsWritten(4, 2) == 3
    ensures DivideAndRoundUpIntended(4, 2) == 2
  {
  }

  /** With dividend 1 and divisor 2 the written formula gives 0, not 1. */
  lemma DivideAndRoundUpAsWrittenUndershoots()
    ensures DivideAndRoundUpAsWritten(1, 2) == 0
    ensures DivideAndRoundUpIntended(1, 2) == 1
  {
  }

  /** Dividing by one, the written formula gives 2n - 1, which is the
      intended n only for n == 1. */
  lemma {:induction false} DivideAndRoundUpAsWrittenByOne(n: nat)
    requires n > 0
    ensures DivideAndRoundUpAsWritten(n, 1) == 2 * n - 1
    ensures DivideAndRoundUpAsWritten(n, 1) == DivideAndRoundUpIntended(n, 1) <==> n == 1
  {
    assert DivideAndRoundUpIntended(n, 1) == n;
  }

  /** The quotient rounded up: the smallest r with r * divisor >= dividend.
      This is what the engine's DivideAndRoundUp is meant to compute. */
  function DivideAndRoundUpIntended(dividend: nat, divisor: nat): (r: nat)
    requires divisor > 0
    ensures r * divisor >= dividend
    ensures r == 0 || (r - 1) * divisor < dividend
  {
    (dividend + divisor - 1) / divisor
  }

  /** Quotient and remainder are the unique pair with a = q * d + r. */
  lemma DivUnique(a: int, d: int, q: int, r: int)
    requires d > 0 && 0 <= r < d && a == q * d + r
    ensures a / d == q
  {
    var q', r' := a / d, a % d;
    assert q * d + r == q' * d + r';
    if q > q' {
      MulAtLeast(q - q', d);
    } else if q < q' {
      MulAtLeast(q' - q, d);
    }
  }

  /** Rounding up exceeds rounding down only when the division is inexact. */
  lemma RoundUpVersusDown(dividend: nat, divisor: nat)
    requires divisor > 0
    ensures DivideAndRoundUpIntended(dividend, divisor) ==
      DivideAndRoundDown(dividend, divisor) + (if dividend % divisor == 0 then 0 else 1)
  {
    var q, m := dividend / divisor, dividend % divisor;
    if m == 0 {
      DivUnique(dividend + divisor - 1, divisor, q, divisor - 1);
    } else {
      assert dividend + divisor - 1 == (q + 1) * divisor + (m - 1);
      DivUnique(dividend + divisor - 1, divisor, q + 1, m - 1);
    }
  }
}
