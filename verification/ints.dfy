/** The engine's fixed-width integer types, as ranges of mathematical
    integers. Arithmetic that could leave a range is written out where the
    engine relies on it. */
module IntTypes {
  newtype u8 = x: int | 0 <= x < 0x100
  newtype u16 = x: int | 0 <= x < 0x1_0000
  newtype u32 = x: int | 0 <= x < 0x1_0000_0000
  newtype i32 = x: int | -0x8000_0000 <= x < 0x8000_0000

  const MAX_UINT8: int := 0xFF
  const MAX_UINT16: int := 0xFFFF
  const MAX_UINT32: int := 0xFFFF_FFFF
  const INDEX_NONE: int := -1

  /** Whether `x` is a value of a 32-bit signed integer; signed arithmetic
      that leaves this range is undefined in C++. */
  predicate FitsInt32(x: int) {
    -0x8000_0000 <= x < 0x8000_0000
  }

  /** C++ integer division, which rounds toward zero. */
  function TruncDiv(a: int, b: int): (q: int)
    requires b != 0
    ensures 0 <= a && 0 < b ==> q == a / b
    ensures (a < 0) == (b < 0) ==> q >= 0
    ensures (a < 0) != (b < 0) ==> q <= 0
  {
    if b > 0 then
      if a >= 0 then DivNonNegative(a, b); a / b else DivNonNegative(-a, b); -((-a) / b)
    else
      if a >= 0 then DivNonNegative(a, -b); -(a / (-b)) else DivNonNegative(-a, -b); (-a) / (-b)
  }

  /** Dividing a natural number by a positive one gives a natural number. */
  lemma DivNonNegative(x: int, y: int)
    requires x >= 0 && y > 0
    ensures x / y >= 0
  {
    var q, r := x / y, x % y;
    assert x == q * y + r && 0 <= r < y;
    if q < 0 {
      MulGap(q, 0, y);
    }
  }

  /** Dividing a product by one of its factors gives the other back. */
  lemma TruncDivOfProduct(a: int, b: int)
    requires b != 0
    ensures TruncDiv(a * b, b) == a
  {
    var ma, mb := if a < 0 then -a else a, if b < 0 then -b else b;
    ProductMagnitude(a, b);
    NatMulDiv(ma, mb);
  }

  lemma ProductMagnitude(a: int, b: int)
    ensures (if a * b < 0 then -(a * b) else a * b) == (if a < 0 then -a else a) * (if b < 0 then -b else b)
    ensures b != 0 && a != 0 ==> (a * b < 0 <==> (a < 0) != (b < 0))
  {
    if a < 0 && b < 0 { assert a * b == (-a) * (-b); }
    else if a < 0 { assert a * b == -((-a) * b); }
    else if b < 0 { assert a * b == -(a * (-b)); }
  }

  lemma NatMulDiv(x: nat, y: nat)
    requires y > 0
    ensures (x * y) / y == x
  {
    var q, r := (x * y) / y, (x * y) % y;
    MulGap(q, x, y);
  }

  /** Multiplying by a positive factor keeps integers at least that far
      apart. */
  lemma MulGap(q: int, x: int, y: int)
    requires y > 0
    ensures q > x ==> q * y >= x * y + y
    ensures q < x ==> q * y + y <= x * y
  {
    if q > x {
      MulAtLeast(q - x, y);
      assert q * y == x * y + (q - x) * y;
    } else if q < x {
      MulAtLeast(x - q, y);
      assert x * y == q * y + (x - q) * y;
    }
  }

  lemma {:induction false} MulAtLeast(k: int, d: int)
    requires k >= 1 && d > 0
    ensures k * d >= d
    decreases k
  {
    if k > 1 {
      MulAtLeast(k - 1, d);
      assert k * d == (k - 1) * d + d;
    }
  }
}
