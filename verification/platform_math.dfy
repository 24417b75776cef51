/** FGenericPlatformMath: the integer bit tricks (base-2 logarithms, leading
    and trailing zero counts, Morton interleaving) on 32-bit unsigned words,
    and the generic Min/Max/Abs/Sign templates on mathematical integers. */
module PlatformMath {
  import opened IntTypes

  /** 2 to the power `n`. */
  function Pow2(n: nat): (r: nat)
    ensures r >= 1
  {
    if n == 0 then 1 else 2 * Pow2(n - 1)
  }

  /** Index of the highest set bit: the largest `p` with 2^p <= value, and 0
      for a zero input. Each step halves the remaining width, keeping the
      shifted-down value in a local as the engine does. */
  function FloorLog2(value: bv32): (r: bv32)
    ensures value == 0 ==> r == 0
    ensures value != 0 ==> r < 32 && (1 as bv32 << r) <= value
    ensures value != 0 && r < 31 ==> value < (1 as bv32 << (r + 1))
  {
    var (v1, p1) := if value >= 1 << 16 then (value >> 16, 16 as bv32) else (value, 0 as bv32);
    var (v2, p2) := if v1 >= 1 << 8 then (v1 >> 8, p1 + 8) else (v1, p1);
    var (v3, p3) := if v2 >= 1 << 4 then (v2 >> 4, p2 + 4) else (v2, p2);
    var (v4, p4) := if v3 >= 1 << 2 then (v3 >> 2, p3 + 2) else (v3, p3);
    var p5 := if v4 >= 1 << 1 then p4 + 1 else p4;
    if v4 == 0 then 0 else p5
  }

  /** Number of zero bits above the highest set bit; 32 for zero. */
  function CountLeadingZeros(value: bv32): (r: bv32)
    ensures r <= 32
    ensures value == 0 <==> r == 32
    ensures value != 0 ==> value >> (31 - r) == 1
  {
    if value == 0 then 32 else 31 - FloorLog2(value)
  }

  lemma {:induction false} Pow2Add(a: nat, b: nat)
    ensures Pow2(a + b) == Pow2(a) * Pow2(b)
  {
    if a > 0 {
      Pow2Add(a - 1, b);
    }
  }

  lemma Pow2Of32()
    ensures Pow2(32) == 0x1_0000_0000
  {
    assert Pow2(4) == 16;
    Pow2Add(4, 4);
    Pow2Add(8, 8);
    Pow2Add(16, 16);
  }

  /** `x` is `v` shifted left by `n`, and `v` fits in the remaining
      32 - n bits. */
  predicate ShiftedBy(x: nat, v: int, n: nat) {
    n < 32 && 0 < v < Pow2(32 - n) && v * Pow2(n) == x
  }

  lemma HalveEven(x: nat, v: int, n: nat)
    requires ShiftedBy(x, v, n) && v % 2 == 0
    ensures ShiftedBy(x, v / 2, n + 1)
  {
    var h := v / 2;
    assert v == 2 * h;
    if n == 31 {
      assert false;
    }
    DoubleFactor(h, Pow2(n));
    assert h * Pow2(n + 1) == x;
    assert Pow2(32 - n) == 2 * Pow2(31 - n);
  }

  /** Moving a factor 2 from one side of a product to the other. */
  lemma DoubleFactor(h: int, p: int)
    ensures h * (2 * p) == (2 * h) * p
  {
  }

  /** Number of zero bits below the lowest set bit: the `r` for which the
      value is an odd multiple of 2^r; 32 for zero. */
  method CountTrailingZeros(value: u32) returns (r: u32)
    ensures value == 0 <==> r == 32
    ensures value != 0 ==> r < 32 && exists m :: value as int == (2 * m + 1) * Pow2(r as nat)
  {
    if value == 0 {
      return 32;
    }
    var x: nat := value as int;
    var v := x;
    var n: nat := 0;
    Pow2Of32();
    while v % 2 == 0
      invariant ShiftedBy(x, v, n)
      decreases v
    {
      HalveEven(x, v, n);
      v, n := v / 2, n + 1;
    }
    var m := v / 2;
    assert v == 2 * m + 1;
    r := n as u32;
  }

  /** The smallest N with 2^N >= value. The engine computes it branch-free:
      the mask is all ones exactly when CountLeadingZeros gives 32 (a zero
      input), which the sign-extending shift of the original spreads from
      bit 31; here the sign extension is written out. */
  function CeilLogTwo(value: bv32): (r: bv32)
    ensures r <= 32
    ensures value <= 1 ==> r == 0
    ensures 1 < value ==> r > 0 && (r == 32 || value <= (1 as bv32 << r))
    ensures 1 < value ==> (1 as bv32 << (r - 1)) < value
  {
    var shifted := CountLeadingZeros(value) << 26;
    var bitmask: bv32 := if shifted & 0x8000_0000 != 0 then 0xFFFF_FFFF else 0;
    (32 - CountLeadingZeros(value - 1)) & !bitmask
  }

  /** The next power of two at or above `value` (1 for 0 and 1). Inputs
      above 2^31 would shift by 32, which C++ leaves undefined. */
  function RoundUpToPowerOfTwo(value: bv32): (r: bv32)
    requires value <= 0x8000_0000
    ensures value <= r
    ensures r & (r - 1) == 0 && r != 0
    ensures 1 < value ==> r / 2 < value
  {
    1 << CeilLogTwo(value)
  }

  /** Spreads the low 16 bits of `x` to the even bit positions. */
  function MortonCode2(x: bv32): (r: bv32)
    ensures r & 0xaaaaaaaa == 0
  {
    var x0 := x & 0x0000ffff;
    var x1 := (x0 ^ (x0 << 8)) & 0x00ff00ff;
    var x2 := (x1 ^ (x1 << 4)) & 0x0f0f0f0f;
    var x3 := (x2 ^ (x2 << 2)) & 0x33333333;
    (x3 ^ (x3 << 1)) & 0x55555555
  }

  /** Gathers the even bit positions of `x` into the low 16 bits; spreading
      them again gives back exactly the even bits of `x`. */
  function ReverseMortonCode2(x: bv32): (r: bv32)
    ensures r <= 0xffff
    ensures MortonCode2(r) == x & 0x55555555
  {
    var x0 := x & 0x55555555;
    var x1 := (x0 ^ (x0 >> 1)) & 0x33333333;
    var x2 := (x1 ^ (x1 >> 2)) & 0x0f0f0f0f;
    var x3 := (x2 ^ (x2 >> 4)) & 0x00ff00ff;
    (x3 ^ (x3 >> 8)) & 0x0000ffff
  }

  /** Spreads the low 10 bits of `x` to every third bit position. */
  function MortonCode3(x: bv32): (r: bv32)
    ensures r & !0x09249249 == 0
  {
    var x0 := x & 0x000003ff;
    var x1 := (x0 ^ (x0 << 16)) & 0xff0000ff;
    var x2 := (x1 ^ (x1 << 8)) & 0x0300f00f;
    var x3 := (x2 ^ (x2 << 4)) & 0x030c30c3;
    (x3 ^ (x3 << 2)) & 0x09249249
  }

  /** Gathers every third bit position of `x` into the low 10 bits;
      spreading them again gives back exactly those bits of `x`. */
  function ReverseMortonCode3(x: bv32): (r: bv32)
    ensures r <= 0x3ff
    ensures MortonCode3(r) == x & 0x09249249
  {
    var x0 := x & 0x09249249;
    var x1 := (x0 ^ (x0 >> 2)) & 0x030c30c3;
    var x2 := (x1 ^ (x1 >> 4)) & 0x0300f00f;
    var x3 := (x2 ^ (x2 >> 8)) & 0xff0000ff;
    (x3 ^ (x3 >> 16)) & 0x000003ff
  }

  /** Bit i of the input lands on bit 2i of the code. */
  lemma MortonCode2Spreads(x: bv32, i: bv32)
    requires i < 16
    ensures (MortonCode2(x) >> (2 * i)) & 1 == (x >> i) & 1
    ensures (MortonCode2(x) >> (2 * i + 1)) & 1 == 0
  {
  }

  lemma MortonCode2RoundTrip(x: bv32)
    ensures ReverseMortonCode2(MortonCode2(x)) == x & 0xffff
  {
  }

  lemma MortonCode3RoundTrip(x: bv32)
    ensures ReverseMortonCode3(MortonCode3(x)) == x & 0x3ff
  {
  }

  /** Codes of different 16-bit inputs differ. */
  lemma MortonCode2Injective(x: bv32, y: bv32)
    requires x <= 0xffff && y <= 0xffff && MortonCode2(x) == MortonCode2(y)
    ensures x == y
  {
    MortonCode2RoundTrip(x);
    MortonCode2RoundTrip(y);
  }

  lemma MortonCode3Injective(x: bv32, y: bv32)
    requires x <= 0x3ff && y <= 0x3ff && MortonCode3(x) == MortonCode3(y)
    ensures x == y
  {
    MortonCode3RoundTrip(x);
    MortonCode3RoundTrip(y);
  }

  function Abs(a: int): (r: int)
    ensures r >= 0 && (r == a || r == -a)
  {
    if a >= 0 then a else -a
  }

  function Sign(a: int): (r: int)
    ensures r == 1 <==> a > 0
    ensures r == -1 <==> a < 0
    ensures r == 0 <==> a == 0
  {
    if a > 0 then 1 else if a < 0 then -1 else 0
  }

  /** The larger argument; the first one on a tie. */
  function Max(a: int, b: int): (r: int)
    ensures r >= a && r >= b && (r == a || r == b)
  {
    if a >= b then a else b
  }

  /** The smaller argument; the first one on a tie. */
  function Min(a: int, b: int): (r: int)
    ensures r <= a && r <= b && (r == a || r == b)
  {
    if a <= b then a else b
  }

  /** Abs and Sign split a number into magnitude and direction. */
  lemma SignTimesAbs(a: int)
    ensures Sign(a) * Abs(a) == a
  {
  }
}
