/** YIntPoint: a point with two 32-bit signed integer coordinates. The
    binary operators build a copy and apply the compound operator to it,
    so both are stated over the value type; the compound operators are the
    methods of IntPointStorage, which updates its two fields in place.
    Signed overflow is undefined in C++, so every operation requires its
    results to stay within 32 bits. */
module IntPoints {
  import opened IntTypes
  import opened PlatformMath
  import MathUtility

  /** The number of components, `Num()`. */
  const NumComponents: int := 2

  datatype IntPoint = IntPoint(x: i32, y: i32)
  {
    /** `operator[]`: X for index 0 and Y for every other index. */
    function Get(index: int): (r: i32)
      ensures index == 0 ==> r == x
      ensures index != 0 ==> r == y
    {
      if index == 0 then x else y
    }

    function Plus(other: IntPoint): (r: IntPoint)
      requires FitsInt32(x as int + other.x as int) && FitsInt32(y as int + other.y as int)
      ensures r.x as int == x as int + other.x as int && r.y as int == y as int + other.y as int
    {
      IntPoint(x + other.x, y + other.y)
    }

    function Minus(other: IntPoint): (r: IntPoint)
      requires FitsInt32(x as int - other.x as int) && FitsInt32(y as int - other.y as int)
      ensures r.x as int == x as int - other.x as int && r.y as int == y as int - other.y as int
    {
      IntPoint(x - other.x, y - other.y)
    }

    /** `operator*(int32)`: both coordinates scaled. */
    function Scale(scale: i32): (r: IntPoint)
      requires FitsInt32(x as int * scale as int) && FitsInt32(y as int * scale as int)
      ensures r.x as int == x as int * scale as int && r.y as int == y as int * scale as int
    {
      IntPoint((x as int * scale as int) as i32, (y as int * scale as int) as i32)
    }

    /** `operator/(int32)`: both coordinates divided, rounding toward zero. */
    function DivideBy(divisor: i32): (r: IntPoint)
      requires divisor != 0
      requires FitsInt32(TruncDiv(x as int, divisor as int)) && FitsInt32(TruncDiv(y as int, divisor as int))
      ensures r.x as int == TruncDiv(x as int, divisor as int) && r.y as int == TruncDiv(y as int, divisor as int)
    {
      IntPoint(TruncDiv(x as int, divisor as int) as i32, TruncDiv(y as int, divisor as int) as i32)
    }

    /** `operator/(YIntPoint)`: each coordinate divided by its own. */
    function DivideByPoint(other: IntPoint): (r: IntPoint)
      requires other.x != 0 && other.y != 0
      requires FitsInt32(TruncDiv(x as int, other.x as int)) && FitsInt32(TruncDiv(y as int, other.y as int))
      ensures r.x as int == TruncDiv(x as int, other.x as int) && r.y as int == TruncDiv(y as int, other.y as int)
    {
      IntPoint(TruncDiv(x as int, other.x as int) as i32, TruncDiv(y as int, other.y as int) as i32)
    }

    function ComponentMin(other: IntPoint): (r: IntPoint)
      ensures r.x <= x && r.x <= other.x && (r.x == x || r.x == other.x)
      ensures r.y <= y && r.y <= other.y && (r.y == y || r.y == other.y)
    {
      IntPoint(Min(x as int, other.x as int) as i32, Min(y as int, other.y as int) as i32)
    }

    function ComponentMax(other: IntPoint): (r: IntPoint)
      ensures r.x >= x && r.x >= other.x && (r.x == x || r.x == other.x)
      ensures r.y >= y && r.y >= other.y && (r.y == y || r.y == other.y)
    {
      IntPoint(Max(x as int, other.x as int) as i32, Max(y as int, other.y as int) as i32)
    }

    /** The larger coordinate. */
    function GetMax(): (r: i32)
      ensures r >= x && r >= y && (r == x || r == y)
    {
      Max(x as int, y as int) as i32
    }

    /** The smaller coordinate. */
    function GetMin(): (r: i32)
      ensures r <= x && r <= y && (r == x || r == y)
    {
      Min(x as int, y as int) as i32
    }

    /** The squared length, `X*X + Y*Y`. */
    function SizeSquared(): (r: i32)
      requires FitsInt32(x as int * x as int + y as int * y as int)
      ensures r >= 0
      ensures r == 0 <==> x == 0 && y == 0
    {
      SquareSign(x as int);
      SquareSign(y as int);
      (x as int * x as int + y as int * y as int) as i32
    }
  }

  const ZeroValue: IntPoint := IntPoint(0, 0)
  const NoneValue: IntPoint := IntPoint(INDEX_NONE as i32, INDEX_NONE as i32)

  /** A square is non-negative, and zero only for zero. */
  lemma SquareSign(a: int)
    ensures a * a >= 0
    ensures a * a == 0 <==> a == 0
  {
    if a < 0 {
      MulAtLeast(-a, -a);
      assert a * a == (-a) * (-a);
    } else if a > 0 {
      MulAtLeast(a, a);
    }
  }

  /** Reading both components by index rebuilds the point. */
  lemma IndexRebuilds(p: IntPoint)
    ensures IntPoint(p.Get(0), p.Get(1)) == p
  {
  }

  /** Subtracting what was added gives the point back. */
  lemma PlusThenMinus(p: IntPoint, q: IntPoint)
    requires FitsInt32(p.x as int + q.x as int) && FitsInt32(p.y as int + q.y as int)
    ensures p.Plus(q).Minus(q) == p
  {
  }

  /** Dividing by the factor a point was scaled by gives the point back. */
  lemma ScaleThenDivide(p: IntPoint, s: i32)
    requires s != 0
    requires FitsInt32(p.x as int * s as int) && FitsInt32(p.y as int * s as int)
    ensures TruncDiv(p.Scale(s).x as int, s as int) == p.x as int
    ensures TruncDiv(p.Scale(s).y as int, s as int) == p.y as int
    ensures p.Scale(s).DivideBy(s) == p
  {
    TruncDivOfProduct(p.x as int, s as int);
    TruncDivOfProduct(p.y as int, s as int);
  }

  /** Per coordinate, the minimum and the maximum add up to the two
      coordinates' sum. */
  lemma MinPlusMaxIsSum(p: IntPoint, q: IntPoint)
    requires FitsInt32(p.x as int + q.x as int) && FitsInt32(p.y as int + q.y as int)
    ensures p.ComponentMin(q).x as int + p.ComponentMax(q).x as int == p.x as int + q.x as int
    ensures p.ComponentMin(q).y as int + p.ComponentMax(q).y as int == p.y as int + q.y as int
  {
  }

  /** `YIntPoint::DivideAndRoundDown(lhs, Divisor)`: each coordinate goes
      through YMath::DivideAndRoundDown; for non-negative coordinates and a
      positive divisor, each is its rounded-down quotient. */
  function DivideAndRoundDown(lhs: IntPoint, divisor: i32): (r: IntPoint)
    requires divisor != 0
    requires FitsInt32(TruncDiv(lhs.x as int, divisor as int)) && FitsInt32(TruncDiv(lhs.y as int, divisor as int))
    ensures 0 <= lhs.x && 0 < divisor ==>
      r.x as int * divisor as int <= lhs.x as int < (r.x as int + 1) * divisor as int
    ensures 0 <= lhs.y && 0 < divisor ==>
      r.y as int * divisor as int <= lhs.y as int < (r.y as int + 1) * divisor as int
  {
    IntPoint(MathUtility.DivideAndRoundDown(lhs.x as int, divisor as int) as i32,
             MathUtility.DivideAndRoundDown(lhs.y as int, divisor as int) as i32)
  }

  /** A point whose coordinates the compound operators change in place. */
  class IntPointStorage {
    var X: i32
    var Y: i32

    function Value(): IntPoint
      reads this
    {
      IntPoint(X, Y)
    }

    constructor(inX: i32, inY: i32)
      ensures Value() == IntPoint(inX, inY)
    {
      X, Y := inX, inY;
    }

    /** `operator+=`. */
    method AddAssign(other: IntPoint)
      requires FitsInt32(X as int + other.x as int) && FitsInt32(Y as int + other.y as int)
      modifies this
      ensures Value() == old(Value()).Plus(other)
    {
      X := X + other.x;
      Y := Y + other.y;
    }

    /** `operator-=`. */
    method SubtractAssign(other: IntPoint)
      requires FitsInt32(X as int - other.x as int) && FitsInt32(Y as int - other.y as int)
      modifies this
      ensures Value() == old(Value()).Minus(other)
    {
      X := X - other.x;
      Y := Y - other.y;
    }

    /** `operator*=(int32)`. */
    method ScaleAssign(scale: i32)
      requires FitsInt32(X as int * scale as int) && FitsInt32(Y as int * scale as int)
      modifies this
      ensures Value() == old(Value()).Scale(scale)
    {
      X := (X as int * scale as int) as i32;
      Y := (Y as int * scale as int) as i32;
    }

    /** `operator/=(int32)`. */
    method DivideAssign(divisor: i32)
      requires divisor != 0
      requires FitsInt32(TruncDiv(X as int, divisor as int)) && FitsInt32(TruncDiv(Y as int, divisor as int))
      modifies this
      ensures Value() == old(Value()).DivideBy(divisor)
    {
      X := TruncDiv(X as int, divisor as int) as i32;
      Y := TruncDiv(Y as int, divisor as int) as i32;
    }

    /** `operator/=(YIntPoint)`. */
    method DivideAssignPoint(other: IntPoint)
      requires other.x != 0 && other.y != 0
      requires FitsInt32(TruncDiv(X as int, other.x as int)) && FitsInt32(TruncDiv(Y as int, other.y as int))
      modifies this
      ensures Value() == old(Value()).DivideByPoint(other)
    {
      X := TruncDiv(X as int, other.x as int) as i32;
      Y := TruncDiv(Y as int, other.y as int) as i32;
    }

    /** `operator[]` used as an lvalue: index 0 writes X, any other Y. */
    method SetComponent(index: int, value: i32)
      modifies this
      ensures Value().Get(index) == value
      ensures Value().Get(if index == 0 then 1 else 0) == old(Value()).Get(if index == 0 then 1 else 0)
    {
      if index == 0 {
        X := value;
      } else {
        Y := value;
      }
    }
  }
}
