/** YIntVector: a vector with three 32-bit signed integer components. As
    with the two-dimensional point, the binary operators are stated over
    the value type and the compound operators are the methods of
    IntVectorStorage; results must stay within 32 bits. */
module IntVectors {
  import opened IntTypes
  import opened PlatformMath

  /** The number of components, `Num()`. */
  const NumComponents: int := 3

  datatype IntVector = IntVector(x: i32, y: i32, z: i32)
  {
    /** `operator[]`, which indexes the three fields as an array. */
    function Get(index: int): (r: i32)
      requires 0 <= index < NumComponents
      ensures r == [x, y, z][index]
    {
      if index == 0 then x else if index == 1 then y else z
    }

    function Plus(other: IntVector): (r: IntVector)
      requires FitsInt32(x as int + other.x as int) && FitsInt32(y as int + other.y as int) && FitsInt32(z as int + other.z as int)
      ensures forall i :: 0 <= i < NumComponents ==> r.Get(i) as int == Get(i) as int + other.Get(i) as int
    {
      IntVector(x + other.x, y + other.y, z + other.z)
    }

    function Minus(other: IntVector): (r: IntVector)
      requires FitsInt32(x as int - other.x as int) && FitsInt32(y as int - other.y as int) && FitsInt32(z as int - other.z as int)
      ensures forall i :: 0 <= i < NumComponents ==> r.Get(i) as int == Get(i) as int - other.Get(i) as int
    {
      IntVector(x - other.x, y - other.y, z - other.z)
    }

    /** `operator*(int32)`: every component scaled. */
    function Scale(scale: i32): (r: IntVector)
      requires FitsInt32(x as int * scale as int) && FitsInt32(y as int * scale as int) && FitsInt32(z as int * scale as int)
      ensures forall i :: 0 <= i < NumComponents ==> r.Get(i) as int == Get(i) as int * scale as int
    {
      IntVector((x as int * scale as int) as i32, (y as int * scale as int) as i32, (z as int * scale as int) as i32)
    }

    /** `operator/(int32)`: every component divided, rounding toward zero. */
    function DivideBy(divisor: i32): (r: IntVector)
      requires divisor != 0
      requires FitsInt32(TruncDiv(x as int, divisor as int)) && FitsInt32(TruncDiv(y as int, divisor as int))
      requires FitsInt32(TruncDiv(z as int, divisor as int))
      ensures forall i :: 0 <= i < NumComponents ==> r.Get(i) as int == TruncDiv(Get(i) as int, divisor as int)
    {
      IntVector(TruncDiv(x as int, divisor as int) as i32, TruncDiv(y as int, divisor as int) as i32,
        TruncDiv(z as int, divisor as int) as i32)
    }

    /** The largest component. */
    function GetMax(): (r: i32)
      ensures forall i :: 0 <= i < NumComponents ==> r >= Get(i)
      ensures exists i :: 0 <= i < NumComponents && r == Get(i)
    {
      var r := Max(Max(x as int, y as int), z as int) as i32;
      assert r == Get(0) || r == Get(1) || r == Get(2);
      r
    }

    /** The smallest component. */
    function GetMin(): (r: i32)
      ensures forall i :: 0 <= i < NumComponents ==> r <= Get(i)
      ensures exists i :: 0 <= i < NumComponents && r == Get(i)
    {
      var r := Min(Min(x as int, y as int), z as int) as i32;
      assert r == Get(0) || r == Get(1) || r == Get(2);
      r
    }

    /** Whether this equals ZeroValue. */
    predicate IsZero()
      ensures IsZero() <==> forall i :: 0 <= i < NumComponents ==> Get(i) == 0
    {
      assert Get(0) == x && Get(1) == y && Get(2) == z;
      this == ZeroValue
    }
  }

  const ZeroValue: IntVector := IntVector(0, 0, 0)
  const NoneValue: IntVector := IntVector(INDEX_NONE as i32, INDEX_NONE as i32, INDEX_NONE as i32)

  /** The constructor taking one value replicates it to all components. */
  function Splat(value: i32): (r: IntVector)
    ensures forall i :: 0 <= i < NumComponents ==> r.Get(i) == value
  {
    IntVector(value, value, value)
  }

  /** Subtracting what was added gives the vector back. */
  lemma PlusThenMinus(v: IntVector, w: IntVector)
    requires FitsInt32(v.x as int + w.x as int) && FitsInt32(v.y as int + w.y as int) && FitsInt32(v.z as int + w.z as int)
    ensures v.Plus(w).Minus(w) == v
  {
  }

  /** Dividing by the factor a vector was scaled by gives the vector back. */
  lemma ScaleThenDivide(v: IntVector, s: i32)
    requires s != 0
    requires FitsInt32(v.x as int * s as int) && FitsInt32(v.y as int * s as int) && FitsInt32(v.z as int * s as int)
    ensures TruncDiv(v.Scale(s).x as int, s as int) == v.x as int
    ensures TruncDiv(v.Scale(s).y as int, s as int) == v.y as int
    ensures TruncDiv(v.Scale(s).z as int, s as int) == v.z as int
    ensures v.Scale(s).DivideBy(s) == v
  {
    TruncDivOfProduct(v.x as int, s as int);
    TruncDivOfProduct(v.y as int, s as int);
    TruncDivOfProduct(v.z as int, s as int);
  }

  /** A vector with equal components has them as its maximum and minimum. */
  lemma SplatExtremes(value: i32)
    ensures Splat(value).GetMax() == value && Splat(value).GetMin() == value
  {
  }

  /** A vector whose components the compound operators change in place. */
  class IntVectorStorage {
    var X: i32
    var Y: i32
    var Z: i32

    function Value(): IntVector
      reads this
    {
      IntVector(X, Y, Z)
    }

    constructor(inX: i32, inY: i32, inZ: i32)
      ensures Value() == IntVector(inX, inY, inZ)
    {
      X, Y, Z := inX, inY, inZ;
    }

    /** `operator+=`. */
    method AddAssign(other: IntVector)
      requires FitsInt32(X as int + other.x as int) && FitsInt32(Y as int + other.y as int) && FitsInt32(Z as int + other.z as int)
      modifies this
      ensures Value() == old(Value()).Plus(other)
    {
      X, Y, Z := X + other.x, Y + other.y, Z + other.z;
    }

    /** `operator-=`. */
    method SubtractAssign(other: IntVector)
      requires FitsInt32(X as int - other.x as int) && FitsInt32(Y as int - other.y as int) && FitsInt32(Z as int - other.z as int)
      modifies this
      ensures Value() == old(Value()).Minus(other)
    {
      X, Y, Z := X - other.x, Y - other.y, Z - other.z;
    }

    /** `operator*=(int32)`. */
    method ScaleAssign(scale: i32)
      requires FitsInt32(X as int * scale as int) && FitsInt32(Y as int * scale as int) && FitsInt32(Z as int * scale as int)
      modifies this
      ensures Value() == old(Value()).Scale(scale)
    {
      X, Y, Z := (X as int * scale as int) as i32, (Y as int * scale as int) as i32, (Z as int * scale as int) as i32;
    }

    /** `operator/=(int32)`. */
    method DivideAssign(divisor: i32)
      requires divisor != 0
      requires FitsInt32(TruncDiv(X as int, divisor as int)) && FitsInt32(TruncDiv(Y as int, divisor as int))
      requires FitsInt32(TruncDiv(Z as int, divisor as int))
      modifies this
      ensures Value() == old(Value()).DivideBy(divisor)
    {
      X := TruncDiv(X as int, divisor as int) as i32;
      Y := TruncDiv(Y as int, divisor as int) as i32;
      Z := TruncDiv(Z as int, divisor as int) as i32;
    }

    /** `operator[]` used as an lvalue: writes one component. */
    method SetComponent(index: int, value: i32)
      requires 0 <= index < NumComponents
      modifies this
      ensures Value().Get(index) == value
      ensures forall i :: 0 <= i < NumComponents && i != index ==> Value().Get(i) == old(Value()).Get(i)
    {
      if index == 0 {
        X := value;
      } else if index == 1 {
        Y := value;
      } else {
        Z := value;
      }
    }
  }
}
