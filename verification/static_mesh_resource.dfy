/** Static mesh render resources: the raw index buffer, which stores
    indices as 16-bit or 32-bit little-endian values in a byte array, the
    view that reads them back, and the vertex buffers that hold one element
    per vertex. */
module StaticMeshResource {
  import opened IntTypes
  import opened Vectors

  /** How SetIndices chooses the index width. */
  datatype IndexBufferStride = Force16Bit | Force32Bit | AutoDetect

  /** Byte `k` (0 is the lowest) of a value below 2^32. */
  function ByteOf(v: int, k: nat): (r: u8)
    requires 0 <= v < 0x1_0000_0000 && k < 4
  {
    (if k == 0 then v % 0x100
     else if k == 1 then (v / 0x100) % 0x100
     else if k == 2 then (v / 0x1_0000) % 0x100
     else v / 0x100_0000) as u8
  }

  /** Indices truncated to 16 bits, two bytes each, low byte first. */
  function Encode16(indices: seq<u32>): (r: seq<u8>)
    ensures |r| == 2 * |indices|
  {
    seq(2 * |indices|, j requires 0 <= j < 2 * |indices| => ByteOf(indices[j / 2] as int % 0x1_0000, j % 2))
  }

  /** Indices as 32-bit values, four bytes each, low byte first. */
  function Encode32(indices: seq<u32>): (r: seq<u8>)
    ensures |r| == 4 * |indices|
  {
    seq(4 * |indices|, j requires 0 <= j < 4 * |indices| => ByteOf(indices[j / 4] as int, j % 4))
  }

  function Read16(storage: seq<u8>, at: nat): (r: u32)
    requires at + 2 <= |storage|
    ensures r as int < 0x1_0000
  {
    (storage[at] as int + 0x100 * storage[at + 1] as int) as u32
  }

  function Read32(storage: seq<u8>, at: nat): u32
    requires at + 4 <= |storage|
  {
    (storage[at] as int + 0x100 * storage[at + 1] as int +
     0x1_0000 * storage[at + 2] as int + 0x100_0000 * storage[at + 3] as int) as u32
  }

  /** The indices a byte array holds when read as 16-bit values. */
  function Decode16(storage: seq<u8>): (r: seq<u32>)
    ensures |r| == |storage| / 2
    ensures forall i :: 0 <= i < |r| ==> r[i] as int < 0x1_0000
  {
    seq(|storage| / 2, i requires 0 <= i < |storage| / 2 => Read16(storage, 2 * i))
  }

  /** The indices a byte array holds when read as 32-bit values. */
  function Decode32(storage: seq<u8>): (r: seq<u32>)
    ensures |r| == |storage| / 4
  {
    seq(|storage| / 4, i requires 0 <= i < |storage| / 4 => Read32(storage, 4 * i))
  }

  function Decode(storage: seq<u8>, is32Bit: bool): seq<u32> {
    if is32Bit then Decode32(storage) else Decode16(storage)
  }

  lemma TwoBytes(v: int)
    requires 0 <= v < 0x1_0000
    ensures ByteOf(v, 0) as int + 0x100 * ByteOf(v, 1) as int == v
  {
  }

  lemma FourBytes(v: int)
    requires 0 <= v < 0x1_0000_0000
    ensures ByteOf(v, 0) as int + 0x100 * ByteOf(v, 1) as int +
      0x1_0000 * ByteOf(v, 2) as int + 0x100_0000 * ByteOf(v, 3) as int == v
  {
    var q := v / 0x100;
    assert v == 0x100 * q + ByteOf(v, 0) as int;
    assert q == 0x100 * (q / 0x100) + ByteOf(v, 1) as int;
    assert q / 0x100 == v / 0x1_0000;
    var q2 := v / 0x1_0000;
    assert q2 == 0x100 * (q2 / 0x100) + ByteOf(v, 2) as int;
    assert q2 / 0x100 == v / 0x100_0000;
  }

  /** Reading 16-bit storage back gives every index modulo 2^16. */
  lemma Decode16Encode16(indices: seq<u32>)
    ensures |Decode16(Encode16(indices))| == |indices|
    ensures forall i :: 0 <= i < |indices| ==> Decode16(Encode16(indices))[i] as int == indices[i] as int % 0x1_0000
  {
    var s := Encode16(indices);
    forall i | 0 <= i < |indices|
      ensures Decode16(s)[i] as int == indices[i] as int % 0x1_0000
    {
      var v := indices[i] as int % 0x1_0000;
      assert (2 * i) / 2 == i && (2 * i + 1) / 2 == i;
      assert s[2 * i] == ByteOf(v, 0) && s[2 * i + 1] == ByteOf(v, 1);
      TwoBytes(v);
    }
  }

  /** Reading 32-bit storage back gives every index. */
  lemma Decode32Encode32(indices: seq<u32>)
    ensures Decode32(Encode32(indices)) == indices
  {
    var s := Encode32(indices);
    forall i | 0 <= i < |indices|
      ensures Decode32(s)[i] == indices[i]
    {
      var v := indices[i] as int;
      assert (4 * i) / 4 == i && (4 * i + 1) / 4 == i && (4 * i + 2) / 4 == i && (4 * i + 3) / 4 == i;
      assert s[4 * i] == ByteOf(v, 0) && s[4 * i + 1] == ByteOf(v, 1);
      assert s[4 * i + 2] == ByteOf(v, 2) && s[4 * i + 3] == ByteOf(v, 3);
      FourBytes(v);
    }
  }

  /** Whether SetIndices stores 32-bit values: always when forced, never
      when 16 bits are forced, and on auto-detection exactly when some
      index does not fit in 16 bits. */
  function Use32Bit(indices: seq<u32>, desiredStride: IndexBufferStride): (r: bool)
    ensures desiredStride == AutoDetect ==> (r <==> exists i :: 0 <= i < |indices| && indices[i] as int > MAX_UINT16)
  {
    desiredStride == Force32Bit ||
    (desiredStride == AutoDetect && exists i :: 0 <= i < |indices| && indices[i] as int > MAX_UINT16)
  }

  /** Scans the indices until one needs more than 16 bits. */
  method DetectStride(indices: seq<u32>, desiredStride: IndexBufferStride) returns (use32Bit: bool)
    ensures use32Bit == Use32Bit(indices, desiredStride)
  {
    use32Bit := false;
    if desiredStride == Force32Bit {
      use32Bit := true;
    } else if desiredStride == AutoDetect {
      var i := 0;
      while !use32Bit && i < |indices|
        invariant 0 <= i <= |indices|
        invariant use32Bit <==> exists j :: 0 <= j < i && indices[j] as int > MAX_UINT16
      {
        use32Bit := indices[i] as int > MAX_UINT16;
        i := i + 1;
      }
    }
  }

  /** Fills 16-bit storage index by index, dropping the high bits. */
  method Demote(indices: seq<u32>) returns (storage: seq<u8>)
    ensures storage == Encode16(indices)
  {
    storage := [];
    var i := 0;
    while i < |indices|
      invariant 0 <= i <= |indices|
      invariant storage == Encode16(indices[..i])
    {
      var v := indices[i] as int % 0x1_0000;
      assert Encode16(indices[..i + 1]) == Encode16(indices[..i]) + [ByteOf(v, 0), ByteOf(v, 1)];
      storage := storage + [ByteOf(v, 0), ByteOf(v, 1)];
      i := i + 1;
    }
    assert indices[..i] == indices;
  }

  /** A view of index storage that reads it at the stored width. */
  datatype IndexArrayView = IndexArrayView(data: seq<u8>, numIndices: int, is32Bit: bool)
  {
    function At(i: int): (r: u32)
      requires 0 <= i < numIndices
      requires numIndices <= |data| / (if is32Bit then 4 else 2)
      ensures !is32Bit ==> r as int < 0x1_0000
    {
      assert 4 * (|data| / 4) <= |data| && 2 * (|data| / 2) <= |data|;
      if is32Bit then Read32(data, 4 * i) else Read16(data, 2 * i)
    }

    function Num(): int {
      numIndices
    }
  }

  class RawStaticIndexBuffer {
    var IndexStorage: seq<u8>
    var Is32Bit: bool

    /** The storage holds whole indices of the recorded width or, after
        the 32-bit path of SetIndices, of twice that width. */
    predicate Valid()
      reads this
    {
      |IndexStorage| % 2 == 0 && (Is32Bit ==> |IndexStorage| % 4 == 0)
    }

    constructor(needsCpuAccess: bool)
      ensures IndexStorage == [] && !Is32Bit && Valid()
    {
      IndexStorage := [];
      Is32Bit := false;
    }

    /** Stores the indices at the width DetectStride picks. The 32-bit
        path copies the bytes but leaves the width flag as it was. */
    method SetIndices(indices: seq<u32>, desiredStride: IndexBufferStride)
      modifies this
      ensures Use32Bit(indices, desiredStride) ==> IndexStorage == Encode32(indices) && Is32Bit == old(Is32Bit)
      ensures !Use32Bit(indices, desiredStride) ==> IndexStorage == Encode16(indices) && !Is32Bit
      ensures |IndexStorage| == (if Use32Bit(indices, desiredStride) then 4 else 2) * |indices|
      ensures Valid()
    {
      var use32Bit := DetectStride(indices, desiredStride);
      if use32Bit {
        IndexStorage := Encode32(indices);
      } else {
        IndexStorage := Demote(indices);
        Is32Bit := false;
      }
    }

    /** SetIndices with the width flag recorded on both paths. */
    method SetIndicesCorrected(indices: seq<u32>, desiredStride: IndexBufferStride)
      modifies this
      ensures Is32Bit == Use32Bit(indices, desiredStride)
      ensures IndexStorage == Encode(indices, Is32Bit)
      ensures |IndexStorage| == (if Is32Bit then 4 else 2) * |indices|
      ensures Valid()
    {
      var use32Bit := DetectStride(indices, desiredStride);
      if use32Bit {
        IndexStorage := Encode32(indices);
      } else {
        IndexStorage := Demote(indices);
      }
      Is32Bit := use32Bit;
    }

    function GetNumIndices(): (r: int)
      reads this
      ensures r == |Decode(IndexStorage, Is32Bit)|
    {
      if Is32Bit then |IndexStorage| / 4 else |IndexStorage| / 2
    }

    /** Copies the indices out at the recorded width. */
    method GetCopy() returns (outIndices: seq<u32>)
      requires Valid()
      ensures outIndices == Decode(IndexStorage, Is32Bit)
    {
      var numIndices := if Is32Bit then |IndexStorage| / 4 else |IndexStorage| / 2;
      if Is32Bit {
        outIndices := Decode32(IndexStorage);
      } else {
        outIndices := [];
        var i := 0;
        while i < numIndices
          invariant 0 <= i <= numIndices
          invariant outIndices == Decode16(IndexStorage)[..i]
        {
          outIndices := outIndices + [Read16(IndexStorage, 2 * i)];
          i := i + 1;
        }
      }
    }

    function GetArrayView(): (r: IndexArrayView)
      reads this
      ensures r.data == IndexStorage && r.is32Bit == Is32Bit && r.Num() == GetNumIndices()
      ensures forall i :: 0 <= i < r.Num() ==> r.At(i) == Decode(IndexStorage, Is32Bit)[i]
    {
      IndexArrayView(IndexStorage, if Is32Bit then |IndexStorage| / 4 else |IndexStorage| / 2, Is32Bit)
    }
  }

  /** The storage SetIndices fills at the given width. */
  function Encode(indices: seq<u32>, is32Bit: bool): (r: seq<u8>)
    ensures |r| == (if is32Bit then 4 else 2) * |indices|
  {
    if is32Bit then Encode32(indices) else Encode16(indices)
  }

  /** 16-bit storage gives back indices that all fit in 16 bits. */
  lemma Decode16EncodeFitting(indices: seq<u32>)
    requires forall i :: 0 <= i < |indices| ==> indices[i] as int <= MAX_UINT16
    ensures Decode16(Encode16(indices)) == indices
  {
    Decode16Encode16(indices);
    SameBelow16Bits(Decode16(Encode16(indices)), indices);
  }

  lemma SameBelow16Bits(back: seq<u32>, indices: seq<u32>)
    requires |back| == |indices|
    requires forall i :: 0 <= i < |indices| ==> indices[i] as int <= MAX_UINT16
    requires forall i :: 0 <= i < |indices| ==> back[i] as int == indices[i] as int % 0x1_0000
    ensures back == indices
  {
  }

  /** Copying the indices back gives them unchanged, at 32 bits always and
      at 16 bits whenever each of them fits. */
  lemma DecodeEncode(indices: seq<u32>, is32Bit: bool)
    requires !is32Bit ==> forall i :: 0 <= i < |indices| ==> indices[i] as int <= MAX_UINT16
    ensures Decode(Encode(indices, is32Bit), is32Bit) == indices
  {
    if is32Bit {
      Decode32Encode32(indices);
    } else {
      Decode16EncodeFitting(indices);
    }
  }

  /** Auto-detection never loses an index: it picks 16 bits only when all
      of them fit. */
  lemma AutoDetectRoundTrip(indices: seq<u32>)
    ensures Decode(Encode(indices, Use32Bit(indices, AutoDetect)), Use32Bit(indices, AutoDetect)) == indices
  {
    DecodeEncode(indices, Use32Bit(indices, AutoDetect));
  }

  /** As written, a fresh buffer given the index 65536 stores four bytes
      but keeps the 16-bit flag, so the copy reads two indices, 0 and 1. */
  lemma AsWrittenLosesWideIndex()
    ensures Use32Bit([0x1_0000], AutoDetect)
    ensures Decode(Encode32([0x1_0000]), false) == [0, 1]
  {
    var s := Encode32([0x1_0000]);
    assert s[0] == 0 && s[1] == 0 && s[2] == 1 && s[3] == 0;
    var wide: seq<u32> := [0x1_0000];
    assert wide[0] as int > MAX_UINT16;
  }

  /** As written, whenever auto-detection picks 32 bits on a buffer still
      flagged 16-bit, the copy read back is not the input: it holds twice
      as many indices. */
  lemma AsWrittenCopyDiffers(indices: seq<u32>)
    requires Use32Bit(indices, AutoDetect)
    ensures |Decode(Encode32(indices), false)| == 2 * |indices|
    ensures Decode(Encode32(indices), false) != indices
  {
    var j :| 0 <= j < |indices| && indices[j] as int > MAX_UINT16;
    assert |indices| > 0;
  }

  /** A vertex data array of some element type. */
  class StaticMeshVertexData<T(0)> {
    var Data: seq<T>
    var NeedsCpuAccess: bool

    constructor(needsCpuAccess: bool)
      ensures Data == [] && NeedsCpuAccess == needsCpuAccess
    {
      Data := [];
      NeedsCpuAccess := needsCpuAccess;
    }

    /** Grows the array or cuts it down to `numVertices`, keeping the
        elements both sizes share. New elements are uninitialized memory,
        modelled as copies of an arbitrary `uninitialized` value. */
    method ResizeBuffer(numVertices: nat, uninitialized: T)
      modifies this
      ensures |Data| == numVertices
      ensures forall i :: 0 <= i < numVertices && i < |old(Data)| ==> Data[i] == old(Data)[i]
      ensures NeedsCpuAccess == old(NeedsCpuAccess)
    {
      if |Data| < numVertices {
        Data := Data + seq(numVertices - |Data|, _ => uninitialized);
      } else if |Data| > numVertices {
        Data := Data[..numVertices];
      }
    }
  }

  /** The only part of a build vertex the position buffer reads. */
  datatype StaticMeshBuildVertex = StaticMeshBuildVertex(position: Vector)

  datatype PositionVertex = PositionVertex(position: Vector)

  /** Three 32-bit floats. */
  const PositionVertexSize: nat := 12

  class PositionVertexBuffer {
    var VertexData: StaticMeshVertexData?<PositionVertex>
    var Stride: nat
    var NumVertices: nat

    constructor()
      ensures VertexData == null && Stride == 0 && NumVertices == 0
    {
      VertexData := null;
      Stride := 0;
      NumVertices := 0;
    }

    method CleanUp()
      modifies this
      ensures VertexData == null && Stride == old(Stride) && NumVertices == old(NumVertices)
    {
      VertexData := null;
    }

    /** Replaces the vertex storage with a fresh empty array. */
    method AllocateData(needsCpuAccess: bool)
      modifies this
      ensures VertexData != null && fresh(VertexData)
      ensures VertexData.Data == [] && VertexData.NeedsCpuAccess == needsCpuAccess
      ensures Stride == PositionVertexSize && NumVertices == old(NumVertices)
    {
      CleanUp();
      VertexData := new StaticMeshVertexData(needsCpuAccess);
      Stride := PositionVertexSize;
    }

    /** Takes the position of every build vertex, in order. */
    method Init(vertices: seq<StaticMeshBuildVertex>)
      modifies this
      ensures NumVertices == |vertices| && Stride == PositionVertexSize
      ensures VertexData != null && fresh(VertexData)
      ensures |VertexData.Data| == |vertices|
      ensures forall i :: 0 <= i < |vertices| ==> VertexData.Data[i].position == vertices[i].position
    {
      NumVertices := |vertices|;
      AllocateData(true);
      // every element is overwritten below, so the filler is never read
      VertexData.ResizeBuffer(NumVertices, PositionVertex(Vector(0.0, 0.0, 0.0)));
      var vertexIndex := 0;
      while vertexIndex < |vertices|
        invariant 0 <= vertexIndex <= |vertices|
        invariant VertexData != null && fresh(VertexData) && |VertexData.Data| == |vertices|
        invariant forall i :: 0 <= i < vertexIndex ==> VertexData.Data[i].position == vertices[i].position
        invariant NumVertices == |vertices| && Stride == PositionVertexSize
      {
        VertexData.Data := VertexData.Data[vertexIndex := PositionVertex(vertices[vertexIndex].position)];
        vertexIndex := vertexIndex + 1;
      }
    }
  }

  /** The two texture coordinates of a vertex. */
  class StaticMeshUVVertexData {
    var UVs: seq<Vector2D>

    predicate Valid()
      reads this
    {
      |UVs| == 2
    }

    constructor(uv0: Vector2D, uv1: Vector2D)
      ensures UVs == [uv0, uv1] && Valid()
    {
      UVs := [uv0, uv1];
    }

    /** The UV set stored at the index (SetUV's ensures read it back). */
    function GetUV(texCoordIndex: nat): (uv: Vector2D)
      reads this
      requires Valid() && texCoordIndex < 2
      ensures uv == UVs[texCoordIndex]
    {
      UVs[texCoordIndex]
    }

    method SetUV(texCoordIndex: nat, uv: Vector2D)
      requires Valid() && texCoordIndex < 2
      modifies this
      ensures Valid() && GetUV(texCoordIndex) == uv
      ensures forall k :: 0 <= k < 2 && k != texCoordIndex ==> GetUV(k) == old(GetUV(k))
    {
      UVs := UVs[texCoordIndex := uv];
    }
  }
}
