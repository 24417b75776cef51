/** Skeletal mesh data: skinned vertices with up to MaxTotalInfluences
    (bone, weight) pairs, the sections of a LOD model, and the resource
    and per-LOD settings bookkeeping around them. */
module SkeletalMesh {
  import opened IntTypes
  import opened Wrappers
  import opened Vectors
  import opened Colors

  /** The influence slots per vertex (UE's MAX_TOTAL_INFLUENCES). */
  const MaxTotalInfluences: nat := 8

  /** The weight of a bone that moves a vertex on its own. */
  const RigidWeight: u8 := 255

  /** A unit vector quantized to four bytes (FPackedNormal): each of x, y
      and z unpacks to b / 127.5 - 1, and w holds the basis sign in a
      vertex's normal. */
  datatype PackedNormal = PackedNormal(x: u8, y: u8, z: u8, w: u8)
  {
    /** The unpacked components scaled by 255, which makes them the exact
        integers 2b - 255. */
    function Scaled(): (r: seq<int>)
      ensures |r| == 3
      ensures forall i :: 0 <= i < 3 ==> -255 <= r[i] <= 255 && r[i] % 2 != 0
    {
      [2 * x as int - 255, 2 * y as int - 255, 2 * z as int - 255]
    }
  }

  /** The determinant of the basis whose rows are the three unpacked axes,
      times 255 * 255 * 255; the factor is positive, so the sign is the
      same. */
  function ScaledBasisDeterminant(xAxis: PackedNormal, yAxis: PackedNormal, zAxis: PackedNormal): int {
    Determinant3(xAxis.Scaled(), yAxis.Scaled(), zAxis.Scaled())
  }

  /** The determinant of the 3 x 3 matrix with rows a, b and c, expanded
      along the first row. */
  function Determinant3(a: seq<int>, b: seq<int>, c: seq<int>): int
    requires |a| == |b| == |c| == 3
  {
    a[0] * (b[1] * c[2] - b[2] * c[1]) - a[1] * (b[0] * c[2] - b[2] * c[0]) + a[2] * (b[0] * c[1] - b[1] * c[0])
  }

  /** Exchanging two rows negates the determinant. */
  lemma Determinant3SwapRows(a: seq<int>, b: seq<int>, c: seq<int>)
    requires |a| == |b| == |c| == 3
    ensures Determinant3(b, a, c) == -Determinant3(a, b, c)
  {
    MulSub(a[0], b[1] * c[2], b[2] * c[1]);
    MulSub(a[1], b[0] * c[2], b[2] * c[0]);
    MulSub(a[2], b[0] * c[1], b[1] * c[0]);
    MulSub(b[0], a[1] * c[2], a[2] * c[1]);
    MulSub(b[1], a[0] * c[2], a[2] * c[0]);
    MulSub(b[2], a[0] * c[1], a[1] * c[0]);
    MulExchange(a[0], b[1], c[2]);
    MulExchange(a[0], b[2], c[1]);
    MulExchange(a[1], b[0], c[2]);
    MulExchange(a[1], b[2], c[0]);
    MulExchange(a[2], b[0], c[1]);
    MulExchange(a[2], b[1], c[0]);
  }

  lemma MulSub(x: int, y: int, z: int)
    ensures x * (y - z) == x * y - x * z
  {
  }

  lemma MulExchange(x: int, y: int, z: int)
    ensures x * (y * z) == y * (x * z)
  {
  }

  /** GetBasisDeterminantSignByte: the sign of the basis determinant, -1 or
      +1, stored as TruncToInt(sign * 127.5 + 127.5), so 0 for a
      left-handed basis and 255 otherwise. */
  function BasisDeterminantSignByte(xAxis: PackedNormal, yAxis: PackedNormal, zAxis: PackedNormal): (r: u8)
    ensures r == 0 <==> ScaledBasisDeterminant(xAxis, yAxis, zAxis) < 0
    ensures r == 255 <==> ScaledBasisDeterminant(xAxis, yAxis, zAxis) >= 0
  {
    var sign := if ScaledBasisDeterminant(xAxis, yAxis, zAxis) < 0 then -1 else 1;
    ((sign * 255 + 255) / 2) as u8
  }

  /** Exchanging the tangent and the binormal mirrors the basis: the
      determinant changes sign, and so does the byte unless it is zero. */
  lemma SwappedAxesFlipSign(xAxis: PackedNormal, yAxis: PackedNormal, zAxis: PackedNormal)
    ensures ScaledBasisDeterminant(yAxis, xAxis, zAxis) == -ScaledBasisDeterminant(xAxis, yAxis, zAxis)
    ensures ScaledBasisDeterminant(xAxis, yAxis, zAxis) != 0 ==>
      BasisDeterminantSignByte(yAxis, xAxis, zAxis) == 255 - BasisDeterminantSignByte(xAxis, yAxis, zAxis)
  {
    Determinant3SwapRows(xAxis.Scaled(), yAxis.Scaled(), zAxis.Scaled());
  }

  /** The axes packed from +X, +Y and +Z form a right-handed basis, and
      exchanging the first two a left-handed one. */
  lemma AxisBasisSigns()
    ensures var px, py, pz := PackedNormal(255, 128, 128, 128), PackedNormal(128, 255, 128, 128), PackedNormal(128, 128, 255, 128);
      BasisDeterminantSignByte(px, py, pz) == 255 && BasisDeterminantSignByte(py, px, pz) == 0
  {
  }

  /** A skinned vertex: position, tangent basis, texture coordinates, colour
      and its (bone, weight) slots. */
  datatype SoftSkinVertex = SoftSkinVertex(
    position: Vector, tangentX: PackedNormal, tangentY: PackedNormal, tangentZ: PackedNormal,
    uvs: seq<Vector2D>, color: Color,
    influenceBones: seq<u8>, influenceWeights: seq<u8>)
  {
    /** The influence arrays have their fixed size. */
    predicate WellFormed() {
      |influenceBones| == MaxTotalInfluences && |influenceWeights| == MaxTotalInfluences
    }
  }

  /** A legacy vertex bound to a single bone. */
  datatype RigidSkinVertex = RigidSkinVertex(
    position: Vector, tangentX: PackedNormal, tangentY: PackedNormal, tangentZ: PackedNormal,
    uvs: seq<Vector2D>, color: Color, bone: u8)

  /** The first slot whose weight is 255, if any. */
  function FirstRigidSlot(weights: seq<u8>): (r: Option<nat>)
    ensures r.None? <==> RigidWeight !in weights
    ensures r.Some? ==> r.value < |weights| && weights[r.value] == RigidWeight && RigidWeight !in weights[..r.value]
  {
    if weights == [] then None
    else if weights[0] == RigidWeight then Some(0)
    else
      var r := FirstRigidSlot(weights[1..]);
      assert weights == [weights[0]] + weights[1..];
      if r.Some? then
        assert weights[..r.value + 1] == [weights[0]] + weights[1..][..r.value];
        Some(r.value + 1)
      else None
  }

  /** The bone of the first fully weighted slot, if any. */
  function RigidWeightBone(v: SoftSkinVertex): Option<u8>
    requires v.WellFormed()
  {
    match FirstRigidSlot(v.influenceWeights)
    case Some(slot) => Some(v.influenceBones[slot])
    case None => None
  }

  /** Scans the slots for a weight of 255 and reports its bone; the bone
      out-parameter keeps its value when there is none. */
  method GetRigidWeightBone(v: SoftSkinVertex, outBoneIndex: u8) returns (isRigid: bool, boneIndex: u8)
    requires v.WellFormed()
    ensures isRigid <==> RigidWeight in v.influenceWeights
    ensures isRigid ==> RigidWeightBone(v) == Some(boneIndex)
    ensures !isRigid ==> boneIndex == outBoneIndex
  {
    isRigid := false;
    boneIndex := outBoneIndex;
    var weightIdx := 0;
    while weightIdx < MaxTotalInfluences
      invariant 0 <= weightIdx <= MaxTotalInfluences
      invariant RigidWeight !in v.influenceWeights[..weightIdx] && !isRigid && boneIndex == outBoneIndex
    {
      if v.influenceWeights[weightIdx] == RigidWeight {
        isRigid := true;
        boneIndex := v.influenceBones[weightIdx];
        assert FirstRigidSlot(v.influenceWeights) == Some(weightIdx);
        return;
      }
      assert v.influenceWeights[..weightIdx + 1] == v.influenceWeights[..weightIdx] + [v.influenceWeights[weightIdx]];
      weightIdx := weightIdx + 1;
    }
    assert v.influenceWeights[..weightIdx] == v.influenceWeights;
  }

  /** Copies a legacy rigid vertex into the soft format: the tangent basis
      with the sign of its determinant in the normal's w, and the bone fully
      weighted in slot 0 with every other slot cleared. */
  method ConvertToSoftVert(rigid: RigidSkinVertex, dest: SoftSkinVertex) returns (converted: SoftSkinVertex)
    requires dest.WellFormed()
    ensures converted.WellFormed()
    ensures converted.position == rigid.position && converted.uvs == rigid.uvs && converted.color == rigid.color
    ensures converted.tangentX == rigid.tangentX && converted.tangentY == rigid.tangentY
    ensures converted.tangentZ == rigid.tangentZ.(w := BasisDeterminantSignByte(rigid.tangentX, rigid.tangentY, rigid.tangentZ))
    ensures converted.tangentZ.w == 0 <==> ScaledBasisDeterminant(rigid.tangentX, rigid.tangentY, rigid.tangentZ) < 0
    ensures converted.influenceBones[0] == rigid.bone && converted.influenceWeights[0] == RigidWeight
    ensures forall i :: 1 <= i < MaxTotalInfluences ==> converted.influenceBones[i] == 0 && converted.influenceWeights[i] == 0
    ensures RigidWeightBone(converted) == Some(rigid.bone)
  {
    var tangentZ := rigid.tangentZ.(w := BasisDeterminantSignByte(rigid.tangentX, rigid.tangentY, rigid.tangentZ));
    var bones := dest.influenceBones[0 := rigid.bone];
    var weights := dest.influenceWeights[0 := RigidWeight];
    var influenceIndex := 1;
    while influenceIndex < MaxTotalInfluences
      invariant 1 <= influenceIndex <= MaxTotalInfluences
      invariant |bones| == |weights| == MaxTotalInfluences
      invariant bones[0] == rigid.bone && weights[0] == RigidWeight
      invariant forall i :: 1 <= i < influenceIndex ==> bones[i] == 0 && weights[i] == 0
    {
      bones := bones[influenceIndex := 0];
      weights := weights[influenceIndex := 0];
      influenceIndex := influenceIndex + 1;
    }
    converted := SoftSkinVertex(rigid.position, rigid.tangentX, rigid.tangentY, tangentZ, rigid.uvs, rigid.color, bones, weights);
    assert FirstRigidSlot(weights) == Some(0);
  }

  // ---------------------------------------------------------------------
  // Influence packing

  /** The number of slots with a nonzero weight. */
  function BonesUsed(weights: seq<u8>): nat {
    |weights| - multiset(weights)[0]
  }

  /** The (weight, bone) pairs of a vertex. */
  function Pairs(weights: seq<u8>, bones: seq<u8>): seq<(u8, u8)>
    requires |weights| == |bones|
  {
    seq(|weights|, i requires 0 <= i < |weights| => (weights[i], bones[i]))
  }

  /** A sequence holds `x` in every position exactly when `x` occurs as
      many times as it has elements. */
  lemma {:induction false} AllEqualIffFullCount(s: seq<u8>, x: u8)
    ensures multiset(s)[x] == |s| <==> forall i :: 0 <= i < |s| ==> s[i] == x
  {
    if s != [] {
      AllEqualIffFullCount(s[1..], x);
      assert s == [s[0]] + s[1..];
      assert multiset(s) == multiset{s[0]} + multiset(s[1..]);
      assert multiset(s[1..])[x] <= |s[1..]|;
      if forall i :: 0 <= i < |s| ==> s[i] == x {
        assert forall i :: 0 <= i < |s[1..]| ==> s[1..][i] == s[i + 1];
      }
    }
  }

  /** Exchanging slots `i` and `j` in both arrays exchanges the pairs, so
      the pairs and the weights stay the same multisets. */
  lemma SwapKeepsPairs(weights: seq<u8>, bones: seq<u8>, i: nat, j: nat)
    requires |weights| == |bones| && i < |weights| && j < |weights|
    ensures multiset(weights[i := weights[j]][j := weights[i]]) == multiset(weights)
    ensures Pairs(weights[i := weights[j]][j := weights[i]], bones[i := bones[j]][j := bones[i]]) ==
      Pairs(weights, bones)[i := Pairs(weights, bones)[j]][j := Pairs(weights, bones)[i]]
    ensures multiset(Pairs(weights[i := weights[j]][j := weights[i]], bones[i := bones[j]][j := bones[i]])) ==
      multiset(Pairs(weights, bones))
  {
    var p := Pairs(weights, bones);
    assert p[i := p[j]][j := p[i]] == Pairs(weights[i := weights[j]][j := weights[i]], bones[i := bones[j]][j := bones[i]]);
  }

  /** Counts the nonzero weights, then moves nonzero (weight, bone) pairs
      forward by exchanges so that they fill the first slots. */
  method PackInfluences(weights0: seq<u8>, bones0: seq<u8>) returns (weights: seq<u8>, bones: seq<u8>, bonesUsed: nat)
    requires |weights0| == |bones0| == MaxTotalInfluences
    ensures |weights| == |bones| == MaxTotalInfluences
    ensures bonesUsed == BonesUsed(weights0)
    ensures forall i :: 0 <= i < bonesUsed ==> weights[i] != 0
    ensures forall i :: bonesUsed <= i < MaxTotalInfluences ==> weights[i] == 0
    ensures multiset(Pairs(weights, bones)) == multiset(Pairs(weights0, bones0))
  {
    bonesUsed := CountBonesUsed(weights0);
    weights, bones := weights0, bones0;
    var influenceIdx := 0;
    while influenceIdx < bonesUsed
      invariant 0 <= influenceIdx <= bonesUsed <= MaxTotalInfluences
      invariant |weights| == |bones| == MaxTotalInfluences
      invariant multiset(weights) == multiset(weights0)
      invariant multiset(Pairs(weights, bones)) == multiset(Pairs(weights0, bones0))
      invariant forall i :: 0 <= i < influenceIdx ==> weights[i] != 0
    {
      if weights[influenceIdx] == 0 {
        weights, bones := FillSlot(weights, bones, influenceIdx, bonesUsed);
      }
      influenceIdx := influenceIdx + 1;
    }
    ZeroTailOfFullCount(weights, bonesUsed);
  }

  /** The number of nonzero weights, counted slot by slot. */
  method CountBonesUsed(weights: seq<u8>) returns (bonesUsed: nat)
    ensures bonesUsed == BonesUsed(weights)
  {
    bonesUsed := 0;
    var influenceIdx := 0;
    while influenceIdx < |weights|
      invariant 0 <= influenceIdx <= |weights|
      invariant bonesUsed == influenceIdx - multiset(weights[..influenceIdx])[0]
    {
      assert weights[..influenceIdx + 1] == weights[..influenceIdx] + [weights[influenceIdx]];
      if weights[influenceIdx] > 0 {
        bonesUsed := bonesUsed + 1;
      }
      influenceIdx := influenceIdx + 1;
    }
    assert weights[..influenceIdx] == weights;
  }

  /** Exchanges the zero slot `slot` with the first later slot holding a
      nonzero weight; with fewer zeros than slots from `slot` on, one
      exists. */
  method FillSlot(weights0: seq<u8>, bones0: seq<u8>, slot: nat, bonesUsed: nat) returns (weights: seq<u8>, bones: seq<u8>)
    requires |weights0| == |bones0| && slot < bonesUsed <= |weights0|
    requires bonesUsed == BonesUsed(weights0) && weights0[slot] == 0
    requires forall i :: 0 <= i < slot ==> weights0[i] != 0
    ensures |weights| == |bones| == |weights0|
    ensures multiset(weights) == multiset(weights0)
    ensures multiset(Pairs(weights, bones)) == multiset(Pairs(weights0, bones0))
    ensures forall i :: 0 <= i <= slot ==> weights[i] != 0
  {
    var exchangeIdx := slot + 1;
    while exchangeIdx < |weights0| && weights0[exchangeIdx] == 0
      invariant slot < exchangeIdx <= |weights0|
      invariant forall k :: slot <= k < exchangeIdx ==> weights0[k] == 0
    {
      exchangeIdx := exchangeIdx + 1;
    }
    if exchangeIdx == |weights0| {
      ZeroCountOfZeroTail(weights0, slot);
      assert false;
    }
    SwapKeepsPairs(weights0, bones0, slot, exchangeIdx);
    weights := weights0[slot := weights0[exchangeIdx]][exchangeIdx := weights0[slot]];
    bones := bones0[slot := bones0[exchangeIdx]][exchangeIdx := bones0[slot]];
  }

  /** Weights nonzero before `k`, with `|weights| - k` zeros in all, are
      zero from `k` on. */
  lemma ZeroTailOfFullCount(weights: seq<u8>, k: nat)
    requires k <= |weights| && multiset(weights)[0] == |weights| - k
    requires forall i :: 0 <= i < k ==> weights[i] != 0
    ensures forall i :: k <= i < |weights| ==> weights[i] == 0
  {
    NoZeroInPrefix(weights, k);
    assert weights == weights[..k] + weights[k..];
    AllEqualIffFullCount(weights[k..], 0);
    forall i | k <= i < |weights| ensures weights[i] == 0 {
      assert weights[i] == weights[k..][i - k];
    }
  }

  /** Weights nonzero before `k` and zero from `k` on hold `|weights| - k`
      zeros. */
  lemma ZeroCountOfZeroTail(weights: seq<u8>, k: nat)
    requires k <= |weights|
    requires forall i :: 0 <= i < k ==> weights[i] != 0
    requires forall i :: k <= i < |weights| ==> weights[i] == 0
    ensures multiset(weights)[0] == |weights| - k
  {
    NoZeroInPrefix(weights, k);
    AllEqualIffFullCount(weights[k..], 0);
    assert weights == weights[..k] + weights[k..];
  }

  /** A prefix without a zero weight holds no zero. */
  lemma NoZeroInPrefix(weights: seq<u8>, k: nat)
    requires k <= |weights|
    requires forall i :: 0 <= i < k ==> weights[i] != 0
    ensures multiset(weights[..k])[0] == 0
  {
    assert 0 !in weights[..k];
  }

  /** The largest number of influences any vertex uses, and at least 1. */
  function MaxBonesUsed(vertices: seq<SoftSkinVertex>): (r: nat)
    ensures r >= 1
    ensures forall v :: v in vertices ==> BonesUsed(v.influenceWeights) <= r
  {
    if vertices == [] then 1
    else
      var init := MaxBonesUsed(vertices[..|vertices| - 1]);
      var last := BonesUsed(vertices[|vertices| - 1].influenceWeights);
      assert forall v :: v in vertices ==> v in vertices[..|vertices| - 1] || v == vertices[|vertices| - 1];
      if last > init then last else init
  }

  /** Taking one more vertex into account. */
  lemma MaxBonesUsedStep(vertices: seq<SoftSkinVertex>, i: nat)
    requires i < |vertices|
    ensures var m, b := MaxBonesUsed(vertices[..i]), BonesUsed(vertices[i].influenceWeights);
      MaxBonesUsed(vertices[..i + 1]) == if m > b then m else b
  {
    assert vertices[..i + 1][..i] == vertices[..i];
  }

  /** MaxBonesUsed is attained: it is 1 or some vertex's count. */
  lemma {:induction false} MaxBonesUsedAttained(vertices: seq<SoftSkinVertex>)
    ensures MaxBonesUsed(vertices) == 1 || exists v :: v in vertices && BonesUsed(v.influenceWeights) == MaxBonesUsed(vertices)
  {
    if vertices != [] {
      MaxBonesUsedAttained(vertices[..|vertices| - 1]);
      var init := vertices[..|vertices| - 1];
      if MaxBonesUsed(vertices) != 1 && MaxBonesUsed(vertices) == MaxBonesUsed(init) {
        var v :| v in init && BonesUsed(v.influenceWeights) == MaxBonesUsed(init);
        assert v in vertices;
      }
    }
  }

  /** One vertex with its influences packed, and the slots it uses. */
  method PackVertex(v: SoftSkinVertex) returns (packed: SoftSkinVertex, bonesUsed: nat)
    requires v.WellFormed()
    ensures PackedFrom(packed, v) && bonesUsed == BonesUsed(v.influenceWeights)
  {
    var weights, bones, used := PackInfluences(v.influenceWeights, v.influenceBones);
    packed, bonesUsed := v.(influenceWeights := weights, influenceBones := bones), used;
  }

  /** Packing vertex `i` in place extends the packed prefix by one and
      leaves the vertices after it as they were. */
  lemma PackedPrefixStep(vs: seq<SoftSkinVertex>, original: seq<SoftSkinVertex>, i: nat, packed: SoftSkinVertex)
    requires i < |vs| == |original|
    requires forall k :: 0 <= k < |original| ==> original[k].WellFormed()
    requires forall k :: 0 <= k < i ==> PackedFrom(vs[k], original[k])
    requires forall k :: i <= k < |vs| ==> vs[k] == original[k]
    requires PackedFrom(packed, original[i])
    ensures forall k :: 0 <= k < i + 1 ==> PackedFrom(vs[i := packed][k], original[k])
    ensures forall k :: i + 1 <= k < |vs| ==> vs[i := packed][k] == original[k]
  {
  }

  /** The vertex with its influences packed as PackInfluences leaves them:
      the same pairs, the nonzero weights first. */
  predicate PackedFrom(v: SoftSkinVertex, old_: SoftSkinVertex)
    requires old_.WellFormed()
  {
    v.WellFormed() &&
    v == old_.(influenceWeights := v.influenceWeights, influenceBones := v.influenceBones) &&
    multiset(Pairs(v.influenceWeights, v.influenceBones)) == multiset(Pairs(old_.influenceWeights, old_.influenceBones)) &&
    (forall i :: 0 <= i < BonesUsed(old_.influenceWeights) ==> v.influenceWeights[i] != 0) &&
    (forall i :: BonesUsed(old_.influenceWeights) <= i < MaxTotalInfluences ==> v.influenceWeights[i] == 0)
  }

  /** Triangle sort modes; CustomLeftRight keeps a second copy of the
      section's indices. */
  datatype TriangleSortOption = None_ | CenterRadialDistance | Random | MergeContiguous | Custom | CustomLeftRight

  class SkelMeshSection {
    var NumTriangles: int
    var BaseIndex: int
    var SoftVertices: seq<SoftSkinVertex>
    var MaxBoneInfluences: int
    var TriangleSorting: TriangleSortOption

    function GetNumVertices(): int
      reads this
    {
      |SoftVertices|
    }

    predicate VerticesWellFormed()
      reads this
    {
      forall k :: 0 <= k < |SoftVertices| ==> SoftVertices[k].WellFormed()
    }

    /** Packs every vertex's influences and records the most any vertex
        uses, at least 1. */
    method CalcMaxBoneInfluences()
      requires VerticesWellFormed()
      modifies this`SoftVertices, this`MaxBoneInfluences
      ensures |SoftVertices| == |old(SoftVertices)|
      ensures forall k :: 0 <= k < |SoftVertices| ==> PackedFrom(SoftVertices[k], old(SoftVertices)[k])
      ensures MaxBoneInfluences == MaxBonesUsed(old(SoftVertices))
    {
      ghost var original := SoftVertices;
      MaxBoneInfluences := 1;
      var vertIdx := 0;
      while vertIdx < |SoftVertices|
        invariant 0 <= vertIdx <= |SoftVertices| == |original|
        invariant forall k :: vertIdx <= k < |SoftVertices| ==> SoftVertices[k] == original[k]
        invariant forall k :: 0 <= k < vertIdx ==> PackedFrom(SoftVertices[k], original[k])
        invariant MaxBoneInfluences == MaxBonesUsed(original[..vertIdx])
      {
        var packed, bonesUsed := PackVertex(SoftVertices[vertIdx]);
        MaxBonesUsedStep(original, vertIdx);
        PackedPrefixStep(SoftVertices, original, vertIdx, packed);
        SoftVertices := SoftVertices[vertIdx := packed];
        MaxBoneInfluences := if MaxBoneInfluences > bonesUsed then MaxBoneInfluences else bonesUsed;
        vertIdx := vertIdx + 1;
      }
      assert original[..vertIdx] == original;
    }
  }

  /** The index buffer after inserting a second copy of the `n` indices at
      `baseIndex`. */
  function InsertCopy(indices: seq<u32>, baseIndex: nat, n: nat): (r: seq<u32>)
    requires baseIndex + n <= |indices|
    ensures |r| == |indices| + n
    ensures forall x :: 0 <= x < baseIndex ==> r[x] == indices[x]
    ensures forall x :: baseIndex <= x < |indices| ==> r[x + n] == indices[x]
  {
    indices[..baseIndex] + indices[baseIndex..baseIndex + n] + indices[baseIndex..]
  }

  /** The index buffer after removing the `n` indices at `baseIndex`. */
  function RemoveRange(indices: seq<u32>, baseIndex: nat, n: nat): (r: seq<u32>)
    requires baseIndex + n <= |indices|
    ensures |r| == |indices| - n
    ensures forall x :: 0 <= x < baseIndex ==> r[x] == indices[x]
    ensures forall x :: baseIndex + n <= x < |indices| ==> r[x - n] == indices[x]
  {
    indices[..baseIndex] + indices[baseIndex + n..]
  }

  /** Switching to CustomLeftRight and back gives the index buffer back. */
  lemma InsertThenRemove(indices: seq<u32>, baseIndex: nat, n: nat)
    requires baseIndex + n <= |indices|
    ensures RemoveRange(InsertCopy(indices, baseIndex, n), baseIndex, n) == indices
  {
    assert InsertCopy(indices, baseIndex, n)[..baseIndex] == indices[..baseIndex];
    assert InsertCopy(indices, baseIndex, n)[baseIndex + n..] == indices[baseIndex..];
  }

  class StaticLodModel {
    var Sections: seq<SkelMeshSection>
    var Indices: seq<u32>
    var HasExtraBoneInfluences: bool

    /** The sections are distinct objects. */
    predicate DistinctSections()
      reads this
    {
      forall i, j :: 0 <= i < j < |Sections| ==> Sections[i] != Sections[j]
    }

    /** The vertices of the first `k` sections. */
    function VerticesBefore(k: nat): (r: int)
      reads this, Sections
      requires k <= |Sections|
      ensures r >= 0
    {
      if k == 0 then 0 else VerticesBefore(k - 1) + Sections[k - 1].GetNumVertices()
    }

    /** The triangles of the first `k` sections. */
    function TrianglesBefore(k: nat): int
      reads this, Sections
      requires k <= |Sections|
    {
      if k == 0 then 0 else TrianglesBefore(k - 1) + Sections[k - 1].NumTriangles
    }

    /** Adds up the sections' triangle counts. */
    method GetTotalFaces() returns (totalFaces: int)
      ensures totalFaces == TrianglesBefore(|Sections|)
    {
      totalFaces := 0;
      var i := 0;
      while i < |Sections|
        invariant 0 <= i <= |Sections|
        invariant totalFaces == TrianglesBefore(i)
      {
        totalFaces := totalFaces + Sections[i].NumTriangles;
        i := i + 1;
      }
    }

    /** Finds the first section whose vertex range, counted from the
        start of the LOD, reaches past `inVertIndex`, and the index within
        it. When none does, the last section is reported with index 0. */
    method GetSectionFromVertexIndex(inVertIndex: int) returns (outSectionIndex: int, outVertIndex: int, outHasExtraBoneInfluences: bool)
      ensures 0 <= outSectionIndex < |Sections| && inVertIndex < VerticesBefore(outSectionIndex + 1) ==>
        outVertIndex == inVertIndex - VerticesBefore(outSectionIndex) && outHasExtraBoneInfluences == HasExtraBoneInfluences &&
        forall s :: 1 <= s <= outSectionIndex ==> inVertIndex >= VerticesBefore(s)
      ensures (exists s :: 1 <= s <= |Sections| && inVertIndex < VerticesBefore(s)) ==>
        0 <= outSectionIndex < |Sections| && inVertIndex < VerticesBefore(outSectionIndex + 1) &&
        (inVertIndex >= 0 ==> VerticesBefore(outSectionIndex) <= inVertIndex)
      ensures (forall s :: 1 <= s <= |Sections| ==> inVertIndex >= VerticesBefore(s)) ==>
        outSectionIndex == (if |Sections| == 0 then 0 else |Sections| - 1) && outVertIndex == 0 && !outHasExtraBoneInfluences
      ensures |Sections| > 0 ==> 0 <= outSectionIndex < |Sections|
    {
      outSectionIndex, outVertIndex, outHasExtraBoneInfluences := 0, 0, false;
      var vertCount := 0;
      var sectionCount := 0;
      while sectionCount < |Sections|
        invariant 0 <= sectionCount <= |Sections|
        invariant vertCount == VerticesBefore(sectionCount)
        invariant forall s :: 1 <= s <= sectionCount ==> inVertIndex >= VerticesBefore(s)
        invariant outSectionIndex == (if sectionCount == 0 then 0 else sectionCount - 1)
        invariant outVertIndex == 0 && !outHasExtraBoneInfluences
      {
        outSectionIndex := sectionCount;
        if inVertIndex < vertCount + Sections[sectionCount].GetNumVertices() {
          outVertIndex := inVertIndex - vertCount;
          outHasExtraBoneInfluences := HasExtraBoneInfluences;
          return;
        }
        vertCount := vertCount + Sections[sectionCount].GetNumVertices();
        sectionCount := sectionCount + 1;
      }
    }

    /** The part of SortTriangles that keeps the index buffer and the
        sections' base indices in step: switching a section to
        CustomLeftRight inserts a copy of its indices and moves every later
        section up by that many; switching away removes the copy and moves
        them back down. The sort routines themselves leave the indices as
        they are. */
    method SortTriangles(sectionIndex: nat, newTriangleSorting: TriangleSortOption)
      requires sectionIndex < |Sections| && DistinctSections()
      requires 0 <= Sections[sectionIndex].BaseIndex && 0 <= Sections[sectionIndex].NumTriangles
      requires Sections[sectionIndex].BaseIndex + 3 * Sections[sectionIndex].NumTriangles <= |Indices|
      modifies this`Indices, Sections`BaseIndex, Sections`TriangleSorting
      ensures Sections[sectionIndex].TriangleSorting == newTriangleSorting
      ensures forall k :: 0 <= k < |Sections| && k != sectionIndex ==> Sections[k].TriangleSorting == old(Sections[k].TriangleSorting)
      ensures var delta := CopyDelta(old(Sections[sectionIndex].TriangleSorting), newTriangleSorting, 3 * old(Sections[sectionIndex].NumTriangles));
        forall s :: s in Sections ==>
          s.BaseIndex == old(s.BaseIndex) + (if old(s.BaseIndex) > old(Sections[sectionIndex].BaseIndex) then delta else 0)
      ensures var base, n := old(Sections[sectionIndex].BaseIndex), 3 * old(Sections[sectionIndex].NumTriangles);
        Indices == IndicesAfterSort(old(Indices), old(Sections[sectionIndex].TriangleSorting), newTriangleSorting, base, n)
    {
      var section := Sections[sectionIndex];
      if newTriangleSorting == section.TriangleSorting {
        return;
      }
      var base := section.BaseIndex;
      var numIndices := section.NumTriangles * 3;
      if newTriangleSorting == CustomLeftRight {
        Indices := InsertCopy(Indices, base, numIndices);
        ShiftLaterSections(base, numIndices);
      } else if section.TriangleSorting == CustomLeftRight {
        Indices := RemoveRange(Indices, base, numIndices);
        ShiftLaterSections(base, -numIndices);
      }
      section.TriangleSorting := newTriangleSorting;
    }

    /** Adds `delta` to the base index of every section that starts after
        `base`. */
    method ShiftLaterSections(base: int, delta: int)
      requires DistinctSections()
      modifies Sections`BaseIndex
      ensures forall s :: s in Sections ==> s.BaseIndex == old(s.BaseIndex) + (if old(s.BaseIndex) > base then delta else 0)
    {
      var otherSectionIdx := 0;
      while otherSectionIdx < |Sections|
        invariant 0 <= otherSectionIdx <= |Sections|
        invariant forall k :: 0 <= k < otherSectionIdx ==>
          Sections[k].BaseIndex == old(Sections[k].BaseIndex) + (if old(Sections[k].BaseIndex) > base then delta else 0)
        invariant forall k :: otherSectionIdx <= k < |Sections| ==> Sections[k].BaseIndex == old(Sections[k].BaseIndex)
      {
        var other := Sections[otherSectionIdx];
        if other.BaseIndex > base {
          other.BaseIndex := other.BaseIndex + delta;
        }
        otherSectionIdx := otherSectionIdx + 1;
      }
    }
  }

  /** How far SortTriangles moves the sections after the changed one. */
  function CopyDelta(oldSorting: TriangleSortOption, newSorting: TriangleSortOption, n: int): int {
    if oldSorting == newSorting then 0
    else if newSorting == CustomLeftRight then n
    else if oldSorting == CustomLeftRight then -n
    else 0
  }

  /** The index buffer after SortTriangles changes one section's sorting. */
  function IndicesAfterSort(indices: seq<u32>, oldSorting: TriangleSortOption, newSorting: TriangleSortOption, base: nat, n: nat): (r: seq<u32>)
    requires base + n <= |indices|
    ensures |r| == |indices| + CopyDelta(oldSorting, newSorting, n)
  {
    if oldSorting == newSorting then indices
    else if newSorting == CustomLeftRight then InsertCopy(indices, base, n)
    else if oldSorting == CustomLeftRight then RemoveRange(indices, base, n)
    else indices
  }

  /** After the copy is inserted, a section lying before the changed one
      reads the same indices, and one starting at or after it reads them
      moved up by `n`. */
  lemma InsertKeepsOtherSections(indices: seq<u32>, base: nat, n: nat, otherBase: nat, otherCount: nat)
    requires base + n <= |indices| && otherBase + otherCount <= |indices|
    requires otherBase + otherCount <= base || otherBase >= base
    ensures var r, shift := InsertCopy(indices, base, n), if otherBase >= base then n else 0;
      r[otherBase + shift..otherBase + shift + otherCount] == indices[otherBase..otherBase + otherCount]
  {
    var r := InsertCopy(indices, base, n);
    if otherBase >= base {
      assert r[otherBase + n..otherBase + n + otherCount] == indices[otherBase..otherBase + otherCount] by {
        forall x | otherBase <= x < otherBase + otherCount
          ensures r[x + n] == indices[x]
        {
        }
      }
    } else {
      assert r[otherBase..otherBase + otherCount] == indices[otherBase..otherBase + otherCount];
    }
  }

  /** After the copy is removed, a section lying before the removed range
      reads the same indices, and one after it reads them moved down by
      `n`. */
  lemma RemoveKeepsOtherSections(indices: seq<u32>, base: nat, n: nat, otherBase: nat, otherCount: nat)
    requires base + n <= |indices| && otherBase + otherCount <= |indices|
    requires otherBase + otherCount <= base || otherBase >= base + n
    ensures var r, shift := RemoveRange(indices, base, n), if otherBase >= base + n then n else 0;
      r[otherBase - shift..otherBase - shift + otherCount] == indices[otherBase..otherBase + otherCount]
  {
    var r := RemoveRange(indices, base, n);
    if otherBase >= base + n {
      forall x | otherBase - n <= x < otherBase - n + otherCount
        ensures r[x] == indices[x + n]
      {
      }
      assert r[otherBase - n..otherBase - n + otherCount] == indices[otherBase..otherBase + otherCount];
    } else {
      forall x | otherBase <= x < otherBase + otherCount
        ensures r[x] == indices[x]
      {
      }
      assert r[otherBase..otherBase + otherCount] == indices[otherBase..otherBase + otherCount];
    }
  }

  /** Whether each LOD's render resources are initialised. */
  class SkeletalMeshResource {
    var Initialized: bool
    var LodResourcesLive: seq<bool>

    constructor(numLods: nat)
      ensures !Initialized && LodResourcesLive == seq(numLods, _ => false)
    {
      Initialized := false;
      LodResourcesLive := seq(numLods, _ => false);
    }

    /** Initialises every LOD once; a second call does nothing. */
    method InitResources()
      modifies this
      ensures Initialized
      ensures old(Initialized) ==> LodResourcesLive == old(LodResourcesLive)
      ensures !old(Initialized) ==> LodResourcesLive == seq(|old(LodResourcesLive)|, _ => true)
    {
      if !Initialized {
        var lodIndex := 0;
        while lodIndex < |LodResourcesLive|
          invariant 0 <= lodIndex <= |LodResourcesLive| == |old(LodResourcesLive)|
          invariant forall k :: 0 <= k < lodIndex ==> LodResourcesLive[k]
        {
          LodResourcesLive := LodResourcesLive[lodIndex := true];
          lodIndex := lodIndex + 1;
        }
        Initialized := true;
      }
    }

    /** Releases every LOD once; a second call does nothing. */
    method ReleaseResources()
      modifies this
      ensures !Initialized
      ensures !old(Initialized) ==> LodResourcesLive == old(LodResourcesLive)
      ensures old(Initialized) ==> LodResourcesLive == seq(|old(LodResourcesLive)|, _ => false)
    {
      if Initialized {
        var lodIndex := 0;
        while lodIndex < |LodResourcesLive|
          invariant 0 <= lodIndex <= |LodResourcesLive| == |old(LodResourcesLive)|
          invariant forall k :: 0 <= k < lodIndex ==> !LodResourcesLive[k]
        {
          LodResourcesLive := LodResourcesLive[lodIndex := false];
          lodIndex := lodIndex + 1;
        }
        Initialized := false;
      }
    }
  }

  /** Per-section triangle sort settings; the zeroed value sorts nothing. */
  datatype TriangleSortSettings = TriangleSortSettings(triangleSorting: TriangleSortOption, customLeftRightAxis: int)

  const ZeroedSortSettings: TriangleSortSettings := TriangleSortSettings(None_, 0)

  datatype LodInfo = LodInfo(triangleSortSettings: seq<TriangleSortSettings>, lodHysteresis: real)

  const ZeroedLodInfo: LodInfo := LodInfo([], 0.0)

  /** The given settings cut down or padded with zeroed settings to `n`. */
  function Resized(settings: seq<TriangleSortSettings>, n: nat): (r: seq<TriangleSortSettings>)
    ensures |r| == n
    ensures forall i :: 0 <= i < n && i < |settings| ==> r[i] == settings[i]
    ensures forall i :: |settings| <= i < n ==> r[i] == ZeroedSortSettings
  {
    if |settings| > n then settings[..n] else settings + seq(n - |settings|, _ => ZeroedSortSettings)
  }

  class SkeletalMeshAsset {
    var LodInfos: seq<LodInfo>

    /** Recreates the LOD settings when their count is not the number of
        LOD models, then sizes every LOD's sort settings to its section
        count. `sectionCounts` holds each LOD model's number of sections. */
    method PostLoad(sectionCounts: seq<nat>)
      modifies this
      ensures |LodInfos| == |sectionCounts|
      ensures forall i :: 0 <= i < |LodInfos| ==>
        var before := if |old(LodInfos)| == |sectionCounts| then old(LodInfos)[i].triangleSortSettings else [];
        LodInfos[i].triangleSortSettings == Resized(before, sectionCounts[i])
      ensures |old(LodInfos)| != |sectionCounts| ==> forall i :: 0 <= i < |LodInfos| ==> LodInfos[i].lodHysteresis == 0.02
      ensures |old(LodInfos)| == |sectionCounts| ==>
        forall i :: 0 <= i < |LodInfos| ==> LodInfos[i].lodHysteresis == old(LodInfos)[i].lodHysteresis
    {
      if |LodInfos| != |sectionCounts| {
        LodInfos := seq(|sectionCounts|, _ => ZeroedLodInfo.(lodHysteresis := 0.02));
      }
      ghost var start := LodInfos;
      var lodIndex := 0;
      while lodIndex < |sectionCounts|
        invariant 0 <= lodIndex <= |sectionCounts| == |LodInfos| == |start|
        invariant forall i :: lodIndex <= i < |LodInfos| ==> LodInfos[i] == start[i]
        invariant forall i :: 0 <= i < lodIndex ==>
          LodInfos[i] == start[i].(triangleSortSettings := Resized(start[i].triangleSortSettings, sectionCounts[i]))
      {
        var info := LodInfos[lodIndex];
        var settings := info.triangleSortSettings;
        var numSections := sectionCounts[lodIndex];
        if |settings| > numSections {
          settings := settings[..numSections];
        } else if numSections > |settings| {
          settings := settings + seq(numSections - |settings|, _ => ZeroedSortSettings);
        }
        LodInfos := LodInfos[lodIndex := info.(triangleSortSettings := settings)];
        lodIndex := lodIndex + 1;
      }
    }
  }
}
