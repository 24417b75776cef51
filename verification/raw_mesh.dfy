/** YRawMesh: the mesh an importer produces, stored per face, per wedge
    (face corner) and per vertex. Validation checks that the streams agree
    in size; compaction drops materials no face uses. */
module RawMesh {
  import opened IntTypes
  import opened Vectors
  import opened Colors

  const MaxTextureCoords: nat := 8

  /** A stream is acceptable when it is empty or has one entry per
      expected element. */
  predicate ValidateArraySize<T>(a: seq<T>, expectedSize: int) {
    |a| == 0 || |a| == expectedSize
  }

  // ---------------------------------------------------------------------
  // Material compaction, specified over sequences.

  /** The per-section triangle counts after counting one more face with
      material `m`: the counts grow to cover `m`, and a non-negative `m`
      is counted. */
  function CountFace(counts: seq<nat>, m: int): (r: seq<nat>)
    ensures |r| == if m >= |counts| then m + 1 else |counts|
  {
    var grown := if m >= |counts| then counts + seq(m - |counts| + 1, _ => 0) else counts;
    if m >= 0 then grown[m := grown[m] + 1] else grown
  }

  /** The triangle counts per section over all faces, in face order. */
  function TrianglesPerSection(faces: seq<int>): seq<nat> {
    if faces == [] then [] else CountFace(TrianglesPerSection(faces[..|faces| - 1]), faces[|faces| - 1])
  }

  /** The count of section `s` is the number of faces using it, and every
      material a face uses is covered. */
  lemma {:induction false} TrianglesPerSectionCounts(faces: seq<int>)
    ensures forall i :: 0 <= i < |faces| && faces[i] >= 0 ==> faces[i] < |TrianglesPerSection(faces)|
    ensures forall s :: 0 <= s < |TrianglesPerSection(faces)| ==> TrianglesPerSection(faces)[s] == multiset(faces)[s]
  {
    if faces != [] {
      var init, m := faces[..|faces| - 1], faces[|faces| - 1];
      TrianglesPerSectionCounts(init);
      var c := TrianglesPerSection(init);
      assert faces == init + [m];
      assert multiset(faces) == multiset(init) + multiset{m};
      forall s | 0 <= s && s >= |c|
        ensures multiset(init)[s] == 0
      {
        assert forall i :: 0 <= i < |init| ==> init[i] != s;
        assert s !in init;
      }
      forall i | 0 <= i < |faces| && faces[i] >= 0
        ensures faces[i] < |TrianglesPerSection(faces)|
      {
        if i < |init| {
          assert faces[i] == init[i];
        }
      }
    }
  }

  /** The sections with at least one triangle, in increasing order: the
      new material list, each entry the old index it came from. */
  function UsedSections(counts: seq<nat>): (r: seq<int>)
    ensures forall k :: 0 <= k < |r| ==> 0 <= r[k] < |counts| && counts[r[k]] > 0
    ensures |r| <= |counts|
  {
    if counts == [] then []
    else
      var init := UsedSections(counts[..|counts| - 1]);
      if counts[|counts| - 1] > 0 then init + [|counts| - 1] else init
  }

  /** The new index of every old section, or INDEX_NONE for a section
      that is dropped. */
  function NewIndices(counts: seq<nat>): (r: seq<int>)
    ensures |r| == |counts|
  {
    if counts == [] then []
    else
      var n := |counts| - 1;
      NewIndices(counts[..n]) + [if counts[n] > 0 then |UsedSections(counts[..n])| else INDEX_NONE]
  }

  /** A used section's new index names it in the new material list; a
      dropped section gets INDEX_NONE. */
  lemma {:induction false} NewIndicesNameUsedSections(counts: seq<nat>)
    ensures forall s :: 0 <= s < |counts| && counts[s] > 0 ==>
      0 <= NewIndices(counts)[s] < |UsedSections(counts)| && UsedSections(counts)[NewIndices(counts)[s]] == s
    ensures forall s :: 0 <= s < |counts| && counts[s] == 0 ==> NewIndices(counts)[s] == INDEX_NONE
  {
    if counts != [] {
      var n := |counts| - 1;
      var init := counts[..n];
      NewIndicesNameUsedSections(init);
      var used, newIndices := UsedSections(counts), NewIndices(counts);
      var usedInit, newInit := UsedSections(init), NewIndices(init);
      assert newIndices == newInit + [if counts[n] > 0 then |usedInit| else INDEX_NONE];
      assert used == if counts[n] > 0 then usedInit + [n] else usedInit;
      forall s | 0 <= s < |counts| && counts[s] > 0
        ensures 0 <= newIndices[s] < |used| && used[newIndices[s]] == s
      {
        if s < n {
          assert init[s] == counts[s] && newIndices[s] == newInit[s];
          assert used[newInit[s]] == usedInit[newInit[s]];
        }
      }
      forall s | 0 <= s < |counts| && counts[s] == 0
        ensures newIndices[s] == INDEX_NONE
      {
        if s < n {
          assert init[s] == counts[s] && newIndices[s] == newInit[s];
        }
      }
    }
  }

  /** No section is dropped exactly when every section has a triangle. */
  lemma {:induction false} AllUsedIffNoneDropped(counts: seq<nat>)
    ensures |UsedSections(counts)| == |counts| <==> forall s :: 0 <= s < |counts| ==> counts[s] > 0
  {
    if counts != [] {
      var n := |counts| - 1;
      AllUsedIffNoneDropped(counts[..n]);
      assert forall s :: 0 <= s < n ==> counts[..n][s] == counts[s];
    }
  }

  class RawMesh {
    var FaceMaterialIndices: seq<int>
    var FaceSmoothingMasks: seq<u32>
    var VertexPositions: seq<Vector>
    var WedgeIndices: seq<u32>
    var WedgeTangentX: seq<Vector>
    var WedgeTangentY: seq<Vector>
    var WedgeTangentZ: seq<Vector>
    var WedgeTexCoords: seq<seq<Vector2D>>
    var WedgeColors: seq<Color>
    var MaterialIndexToImportIndex: seq<int>

    /** The texture coordinates are a fixed array of streams. */
    predicate Shaped()
      reads this`WedgeTexCoords
    {
      |WedgeTexCoords| == MaxTextureCoords
    }

    /** Every stream has its full size or is empty, the first texture
        coordinate stream is full, and every wedge names a vertex. */
    predicate MeshIsValid()
      reads this
      requires Shaped()
    {
      var numVertices, numWedges := |VertexPositions|, |WedgeIndices|;
      var numFaces := numWedges / 3;
      numVertices > 0 && numWedges > 0 && numFaces > 0
      && ValidateArraySize(FaceMaterialIndices, numFaces)
      && ValidateArraySize(FaceSmoothingMasks, numFaces)
      && ValidateArraySize(WedgeTangentX, numWedges)
      && ValidateArraySize(WedgeTangentY, numWedges)
      && ValidateArraySize(WedgeTangentZ, numWedges)
      && ValidateArraySize(WedgeColors, numWedges)
      && |WedgeTexCoords[0]| == numWedges
      && (forall t :: 1 <= t < MaxTextureCoords ==> ValidateArraySize(WedgeTexCoords[t], numWedges))
      && (forall w :: 0 <= w < numWedges ==> (WedgeIndices[w] as int) < numVertices)
    }

    /** As MeshIsValid, except that the tangents may have any size and
        every face must carry exactly one material and one smoothing mask. */
    predicate MeshIsValidOrFixable()
      reads this`VertexPositions, this`WedgeIndices, this`FaceMaterialIndices, this`FaceSmoothingMasks
      reads this`WedgeColors, this`WedgeTexCoords
      requires Shaped()
    {
      var numVertices, numWedges := |VertexPositions|, |WedgeIndices|;
      var numFaces := numWedges / 3;
      numVertices > 0 && numWedges > 0 && numFaces > 0
      && |FaceMaterialIndices| == numFaces
      && |FaceSmoothingMasks| == numFaces
      && ValidateArraySize(WedgeColors, numWedges)
      && |WedgeTexCoords[0]| == numWedges
      && (forall t :: 1 <= t < MaxTextureCoords ==> ValidateArraySize(WedgeTexCoords[t], numWedges))
      && (forall w :: 0 <= w < numWedges ==> (WedgeIndices[w] as int) < numVertices)
    }

    /** Empties every stream but leaves the material index map. */
    method Empty()
      modifies this
      ensures FaceMaterialIndices == [] && FaceSmoothingMasks == [] && VertexPositions == []
      ensures WedgeIndices == [] && WedgeTangentX == [] && WedgeTangentY == [] && WedgeTangentZ == []
      ensures WedgeColors == [] && Shaped() && forall t :: 0 <= t < MaxTextureCoords ==> WedgeTexCoords[t] == []
      ensures MaterialIndexToImportIndex == old(MaterialIndexToImportIndex)
    {
      FaceMaterialIndices := [];
      FaceSmoothingMasks := [];
      VertexPositions := [];
      WedgeIndices := [];
      WedgeTangentX := [];
      WedgeTangentY := [];
      WedgeTangentZ := [];
      WedgeColors := [];
      WedgeTexCoords := seq(MaxTextureCoords, _ => []);
    }

    /** Checks the sizes, then the texture streams, then each wedge,
        stopping at the first failure. */
    method IsValid() returns (valid: bool)
      requires Shaped()
      ensures valid == MeshIsValid()
    {
      var numVertices, numWedges := |VertexPositions|, |WedgeIndices|;
      var numFaces := numWedges / 3;
      valid := numVertices > 0 && numWedges > 0 && numFaces > 0
        && ValidateArraySize(FaceMaterialIndices, numFaces)
        && ValidateArraySize(FaceSmoothingMasks, numFaces)
        && ValidateArraySize(WedgeTangentX, numWedges)
        && ValidateArraySize(WedgeTangentY, numWedges)
        && ValidateArraySize(WedgeTangentZ, numWedges)
        && ValidateArraySize(WedgeColors, numWedges)
        && |WedgeTexCoords[0]| == numWedges;
      valid := CheckStreams(valid, numWedges);
      valid := CheckWedges(valid);
    }

    /** As IsValid, with the fixable conditions. */
    method IsValidOrFixable() returns (validOrFixable: bool)
      requires Shaped()
      ensures validOrFixable == MeshIsValidOrFixable()
    {
      var numVertices, numWedges := |VertexPositions|, |WedgeIndices|;
      var numFaces := numWedges / 3;
      validOrFixable := numVertices > 0 && numWedges > 0 && numFaces > 0
        && |FaceMaterialIndices| == numFaces
        && |FaceSmoothingMasks| == numFaces
        && ValidateArraySize(WedgeColors, numWedges)
        && |WedgeTexCoords[0]| == numWedges;
      validOrFixable := CheckStreams(validOrFixable, numWedges);
      validOrFixable := CheckWedges(validOrFixable);
    }

    /** The loop over texture coordinate streams 1 and up. */
    method CheckStreams(valid: bool, numWedges: int) returns (r: bool)
      requires Shaped()
      ensures r <==> valid && forall t :: 1 <= t < MaxTextureCoords ==> ValidateArraySize(WedgeTexCoords[t], numWedges)
    {
      r := valid;
      var texCoordIndex := 1;
      while texCoordIndex < MaxTextureCoords
        invariant 1 <= texCoordIndex <= MaxTextureCoords
        invariant r <==> valid && forall t :: 1 <= t < texCoordIndex ==> ValidateArraySize(WedgeTexCoords[t], numWedges)
      {
        r := r && ValidateArraySize(WedgeTexCoords[texCoordIndex], numWedges);
        texCoordIndex := texCoordIndex + 1;
      }
    }

    /** The loop that checks each wedge's vertex index while the flag holds. */
    method CheckWedges(valid: bool) returns (r: bool)
      ensures r <==> valid && forall w :: 0 <= w < |WedgeIndices| ==> (WedgeIndices[w] as int) < |VertexPositions|
    {
      r := valid;
      var wedgeIndex := 0;
      while r && wedgeIndex < |WedgeIndices|
        invariant 0 <= wedgeIndex <= |WedgeIndices|
        invariant r ==> valid && forall w :: 0 <= w < wedgeIndex ==> (WedgeIndices[w] as int) < |VertexPositions|
        invariant !r ==> !valid || exists w :: 0 <= w < wedgeIndex && (WedgeIndices[w] as int) >= |VertexPositions|
      {
        r := r && (WedgeIndices[wedgeIndex] as int) < |VertexPositions|;
        wedgeIndex := wedgeIndex + 1;
      }
    }

    /** The position of the vertex a wedge names. */
    function GetWedgePosition(wedgeIndex: int): (r: Vector)
      reads this
      requires 0 <= wedgeIndex < |WedgeIndices| && (WedgeIndices[wedgeIndex] as int) < |VertexPositions|
      ensures r in VertexPositions
    {
      VertexPositions[WedgeIndices[wedgeIndex]]
    }

    /** Removes the materials no face uses. When the mesh is valid or
        fixable and some section has no triangle, every face is renumbered
        into the list of used sections and MaterialIndexToImportIndex maps
        each new index to its old one; otherwise the faces are untouched
        and the map is left empty. A negative material index would be
        used as an array index by the renumbering, so none is allowed. */
    method CompactMaterialIndices()
      requires Shaped()
      requires forall f :: 0 <= f < |FaceMaterialIndices| ==> FaceMaterialIndices[f] >= 0
      modifies this`FaceMaterialIndices, this`MaterialIndexToImportIndex
      ensures var counts := TrianglesPerSection(old(FaceMaterialIndices));
        if old(MeshIsValidOrFixable()) && |UsedSections(counts)| != |counts| then
          MaterialIndexToImportIndex == UsedSections(counts) &&
          |FaceMaterialIndices| == |old(FaceMaterialIndices)| &&
          forall f :: 0 <= f < |FaceMaterialIndices| ==>
            0 <= FaceMaterialIndices[f] < |MaterialIndexToImportIndex| &&
            MaterialIndexToImportIndex[FaceMaterialIndices[f]] == old(FaceMaterialIndices)[f]
        else
          MaterialIndexToImportIndex == [] && FaceMaterialIndices == old(FaceMaterialIndices)
    {
      MaterialIndexToImportIndex := [];
      var fixable := IsValidOrFixable();
      if fixable {
        CompactSections();
      }
    }

    /** The body of CompactMaterialIndices once the mesh is known to be
        valid or fixable: count, number the used sections, then renumber
        the faces when some section is unused. */
    method CompactSections()
      requires MaterialIndexToImportIndex == []
      requires forall f :: 0 <= f < |FaceMaterialIndices| ==> FaceMaterialIndices[f] >= 0
      modifies this`FaceMaterialIndices, this`MaterialIndexToImportIndex
      ensures var counts := TrianglesPerSection(old(FaceMaterialIndices));
        if |UsedSections(counts)| != |counts| then
          MaterialIndexToImportIndex == UsedSections(counts) &&
          |FaceMaterialIndices| == |old(FaceMaterialIndices)| &&
          forall f :: 0 <= f < |FaceMaterialIndices| ==>
            0 <= FaceMaterialIndices[f] < |MaterialIndexToImportIndex| &&
            MaterialIndexToImportIndex[FaceMaterialIndices[f]] == old(FaceMaterialIndices)[f]
        else
          MaterialIndexToImportIndex == [] && FaceMaterialIndices == old(FaceMaterialIndices)
    {
      var faces := FaceMaterialIndices;
      var counts := CountTriangles(faces);
      var importToMaterial := AssignNewIndices(counts);
      if |MaterialIndexToImportIndex| != |importToMaterial| {
        TrianglesPerSectionCounts(faces);
        RemapFaces(importToMaterial);
        RemappedFacesNameOldSections(faces, counts, FaceMaterialIndices);
      } else {
        MaterialIndexToImportIndex := [];
      }
    }

    /** Replaces every face's material index by its new index. */
    method RemapFaces(importToMaterial: seq<int>)
      requires forall f :: 0 <= f < |FaceMaterialIndices| ==> 0 <= FaceMaterialIndices[f] < |importToMaterial|
      modifies this`FaceMaterialIndices
      ensures |FaceMaterialIndices| == |old(FaceMaterialIndices)|
      ensures forall f :: 0 <= f < |FaceMaterialIndices| ==> FaceMaterialIndices[f] == importToMaterial[old(FaceMaterialIndices)[f]]
    {
      var faceIndex := 0;
      while faceIndex < |FaceMaterialIndices|
        invariant 0 <= faceIndex <= |FaceMaterialIndices| == |old(FaceMaterialIndices)|
        invariant forall f :: faceIndex <= f < |FaceMaterialIndices| ==> FaceMaterialIndices[f] == old(FaceMaterialIndices)[f]
        invariant forall f :: 0 <= f < faceIndex ==> FaceMaterialIndices[f] == importToMaterial[old(FaceMaterialIndices)[f]]
      {
        FaceMaterialIndices := FaceMaterialIndices[faceIndex := importToMaterial[FaceMaterialIndices[faceIndex]]];
        faceIndex := faceIndex + 1;
      }
    }

    /** Counts the triangles of each section, growing the counts to cover
        every material index met. */
    method CountTriangles(faces: seq<int>) returns (counts: seq<nat>)
      ensures counts == TrianglesPerSection(faces)
    {
      counts := [];
      var faceIndex := 0;
      while faceIndex < |faces|
        invariant 0 <= faceIndex <= |faces|
        invariant counts == TrianglesPerSection(faces[..faceIndex])
      {
        assert faces[..faceIndex + 1][..faceIndex] == faces[..faceIndex];
        var materialIndex := faces[faceIndex];
        if materialIndex >= |counts| {
          counts := counts + seq(materialIndex - |counts| + 1, _ => 0);
        }
        if materialIndex >= 0 {
          counts := counts[materialIndex := counts[materialIndex] + 1];
        }
        faceIndex := faceIndex + 1;
      }
      assert faces[..faceIndex] == faces;
    }

    /** Appends each used section to MaterialIndexToImportIndex and
        records its new index, or INDEX_NONE for an unused section. */
    method AssignNewIndices(counts: seq<nat>) returns (importToMaterial: seq<int>)
      requires MaterialIndexToImportIndex == []
      modifies this`MaterialIndexToImportIndex
      ensures importToMaterial == NewIndices(counts)
      ensures MaterialIndexToImportIndex == UsedSections(counts)
    {
      importToMaterial := [];
      var sectionIndex := 0;
      while sectionIndex < |counts|
        invariant 0 <= sectionIndex <= |counts|
        invariant importToMaterial == NewIndices(counts[..sectionIndex])
        invariant MaterialIndexToImportIndex == UsedSections(counts[..sectionIndex])
      {
        ghost var prefix := counts[..sectionIndex + 1];
        assert prefix[..sectionIndex] == counts[..sectionIndex] && prefix[sectionIndex] == counts[sectionIndex];
        var newMaterialIndex := INDEX_NONE;
        if counts[sectionIndex] > 0 {
          newMaterialIndex := |MaterialIndexToImportIndex|;
          MaterialIndexToImportIndex := MaterialIndexToImportIndex + [sectionIndex];
        }
        importToMaterial := importToMaterial + [newMaterialIndex];
        sectionIndex := sectionIndex + 1;
      }
      assert counts[..sectionIndex] == counts;
    }
  }

  /** Renumbering non-negative faces through NewIndices gives indices
      into UsedSections that name each face's old section. */
  lemma RemappedFacesNameOldSections(faces: seq<int>, counts: seq<nat>, remapped: seq<int>)
    requires forall f :: 0 <= f < |faces| ==> faces[f] >= 0
    requires counts == TrianglesPerSection(faces)
    requires |remapped| == |faces|
    requires forall f :: 0 <= f < |faces| ==> 0 <= faces[f] < |counts| && remapped[f] == NewIndices(counts)[faces[f]]
    ensures forall f :: 0 <= f < |remapped| ==>
      0 <= remapped[f] < |UsedSections(counts)| && UsedSections(counts)[remapped[f]] == faces[f]
  {
    TrianglesPerSectionCounts(faces);
    NewIndicesNameUsedSections(counts);
    forall f | 0 <= f < |faces|
      ensures counts[faces[f]] > 0
    {
      assert faces[f] in multiset(faces);
    }
  }

  /** A valid mesh whose faces each carry one material and one smoothing
      mask is also valid or fixable. */
  lemma ValidWithFullFaceStreamsIsFixable(m: RawMesh)
    requires m.Shaped() && m.MeshIsValid()
    requires |m.FaceMaterialIndices| == |m.WedgeIndices| / 3 && |m.FaceSmoothingMasks| == |m.WedgeIndices| / 3
    ensures m.MeshIsValidOrFixable()
  {
  }
}
