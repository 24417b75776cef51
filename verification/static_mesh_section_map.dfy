/** YMeshSectionInfoMap: per-section settings of every LOD of a static mesh,
    stored under a 32-bit key that packs the LOD index in the high half and
    the section index in the low half. */
module StaticMeshSectionMap {
  import opened IntTypes

  datatype MeshSectionInfo = MeshSectionInfo(materialIndex: i32, enableCollision: bool, castShadow: bool)

  /** The settings a section has when none were stored: its own material,
      with collision and shadows on. */
  function DefaultSectionInfo(sectionIndex: i32): (r: MeshSectionInfo)
    ensures r.materialIndex == sectionIndex && r.enableCollision && r.castShadow
  {
    MeshSectionInfo(sectionIndex, true, true)
  }

  /** `operator==` compares all three settings. */
  predicate SameSectionInfo(a: MeshSectionInfo, b: MeshSectionInfo)
    ensures SameSectionInfo(a, b) <==> a == b
  {
    a.materialIndex == b.materialIndex && a.castShadow == b.castShadow && a.enableCollision == b.enableCollision
  }

  /** The low 16 bits of a 32-bit two's-complement value, `x & 0xffff`. */
  function Low16(x: i32): (r: int)
    ensures 0 <= r < 0x1_0000
    ensures 0 <= x as int < 0x1_0000 ==> r == x as int
  {
    x as int % 0x1_0000
  }

  /** `((LODIndex & 0xffff) << 16) | (SectionIndex & 0xffff)`; the two
      halves do not overlap, so `|` adds them. */
  function GetMeshMaterialKey(lodIndex: i32, sectionIndex: i32): (key: u32)
    ensures key as int / 0x1_0000 == Low16(lodIndex)
    ensures key as int % 0x1_0000 == Low16(sectionIndex)
  {
    (Low16(lodIndex) * 0x1_0000 + Low16(sectionIndex)) as u32
  }

  /** The LOD index a key stores, `Key >> 16`. */
  function KeyLod(key: u32): int {
    key as int / 0x1_0000
  }

  /** The LOD index GetSectionNumber compares with, `(Key & 0xffff) >> 16`:
      the low half shifted out entirely. */
  function KeyLodAsWritten(key: u32): (r: int)
    ensures r == 0
  {
    (key as int % 0x1_0000) / 0x1_0000
  }

  /** Keys of LOD and section indices in 0..65535 are distinct. */
  lemma KeyInjective(l1: i32, s1: i32, l2: i32, s2: i32)
    requires 0 <= l1 as int < 0x1_0000 && 0 <= s1 as int < 0x1_0000
    requires 0 <= l2 as int < 0x1_0000 && 0 <= s2 as int < 0x1_0000
    ensures GetMeshMaterialKey(l1, s1) == GetMeshMaterialKey(l2, s2) <==> l1 == l2 && s1 == s2
  {
  }

  /** The keys in `m` whose LOD is `lodIndex`. */
  function KeysOfLod(m: map<u32, MeshSectionInfo>, lodIndex: int): set<u32> {
    set key | key in m && KeyLod(key) == lodIndex
  }

  class MeshSectionInfoMap {
    var Map: map<u32, MeshSectionInfo>

    constructor()
      ensures Map == map[]
    {
      Map := map[];
    }

    method Clear()
      modifies this
      ensures Map == map[]
    {
      Map := map[];
    }

    /** The settings stored for the section, else those stored for the
        same section of LOD 0, else the defaults. */
    function Get(lodIndex: i32, sectionIndex: i32): (r: MeshSectionInfo)
      reads this
      ensures GetMeshMaterialKey(lodIndex, sectionIndex) in Map ==> r == Map[GetMeshMaterialKey(lodIndex, sectionIndex)]
      ensures GetMeshMaterialKey(lodIndex, sectionIndex) !in Map && GetMeshMaterialKey(0, sectionIndex) in Map ==>
        r == Map[GetMeshMaterialKey(0, sectionIndex)]
      ensures GetMeshMaterialKey(lodIndex, sectionIndex) !in Map && GetMeshMaterialKey(0, sectionIndex) !in Map ==>
        r == DefaultSectionInfo(sectionIndex)
    {
      var key := GetMeshMaterialKey(lodIndex, sectionIndex);
      if key in Map then Map[key]
      else
        var lod0Key := GetMeshMaterialKey(0, sectionIndex);
        if lod0Key in Map then Map[lod0Key] else DefaultSectionInfo(sectionIndex)
    }

    method Set(lodIndex: i32, sectionIndex: i32, info: MeshSectionInfo)
      modifies this
      ensures Map == old(Map)[GetMeshMaterialKey(lodIndex, sectionIndex) := info]
    {
      Map := Map[GetMeshMaterialKey(lodIndex, sectionIndex) := info];
    }

    method Remove(lodIndex: i32, sectionIndex: i32)
      modifies this
      ensures Map == old(Map) - {GetMeshMaterialKey(lodIndex, sectionIndex)}
    {
      Map := Map - {GetMeshMaterialKey(lodIndex, sectionIndex)};
    }

    /** Adds every entry of `other`, which wins where both have a key. */
    method CopyFrom(other: MeshSectionInfoMap)
      modifies this
      ensures Map == old(Map) + old(other.Map)
    {
      var source := other.Map;
      var remaining := source.Keys;
      while remaining != {}
        invariant remaining <= source.Keys
        invariant Map == old(Map) + map key | key in source.Keys - remaining :: source[key]
        decreases remaining
      {
        var key :| key in remaining;
        Map := Map[key := source[key]];
        remaining := remaining - {key};
      }
      assert source.Keys - remaining == source.Keys;
    }

    /** Counts the entries whose key passes the LOD test as written, which
        compares the always-zero `(Key & 0xffff) >> 16` with the LOD. */
    method GetSectionNumber(lodIndex: i32) returns (sectionCount: int)
      ensures sectionCount == |set key | key in Map && KeyLodAsWritten(key) == lodIndex as int|
    {
      sectionCount := CountKeys(lodIndex, false);
      assert (set key | key in Map && (if false then KeyLod(key) else KeyLodAsWritten(key)) == lodIndex as int) ==
        (set key | key in Map && KeyLodAsWritten(key) == lodIndex as int);
    }

    /** Counts the entries whose key stores the LOD, `Key >> 16`. */
    method GetSectionNumberCorrected(lodIndex: i32) returns (sectionCount: int)
      ensures sectionCount == |KeysOfLod(Map, lodIndex as int)|
    {
      sectionCount := CountKeys(lodIndex, true);
      assert (set key | key in Map && (if true then KeyLod(key) else KeyLodAsWritten(key)) == lodIndex as int) ==
        KeysOfLod(Map, lodIndex as int);
    }

    /** The loop both counts share: over every key, counting those whose
        LOD, extracted as written or correctly, equals `lodIndex`. */
    method CountKeys(lodIndex: i32, corrected: bool) returns (sectionCount: int)
      ensures sectionCount ==
        |set key | key in Map && (if corrected then KeyLod(key) else KeyLodAsWritten(key)) == lodIndex as int|
    {
      ghost var counted: set<u32> := {};
      sectionCount := 0;
      var remaining := Map.Keys;
      while remaining != {}
        invariant remaining <= Map.Keys && counted <= Map.Keys - remaining
        invariant counted == set key | key in Map.Keys - remaining &&
          (if corrected then KeyLod(key) else KeyLodAsWritten(key)) == lodIndex as int
        invariant sectionCount == |counted|
        decreases remaining
      {
        var key :| key in remaining;
        var keyLod := if corrected then KeyLod(key) else KeyLodAsWritten(key);
        if keyLod == lodIndex as int {
          assert key !in counted;
          counted := counted + {key};
          sectionCount := sectionCount + 1;
        }
        remaining := remaining - {key};
      }
      assert Map.Keys - remaining == Map.Keys;
    }

    /** Whether some LOD-0 section has collision enabled. */
    method AnySectionHasCollision() returns (r: bool)
      ensures r <==> exists key :: key in Map && KeyLod(key) == 0 && Map[key].enableCollision
    {
      var remaining := Map.Keys;
      while remaining != {}
        invariant remaining <= Map.Keys
        invariant forall key :: key in Map.Keys - remaining ==> !(KeyLod(key) == 0 && Map[key].enableCollision)
        decreases remaining
      {
        var key :| key in remaining;
        if KeyLod(key) == 0 && Map[key].enableCollision {
          return true;
        }
        remaining := remaining - {key};
      }
      return false;
    }
  }

  /** Reading back a section just set gives the settings stored. */
  lemma SetThenGet(m: map<u32, MeshSectionInfo>, lodIndex: i32, sectionIndex: i32, info: MeshSectionInfo)
    ensures var key := GetMeshMaterialKey(lodIndex, sectionIndex);
      var m' := m[key := info];
      key in m' && m'[key] == info
  {
  }

  /** Removing a section leaves every other key's settings as they were. */
  lemma RemoveOnlyThatKey(m: map<u32, MeshSectionInfo>, lodIndex: i32, sectionIndex: i32, key: u32)
    requires key != GetMeshMaterialKey(lodIndex, sectionIndex)
    ensures key in m - {GetMeshMaterialKey(lodIndex, sectionIndex)} <==> key in m
    ensures key in m ==> (m - {GetMeshMaterialKey(lodIndex, sectionIndex)})[key] == m[key]
  {
  }

  /** As written, GetSectionNumber counts every entry for LOD 0 and none
      for any other LOD. */
  lemma {:induction false} AsWrittenCountsEverySection(m: map<u32, MeshSectionInfo>, lodIndex: int)
    ensures lodIndex == 0 ==> (set key | key in m && KeyLodAsWritten(key) == lodIndex) == m.Keys
    ensures lodIndex != 0 ==> (set key | key in m && KeyLodAsWritten(key) == lodIndex) == {}
  {
  }

  /** One section of LOD 1 is counted as none by GetSectionNumber(1) as
      written, and as one by the corrected count. */
  lemma AsWrittenMissesLodOne()
    ensures var m := map[GetMeshMaterialKey(1, 0) := DefaultSectionInfo(0)];
      |set key | key in m && KeyLodAsWritten(key) == 1| == 0 && |KeysOfLod(m, 1)| == 1
  {
    var m := map[GetMeshMaterialKey(1, 0) := DefaultSectionInfo(0)];
    assert KeysOfLod(m, 1) == {GetMeshMaterialKey(1, 0)};
    assert (set key | key in m && KeyLodAsWritten(key) == 1) == {};
  }

  /** Setting a new section of a LOD adds one to that LOD's corrected
      count and leaves other LODs' counts alone. */
  lemma SetNewSectionCounts(m: map<u32, MeshSectionInfo>, lodIndex: i32, sectionIndex: i32, info: MeshSectionInfo, lod: int)
    requires 0 <= lodIndex as int < 0x1_0000
    requires GetMeshMaterialKey(lodIndex, sectionIndex) !in m
    ensures lod == lodIndex as int ==>
      |KeysOfLod(m[GetMeshMaterialKey(lodIndex, sectionIndex) := info], lod)| == |KeysOfLod(m, lod)| + 1
    ensures lod != lodIndex as int ==>
      KeysOfLod(m[GetMeshMaterialKey(lodIndex, sectionIndex) := info], lod) == KeysOfLod(m, lod)
  {
    var key := GetMeshMaterialKey(lodIndex, sectionIndex);
    if lod == lodIndex as int {
      assert KeysOfLod(m[key := info], lod) == KeysOfLod(m, lod) + {key};
    }
  }
}
