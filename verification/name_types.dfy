/** The global name table's building blocks: the packed index of a name
    entry, the chunked pointer array that holds the entries, and the
    comparisons of a YName handle. */
module NameTypes {
  import opened Wrappers
  import opened IntTypes

  // ---------------------------------------------------------------------
  // YNameEntry: the low bit of Index says whether the string is wide, the
  // remaining bits are the entry's index in the table.

  const NameWideMask: i32 := 1
  const NameIndexShift: nat := 1

  /** The packed value a table entry at `nameIndex` stores in its Index
      field (the index shifted left past the wide bit, the bit or-ed in). */
  function PackedIndex(nameIndex: int, wide: bool): int {
    nameIndex * 2 + (if wide then NameWideMask as int else 0)
  }

  class NameEntry {
    var Index: i32

    /** The linker-table constructor: a wide entry whose index is not yet
        known. */
    constructor ForLinkerTable()
      ensures Index == NameWideMask
      ensures IsWide() && GetIndex() == 0
    {
      Index := NameWideMask;
    }

    /** PreSetIsWideForSerialization: the whole Index becomes the wide bit
        alone, so the stored table index is reset to 0. */
    method PreSetIsWideForSerialization(isWide: bool)
      modifies this
      ensures IsWide() == isWide && GetIndex() == 0
      ensures Index as int == PackedIndex(0, isWide)
    {
      Index := if isWide then NameWideMask else 0;
    }

    /** GetIndex: `Index >> NAME_INDEX_SHIFT`, an arithmetic shift of a
        two's-complement int32, i.e. division by 2 rounding down. Together
        with IsWide it recovers the whole packed Index. */
    function GetIndex(): (r: int)
      reads this
      ensures PackedIndex(r, IsWide()) == Index as int
      ensures -0x4000_0000 <= r < 0x4000_0000
    {
      Index as int / 2
    }

    /** IsWide: `Index & NAME_WIDE_MASK`, the two's-complement low bit. */
    function IsWide(): bool
      reads this
    {
      Index as int % 2 == NameWideMask as int
    }
  }

  /** Unpacking what was packed gives back the table index and the wide
      flag, for every index that fits the 31 bits left above the flag. */
  lemma PackedIndexRoundTrip(e: NameEntry, nameIndex: int, wide: bool)
    requires e.Index as int == PackedIndex(nameIndex, wide)
    ensures e.GetIndex() == nameIndex && e.IsWide() == wide
  {
  }

  /** Only indices below 2^30 in magnitude can be packed into an int32. */
  lemma PackedIndexFits(nameIndex: int, wide: bool)
    requires -0x4000_0000 <= nameIndex < 0x4000_0000
    ensures -0x8000_0000 <= PackedIndex(nameIndex, wide) < 0x8000_0000
  {
  }

  // ---------------------------------------------------------------------
  // TStaticIndirectArrayThreadSafeRead: a fixed master table of chunk
  // pointers; chunks of ElementsPerChunk element pointers are allocated
  // on demand and never moved, so existing entries stay put.

  /** ChunkTableSize: enough chunks to hold MaxTotalElements. */
  function ChunkTableSize(maxTotalElements: nat, elementsPerChunk: nat): (r: nat)
    requires 0 < elementsPerChunk
    ensures maxTotalElements <= r * elementsPerChunk
    ensures r == 0 || (r - 1) * elementsPerChunk < maxTotalElements
  {
    CeilDivBounds(maxTotalElements, elementsPerChunk);
    (maxTotalElements + elementsPerChunk - 1) / elementsPerChunk
  }

  lemma CeilDivBounds(n: nat, d: nat)
    requires 0 < d
    ensures n <= (n + d - 1) / d * d
    ensures (n + d - 1) / d == 0 || ((n + d - 1) / d - 1) * d < n
  {
    var q := (n + d - 1) / d;
    var m := (n + d - 1) % d;
    assert q * d + m == n + d - 1;
    assert q * d == n + d - 1 - m;
    if q > 0 {
      assert (q - 1) * d == q * d - d;
    }
  }

  /** The chunk that holds element `index`, and `index` lies in it. */
  lemma ChunkOfIndex(index: nat, d: nat)
    requires 0 < d
    ensures index / d * d <= index < (index / d + 1) * d
    ensures index % d < d && index / d * d + index % d == index
  {
    assert (index / d + 1) * d == index / d * d + d;
  }

  lemma MulStrictCancel(a: int, b: int, d: nat)
    requires 0 < d && a * d < b * d
    ensures a < b
  {
  }

  /** An index below numChunks whole chunks lies in one of them. */
  lemma IndexInChunks(index: nat, bound: nat, numChunks: nat, d: nat)
    requires 0 < d && index < bound <= numChunks * d
    ensures index / d < numChunks
    ensures index % d < d && index / d * d + index % d == index
  {
    ChunkOfIndex(index, d);
    MulStrictCancel(index / d, numChunks, d);
  }

  /** Every index of an allocated chunk is below the allocated capacity. */
  lemma ChunksCoverIndex(index: nat, numChunks: nat, d: nat)
    requires 0 < d && index / d < numChunks
    ensures index < numChunks * d
  {
    ChunkOfIndex(index, d);
    MulMonotone(index / d + 1, numChunks, d);
  }

  /** A freshly allocated, zeroed chunk: every element pointer is null. */
  function ZeroChunk<T>(elementsPerChunk: nat): (r: seq<Option<T>>)
    ensures |r| == elementsPerChunk
    ensures forall i | 0 <= i < |r| :: r[i] == None
  {
    seq(elementsPerChunk, _ => None)
  }

  class StaticIndirectArray<T> {
    /** The template parameters. */
    const MaxTotalElements: nat
    const ElementsPerChunk: nat
    /** The master table of chunk pointers; None is a null chunk. */
    const Chunks: array<Option<seq<Option<T>>>>
    var NumElements: nat
    var NumChunks: nat

    /** Exactly the first NumChunks chunks are allocated, each of
        ElementsPerChunk slots, and they hold every element. */
    ghost predicate Valid()
      reads this, Chunks
    {
      0 < ElementsPerChunk && MaxTotalElements < 0x8000_0000
      && Chunks.Length == ChunkTableSize(MaxTotalElements, ElementsPerChunk)
      && NumChunks <= Chunks.Length
      && NumElements <= MaxTotalElements
      && NumElements <= NumChunks * ElementsPerChunk
      && (forall c | 0 <= c < NumChunks :: Chunks[c].Some? && |Chunks[c].value| == ElementsPerChunk)
      && (forall c | NumChunks <= c < Chunks.Length :: Chunks[c].None?)
    }

    /** An empty array with a zeroed master table. */
    constructor(maxTotalElements: nat, elementsPerChunk: nat)
      requires 0 < elementsPerChunk && maxTotalElements < 0x8000_0000
      ensures Valid() && fresh(Chunks)
      ensures MaxTotalElements == maxTotalElements && ElementsPerChunk == elementsPerChunk
      ensures NumElements == 0 && NumChunks == 0
    {
      MaxTotalElements := maxTotalElements;
      ElementsPerChunk := elementsPerChunk;
      NumElements := 0;
      NumChunks := 0;
      Chunks := new Option<seq<Option<T>>>[ChunkTableSize(maxTotalElements, elementsPerChunk)](_ => None);
    }

    function Num(): (r: nat)
      reads this, Chunks
      requires Valid()
      ensures r <= MaxTotalElements
    {
      NumElements
    }

    /** IsValidIndex: the index names an element that has been added. */
    function IsValidIndex(index: int): (r: bool)
      reads this, Chunks
      requires Valid()
    {
      index < Num() && index >= 0
    }

    /** GetItemPtr: the chunk and the slot within it that hold element
        `index`. The invariant guarantees every check on the way: the
        chunk is allocated and the slot lies inside it. */
    method GetItemPtr(index: int) returns (chunkIndex: nat, withinChunkIndex: nat)
      requires Valid() && IsValidIndex(index)
      ensures chunkIndex < NumChunks && Chunks[chunkIndex].Some?
      ensures withinChunkIndex < ElementsPerChunk == |Chunks[chunkIndex].value|
      ensures chunkIndex * ElementsPerChunk + withinChunkIndex == index
      ensures chunkIndex == index / ElementsPerChunk && withinChunkIndex == index % ElementsPerChunk
    {
      IndexInChunks(index, NumElements, NumChunks, ElementsPerChunk);
      chunkIndex := index / ElementsPerChunk;
      withinChunkIndex := index % ElementsPerChunk;
    }

    /** operator[]: the element pointer stored for `index`. */
    method Get(index: int) returns (item: Option<T>)
      requires Valid() && IsValidIndex(index)
      ensures index / ElementsPerChunk < NumChunks && Chunks[index / ElementsPerChunk].Some?
      ensures index % ElementsPerChunk < |Chunks[index / ElementsPerChunk].value|
      ensures item == Chunks[index / ElementsPerChunk].value[index % ElementsPerChunk]
    {
      var chunkIndex, withinChunkIndex := GetItemPtr(index);
      item := Chunks[chunkIndex].value[withinChunkIndex];
    }

    /** ExpandChunksToIndex as written: each pass compare-exchanges a new
        zeroed chunk into slot ChunkIndex (not slot NumChunks) and bumps
        NumChunks. When the chunk holding `index` is the next one this is
        what is intended; when it lies further out the second pass finds
        slot ChunkIndex already filled and reaches `check(0)`, reported as
        `aborted`, leaving the stray chunk in place. */
    method ExpandChunksToIndex(index: int) returns (aborted: bool)
      requires Valid() && 0 <= index < MaxTotalElements
      modifies this, Chunks
      ensures index / ElementsPerChunk < Chunks.Length
      ensures NumElements == old(NumElements)
      ensures aborted <==> old(NumChunks) < index / ElementsPerChunk
      ensures NumChunks == if index / ElementsPerChunk < old(NumChunks) then old(NumChunks) else old(NumChunks) + 1
      ensures NumChunks == old(NumChunks) ==> Chunks[..] == old(Chunks[..])
      ensures NumChunks != old(NumChunks) ==>
        Chunks[..] == old(Chunks[..])[index / ElementsPerChunk := Some(ZeroChunk(ElementsPerChunk))]
      ensures !aborted ==> Valid() && index / ElementsPerChunk < NumChunks
    {
      var chunkIndex := index / ElementsPerChunk;
      IndexInChunks(index, MaxTotalElements, Chunks.Length, ElementsPerChunk);
      aborted := false;
      while chunkIndex >= NumChunks
        invariant old(NumChunks) <= NumChunks <= old(NumChunks) + 1 && NumElements == old(NumElements)
        invariant NumChunks == old(NumChunks) ==> Chunks[..] == old(Chunks[..])
        invariant NumChunks != old(NumChunks) ==>
          old(NumChunks) <= chunkIndex && Chunks[..] == old(Chunks[..])[chunkIndex := Some(ZeroChunk(ElementsPerChunk))]
        decreases chunkIndex + 1 - NumChunks
      {
        if Chunks[chunkIndex].Some? {
          aborted := true;
          return;
        }
        Chunks[chunkIndex] := Some(ZeroChunk(ElementsPerChunk));
        NumChunks := NumChunks + 1;
      }
      if NumChunks != old(NumChunks) {
        assert chunkIndex == old(NumChunks);
        assert NumChunks * ElementsPerChunk == old(NumChunks) * ElementsPerChunk + ElementsPerChunk;
        forall c | 0 <= c < Chunks.Length
          ensures Chunks[c] == if c == chunkIndex then Some(ZeroChunk(ElementsPerChunk)) else old(Chunks[c])
        {
          assert Chunks[..][c] == Chunks[c];
        }
      } else {
        forall c | 0 <= c < Chunks.Length
          ensures Chunks[c] == old(Chunks[c])
        {
          assert Chunks[..][c] == Chunks[c];
        }
      }
    }

    /** The intended expansion: allocate the next missing chunk on each
        pass until the chunk that holds `index` exists. Chunks already
        there are not touched; the new ones are zeroed. */
    method ExpandChunksToNextSlot(index: int)
      requires Valid() && 0 <= index < MaxTotalElements
      modifies this, Chunks
      ensures Valid()
      ensures index / ElementsPerChunk < NumChunks
      ensures NumChunks == if index / ElementsPerChunk < old(NumChunks) then old(NumChunks) else index / ElementsPerChunk + 1
      ensures NumElements == old(NumElements)
      ensures forall c | 0 <= c < old(NumChunks) :: Chunks[c] == old(Chunks[c])
      ensures forall c | old(NumChunks) <= c < NumChunks :: Chunks[c] == Some(ZeroChunk(ElementsPerChunk))
    {
      var chunkIndex := index / ElementsPerChunk;
      IndexInChunks(index, MaxTotalElements, Chunks.Length, ElementsPerChunk);
      while chunkIndex >= NumChunks
        invariant Valid()
        invariant old(NumChunks) <= NumChunks <= if chunkIndex < old(NumChunks) then old(NumChunks) else chunkIndex + 1
        invariant NumElements == old(NumElements)
        invariant forall c | 0 <= c < old(NumChunks) :: Chunks[c] == old(Chunks[c])
        invariant forall c | old(NumChunks) <= c < NumChunks :: Chunks[c] == Some(ZeroChunk(ElementsPerChunk))
        decreases chunkIndex - NumChunks
      {
        AddChunk();
      }
    }

    /** One pass of the expansion loop: the first null chunk becomes a
        zeroed chunk. */
    method AddChunk()
      requires Valid() && NumChunks < Chunks.Length
      modifies this, Chunks
      ensures Valid()
      ensures NumChunks == old(NumChunks) + 1 && NumElements == old(NumElements)
      ensures Chunks[..] == old(Chunks[..])[old(NumChunks) := Some(ZeroChunk(ElementsPerChunk))]
    {
      Chunks[NumChunks] := Some(ZeroChunk(ElementsPerChunk));
      NumChunks := NumChunks + 1;
      assert NumChunks * ElementsPerChunk == old(NumChunks) * ElementsPerChunk + ElementsPerChunk;
    }

    /** AddZeroed as written: returns the old count, the index of the
        first new element, after expanding to the last new index; `aborted`
        is the `check(0)` reached when the new elements need two or more
        new chunks, in which case the count is not changed. The caller
        keeps the total within MaxTotalElements and the last new index
        non-negative. */
    method AddZeroed(numToAdd: int) returns (result: nat, aborted: bool)
      requires Valid()
      requires NumElements + numToAdd <= MaxTotalElements
      requires 0 <= NumElements + numToAdd - 1
      modifies this, Chunks
      ensures result == old(NumElements)
      ensures aborted <==> old(NumChunks) < (old(NumElements) + numToAdd - 1) / ElementsPerChunk
      ensures aborted ==> NumElements == old(NumElements)
      ensures !aborted ==> Valid() && NumElements == old(NumElements) + numToAdd
      ensures forall c | 0 <= c < old(NumChunks) :: Chunks[c] == old(Chunks[c])
    {
      result := NumElements;
      var last := NumElements + numToAdd - 1;
      aborted := ExpandChunksToIndex(last);
      if !aborted {
        ChunksCoverIndex(last, NumChunks, ElementsPerChunk);
        NumElements := NumElements + numToAdd;
      }
    }

    /** AddZeroed over the intended expansion: never aborts. */
    method AddZeroedIntended(numToAdd: int) returns (result: nat)
      requires Valid()
      requires NumElements + numToAdd <= MaxTotalElements
      requires 0 <= NumElements + numToAdd - 1
      modifies this, Chunks
      ensures Valid()
      ensures result == old(NumElements)
      ensures NumElements == old(NumElements) + numToAdd
      ensures forall c | 0 <= c < old(NumChunks) :: Chunks[c] == old(Chunks[c])
    {
      result := NumElements;
      var last := NumElements + numToAdd - 1;
      ExpandChunksToNextSlot(last);
      ChunksCoverIndex(last, NumChunks, ElementsPerChunk);
      NumElements := NumElements + numToAdd;
    }

    /** Reserve: allocates every chunk needed for `capacity` elements.
        The source checks that this never shrinks the chunk count. */
    method Reserve(capacity: int)
      requires Valid() && 0 <= capacity <= MaxTotalElements
      requires capacity > NumElements ==>
        ChunkTableSize(capacity, ElementsPerChunk) >= NumChunks
      modifies this, Chunks
      ensures Valid()
      ensures NumElements == old(NumElements)
      ensures capacity <= NumChunks * ElementsPerChunk || capacity <= NumElements
      ensures NumChunks == if capacity > NumElements then ChunkTableSize(capacity, ElementsPerChunk) else old(NumChunks)
      ensures forall c | 0 <= c < old(NumChunks) :: Chunks[c] == old(Chunks[c])
      ensures forall c | old(NumChunks) <= c < NumChunks :: Chunks[c] == Some(ZeroChunk(ElementsPerChunk))
    {
      if capacity > NumElements {
        var maxChunks := ChunkTableSize(capacity, ElementsPerChunk);
        ChunkTableMonotone(capacity, MaxTotalElements, ElementsPerChunk);
        var chunkIndex := 0;
        while chunkIndex < maxChunks
          invariant 0 <= chunkIndex <= maxChunks <= Chunks.Length
          invariant NumElements == old(NumElements) && NumChunks == old(NumChunks)
          invariant forall c | 0 <= c < old(NumChunks) :: Chunks[c] == old(Chunks[c])
          invariant forall c | old(NumChunks) <= c < chunkIndex :: Chunks[c] == Some(ZeroChunk(ElementsPerChunk))
          invariant forall c | chunkIndex <= c < Chunks.Length && old(NumChunks) <= c :: Chunks[c].None?
        {
          if Chunks[chunkIndex].None? {
            Chunks[chunkIndex] := Some(ZeroChunk(ElementsPerChunk));
          }
          chunkIndex := chunkIndex + 1;
        }
        MulMonotone(old(NumChunks), maxChunks, ElementsPerChunk);
        NumChunks := maxChunks;
      }
    }
  }

  lemma ChunkTableMonotone(a: nat, b: nat, d: nat)
    requires 0 < d && a <= b
    ensures ChunkTableSize(a, d) <= ChunkTableSize(b, d)
  {
    var qa, qb := ChunkTableSize(a, d), ChunkTableSize(b, d);
    if qa > 0 {
      MulStrictCancel(qa - 1, qb, d);
    }
  }

  lemma MulMonotone(a: nat, b: nat, d: nat)
    requires a <= b
    ensures a * d <= b * d
  {
  }

  /** Once valid, an index stays valid: growing the array never drops an
      element. */
  lemma ValidIndexStaysValid<T>(arr: StaticIndirectArray<T>, oldNum: nat, index: int)
    requires arr.Valid() && oldNum <= arr.NumElements
    requires 0 <= index < oldNum
    ensures arr.IsValidIndex(index)
  {
  }

  /** IsValidIndex holds exactly for 0 <= index < Num(). */
  lemma IsValidIndexRange<T>(arr: StaticIndirectArray<T>, index: int)
    requires arr.Valid()
    ensures arr.IsValidIndex(index) <==> 0 <= index < arr.Num()
  {
  }

  // ---------------------------------------------------------------------
  // ExpandChunksToIndex as written: each pass claims Chunks[ChunkIndex]
  // rather than the next unallocated chunk.

  /** The as-written expansion over the set of allocated chunk slots: None
      is the `check(0)` abort when the compare-exchange finds the slot
      already taken; otherwise the new chunk count and allocated slots. */
  function ExpandAsWritten(chunkIndex: nat, numChunks: nat, taken: set<nat>): (r: Option<(nat, set<nat>)>)
    ensures r.Some? ==> chunkIndex < r.value.0
    decreases chunkIndex + 1 - numChunks
  {
    if chunkIndex < numChunks then Some((numChunks, taken))
    else if chunkIndex in taken then None
    else ExpandAsWritten(chunkIndex, numChunks + 1, taken + {chunkIndex})
  }

  /** The slots 0..n-1, the allocation the invariant expects. */
  function FirstSlots(n: nat): set<nat> {
    if n == 0 then {} else FirstSlots(n - 1) + {n - 1}
  }

  lemma {:induction false} FirstSlotsMembers(n: nat, c: nat)
    ensures c in FirstSlots(n) <==> c < n
  {
    if n > 0 {
      FirstSlotsMembers(n - 1, c);
    }
  }

  /** Growing by at most one chunk works as intended: the new chunk is the
      next slot and the slots stay contiguous. */
  lemma AsWrittenGrowsOneChunk(chunkIndex: nat, numChunks: nat)
    requires chunkIndex <= numChunks
    ensures ExpandAsWritten(chunkIndex, numChunks, FirstSlots(numChunks)) ==
      if chunkIndex < numChunks then Some((numChunks, FirstSlots(numChunks)))
      else Some(((numChunks + 1) as nat, FirstSlots(numChunks + 1)))
  {
    if chunkIndex == numChunks {
      FirstSlotsMembers(numChunks, chunkIndex);
    }
  }

  /** Needing two or more new chunks aborts: the first pass fills slot
      ChunkIndex, the second finds it taken. */
  lemma AsWrittenAbortsOnChunkGap(chunkIndex: nat, numChunks: nat)
    requires numChunks < chunkIndex
    ensures ExpandAsWritten(chunkIndex, numChunks, FirstSlots(numChunks)) == None
  {
    FirstSlotsMembers(numChunks, chunkIndex);
    assert chunkIndex in FirstSlots(numChunks) + {chunkIndex};
  }

  /** The concrete case: on an empty name table (16384 elements per chunk),
      AddZeroed(16385) expands to index 16384, chunk 1, and aborts, while
      the expansion that allocates the next missing chunk succeeds. */
  lemma AddZeroedAcrossTwoChunksAborts()
    ensures ExpandAsWritten((0 + 16385 - 1) / 16384, 0, {}) == None
  {
    assert FirstSlots(0) == {};
    AsWrittenAbortsOnChunkGap(1, 0);
  }

  // ---------------------------------------------------------------------
  // YName handles.

  /** External instance numbers are one less than the stored ones, so the
      zeroed stored value 0 reads as NAME_NO_NUMBER. */
  function NameInternalToExternal(x: int): (r: int)
    ensures x == NameNoNumberInternal <==> r == -1
  {
    x - 1
  }

  /** The stored number of an external one, which reads back as it. */
  function NameExternalToInternal(x: int): (r: int)
    ensures NameInternalToExternal(r) == x
  {
    x + 1
  }

  const NameNoNumberInternal: int := 0

  function NameNoNumber(): (r: int)
    ensures r == -1
  {
    NameInternalToExternal(NameNoNumberInternal)
  }

  lemma NameNumberRoundTrip(x: int)
    ensures NameInternalToExternal(NameExternalToInternal(x)) == x
    ensures NameExternalToInternal(NameInternalToExternal(x)) == x
  {
  }

  datatype NameCase = CaseSensitive | IgnoreCase

  /** A YName: the comparison (case-folded) entry index, the display entry
      index and the stored (internal) instance number. Builds without
      case-preserving names keep no display index; `casePreserving` below
      selects the build. */
  datatype Name = Name(comparisonIndex: i32, displayIndex: i32, number: i32)

  /** NAME_None: the zero-initialised name. */
  const NoneName: Name := Name(0, 0, 0)

  function DisplayIndexFast(n: Name, casePreserving: bool): i32 {
    if casePreserving then n.displayIndex else n.comparisonIndex
  }

  /** IsEqual: case-insensitive compares the comparison indices,
      case-sensitive the display indices; the numbers count only when
      asked to. */
  function IsEqual(a: Name, b: Name, compareMethod: NameCase, compareNumber: bool, casePreserving: bool): (r: bool)
    ensures r && compareNumber ==> a.number == b.number
    ensures r && compareMethod == IgnoreCase ==> a.comparisonIndex == b.comparisonIndex
  {
    (if compareMethod == IgnoreCase then a.comparisonIndex == b.comparisonIndex
     else DisplayIndexFast(a, casePreserving) == DisplayIndexFast(b, casePreserving))
    && (!compareNumber || a.number == b.number)
  }

  /** operator==: the comparison index and the number (in builds without
      case-preserving names, the whole handle). */
  function NameEquals(a: Name, b: Name, casePreserving: bool): (r: bool)
    ensures !casePreserving ==> (r <==> a.(displayIndex := 0) == b.(displayIndex := 0))
  {
    a.comparisonIndex == b.comparisonIndex && a.number == b.number
  }

  /** IsNone: the name is NAME_None, whatever its display index. */
  function IsNone(n: Name): (r: bool)
    ensures r <==> n.(displayIndex := 0) == NoneName
  {
    n.comparisonIndex == 0 && n.number == 0
  }

  /** With its defaults (ignore case, compare numbers) IsEqual is
      operator==, in either build. */
  lemma IsEqualDefaultsIsEquals(a: Name, b: Name, casePreserving: bool)
    ensures IsEqual(a, b, IgnoreCase, true, casePreserving) <==> NameEquals(a, b, casePreserving)
  {
  }

  /** Every IsEqual mode is an equivalence relation. */
  lemma IsEqualEquivalence(a: Name, b: Name, c: Name, compareMethod: NameCase, compareNumber: bool, casePreserving: bool)
    ensures IsEqual(a, a, compareMethod, compareNumber, casePreserving)
    ensures IsEqual(a, b, compareMethod, compareNumber, casePreserving) ==
            IsEqual(b, a, compareMethod, compareNumber, casePreserving)
    ensures IsEqual(a, b, compareMethod, compareNumber, casePreserving) &&
            IsEqual(b, c, compareMethod, compareNumber, casePreserving) ==>
            IsEqual(a, c, compareMethod, compareNumber, casePreserving)
  {
  }

  /** When each display entry determines its comparison entry (as the name
      table guarantees), a case-sensitive match is also a case-insensitive
      one; the converse fails for names that differ only in case. */
  lemma CaseSensitiveImpliesIgnoreCase(a: Name, b: Name, compareNumber: bool, comparisonOf: i32 -> i32)
    requires a.comparisonIndex == comparisonOf(a.displayIndex)
    requires b.comparisonIndex == comparisonOf(b.displayIndex)
    requires IsEqual(a, b, CaseSensitive, compareNumber, true)
    ensures IsEqual(a, b, IgnoreCase, compareNumber, true)
  {
  }

  lemma IgnoreCaseDoesNotImplyCaseSensitive()
    ensures IsEqual(Name(5, 6, 0), Name(5, 7, 0), IgnoreCase, true, true)
    ensures !IsEqual(Name(5, 6, 0), Name(5, 7, 0), CaseSensitive, true, true)
  {
  }

  /** IsNone is exactly equality with NAME_None, whatever the display
      index and the build. */
  lemma IsNoneIsEqualsNone(n: Name, casePreserving: bool)
    ensures IsNone(n) <==> NameEquals(n, NoneName, casePreserving)
    ensures IsNone(n) <==> IsEqual(n, NoneName, IgnoreCase, true, casePreserving)
  {
  }
}
