/** Render hardware interface resources: the reference count every resource
    carries, the depth/stencil access a render pass asks for, the hash of a
    uniform buffer layout and the optional-state bits of a pipeline
    initializer. */
module RhiResource {
  import opened IntTypes

  /** A reference-counted resource. `Deleted` stands for the object having
      deleted itself when its last reference went away. */
  class RhiResource {
    var NumRefs: int
    var Deleted: bool

    constructor()
      ensures NumRefs == 0 && !Deleted
    {
      NumRefs := 0;
      Deleted := false;
    }

    function GetRefCount(): (r: u32)
      reads this
      requires 0 <= NumRefs < 0x8000_0000
      ensures r as int == NumRefs
    {
      NumRefs as u32
    }

    /** Takes a reference and returns the new count. */
    method AddRef() returns (r: u32)
      requires !Deleted && 0 <= NumRefs < 0x7FFF_FFFF
      modifies this
      ensures NumRefs == old(NumRefs) + 1 && r as int == NumRefs && r > 0
      ensures !Deleted
    {
      NumRefs := NumRefs + 1;
      r := NumRefs as u32;
    }

    /** Drops a reference and returns the new count; the object deletes
        itself when the count reaches zero. */
    method Release() returns (r: u32)
      requires !Deleted && 1 <= NumRefs < 0x8000_0000
      modifies this
      ensures NumRefs == old(NumRefs) - 1 && r as int == NumRefs
      ensures Deleted <==> r == 0
    {
      NumRefs := NumRefs - 1;
      if NumRefs == 0 {
        Deleted := true;
      }
      r := NumRefs as u32;
    }
  }

  /** Depth and stencil access: the low nibble holds the depth access, the
      high nibble the stencil access. */
  const DepthNop: bv8 := 0x00
  const DepthRead: bv8 := 0x01
  const DepthWrite: bv8 := 0x02
  const DepthMask: bv8 := 0x0f
  const StencilNop: bv8 := 0x00
  const StencilRead: bv8 := 0x10
  const StencilWrite: bv8 := 0x20
  const StencilMask: bv8 := 0xf0
  const MaxIndex: nat := 4

  /** The nine combinations of one depth and one stencil access. */
  predicate IsCombined(v: bv8) {
    (v & DepthMask == DepthNop || v & DepthMask == DepthRead || v & DepthMask == DepthWrite) &&
    (v & StencilMask == StencilNop || v & StencilMask == StencilRead || v & StencilMask == StencilWrite) &&
    v == (v & DepthMask) | (v & StencilMask)
  }

  function Flag(b: bool): nat {
    if b then 1 else 0
  }

  class ExclusiveDepthStencil {
    var Value: bv8

    predicate Valid()
      reads this
    {
      IsCombined(Value)
    }

    constructor(value: bv8)
      ensures Value == value
    {
      Value := value;
    }

    function ExtractDepth(): (r: bv8)
      reads this
      ensures r <= DepthMask
    {
      Value & DepthMask
    }

    function ExtractStencil(): (r: bv8)
      reads this
      ensures r & DepthMask == 0
    {
      Value & StencilMask
    }

    /** Whether the access touches depth or stencil at all. */
    function IsUsingDepthStencil(): (r: bool)
      reads this
      ensures r <==> ExtractDepth() != DepthNop || ExtractStencil() != StencilNop
    {
      Value != DepthNop | StencilNop
    }

    /** Whether depth is written; whatever the stencil part, such an access
        is in use. */
    function IsDepthWrite(): (r: bool)
      reads this
      ensures r ==> IsUsingDepthStencil()
      ensures Valid() ==> (r <==> Value in {DepthWrite, DepthWrite | StencilRead, DepthWrite | StencilWrite})
    {
      ExtractDepth() == DepthWrite
    }

    /** Whether stencil is written; whatever the depth part, such an access
        is in use. */
    function IsStencilWrite(): (r: bool)
      reads this
      ensures r ==> IsUsingDepthStencil()
      ensures Valid() ==> (r <==> Value in {StencilWrite, DepthRead | StencilWrite, DepthWrite | StencilWrite})
    {
      ExtractStencil() == StencilWrite
    }

    function IsAnyWrite(): (r: bool)
      reads this
      ensures r <==> IsDepthWrite() || IsStencilWrite()
    {
      IsDepthWrite() || IsStencilWrite()
    }

    /** Asks for depth writes and keeps the stencil access. */
    method SetDepthWrite()
      modifies this
      ensures IsDepthWrite() && ExtractStencil() == old(ExtractStencil())
      ensures old(Valid()) ==> Valid()
    {
      Value := ExtractStencil() | DepthWrite;
    }

    /** Asks for stencil writes and keeps the depth access. */
    method SetStencilWrite()
      modifies this
      ensures IsStencilWrite() && ExtractDepth() == old(ExtractDepth())
      ensures old(Valid()) ==> Valid()
    {
      Value := ExtractDepth() | StencilWrite;
    }

    method SetDepthStencilWrite(depth: bool, stencil: bool)
      modifies this
      ensures IsDepthWrite() == depth && IsStencilWrite() == stencil
      ensures !depth ==> ExtractDepth() == DepthNop
      ensures !stencil ==> ExtractStencil() == StencilNop
      ensures Valid()
    {
      Value := DepthNop | StencilNop;
      if depth {
        SetDepthWrite();
      }
      if stencil {
        SetStencilWrite();
      }
    }

    /** This access can be granted while `current` is bound: each part it
        does not leave as Nop matches the current one. */
    function IsValid(current: ExclusiveDepthStencil): (r: bool)
      reads this, current
      ensures r <==> (ExtractDepth() == DepthNop || ExtractDepth() == current.ExtractDepth()) &&
                     (ExtractStencil() == StencilNop || ExtractStencil() == current.ExtractStencil())
    {
      var depth := ExtractDepth();
      if depth != DepthNop && depth != current.ExtractDepth() then false
      else
        var stencil := ExtractStencil();
        !(stencil != StencilNop && stencil != current.ExtractStencil())
    }

    /** The view to bind: Nop and Write share a view, so the index only
        records which parts are read-only. */
    function GetIndex(): (r: nat)
      reads this
      requires Valid()
      ensures r < MaxIndex
      ensures r == Flag(ExtractDepth() == DepthRead) + 2 * Flag(ExtractStencil() == StencilRead)
    {
      var v := Value;
      if v == DepthWrite | StencilNop || v == DepthNop | StencilWrite ||
         v == DepthWrite | StencilWrite || v == DepthNop | StencilNop then 0
      else if v == DepthRead | StencilNop || v == DepthRead | StencilWrite then 1
      else if v == DepthNop | StencilRead || v == DepthWrite | StencilRead then 2
      else
        assert v == DepthRead | StencilRead;
        3
    }
  }

  /** Every access can be granted while the same access is bound, and an
      access that uses neither part can be granted always. */
  lemma IsValidReflexive(a: ExclusiveDepthStencil, b: ExclusiveDepthStencil)
    ensures a.IsValid(a)
    ensures a.Value == DepthNop | StencilNop ==> a.IsValid(b)
  {
  }

  /** UE's Align: rounds up to a multiple of a power of two, in 32 bits. */
  function Align(value: bv32, alignment: bv32): bv32
    requires alignment == 8
  {
    (value + alignment - 1) & !(alignment - 1)
  }

  /** Aligning to 8 clears the low three bits and keeps a value that is
      already aligned. */
  lemma AlignProperties(value: bv32)
    ensures Align(value, 8) & 7 == 0
    ensures value & 7 == 0 ==> Align(value, 8) == value
  {
  }

  /** The left shift the hash gives the byte at index `i` of `n`: counting
      from the end, groups of four land in bytes 0, 1, 2 and 3; a
      remaining pair lands in bytes 0 and 2; a remaining single byte in
      byte 0. */
  function ShiftOf(n: nat, i: nat): (r: nat)
    ensures r == 0 || r == 8 || r == 16 || r == 24
    ensures i < n % 4 ==> r == 0 || r == 16
  {
    if i >= n % 4 then 8 * ((n - 1 - i) % 4)
    else if i == n % 4 - 2 then 16
    else 0
  }

  /** A byte moved left by a whole number of bytes. */
  function Shifted(b: bv8, shift: nat): bv32 {
    if shift == 0 then b as bv32
    else if shift == 8 then (b as bv32) << 8
    else if shift == 16 then (b as bv32) << 16
    else (b as bv32) << 24
  }

  /** One step of the hash: exclusive or into the accumulator. */
  function Mix(acc: bv32, term: bv32): bv32 {
    acc ^ term
  }

  /** `start` mixed with every byte from the last one down to index `lo`,
      each at the shift ShiftOf gives it. */
  function XorFold(start: bv32, resources: seq<bv8>, lo: nat): bv32
    decreases |resources| - lo
  {
    if lo >= |resources| then start
    else Mix(XorFold(start, resources, lo + 1), Shifted(resources[lo], ShiftOf(|resources|, lo)))
  }

  /** One more byte taken from the front of the range, at the shift it
      belongs to. */
  lemma XorStep(start: bv32, resources: seq<bv8>, count: nat, shift: nat)
    requires 0 < count <= |resources| && ShiftOf(|resources|, count - 1) == shift
    ensures XorFold(start, resources, count - 1) ==
      Mix(XorFold(start, resources, count), Shifted(resources[count - 1], shift))
  {
  }

  /** The layout hash: the constant buffer size in the high half, the
      aligned resource offset, and every resource type byte at the position
      ShiftOf gives it. */
  function LayoutHash(constantBufferSize: bv32, resourceOffset: bv32, resources: seq<bv8>): bv32 {
    XorFold(Seed(constantBufferSize, resourceOffset), resources, 0)
  }

  /** The hash before any resource byte is mixed in. */
  function Seed(constantBufferSize: bv32, resourceOffset: bv32): bv32 {
    (constantBufferSize << 16) ^ Align(resourceOffset, 8)
  }

  /** With no resources the hash is made of the two sizes alone. */
  lemma HashWithoutResources(constantBufferSize: bv32, resourceOffset: bv32)
    ensures LayoutHash(constantBufferSize, resourceOffset, []) & 0xFFFF == Align(resourceOffset, 8) & 0xFFFF
    ensures LayoutHash(constantBufferSize, resourceOffset, []) & 7 == 0
  {
    AlignProperties(resourceOffset);
  }

  /** Four bytes taken from the front of the range in one round of the
      first loop. */
  lemma FourSteps(start: bv32, res: seq<bv8>, count: nat)
    requires 4 <= count <= |res| && (|res| - count) % 4 == 0
    ensures XorFold(start, res, count - 4) ==
      Mix(Mix(Mix(Mix(XorFold(start, res, count), res[count - 1] as bv32), (res[count - 2] as bv32) << 8),
        (res[count - 3] as bv32) << 16), (res[count - 4] as bv32) << 24)
  {
    XorStep(start, res, count, 0);
    XorStep(start, res, count - 1, 8);
    XorStep(start, res, count - 2, 16);
    XorStep(start, res, count - 3, 24);
  }

  /** Two bytes taken from the front of the range in the second loop. */
  lemma TwoSteps(start: bv32, res: seq<bv8>, count: nat)
    requires 2 <= count <= |res| && count == |res| % 4
    ensures XorFold(start, res, count - 2) ==
      Mix(Mix(XorFold(start, res, count), res[count - 1] as bv32), (res[count - 2] as bv32) << 16)
  {
    XorStep(start, res, count, 0);
    XorStep(start, res, count - 1, 16);
  }

  /** The last byte, in the third loop. */
  lemma OneStep(start: bv32, res: seq<bv8>)
    requires 1 <= |res| && (|res| % 4 == 1 || |res| % 4 == 3)
    ensures XorFold(start, res, 0) == Mix(XorFold(start, res, 1), res[0] as bv32)
  {
    XorStep(start, res, 1, 0);
  }

  /** The hash computation: the bytes are taken from the end, four at a
      time, then two at a time, then one. */
  method ComputeHash(constantBufferSize: bv32, resourceOffset: bv32, resources: seq<bv8>) returns (hash: bv32)
    ensures hash == LayoutHash(constantBufferSize, resourceOffset, resources)
  {
    var tmp := Seed(constantBufferSize, resourceOffset);
    ghost var start := tmp;
    var n := |resources|;
    var count := n;
    while count >= 4
      invariant n % 4 <= count <= n && (n - count) % 4 == 0
      invariant tmp == XorFold(start, resources, count)
    {
      FourSteps(start, resources, count);
      tmp := Mix(tmp, (resources[count - 1] as bv32));
      tmp := Mix(tmp, ((resources[count - 2] as bv32) << 8));
      tmp := Mix(tmp, ((resources[count - 3] as bv32) << 16));
      tmp := Mix(tmp, ((resources[count - 4] as bv32) << 24));
      count := count - 4;
    }
    while count >= 2
      invariant count == n % 4 || (n % 4 == 3 && count == 1) || (n % 4 == 2 && count == 0)
      invariant tmp == XorFold(start, resources, count)
    {
      TwoSteps(start, resources, count);
      tmp := Mix(tmp, (resources[count - 1] as bv32));
      tmp := Mix(tmp, ((resources[count - 2] as bv32) << 16));
      count := count - 2;
    }
    while count > 0
      invariant count == 0 || (count == 1 && (n % 4 == 1 || n % 4 == 3))
      invariant tmp == XorFold(start, resources, count)
    {
      OneStep(start, resources);
      tmp := Mix(tmp, (resources[count - 1] as bv32));
      count := count - 1;
    }
    hash := tmp;
  }

  class UniformBufferLayout {
    var ConstantBufferSize: bv32
    var ResourceOffset: bv32
    var Resources: seq<bv8>
    var Name: string
    var Hash: bv32
    var ComputedHash: bool

    /** A cached hash belongs to the current contents. */
    predicate Valid()
      reads this
    {
      ComputedHash ==> Hash == LayoutHash(ConstantBufferSize, ResourceOffset, Resources)
    }

    constructor(name: string)
      ensures ConstantBufferSize == 0 && ResourceOffset == 0 && Resources == [] && Name == name
      ensures Hash == 0 && !ComputedHash
      ensures Valid()
    {
      ConstantBufferSize := 0;
      ResourceOffset := 0;
      Resources := [];
      Name := name;
      Hash := 0;
      ComputedHash := false;
    }

    /** Computes the hash on the first call and returns the cached value on
        later ones. */
    method GetHash() returns (r: bv32)
      modifies this
      ensures r == (if old(ComputedHash) then old(Hash) else LayoutHash(ConstantBufferSize, ResourceOffset, Resources))
      ensures Hash == r && ComputedHash
      ensures ConstantBufferSize == old(ConstantBufferSize) && ResourceOffset == old(ResourceOffset)
      ensures Resources == old(Resources) && Name == old(Name)
      ensures old(Valid()) ==> Valid() && r == LayoutHash(ConstantBufferSize, ResourceOffset, Resources)
    {
      if !ComputedHash {
        Hash := ComputeHash(ConstantBufferSize, ResourceOffset, Resources);
        ComputedHash := true;
      }
      r := Hash;
    }

    /** Takes every field of `source`, the cached hash included. */
    method CopyFrom(source: UniformBufferLayout)
      modifies this
      ensures ConstantBufferSize == source.ConstantBufferSize && ResourceOffset == source.ResourceOffset
      ensures Resources == source.Resources && Name == source.Name
      ensures Hash == source.Hash && ComputedHash == source.ComputedHash
      ensures source.Valid() ==> Valid()
    {
      ConstantBufferSize := source.ConstantBufferSize;
      ResourceOffset := source.ResourceOffset;
      Resources := source.Resources;
      Name := source.Name;
      Hash := source.Hash;
      ComputedHash := source.ComputedHash;
    }

    /** Layouts compare by their sizes and resource types; the name and the
        cached hash play no part. */
    function Equals(other: UniformBufferLayout): (r: bool)
      reads this, other
      ensures r <==> (ConstantBufferSize == other.ConstantBufferSize &&
        ResourceOffset == other.ResourceOffset && Resources == other.Resources)
    {
      ConstantBufferSize == other.ConstantBufferSize && ResourceOffset == other.ResourceOffset &&
      Resources == other.Resources
    }
  }

  /** Equal layouts whose caches are valid have equal hashes. */
  lemma EqualLayoutsHashEqual(a: UniformBufferLayout, b: UniformBufferLayout)
    requires a.Equals(b)
    ensures LayoutHash(a.ConstantBufferSize, a.ResourceOffset, a.Resources) ==
      LayoutHash(b.ConstantBufferSize, b.ResourceOffset, b.Resources)
  {
  }

  /** The optional-state bits of a pipeline initializer. */
  const SetStencilRefFlag: bv32 := 1
  const SetBlendFactorFlag: bv32 := 2

  datatype LinearColor = LinearColor(r: real, g: real, b: real, a: real)

  class GraphicsPipelineStateInitializer {
    var OptState: bv32
    var StencilRef: u32
    var BlendFactor: LinearColor

    /** The default initializer sets no optional state. */
    constructor()
      ensures OptState == 0 && StencilRef == 0 && BlendFactor == LinearColor(1.0, 1.0, 1.0, 1.0)
    {
      OptState := 0;
      StencilRef := 0;
      BlendFactor := LinearColor(1.0, 1.0, 1.0, 1.0);
    }

    /** The full initializer sets both optional states. */
    constructor WithState(stencilRef: u32, blendFactor: LinearColor)
      ensures OptState == SetStencilRefFlag | SetBlendFactorFlag
      ensures StencilRef == stencilRef && BlendFactor == blendFactor
    {
      OptState := SetStencilRefFlag | SetBlendFactorFlag;
      StencilRef := stencilRef;
      BlendFactor := blendFactor;
    }

    function GetOptionalSetState(): bv32
      reads this
    {
      OptState
    }

    method SetStencilRef(stencilRef: u32)
      modifies this
      ensures OptState == WithFlag(old(OptState), SetStencilRefFlag)
      ensures StencilRef == stencilRef && BlendFactor == old(BlendFactor)
    {
      OptState := OptState | SetStencilRefFlag;
      StencilRef := stencilRef;
    }

    method ClearSetStencilRef()
      modifies this
      ensures OptState == WithoutFlag(old(OptState), SetStencilRefFlag)
      ensures StencilRef == old(StencilRef) && BlendFactor == old(BlendFactor)
    {
      OptState := OptState & !SetStencilRefFlag;
    }

    method SetBlendFactor(blendFactor: LinearColor)
      modifies this
      ensures OptState == WithFlag(old(OptState), SetBlendFactorFlag)
      ensures BlendFactor == blendFactor && StencilRef == old(StencilRef)
    {
      OptState := OptState | SetBlendFactorFlag;
      BlendFactor := blendFactor;
    }

    method ClearSetBlendFactor()
      modifies this
      ensures OptState == WithoutFlag(old(OptState), SetBlendFactorFlag)
      ensures StencilRef == old(StencilRef) && BlendFactor == old(BlendFactor)
    {
      OptState := OptState & !SetBlendFactorFlag;
    }
  }

  /** Setting a flag turns that flag on and leaves every other bit alone. */
  function WithFlag(state: bv32, flag: bv32): (r: bv32)
    ensures r & flag == flag
    ensures r & !flag == state & !flag
  {
    state | flag
  }

  /** Clearing a flag turns that flag off and leaves every other bit alone. */
  function WithoutFlag(state: bv32, flag: bv32): (r: bv32)
    ensures r & flag == 0
    ensures r & !flag == state & !flag
  {
    state & !flag
  }

  /** The two optional states are independent: setting or clearing one
      does not change whether the other is set, and clearing undoes
      setting on a state where the flag was off. */
  lemma OptionalStatesIndependent(state: bv32)
    ensures WithFlag(state, SetStencilRefFlag) & SetBlendFactorFlag == state & SetBlendFactorFlag
    ensures WithoutFlag(state, SetStencilRefFlag) & SetBlendFactorFlag == state & SetBlendFactorFlag
    ensures WithFlag(state, SetBlendFactorFlag) & SetStencilRefFlag == state & SetStencilRefFlag
    ensures WithoutFlag(state, SetBlendFactorFlag) & SetStencilRefFlag == state & SetStencilRefFlag
    ensures state & SetStencilRefFlag == 0 ==> WithoutFlag(WithFlag(state, SetStencilRefFlag), SetStencilRefFlag) == state
  {
  }
}
