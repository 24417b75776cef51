/** YColorList: the table of named colours. Each colour is registered under
    a lower-case name in a name map and, in registration order, in an
    index lookup; both hold pointers to the static colour constants. */
module ColorList {
  import opened Wrappers
  import opened Colors
  import Strings

  /** A pointer to one of the static colour constants, identified by the
      constant's name. */
  datatype ColorPtr = ColorPtr(id: string, value: Color)

  const WhitePtr: ColorPtr := ColorPtr("White", White)
  const BlackPtr: ColorPtr := ColorPtr("Black", Black)

  /** The name map, as its (name, pointer) pairs in insertion order. Its
      keys are engine strings, so they compare without regard to case. */
  type ColorsMap = seq<(string, ColorPtr)>

  /** The pointer stored under `name` in any case, if any. */
  function FindRef(m: ColorsMap, name: string): (r: Option<ColorPtr>)
    ensures r.None? <==> forall i :: 0 <= i < |m| ==> !Strings.EqualsIgnoreCase(m[i].0, name)
    ensures r.Some? ==> exists i :: 0 <= i < |m| && Strings.EqualsIgnoreCase(m[i].0, name) && m[i].1 == r.value
  {
    if m == [] then None
    else if Strings.EqualsIgnoreCase(m[0].0, name) then Some(m[0].1)
    else
      var r := FindRef(m[1..], name);
      assert forall i :: 1 <= i < |m| ==> m[i] == m[1..][i - 1];
      r
  }

  /** The first name under which `ptr` is stored, if any. */
  function FindKey(m: ColorsMap, ptr: ColorPtr): (r: Option<string>)
    ensures r.None? <==> forall i :: 0 <= i < |m| ==> m[i].1 != ptr
    ensures r.Some? ==> exists i :: 0 <= i < |m| && m[i] == (r.value, ptr)
  {
    if m == [] then None
    else if m[0].1 == ptr then Some(m[0].0)
    else
      var r := FindKey(m[1..], ptr);
      assert forall i :: 1 <= i < |m| ==> m[i] == m[1..][i - 1];
      r
  }

  /** TMap::Add: replaces the pair of an existing name (in any case) in
      its slot, or appends a new pair. */
  function MapAdd(m: ColorsMap, name: string, ptr: ColorPtr): (r: ColorsMap)
    ensures FindRef(r, name) == Some(ptr)
    ensures forall n :: !Strings.EqualsIgnoreCase(n, name) ==> FindRef(r, n) == FindRef(m, n)
    ensures |r| <= |m| + 1
  {
    if m == [] then [(name, ptr)]
    else if Strings.EqualsIgnoreCase(m[0].0, name) then [(name, ptr)] + m[1..]
    else
      var rest := MapAdd(m[1..], name, ptr);
      assert ([m[0]] + rest)[1..] == rest;
      assert forall n :: !Strings.EqualsIgnoreCase(n, name) ==> FindRef([m[0]] + rest, n) == FindRef(m, n);
      [m[0]] + rest
  }

  /** Lookups ignore case: names that differ only in case find the same
      pointer. */
  lemma {:induction false} FindRefIgnoresCase(m: ColorsMap, a: string, b: string)
    requires Strings.EqualsIgnoreCase(a, b)
    ensures FindRef(m, a) == FindRef(m, b)
  {
    if m != [] {
      FindRefIgnoresCase(m[1..], a, b);
    }
  }

  /** The map after registering every entry of `t` in order. */
  function AddAll(m: ColorsMap, t: seq<(string, ColorPtr)>): ColorsMap {
    if t == [] then m else MapAdd(AddAll(m, t[..|t| - 1]), t[|t| - 1].0, t[|t| - 1].1)
  }

  /** The pointers of `t`, in order. */
  function Pointers(t: seq<(string, ColorPtr)>): (r: seq<ColorPtr>)
    ensures |r| == |t| && forall i :: 0 <= i < |t| ==> r[i] == t[i].1
  {
    seq(|t|, i requires 0 <= i < |t| => t[i].1)
  }

  /** Registering one more entry of the table. */
  lemma AddAllSnoc(m: ColorsMap, t: seq<(string, ColorPtr)>, i: nat)
    requires i < |t|
    ensures AddAll(m, t[..i + 1]) == MapAdd(AddAll(m, t[..i]), t[i].0, t[i].1)
  {
    assert t[..i + 1][..i] == t[..i];
  }

  /** One more entry adds its pointer at the end. */
  lemma PointersSnoc(t: seq<(string, ColorPtr)>, i: nat)
    requires i < |t|
    ensures Pointers(t[..i + 1]) == Pointers(t[..i]) + [t[i].1]
  {
  }

  /** Every name with its colour, in the order CreateColorMap registers
      them: black must come first. */
  const ColorTable: seq<(string, ColorPtr)> := [("black", BlackPtr)] + OtherColors

  const OtherColors: seq<(string, ColorPtr)> := [
    ("aquamarine", ColorPtr("Aquamarine", Color(112, 219, 147, 255))),
    ("bakerchocolate", ColorPtr("BakerChocolate", Color(92, 51, 23, 255))),
    ("blue", ColorPtr("Blue", Color(0, 0, 255, 255))),
    ("blueviolet", ColorPtr("BlueViolet", Color(159, 95, 159, 255))),
    ("brass", ColorPtr("Brass", Color(181, 166, 66, 255))),
    ("brightgold", ColorPtr("BrightGold", Color(217, 217, 25, 255))),
    ("brown", ColorPtr("Brown", Color(166, 42, 42, 255))),
    ("bronze", ColorPtr("Bronze", Color(140, 120, 83, 255))),
    ("bronzeii", ColorPtr("BronzeII", Color(166, 125, 61, 255))),
    ("cadetblue", ColorPtr("CadetBlue", Color(95, 159, 159, 255))),
    ("coolcopper", ColorPtr("CoolCopper", Color(217, 135, 25, 255))),
    ("copper", ColorPtr("Copper", Color(184, 115, 51, 255))),
    ("coral", ColorPtr("Coral", Color(255, 127, 0, 255))),
    ("cornflowerblue", ColorPtr("CornFlowerBlue", Color(66, 66, 111, 255))),
    ("cyan", ColorPtr("Cyan", Color(0, 255, 255, 255))),
    ("darkbrown", ColorPtr("DarkBrown", Color(92, 64, 51, 255))),
    ("darkgreen", ColorPtr("DarkGreen", Color(47, 79, 47, 255))),
    ("darkgreencopper", ColorPtr("DarkGreenCopper", Color(74, 118, 110, 255))),
    ("darkolivegreen", ColorPtr("DarkOliveGreen", Color(79, 79, 47, 255))),
    ("darkorchid", ColorPtr("DarkOrchid", Color(153, 50, 205, 255))),
    ("darkpurple", ColorPtr("DarkPurple", Color(135, 31, 120, 255))),
    ("darkslateblue", ColorPtr("DarkSlateBlue", Color(107, 35, 142, 255))),
    ("darkslategrey", ColorPtr("DarkSlateGrey", Color(47, 79, 79, 255))),
    ("darktan", ColorPtr("DarkTan", Color(151, 105, 79, 255))),
    ("darkturquoise", ColorPtr("DarkTurquoise", Color(112, 147, 219, 255))),
    ("darkwood", ColorPtr("DarkWood", Color(133, 94, 66, 255))),
    ("dimgrey", ColorPtr("DimGrey", Color(84, 84, 84, 255))),
    ("dustyrose", ColorPtr("DustyRose", Color(133, 99, 99, 255))),
    ("feldspar", ColorPtr("Feldspar", Color(209, 146, 117, 255))),
    ("firebrick", ColorPtr("Firebrick", Color(142, 35, 35, 255))),
    ("forestgreen", ColorPtr("ForestGreen", Color(35, 142, 35, 255))),
    ("gold", ColorPtr("Gold", Color(205, 127, 50, 255))),
    ("goldenrod", ColorPtr("Goldenrod", Color(219, 219, 112, 255))),
    ("green", ColorPtr("Green", Color(0, 255, 0, 255))),
    ("greencopper", ColorPtr("GreenCopper", Color(82, 127, 118, 255))),
    ("greenyellow", ColorPtr("GreenYellow", Color(147, 219, 112, 255))),
    ("grey", ColorPtr("Grey", Color(192, 192, 192, 255))),
    ("huntergreen", ColorPtr("HunterGreen", Color(33, 94, 33, 255))),
    ("indianred", ColorPtr("IndianRed", Color(78, 47, 47, 255))),
    ("khaki", ColorPtr("Khaki", Color(159, 159, 95, 255))),
    ("lightblue", ColorPtr("LightBlue", Color(192, 217, 217, 255))),
    ("lightgrey", ColorPtr("LightGrey", Color(168, 168, 168, 255))),
    ("lightsteelblue", ColorPtr("LightSteelBlue", Color(143, 143, 189, 255))),
    ("lightwood", ColorPtr("LightWood", Color(233, 194, 166, 255))),
    ("limegreen", ColorPtr("LimeGreen", Color(50, 205, 50, 255))),
    ("magenta", ColorPtr("Magenta", Color(255, 0, 255, 255))),
    ("mandarianorange", ColorPtr("MandarianOrange", Color(228, 120, 51, 255))),
    ("maroon", ColorPtr("Maroon", Color(142, 35, 107, 255))),
    ("mediumaquamarine", ColorPtr("MediumAquamarine", Color(50, 205, 153, 255))),
    ("mediumblue", ColorPtr("MediumBlue", Color(50, 50, 205, 255))),
    ("mediumforestgreen", ColorPtr("MediumForestGreen", Color(107, 142, 35, 255))),
    ("mediumgoldenrod", ColorPtr("MediumGoldenrod", Color(234, 234, 174, 255))),
    ("mediumorchid", ColorPtr("MediumOrchid", Color(147, 112, 219, 255))),
    ("mediumseagreen", ColorPtr("MediumSeaGreen", Color(66, 111, 66, 255))),
    ("mediumslateblue", ColorPtr("MediumSlateBlue", Color(127, 0, 255, 255))),
    ("mediumspringgreen", ColorPtr("MediumSpringGreen", Color(127, 255, 0, 255))),
    ("mediumturquoise", ColorPtr("MediumTurquoise", Color(112, 219, 219, 255))),
    ("mediumvioletred", ColorPtr("MediumVioletRed", Color(219, 112, 147, 255))),
    ("mediumwood", ColorPtr("MediumWood", Color(166, 128, 100, 255))),
    ("midnightblue", ColorPtr("MidnightBlue", Color(47, 47, 79, 255))),
    ("navyblue", ColorPtr("NavyBlue", Color(35, 35, 142, 255))),
    ("neonblue", ColorPtr("NeonBlue", Color(77, 77, 255, 255))),
    ("neonpink", ColorPtr("NeonPink", Color(255, 110, 199, 255))),
    ("newmidnightblue", ColorPtr("NewMidnightBlue", Color(0, 0, 156, 255))),
    ("newtan", ColorPtr("NewTan", Color(235, 199, 158, 255))),
    ("oldgold", ColorPtr("OldGold", Color(207, 181, 59, 255))),
    ("orange", ColorPtr("Orange", Color(255, 127, 0, 255))),
    ("orangered", ColorPtr("OrangeRed", Color(255, 36, 0, 255))),
    ("orchid", ColorPtr("Orchid", Color(219, 112, 219, 255))),
    ("palegreen", ColorPtr("PaleGreen", Color(143, 188, 143, 255))),
    ("pink", ColorPtr("Pink", Color(188, 143, 143, 255))),
    ("plum", ColorPtr("Plum", Color(234, 173, 234, 255))),
    ("quartz", ColorPtr("Quartz", Color(217, 217, 243, 255))),
    ("red", ColorPtr("Red", Color(255, 0, 0, 255))),
    ("richblue", ColorPtr("RichBlue", Color(89, 89, 171, 255))),
    ("salmon", ColorPtr("Salmon", Color(111, 66, 66, 255))),
    ("scarlet", ColorPtr("Scarlet", Color(140, 23, 23, 255))),
    ("seagreen", ColorPtr("SeaGreen", Color(35, 142, 104, 255))),
    ("semisweetchocolate", ColorPtr("SemiSweetChocolate", Color(107, 66, 38, 255))),
    ("sienna", ColorPtr("Sienna", Color(142, 107, 35, 255))),
    ("silver", ColorPtr("Silver", Color(230, 232, 250, 255))),
    ("skyblue", ColorPtr("SkyBlue", Color(50, 153, 204, 255))),
    ("slateblue", ColorPtr("SlateBlue", Color(0, 127, 255, 255))),
    ("spicypink", ColorPtr("SpicyPink", Color(255, 28, 174, 255))),
    ("springgreen", ColorPtr("SpringGreen", Color(0, 255, 127, 255))),
    ("steelblue", ColorPtr("SteelBlue", Color(35, 107, 142, 255))),
    ("summersky", ColorPtr("SummerSky", Color(56, 176, 222, 255))),
    ("tan", ColorPtr("Tan", Color(219, 147, 112, 255))),
    ("thistle", ColorPtr("Thistle", Color(216, 191, 216, 255))),
    ("turquoise", ColorPtr("Turquoise", Color(173, 234, 234, 255))),
    ("verydarkbrown", ColorPtr("VeryDarkBrown", Color(92, 64, 51, 255))),
    ("verylightgrey", ColorPtr("VeryLightGrey", Color(205, 205, 205, 255))),
    ("violet", ColorPtr("Violet", Color(79, 47, 79, 255))),
    ("violetred", ColorPtr("VioletRed", Color(204, 50, 153, 255))),
    ("wheat", ColorPtr("Wheat", Color(216, 216, 191, 255))),
    ("white", ColorPtr("White", Color(255, 255, 255, 255))),
    ("yellow", ColorPtr("Yellow", Color(255, 255, 0, 255))),
    ("yellowgreen", ColorPtr("YellowGreen", Color(153, 204, 50, 255)))
  ]

  /** Index of the first occurrence of `ptr` in `s`, if any. */
  function IndexOf(s: seq<ColorPtr>, ptr: ColorPtr): (r: Option<nat>)
    ensures r.None? <==> ptr !in s
    ensures r.Some? ==> r.value < |s| && s[r.value] == ptr && ptr !in s[..r.value]
  {
    if s == [] then None
    else if s[0] == ptr then Some(0)
    else
      var r := IndexOf(s[1..], ptr);
      assert s == [s[0]] + s[1..];
      if r.Some? then
        assert s[..r.value + 1] == [s[0]] + s[1..][..r.value];
        Some(r.value + 1)
      else None
  }

  class ColorList {
    var ColorsMap: ColorsMap
    var ColorsLookup: seq<ColorPtr>

    constructor()
      ensures ColorsMap == [] && ColorsLookup == []
    {
      ColorsMap := [];
      ColorsLookup := [];
    }

    /** Registers `ptr` under `name` in the map and at the end of the
        lookup, and advances the running index. */
    method InitializeColor(name: string, ptr: ColorPtr, currentIndex: int) returns (nextIndex: int)
      modifies this
      ensures ColorsMap == MapAdd(old(ColorsMap), name, ptr)
      ensures ColorsLookup == old(ColorsLookup) + [ptr]
      ensures nextIndex == currentIndex + 1
    {
      ColorsMap := MapAdd(ColorsMap, name, ptr);
      ColorsLookup := ColorsLookup + [ptr];
      nextIndex := currentIndex + 1;
    }

    /** Registers every entry of `t` in order. */
    method InitializeColors(t: seq<(string, ColorPtr)>)
      modifies this
      ensures ColorsMap == AddAll(old(ColorsMap), t)
      ensures ColorsLookup == old(ColorsLookup) + Pointers(t)
    {
      var index := 0;
      while index < |t|
        invariant 0 <= index <= |t|
        invariant ColorsMap == AddAll(old(ColorsMap), t[..index])
        invariant ColorsLookup == old(ColorsLookup) + Pointers(t[..index])
      {
        AddAllSnoc(old(ColorsMap), t, index);
        PointersSnoc(t, index);
        index := InitializeColor(t[index].0, t[index].1, index);
      }
      assert t[..index] == t;
    }

    /** Registers the whole colour table. */
    method CreateColorMap()
      modifies this
      ensures ColorsMap == AddAll(old(ColorsMap), ColorTable)
      ensures ColorsLookup == old(ColorsLookup) + Pointers(ColorTable)
    {
      InitializeColors(ColorTable);
    }

    /** The colour registered under `name`, or White. */
    function GetFColorBFName(name: string): (r: ColorPtr)
      reads this
      ensures FindRef(ColorsMap, name).None? ==> r == WhitePtr
      ensures FindRef(ColorsMap, name).Some? ==>
        exists i :: 0 <= i < |ColorsMap| && Strings.EqualsIgnoreCase(ColorsMap[i].0, name) && ColorsMap[i].1 == r
    {
      match FindRef(ColorsMap, name)
      case Some(ptr) => ptr
      case None => WhitePtr
    }

    predicate IsValidIndex(colorIndex: int)
      reads this
    {
      0 <= colorIndex < |ColorsLookup|
    }

    /** The colour at `colorIndex` in the lookup, or White. */
    function GetFColorByIndex(colorIndex: int): (r: ColorPtr)
      reads this
      ensures IsValidIndex(colorIndex) ==> r == ColorsLookup[colorIndex]
      ensures !IsValidIndex(colorIndex) ==> r == WhitePtr
    {
      if IsValidIndex(colorIndex) then ColorsLookup[colorIndex] else WhitePtr
    }

    predicate IsValidColorName(name: string)
      reads this
      ensures IsValidColorName(name) <==> exists i :: 0 <= i < |ColorsMap| && Strings.EqualsIgnoreCase(ColorsMap[i].0, name)
    {
      FindRef(ColorsMap, name).Some?
    }

    /** Where the colour for `name` (White when unknown) sits in the
        lookup, or -1 (INDEX_NONE, as TArray::Find leaves it) when it is
        not there. */
    function GetColorIndex(name: string): (r: int)
      reads this
      ensures GetFColorBFName(name) in ColorsLookup ==>
        0 <= r < |ColorsLookup| && ColorsLookup[r] == GetFColorBFName(name) && GetFColorBFName(name) !in ColorsLookup[..r]
      ensures GetFColorBFName(name) !in ColorsLookup ==> r == -1
    {
      match IndexOf(ColorsLookup, GetFColorBFName(name))
      case Some(i) => i
      case None => -1
    }

    /** The name under which the colour at `colorIndex` is registered, or
        "BadIndex". The engine dereferences the name it finds, so a valid
        index must hold a colour the map contains. */
    function GetColorNameByIndex(colorIndex: int): (r: string)
      reads this
      requires IsValidIndex(colorIndex) ==> FindKey(ColorsMap, ColorsLookup[colorIndex]).Some?
      ensures IsValidIndex(colorIndex) ==>
        exists i :: 0 <= i < |ColorsMap| && ColorsMap[i] == (r, ColorsLookup[colorIndex])
      ensures !IsValidIndex(colorIndex) ==> r == "BadIndex"
    {
      if IsValidIndex(colorIndex) then FindKey(ColorsMap, ColorsLookup[colorIndex]).value else "BadIndex"
    }
  }

  /** Once the table is registered on an empty list, index 0 is black. */
  lemma CreatedIndexZeroIsBlack(lookup: seq<ColorPtr>)
    requires lookup == [] + Pointers(ColorTable)
    ensures |lookup| == |ColorTable| && lookup[0] == BlackPtr && lookup[0].value == Black
  {
    assert ColorTable[0] == ("black", BlackPtr);
  }
}
