/** FFbxImporter: the import-phase guard of OpenFile, the import-type
    decision of GetImportType, and the naming helpers that sanitise FBX
    object names (MakeName, MakeNameForMesh) and make material names unique
    (FixMaterialClashName). The FBX SDK itself (file parsing, the scene
    graph) is outside the model: what the importer learns from it arrives
    as parameters. */
module FbxImport {
  import opened Wrappers
  import opened Strings

  // ---------------------------------------------------------------------
  // Name sanitising

  /** The characters MakeName and MakeNameForMesh turn into '_'. */
  const SpecialChars: seq<char> := ['.', ',', '/', '`', '%']

  /** `s` with every `c` turned into '_'. */
  function ReplaceChar(s: string, c: char): (r: string)
    ensures |r| == |s|
    ensures forall j | 0 <= j < |s| :: r[j] == (if s[j] == c then '_' else s[j])
  {
    seq(|s|, j requires 0 <= j < |s| => if s[j] == c then '_' else s[j])
  }

  /** `s` after the first `k` passes of the replacement loop. */
  function SanitizeWith(s: string, k: nat): (r: string)
    requires k <= |SpecialChars|
    ensures |r| == |s|
  {
    if k == 0 then s else ReplaceChar(SanitizeWith(s, k - 1), SpecialChars[k - 1])
  }

  function Sanitize(s: string): (r: string)
    ensures |r| == |s|
  {
    SanitizeWith(s, |SpecialChars|)
  }

  /** After k passes, exactly the characters among the first k special
      ones have become '_'. */
  lemma {:induction false} SanitizeWithChars(s: string, k: nat)
    requires k <= |SpecialChars|
    ensures forall j | 0 <= j < |s| ::
      SanitizeWith(s, k)[j] == (if s[j] in SpecialChars[..k] then '_' else s[j])
  {
    if k > 0 {
      SanitizeWithChars(s, k - 1);
      assert SpecialChars[..k] == SpecialChars[..k - 1] + [SpecialChars[k - 1]];
      assert '_' != SpecialChars[k - 1];
    }
  }

  /** Sanitising turns each of '.', ',', '/', '`' and '%' into '_' and
      keeps every other character. */
  lemma SanitizeReplacesSpecials(s: string)
    ensures forall j | 0 <= j < |s| :: Sanitize(s)[j] == (if s[j] in SpecialChars then '_' else s[j])
    ensures forall c | c in SpecialChars :: c !in Sanitize(s)
  {
    SanitizeWithChars(s, |SpecialChars|);
    assert SpecialChars[..|SpecialChars|] == SpecialChars;
  }

  /** `FCStringAnsi::Strchr` from position `from`: the first `c` at or
      after it. */
  function Strchr(s: string, from: nat, c: char): (r: Option<nat>)
    ensures r.None? ==> forall j | from <= j < |s| :: s[j] != c
    ensures r.Some? ==>
      from <= r.value < |s| && s[r.value] == c && forall j | from <= j < r.value :: s[j] != c
    decreases |s| - from
  {
    if from >= |s| then None else if s[from] == c then Some(from) else Strchr(s, from + 1, c)
  }

  /** What follows the last ':' (the name without its namespaces), or the
      whole string when there is none. */
  function AfterLastColon(t: string): (r: string)
  {
    t[LastIndexOf(t, ':') + 1..]
  }

  /** The first position of `c`, when the search finds none after it, is
      the last one. */
  lemma LastFound(t: string, p: nat, c: char)
    requires p < |t| && t[p] == c && Strchr(t, p + 1, c).None?
    ensures LastIndexOf(t, c) == p
  {
  }

  /** The buffer loop MakeName and MakeNameForMesh share: copies the name
      into a buffer and turns the special characters into '_', one
      character class at a time. `name` holds the characters before the
      terminating NUL. */
  method SanitizeBuffer(name: string) returns (t: string)
    ensures t == Sanitize(name)
  {
    var tmpName := new char[|name|](j requires 0 <= j < |name| => name[j]);
    for i := 0 to |SpecialChars|
      invariant tmpName[..] == SanitizeWith(name, i)
    {
      var c := SpecialChars[i];
      var charPtr := Strchr(tmpName[..], 0, c);
      while charPtr.Some?
        invariant charPtr.Some? ==> charPtr.value < tmpName.Length && tmpName[charPtr.value] == c
        invariant charPtr.Some? ==> forall j | 0 <= j < charPtr.value :: tmpName[j] != c
        invariant charPtr.None? ==> forall j | 0 <= j < tmpName.Length :: tmpName[j] != c
        invariant ReplaceChar(tmpName[..], c) == SanitizeWith(name, i + 1)
        decreases if charPtr.Some? then tmpName.Length - charPtr.value + 1 else 0
      {
        var p := charPtr.value;
        tmpName[p] := '_';
        charPtr := Strchr(tmpName[..], p, c);
      }
      assert ReplaceChar(tmpName[..], c) == tmpName[..];
    }
    t := tmpName[..];
  }

  /** MakeName: the sanitised name, then what follows its last ':'. */
  method MakeName(name: string) returns (r: string)
    ensures r == AfterLastColon(Sanitize(name))
  {
    var t := SanitizeBuffer(name);
    var newName := Strchr(t, 0, ':');
    while newName.Some? && Strchr(t, newName.value + 1, ':').Some?
      invariant newName.Some? ==> newName.value < |t| && t[newName.value] == ':'
      invariant newName.None? ==> ':' !in t
      decreases if newName.Some? then |t| - newName.value else 0
    {
      newName := Strchr(t, newName.value + 1, ':');
    }
    if newName.Some? {
      LastFound(t, newName.value, ':');
      r := t[newName.value + 1..];
    } else {
      r := t;
    }
  }

  /** MakeName's result holds no ':' and none of the special characters;
      it is a suffix of the sanitised name, and the whole of it when the
      name has no namespace. */
  lemma MakeNameResult(name: string)
    ensures ':' !in AfterLastColon(Sanitize(name))
    ensures forall c | c in SpecialChars :: c !in AfterLastColon(Sanitize(name))
    ensures EndsWith(Sanitize(name), AfterLastColon(Sanitize(name)))
    ensures ':' !in name ==> AfterLastColon(Sanitize(name)) == Sanitize(name)
  {
    var t := Sanitize(name);
    SanitizeReplacesSpecials(name);
    var r := AfterLastColon(t);
    assert forall j | 0 <= j < |r| :: r[j] == t[LastIndexOf(t, ':') + 1 + j];
    if ':' !in name {
      assert ':' !in t;
    }
  }

  /** MakeNameForMesh's namespace loop as written: from the first ':' on,
      the name restarts one past the colon and the next search starts one
      further on, so the character right after a colon is never searched.
      A search that starts past the terminator finds nothing here. */
  function StripNamespacesAsWritten(t: string): (r: string)
  {
    match Strchr(t, 0, ':')
    case None => t
    case Some(first) => StripFrom(t, first)
  }

  function StripFrom(t: string, tmp: nat): (r: string)
    requires tmp < |t|
    decreases |t| - tmp
  {
    var newName := tmp + 1;
    match Strchr(t, newName + 1, ':')
    case None => t[newName..]
    case Some(next) => StripFrom(t, next)
  }

  /** MakeNameForMesh's object name: sanitised, then its namespaces
      stripped by the loop as written. */
  method MeshObjectName(name: string) returns (r: string)
    ensures r == StripNamespacesAsWritten(Sanitize(name))
  {
    var t := SanitizeBuffer(name);
    var first := Strchr(t, 0, ':');
    if first.Some? {
      var tmp := first;
      var newName: nat := 0;
      while tmp.Some?
        invariant tmp.Some? ==> tmp.value < |t| && StripFrom(t, tmp.value) == StripFrom(t, first.value)
        invariant tmp.None? ==> newName <= |t| && t[newName..] == StripFrom(t, first.value)
        decreases if tmp.Some? then |t| - tmp.value + 1 else 0
      {
        newName := tmp.value + 1;
        tmp := Strchr(t, newName + 1, ':');
      }
      r := t[newName..];
    } else {
      r := t;
    }
  }

  /** With two colons in a row the as-written loop keeps the second one:
      "a::b" becomes ":b", a mesh name with a ':' in it. */
  lemma StripAsWrittenKeepsColon()
    ensures StripNamespacesAsWritten("a::b") == ":b"
    ensures ':' in StripNamespacesAsWritten("a::b")
  {
    assert Strchr("a::b", 0, ':') == Some(1);
    assert Strchr("a::b", 3, ':') == None;
  }

  /** Stripping everything up to the last ':', as MakeName does, never
      leaves a ':'. */
  lemma StripToLastColonHasNoColon(t: string)
    ensures ':' !in AfterLastColon(t)
    ensures AfterLastColon("a::b") == "b"
  {
    var r := AfterLastColon(t);
    assert forall j | 0 <= j < |r| :: r[j] == t[LastIndexOf(t, ':') + 1 + j];
    assert LastIndexOf("a::b", ':') == 2;
  }

  // ---------------------------------------------------------------------
  // Unique names

  /** `base` followed by the decimal text of `j` (`FString::FromInt`). */
  function Suffixed(base: string, j: nat): string {
    base + DecimalText(j)
  }

  /** The suffixes `lo` up to `k` - 1 tried so far. */
  ghost function SuffixedRange(base: string, lo: nat, k: nat): set<string> {
    set j | lo <= j < k :: Suffixed(base, j)
  }

  lemma SuffixedInjective(base: string, i: nat, j: nat)
    requires Suffixed(base, i) == Suffixed(base, j)
    ensures i == j
  {
    assert DecimalText(i) == Suffixed(base, i)[|base|..];
    assert DecimalText(j) == Suffixed(base, j)[|base|..];
    DecimalTextValue(i);
    DecimalTextValue(j);
  }

  /** Distinct suffixes give distinct names, so k - lo of them were tried. */
  lemma {:induction false} SuffixedRangeSize(base: string, lo: nat, k: nat)
    requires lo <= k
    ensures |SuffixedRange(base, lo, k)| == k - lo
  {
    if k > lo {
      SuffixedRangeSize(base, lo, k - 1);
      assert SuffixedRange(base, lo, k) == SuffixedRange(base, lo, k - 1) + {Suffixed(base, k - 1)};
      if Suffixed(base, k - 1) in SuffixedRange(base, lo, k - 1) {
        var j :| lo <= j < k - 1 && Suffixed(base, j) == Suffixed(base, k - 1);
        SuffixedInjective(base, j, k - 1);
      }
    }
  }

  /** The FBX SDK's first name-clash convention, NAMECLASH1_KEY. */
  const NameClashKey: string := "_ncl1_"

  /** How a material's final name relates to the original, given the
      lower-case forms of the names taken so far (an engine set of strings
      ignores case): an unclashing name is kept; a clashing one gets the
      clash key and the smallest index from 1 up that gives a name not
      taken yet. */
  ghost predicate ResolvedName(original: string, taken: set<string>, final: string) {
    ToLower(final) !in taken
    && (ToLower(original) !in taken ==> final == original)
    && (ToLower(original) in taken ==>
          exists k :: k >= 1 && final == Suffixed(original + NameClashKey, k)
                     && SuffixedRange(ToLower(original + NameClashKey), 1, k) <= taken)
  }

  /** Lower-casing a numbered name lower-cases only its base. */
  lemma SuffixedFolds(base: string, j: nat)
    ensures ToLower(Suffixed(base, j)) == Suffixed(ToLower(base), j)
  {
    ToLowerAppend(base, DecimalText(j));
    ToLowerKeepsDigits(DecimalText(j));
  }

  /** The body of FixMaterialClashName's loop for one material. */
  method ResolveClash(materialName: string, allMaterialName: set<string>) returns (newName: string)
    ensures ResolvedName(materialName, allMaterialName, newName)
  {
    newName := materialName;
    if ToLower(materialName) in allMaterialName {
      var materialBaseName := materialName + NameClashKey;
      var nameIndex := 1;
      newName := Suffixed(materialBaseName, nameIndex);
      nameIndex := nameIndex + 1;
      while ToLower(newName) in allMaterialName
        invariant nameIndex >= 2 && newName == Suffixed(materialBaseName, nameIndex - 1)
        invariant SuffixedRange(ToLower(materialBaseName), 1, nameIndex - 1) <= allMaterialName
        decreases |allMaterialName| - (nameIndex - 2)
      {
        SuffixedFolds(materialBaseName, nameIndex - 1);
        assert SuffixedRange(ToLower(materialBaseName), 1, nameIndex) <= allMaterialName;
        SuffixedRangeSize(ToLower(materialBaseName), 1, nameIndex);
        SubsetSize(SuffixedRange(ToLower(materialBaseName), 1, nameIndex), allMaterialName);
        newName := Suffixed(materialBaseName, nameIndex);
        nameIndex := nameIndex + 1;
      }
    }
  }

  lemma SubsetSize<T>(a: set<T>, b: set<T>)
    requires a <= b
    ensures |a| <= |b|
  {
    assert b == a + (b - a);
  }

  /** No two entries are equal, ignoring case. */
  predicate DistinctIgnoringCase(names: seq<string>) {
    forall i, j | 0 <= i < j < |names| :: ToLower(names[i]) != ToLower(names[j])
  }

  /** The names as an engine set or array of strings compares them:
      without regard to case, so by their lower-case forms. */
  function Folded(names: seq<string>): set<string> {
    set x | x in names :: ToLower(x)
  }

  // ---------------------------------------------------------------------
  // OpenFile and GetImportType

  /** IMPORTPHASE. */
  datatype ImportPhase = NotStarted | FileOpened | Imported

  /** What GetSceneInfo reports about the scene. */
  datatype SceneInfo = SceneInfo(skinnedMeshNum: int, totalGeometryNum: int, hasAnimation: bool)

  /** GetImportType's decision once the file is open: -1 (invalid), 0
      (static mesh), 1 (skeletal mesh) or 2 (animation), from the scene
      info, None when GetSceneInfo failed. */
  function ImportTypeDecision(sceneInfo: Option<SceneInfo>): (r: int)
  {
    var (result, hasAnimation) :=
      match sceneInfo
      case None => (-1, false)
      case Some(info) =>
        (if info.skinnedMeshNum > 0 then 1 else if info.totalGeometryNum > 0 then 0 else -1, info.hasAnimation);
    if hasAnimation then (if result == -1 then 2 else if result == 0 then 1 else result) else result
  }

  /** Skeletal mesh ranks above static mesh above animation: the type is
      1 with skinned meshes, or with geometry and animation; 0 with only
      geometry; 2 with only animation; -1 otherwise. */
  lemma ImportTypePriorities(sceneInfo: Option<SceneInfo>)
    ensures var r := ImportTypeDecision(sceneInfo);
      -1 <= r <= 2
      && (sceneInfo.None? ==> r == -1)
      && (sceneInfo.Some? ==>
            var info := sceneInfo.value;
            (r == 1 <==> info.skinnedMeshNum > 0 || (info.totalGeometryNum > 0 && info.hasAnimation))
            && (r == 0 <==> info.skinnedMeshNum <= 0 && info.totalGeometryNum > 0 && !info.hasAnimation)
            && (r == 2 <==> info.skinnedMeshNum <= 0 && info.totalGeometryNum <= 0 && info.hasAnimation)
            && (r == -1 <==> info.skinnedMeshNum <= 0 && info.totalGeometryNum <= 0 && !info.hasAnimation))
  {
  }

  // ---------------------------------------------------------------------
  // Mesh names

  /** The name MakeNameForMesh starts from: the object's name, sanitised
      and stripped of namespaces, after `inName` and '_' unless `inName`
      is "None". */
  function MeshPrefix(inName: string, newName: string): string {
    if EqualsIgnoreCase(inName, "None") then newName else inName + "_" + newName
  }

  /** The candidate tried at count `j`: the prefix, then "_j" from 1 on. */
  function Numbered(prefix: string, j: nat): (r: string)
    ensures j > 0 ==> r == Suffixed(prefix + "_", j)
  {
    if j == 0 then prefix else prefix + "_" + DecimalText(j)
  }

  ghost function NumberedRange(prefix: string, k: nat): set<string> {
    set j | 0 <= j < k :: Numbered(prefix, j)
  }

  /** The first k candidates are k distinct names. */
  lemma NumberedRangeSize(prefix: string, k: nat)
    ensures |NumberedRange(prefix, k)| == k
  {
    if k > 0 {
      SuffixedRangeSize(prefix + "_", 1, k);
      forall x | x in NumberedRange(prefix, k)
        ensures x in {prefix} + SuffixedRange(prefix + "_", 1, k)
      {
        var j :| 0 <= j < k && x == Numbered(prefix, j);
      }
      forall x | x in SuffixedRange(prefix + "_", 1, k)
        ensures x in NumberedRange(prefix, k) && |x| > |prefix|
      {
        var j :| 1 <= j < k && x == Suffixed(prefix + "_", j);
        assert x == Numbered(prefix, j);
      }
      assert prefix == Numbered(prefix, 0);
      assert NumberedRange(prefix, k) == {prefix} + SuffixedRange(prefix + "_", 1, k);
    }
  }

  /** Lower-casing a candidate lower-cases only its prefix. */
  lemma NumberedFolds(prefix: string, j: nat)
    ensures ToLower(Numbered(prefix, j)) == Numbered(ToLower(prefix), j)
  {
    if j > 0 {
      ToLowerAppend(prefix, "_");
      ToLowerAppend(prefix + "_", DecimalText(j));
      ToLowerKeepsDigits(DecimalText(j));
      assert ToLower("_") == "_";
    }
  }

  /** MakeNameForMesh's do-while loop: the first candidate the cache does
      not contain (in any case), counting from the bare prefix. */
  method UniqueMeshName(prefix: string, meshNamesCache: seq<string>) returns (composeName: string)
    ensures ToLower(composeName) !in Folded(meshNamesCache)
    ensures exists k :: composeName == Numbered(prefix, k) && NumberedRange(ToLower(prefix), k) <= Folded(meshNamesCache)
  {
    var nameCount := 0;
    composeName := Numbered(prefix, nameCount);
    nameCount := nameCount + 1;
    while ToLower(composeName) in Folded(meshNamesCache)
      invariant nameCount >= 1 && composeName == Numbered(prefix, nameCount - 1)
      invariant NumberedRange(ToLower(prefix), nameCount - 1) <= Folded(meshNamesCache)
      decreases |Folded(meshNamesCache)| - (nameCount - 1)
    {
      NumberedFolds(prefix, nameCount - 1);
      assert NumberedRange(ToLower(prefix), nameCount) <= Folded(meshNamesCache);
      NumberedRangeSize(ToLower(prefix), nameCount);
      SubsetSize(NumberedRange(ToLower(prefix), nameCount), Folded(meshNamesCache));
      composeName := Numbered(prefix, nameCount);
      nameCount := nameCount + 1;
    }
  }

  class FbxImporter {
    var CurPhase: ImportPhase
    /** ImportOptions->bUsedAsFullName. */
    var UsedAsFullName: bool
    var MeshNamesCache: seq<string>
    /** The names of the scene's materials, in FillMaterialArray order. */
    var MaterialNames: seq<string>

    /** The constructor zeroes the import options and starts in
        NOTSTARTED with no scene. */
    constructor()
      ensures CurPhase == NotStarted && !UsedAsFullName
      ensures MeshNamesCache == [] && MaterialNames == []
    {
      CurPhase := NotStarted;
      UsedAsFullName := false;
      MeshNamesCache := [];
      MaterialNames := [];
    }

    /** OpenFile: refuses unless no file is open or imported; otherwise
        opens the file when the SDK's importer initialises. */
    method OpenFile(initializeSucceeds: bool) returns (result: bool)
      modifies this
      ensures result <==> old(CurPhase) == NotStarted && initializeSucceeds
      ensures CurPhase == (if result then FileOpened else old(CurPhase))
      ensures MeshNamesCache == old(MeshNamesCache) && MaterialNames == old(MaterialNames)
      ensures UsedAsFullName == old(UsedAsFullName)
    {
      if CurPhase != NotStarted {
        return false;
      }
      if !initializeSucceeds {
        return false;
      }
      CurPhase := FileOpened;
      result := true;
    }

    /** GetImportType: opens the file; if that works, decides from the
        scene info and closes the importer again. */
    method GetImportType(initializeSucceeds: bool, sceneInfo: Option<SceneInfo>) returns (result: int)
      modifies this
      ensures old(CurPhase) == NotStarted && initializeSucceeds ==>
        result == ImportTypeDecision(sceneInfo) && CurPhase == NotStarted
      ensures !(old(CurPhase) == NotStarted && initializeSucceeds) ==>
        result == -1 && CurPhase == old(CurPhase)
      ensures MeshNamesCache == old(MeshNamesCache) && MaterialNames == old(MaterialNames)
    {
      result := -1;
      var fileOpened := OpenFile(initializeSucceeds);
      if fileOpened {
        var hasAnimation := false;
        if sceneInfo.Some? {
          if sceneInfo.value.skinnedMeshNum > 0 {
            result := 1;
          } else if sceneInfo.value.totalGeometryNum > 0 {
            result := 0;
          }
          hasAnimation := sceneInfo.value.hasAnimation;
        }
        CurPhase := NotStarted;
        if hasAnimation {
          if result == -1 {
            result := 2;
          } else if result == 0 {
            result := 1;
          }
        }
      }
    }

    /** FixMaterialClashName: walks the materials in order, renaming every
        one whose name an earlier material already has, and records each
        final name. */
    method FixMaterialClashName()
      modifies this
      ensures |MaterialNames| == |old(MaterialNames)|
      ensures DistinctIgnoringCase(MaterialNames)
      ensures forall j | 0 <= j < |MaterialNames| ::
        ResolvedName(old(MaterialNames)[j], Folded(MaterialNames[..j]), MaterialNames[j])
      ensures CurPhase == old(CurPhase) && MeshNamesCache == old(MeshNamesCache)
    {
      var allMaterialName: set<string> := {};
      for materialIndex := 0 to |MaterialNames|
        invariant |MaterialNames| == |old(MaterialNames)|
        invariant MaterialNames[materialIndex..] == old(MaterialNames)[materialIndex..]
        invariant allMaterialName == Folded(MaterialNames[..materialIndex])
        invariant DistinctIgnoringCase(MaterialNames[..materialIndex])
        invariant forall j | 0 <= j < materialIndex ::
          ResolvedName(old(MaterialNames)[j], Folded(MaterialNames[..j]), MaterialNames[j])
        invariant CurPhase == old(CurPhase) && MeshNamesCache == old(MeshNamesCache)
      {
        var materialName := ResolveClash(MaterialNames[materialIndex], allMaterialName);
        RenameStep(MaterialNames, old(MaterialNames), materialIndex, materialName);
        MaterialNames := MaterialNames[materialIndex := materialName];
        allMaterialName := allMaterialName + {ToLower(materialName)};
      }
      assert MaterialNames[..|MaterialNames|] == MaterialNames;
    }

    /** MakeNameForMesh: the given name when it is to be used in full (or
        there is no object) and is not "None" (in any case); otherwise the
        object's sanitised name with its namespaces stripped by the loop as
        written, after `inName` unless that is "None", with "_1", "_2", ...
        appended until the cache holds no such name in any case. The result
        is added to the cache. */
    method MakeNameForMesh(inName: string, fbxObjectName: Option<string>) returns (outputName: string)
      requires fbxObjectName.Some? || !EqualsIgnoreCase(inName, "None")
      modifies this
      ensures MeshNamesCache == old(MeshNamesCache) + [outputName]
      ensures (UsedAsFullName || fbxObjectName.None?) && !EqualsIgnoreCase(inName, "None") ==> outputName == inName
      ensures !((UsedAsFullName || fbxObjectName.None?) && !EqualsIgnoreCase(inName, "None")) ==>
        fbxObjectName.Some? && ToLower(outputName) !in Folded(old(MeshNamesCache))
        && var prefix := MeshPrefix(inName, StripNamespacesAsWritten(Sanitize(fbxObjectName.value)));
           exists k :: outputName == Numbered(prefix, k) && NumberedRange(ToLower(prefix), k) <= Folded(old(MeshNamesCache))
      ensures CurPhase == old(CurPhase) && MaterialNames == old(MaterialNames)
      ensures UsedAsFullName == old(UsedAsFullName)
    {
      if (UsedAsFullName || fbxObjectName.None?) && !EqualsIgnoreCase(inName, "None") {
        outputName := inName;
      } else {
        var newName := MeshObjectName(fbxObjectName.value);
        outputName := UniqueMeshName(MeshPrefix(inName, newName), MeshNamesCache);
      }
      MeshNamesCache := MeshNamesCache + [outputName];
    }
  }

  /** One step of FixMaterialClashName keeps its loop invariant: the
      renamed material does not clash with the earlier ones and the
      earlier ones are unaffected. */
  lemma RenameStep(names: seq<string>, original: seq<string>, i: nat, newName: string)
    requires i < |names| == |original| && names[i] == original[i]
    requires DistinctIgnoringCase(names[..i])
    requires ResolvedName(original[i], Folded(names[..i]), newName)
    requires forall j | 0 <= j < i :: ResolvedName(original[j], Folded(names[..j]), names[j])
    ensures var after := names[i := newName];
      DistinctIgnoringCase(after[..i + 1])
      && Folded(after[..i + 1]) == Folded(names[..i]) + {ToLower(newName)}
      && forall j | 0 <= j < i + 1 :: ResolvedName(original[j], Folded(after[..j]), after[j])
  {
    var after := names[i := newName];
    assert after[..i + 1] == names[..i] + [newName];
    FoldedAppend(names[..i], newName);
    AppendKeepsDistinct(names[..i], newName);
    forall j | 0 <= j < i + 1
      ensures ResolvedName(original[j], Folded(after[..j]), after[j])
    {
      assert after[..j] == names[..j];
      if j == i {
        assert after[j] == newName;
      }
    }
  }

  /** Appending a name adds its lower-case form to the folded set. */
  lemma FoldedAppend(names: seq<string>, x: string)
    ensures Folded(names + [x]) == Folded(names) + {ToLower(x)}
  {
    forall y | y in Folded(names + [x])
      ensures y in Folded(names) + {ToLower(x)}
    {
      var z :| z in names + [x] && y == ToLower(z);
      if z != x {
        assert z in names;
      }
    }
  }

  /** A name whose lower-case form is new keeps the list distinct. */
  lemma AppendKeepsDistinct(names: seq<string>, x: string)
    requires DistinctIgnoringCase(names)
    requires ToLower(x) !in Folded(names)
    ensures DistinctIgnoringCase(names + [x])
  {
    var after := names + [x];
    forall i, j | 0 <= i < j < |after|
      ensures ToLower(after[i]) != ToLower(after[j])
    {
      if j == |names| {
        assert after[i] in names;
      }
    }
  }
}
