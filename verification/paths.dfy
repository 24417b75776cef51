/** Path-string helpers of YPaths: splitting a path into directory, file
    name and extension, changing the extension, telling relative paths from
    rooted ones, and the two in-place clean-ups (collapsing "/.." and
    removing doubled slashes). */
module Paths {
  import opened Strings

  predicate IsSeparator(c: char) {
    c == '/' || c == '\\'
  }

  predicate IsNotSeparator(c: char) {
    !IsSeparator(c)
  }

  predicate NoSeparator(s: string) {
    forall i :: 0 <= i < |s| ==> !IsSeparator(s[i])
  }

  predicate AllSeparators(s: string) {
    forall i :: 0 <= i < |s| ==> IsSeparator(s[i])
  }

  /** `name` is the last path component of `path`, found at `start`: it is
      preceded by a separator (or the start) and followed only by separators. */
  predicate IsLastComponentAt(path: string, start: int, name: string) {
    0 <= start && start + |name| <= |path| && path[start..start + |name|] == name &&
    (start == 0 || IsSeparator(path[start - 1])) &&
    AllSeparators(path[start + |name|..])
  }

  /** The file name: trailing separators are dropped, then everything up to
      the last separator. */
  function GetCleanFilename(path: string): (name: string)
    ensures NoSeparator(name)
    ensures name == [] <==> AllSeparators(path)
    ensures exists start :: IsLastComponentAt(path, start, name)
  {
    var endPos := LastWhere(path, IsNotSeparator) + 1;
    var startPos := LastWhere(path[..endPos], IsSeparator) + 1;
    assert IsLastComponentAt(path, startPos, path[startPos..endPos]);
    path[startPos..endPos]
  }

  /** The text after the last '.' of a file name (with the dot when asked
      for), or "" when the name has no dot. */
  function NameExtension(name: string, includeDot: bool): (ext: string)
    ensures EndsWith(name, ext)
    ensures '.' !in name ==> ext == []
    ensures '.' in name && includeDot ==> |ext| > 0 && ext[0] == '.' && '.' !in ext[1..]
    ensures '.' in name && !includeDot ==> |ext| < |name| && name[|name| - |ext| - 1] == '.' && '.' !in ext
  {
    var dotPos := LastIndexOf(name, '.');
    if dotPos == -1 then
      ""
    else
      var ext := name[dotPos + (if includeDot then 0 else 1)..];
      assert '.' !in name[dotPos + 1..];
      assert includeDot ==> ext[1..] == name[dotPos + 1..];
      assert EndsWith(name, ext);
      ext
  }

  /** The extension of the path's clean file name: a tail of that name,
      so free of separators, and empty when the name has no dot. */
  function GetExtension(path: string, includeDot: bool): (ext: string)
    ensures EndsWith(GetCleanFilename(path), ext) && NoSeparator(ext)
    ensures '.' !in GetCleanFilename(path) ==> ext == []
    ensures '.' in GetCleanFilename(path) && includeDot ==> |ext| > 0 && ext[0] == '.' && '.' !in ext[1..]
  {
    var name := GetCleanFilename(path);
    var ext := NameExtension(name, includeDot);
    TailHasNoSeparator(name, ext);
    ext
  }

  /** A tail of a name without separators has none either. */
  lemma TailHasNoSeparator(name: string, tail: string)
    requires NoSeparator(name) && EndsWith(name, tail)
    ensures NoSeparator(tail)
  {
    forall i | 0 <= i < |tail| ensures !IsSeparator(tail[i]) {
      assert tail[i] == name[|name| - |tail| + i];
    }
  }

  /** The text after the last separator (all of it when there is none). */
  function Leaf(path: string): (leaf: string)
    ensures EndsWith(path, leaf) && NoSeparator(leaf)
    ensures |leaf| < |path| ==> IsSeparator(path[|path| - |leaf| - 1])
  {
    path[LastWhere(path, IsSeparator) + 1..]
  }

  /** The path (or its file name, when `removePath`) without its extension:
      the text from the last '.' of the part after the last separator is
      cut, so a dot that belongs to a directory name is not an extension. */
  function GetBaseFilename(path: string, removePath: bool): (base: string)
    ensures var work := if removePath then GetCleanFilename(path) else path;
      base + NameExtension(Leaf(work), true) == work
  {
    var work := if removePath then GetCleanFilename(path) else path;
    var extPos := LastIndexOf(work, '.');
    var leafPos := if !removePath then LastWhere(work, IsSeparator) else -1;
    var leafStart := LastWhere(work, IsSeparator) + 1;
    assert removePath ==> leafStart == 0;
    assert Leaf(work) == work[leafStart..];
    BaseSplitsLeaf(work, leafStart);
    assert (extPos != -1 && (leafPos == -1 || extPos > leafPos)) == (extPos >= leafStart);
    if extPos != -1 && (leafPos == -1 || extPos > leafPos) then work[..extPos] else work
  }

  /** The last dot of a path lies in a suffix exactly when it comes at or
      after the suffix's start, and then the suffix's extension starts
      there. */
  lemma BaseSplitsLeaf(work: string, k: nat)
    requires k <= |work|
    ensures LastIndexOf(work, '.') >= k ==> work[..LastIndexOf(work, '.')] + NameExtension(work[k..], true) == work
    ensures LastIndexOf(work, '.') < k ==> NameExtension(work[k..], true) == []
  {
    LastIndexOfSuffix(work, '.', k);
    var d := LastIndexOf(work[k..], '.');
    NameExtensionAt(work[k..], d);
    if d != -1 {
      SplitInsideSuffix(work, k, LastIndexOf(work, '.'));
    }
  }

  /** With the dot, the extension is the text from the last dot. */
  lemma NameExtensionAt(name: string, d: int)
    requires d == LastIndexOf(name, '.')
    ensures NameExtension(name, true) == if d == -1 then [] else name[d..]
  {
  }

  lemma SplitInsideSuffix(s: string, k: nat, i: nat)
    requires k <= i <= |s|
    ensures s[..i] + s[k..][i - k..] == s
  {
    assert s[k..][i - k..] == s[i..];
  }

  /** The last occurrence in a suffix is the last occurrence in the whole
      string, when that lies in the suffix. */
  lemma {:induction false} LastIndexOfSuffix(s: string, c: char, k: nat)
    requires k <= |s|
    ensures LastIndexOf(s[k..], c) == if LastIndexOf(s, c) >= k then LastIndexOf(s, c) - k else -1
  {
    if |s| > k && s[|s| - 1] != c {
      var init := s[..|s| - 1];
      LastIndexOfSuffix(init, c, k);
      assert s[k..][..|s| - k - 1] == init[k..];
    }
  }

  /** The text before the last separator, or "" when there is none. */
  function GetPath(path: string): (dir: string)
    ensures StartsWith(path, dir)
    ensures NoSeparator(path) ==> dir == []
    ensures !NoSeparator(path) ==>
      |dir| < |path| && IsSeparator(path[|dir|]) && NoSeparator(path[|dir| + 1..])
  {
    var pos := LastWhere(path, IsSeparator);
    if pos != -1 then path[..pos] else ""
  }

  /** Replaces the text after the last '.' of the path; a path without a dot
      is returned unchanged, and a dot is supplied when the new extension
      does not begin with one. */
  function ChangeExtension(path: string, newExt: string): (r: string)
    ensures '.' !in path ==> r == path
    ensures '.' in path ==> exists stem :: (StartsWith(path, stem + ".") && '.' !in path[|stem| + 1..] &&
      r == stem + (if |newExt| > 0 && newExt[0] != '.' then "." else "") + newExt)
  {
    var pos := LastIndexOf(path, '.');
    if pos != -1 then
      var stem := path[..pos];
      assert path[..|stem + "."|] == stem + ".";
      stem + (if |newExt| > 0 && newExt[0] != '.' then "." else "") + newExt
    else
      path
  }

  /** Rooted paths start with a separator, with "root:/" (any case) or with a
      drive letter and a colon; every other path is relative. */
  function IsRelative(path: string): (relative: bool)
    ensures !relative <==>
      (|path| > 0 && IsSeparator(path[0])) ||
      (|path| >= 6 && ToLower(path[..6]) == "root:/") ||
      (|path| >= 2 && IsAlpha(path[0]) && path[1] == ':')
    ensures StartsWith(path, "root:/") ==> !relative
  {
    var rooted :=
      StartsWith(path, "\\") || StartsWith(path, "/") ||
      StartsWith(ToLower(path), "root:/") ||
      (|path| >= 2 && IsAlpha(path[0]) && path[1] == ':');
    assert |path| >= 6 ==> ToLower(path)[..6] == ToLower(path[..6]);
    assert StartsWith(path, "root:/") ==> ToLower(path[..6]) == "root:/";
    !rooted
  }

  /** Backslashes become forward slashes (the platform's own normalisation
      is a no-op on the generic platform). */
  function NormalizeFilename(path: string): (r: string)
    ensures |r| == |path|
    ensures '\\' !in r
    ensures forall i :: 0 <= i < |path| ==> r[i] == (if path[i] == '\\' then '/' else path[i])
  {
    if path == [] then [] else [if path[0] == '\\' then '/' else path[0]] + NormalizeFilename(path[1..])
  }

  /** Normalising keeps a rooted path rooted. (The converse fails:
      "root:\\x" is relative, its normalised form "root:/x" is not.) */
  lemma NormalizeKeepsRooted(path: string)
    ensures IsRelative(NormalizeFilename(path)) ==> IsRelative(path)
  {
    var n := NormalizeFilename(path);
    if StartsWith(ToLower(path), "root:/") {
      forall i | 0 <= i < 6 ensures ToLower(n)[i] == ToLower(path)[i] {
        assert ToLower(path)[i] == "root:/"[i];
      }
      assert ToLower(n)[..6] == ToLower(path)[..6];
    }
  }

  /** A file name is what comes before its last '.' followed by its
      extension with the dot. */
  lemma NameSplitsAtLastDot(name: string)
    ensures LastIndexOf(name, '.') == -1 ==> NameExtension(name, true) == []
    ensures LastIndexOf(name, '.') != -1 ==>
      name[..LastIndexOf(name, '.')] + NameExtension(name, true) == name
  {
    var d := LastIndexOf(name, '.');
    if d != -1 {
      var e := NameExtension(name, true);
      assert e == name[d..];
      assert name[..d] + name[d..] == name;
    }
  }

  /** The base name followed by the extension (with its dot) gives back the
      file name. */
  lemma {:induction false} BaseAndExtensionRebuildName(path: string)
    ensures GetBaseFilename(path, true) + GetExtension(path, true) == GetCleanFilename(path)
  {
    var name := GetCleanFilename(path);
    NameSplitsAtLastDot(name);
    var d := LastIndexOf(name, '.');
    if d != -1 {
      assert GetBaseFilename(path, true) == name[..d];
    }
  }

  /** Without a trailing separator the leaf is the file name, so the base
      path followed by the extension (with its dot) gives back the path. */
  lemma PathBaseAndExtensionRebuildPath(path: string)
    requires |path| > 0 && !IsSeparator(path[|path| - 1])
    ensures GetBaseFilename(path, false) + GetExtension(path, true) == path
  {
    assert LastWhere(path, IsNotSeparator) == |path| - 1;
    assert path[..|path|] == path;
    assert Leaf(path) == GetCleanFilename(path);
  }

  /** A path with a separator and no trailing separator is its directory, the
      separator, and its file name. */
  lemma {:induction false} DirectoryAndNameRebuildPath(path: string)
    requires !NoSeparator(path)
    requires !IsSeparator(path[|path| - 1])
    ensures path == GetPath(path) + [path[|GetPath(path)|]] + GetCleanFilename(path)
  {
    var dir := GetPath(path);
    var name := GetCleanFilename(path);
    var pos := LastWhere(path, IsSeparator);
    assert LastWhere(path, IsNotSeparator) == |path| - 1;
    assert path[..|path|] == path;
    assert name == path[pos + 1..];
    assert dir == path[..pos];
    assert path == path[..|dir|] + [path[|dir|]] + path[|dir| + 1..];
  }

  /** A name ending in '.' and a dot-free text has that text as its
      extension. */
  lemma NameExtensionOfSuffix(name: string, e: string)
    requires EndsWith(name, "." + e) && '.' !in e
    ensures NameExtension(name, false) == e
  {
    var pos := |name| - |e| - 1;
    assert name[pos] == '.';
    forall j | pos < j < |name| ensures name[j] != '.' {
      assert name[j] == e[j - pos - 1];
    }
    assert LastIndexOf(name, '.') == pos;
    assert name[pos + 1..] == e;
  }

  /** A separator-free tail of the path stays at the end of its file name. */
  lemma CleanFilenameKeepsTail(r: string, pos: nat)
    requires pos < |r| && forall j :: pos <= j < |r| ==> !IsSeparator(r[j])
    ensures EndsWith(GetCleanFilename(r), r[pos..])
  {
    var name := GetCleanFilename(r);
    var start :| IsLastComponentAt(r, start, name);
    assert start + |name| == |r|;
    assert start <= pos;
    assert name == r[start..];
    assert name[|name| - (|r| - pos)..] == r[pos..];
  }

  /** Changing to a plain, non-empty extension is read back by GetExtension,
      as long as the path's last dot lies in its file name. */
  lemma {:induction false} ChangeExtensionThenGet(path: string, newExt: string)
    requires newExt != [] && '.' !in newExt && NoSeparator(newExt)
    requires '.' in path && |path| > 0 && !IsSeparator(path[|path| - 1])
    requires NoSeparator(path[LastIndexOf(path, '.')..])
    ensures GetExtension(ChangeExtension(path, newExt), false) == newExt
  {
    var pos := LastIndexOf(path, '.');
    var r := ChangeExtension(path, newExt);
    assert r == path[..pos] + "." + newExt;
    assert r[pos..] == "." + newExt;
    forall j | pos <= j < |r|
      ensures !IsSeparator(r[j])
    {
      assert r[j] == r[pos..][j - pos];
    }
    CleanFilenameKeepsTail(r, pos);
    NameExtensionOfSuffix(GetCleanFilename(r), newExt);
  }

  /** The characters removed from the front of a remainder of "./" removal:
      removing "./" can only expose a '.' that was already a leading '.'. */
  lemma {:induction false} DotSlashRemovalLeadingDot(s: string)
    requires |ReplaceAll(s, "./", "")| > 0 && ReplaceAll(s, "./", "")[0] == '.'
    ensures |s| > 0 && s[0] == '.'
  {
    if |s| < 2 {
    } else if s[..2] == "./" {
    } else {
    }
  }

  /** A "./"-removal result that starts with ".." comes from a string that
      starts with ".." or already holds "/..". */
  lemma {:induction false} DotSlashRemovalLeadingParent(s: string)
    requires StartsWith(ReplaceAll(s, "./", ""), "..")
    ensures StartsWith(s, "..") || Contains(s, "/..")
  {
    var r := ReplaceAll(s, "./", "");
    if |s| < 2 {
    } else if s[..2] == "./" {
      var t := s[2..];
      assert r == ReplaceAll(t, "./", "");
      DotSlashRemovalLeadingParent(t);
      if StartsWith(t, "..") {
        assert s[1..4] == "/..";
        assert OccursAt(s, "/..", 1);
      } else {
        assert s[2..|s|] == t;
        ContainsSlice(s, 2, |s|, "/..");
      }
    } else {
      var t := s[1..];
      var rt := ReplaceAll(t, "./", "");
      assert r == [s[0]] + rt;
      assert r[0] == '.' && r[1] == '.';
      assert rt[0] == '.';
      DotSlashRemovalLeadingDot(t);
      assert s[..2] == "..";
    }
  }

  /** Removing every "./" never creates a "/..". */
  lemma {:induction false} DotSlashRemovalKeepsNoParent(s: string)
    requires !Contains(s, "/..")
    ensures !Contains(ReplaceAll(s, "./", ""), "/..")
  {
    var r := ReplaceAll(s, "./", "");
    if |s| < 2 {
    } else if s[..2] == "./" {
      if Contains(s[2..], "/..") {
        assert s[2..|s|] == s[2..];
        ContainsSlice(s, 2, |s|, "/..");
      }
      DotSlashRemovalKeepsNoParent(s[2..]);
      assert r == ReplaceAll(s[2..], "./", "");
    } else {
      var t := s[1..];
      assert s == [s[0]] + t;
      ContainsCons(s[0], t, "/..");
      DotSlashRemovalKeepsNoParent(t);
      var rt := ReplaceAll(t, "./", "");
      assert r == [s[0]] + rt;
      ContainsCons(s[0], rt, "/..");
      if OccursAt(r, "/..", 0) {
        assert r[1] == '.' && r[2] == '.';
        assert rt[..2] == "..";
        DotSlashRemovalLeadingParent(t);
      }
    }
  }

  /** The last '/' strictly before index `limit` (the engine's backward Find
      with a start position), or -1. */
  function LastSlashBefore(s: string, limit: nat): (r: int)
    requires limit <= |s|
    ensures -1 <= r < limit
    ensures r >= 0 ==> s[r] == '/'
  {
    LastIndexOf(s[..limit], '/')
  }

  /** The separator a "/.." at `index` removes back to: the last '/'
      before `prev` that opens a component other than "." (or the start of
      the path). */
  function PreviousSeparator(s: string, index: nat, prev: nat): (r: nat)
    requires 1 <= prev <= index && index + 3 <= |s|
    ensures r < prev
    decreases prev
  {
    var found := LastSlashBefore(s, prev - 1);
    var p := if found < 0 then 0 else found;
    if p == 0 then 0
    else if index - p > 1 && (s[p + 1] != '.' || s[p + 2] != '/') then p
    else PreviousSeparator(s, index, p)
  }

  /** The outcome of collapsing `s`: whether it succeeds, and the text
      left. Each round removes the first "/.." with the component before
      it; a path that starts with ".." or "/.." fails, and so does a
      removal reaching past a ':'; at the end every "./" is removed. */
  function Collapsed(s: string): (r: (bool, string))
    decreases |s|
  {
    if |s| == 0 then (true, s)
    else if StartsWith(s, "..") || StartsWith(s, "/..") then (false, s)
    else
      var index := Find(s, "/..");
      if index == -1 then (true, ReplaceAll(s, "./", ""))
      else
        var prev := PreviousSeparator(s, index, index);
        var colon := FindFrom(s, ":", prev);
        if colon >= 0 && colon < index then (false, s)
        else Collapsed(s[..prev] + s[index + 3..])
  }

  /** Removes each "dir/.." pair (skipping "/./" components) and then every
      "./"; fails on paths that start with ".." or "/.." and on a removal
      that would reach past a drive letter's colon. On failure the text
      reached so far is returned. */
  method CollapseRelativeDirectories(path: string) returns (ok: bool, result: string)
    ensures (ok, result) == Collapsed(path)
  {
    var s := path;
    while true
      invariant Collapsed(s) == Collapsed(path)
      decreases |s|
    {
      if |s| == 0 {
        break;
      }
      if StartsWith(s, "..") || StartsWith(s, "/..") {
        if StartsWith(s, "/..") {
          assert OccursAt(s, "/..", 0);
        }
        return false, s;
      }
      var index := Find(s, "/..");
      if index == -1 {
        break;
      }
      assert index != 0;
      var prev := FindPreviousSeparator(s, index);
      var colon := FindFrom(s, ":", prev);
      if colon >= 0 && colon < index {
        return false, s;
      }
      s := s[..prev] + s[index + 3..];
    }
    ok, result := true, ReplaceAll(s, "./", "");
  }

  /** A path that starts with ".." or "/.." fails unchanged; one with no
      "/.." (and not starting with "..") only loses its "./" runs. */
  lemma CollapsedShortcuts(s: string)
    ensures StartsWith(s, "..") || StartsWith(s, "/..") ==> Collapsed(s) == (false, s)
    ensures !Contains(s, "/..") && !StartsWith(s, "..") ==> Collapsed(s) == (true, ReplaceAll(s, "./", ""))
  {
    if !Contains(s, "/..") {
      assert !OccursAt(s, "/..", 0);
    }
  }

  /** A successful collapse leaves no "/.." behind. */
  lemma {:induction false} CollapsedLeavesNoParent(s: string)
    ensures Collapsed(s).0 ==> !Contains(Collapsed(s).1, "/..")
    decreases |s|
  {
    if |s| == 0 || StartsWith(s, "..") || StartsWith(s, "/..") {
    } else {
      var index := Find(s, "/..");
      if index == -1 {
        DotSlashRemovalKeepsNoParent(s);
      } else {
        var prev := PreviousSeparator(s, index, index);
        CollapsedLeavesNoParent(s[..prev] + s[index + 3..]);
      }
    }
  }

  /** The inner loop: steps back from the "/.." at `index` over "/./"
      components to the separator the removal starts at. */
  method FindPreviousSeparator(s: string, index: nat) returns (prev: nat)
    requires 1 <= index && index + 3 <= |s|
    ensures prev == PreviousSeparator(s, index, index)
  {
    prev := index;
    while true
      invariant 1 <= prev <= index
      invariant PreviousSeparator(s, index, prev) == PreviousSeparator(s, index, index)
      decreases prev
    {
      var found := LastSlashBefore(s, prev - 1);
      prev := if found < 0 then 0 else found;
      if prev == 0 {
        break;
      }
      if index - prev > 1 && (s[prev + 1] != '.' || s[prev + 2] != '/') {
        break;
      }
    }
  }

  /** Collapsing removes an inner "dir/.." pair: when the first "/.."
      follows a component that is neither empty nor ".", and holds no
      ':', the path collapses exactly as the path without that component
      and its "/..". */
  lemma CollapseInnerParent(d: string, seg: string, rest: string)
    requires !Contains(d, "/..") && !StartsWith(d, "..")
    requires seg != [] && seg != "." && '/' !in seg && ':' !in seg && !StartsWith(seg, "..")
    ensures Collapsed(d + "/" + seg + "/.." + rest) == Collapsed(d + rest)
  {
    var s := d + "/" + seg + "/.." + rest;
    var index := |d| + 1 + |seg|;
    ComponentShape(d, seg, rest);
    ParentAfterComponent(s, d, seg, index);
    PreviousSeparatorOfComponent(s, |d|, index);
    forall j | |d| <= j < index
      ensures s[j] != ':'
    {
      if j > |d| {
        assert s[j] == seg[j - |d| - 1];
      }
    }
    CollapsedStep(s, index, |d|);
    assert s[..|d|] + s[index + 3..] == d + rest;
  }

  /** One round of the collapse: with no leading ".." or "/..", the first
      "/.." at `index` and no ':' between the separator before it and
      itself, the pair is removed and collapsing goes on. */
  lemma CollapsedStep(s: string, index: nat, prev: nat)
    requires !StartsWith(s, "..") && !StartsWith(s, "/..")
    requires 1 <= index && index + 3 <= |s| && Find(s, "/..") == index
    requires prev == PreviousSeparator(s, index, index)
    requires forall j :: prev <= j < index ==> s[j] != ':'
    ensures Collapsed(s) == Collapsed(s[..prev] + s[index + 3..])
  {
    NoColonBetween(s, prev, index);
    var colon := FindFrom(s, ":", prev);
    assert !(colon >= 0 && colon < index);
    assert |s| != 0 && Find(s, "/..") != -1;
  }

  lemma NoColonBetween(s: string, from: nat, to: nat)
    requires from <= to <= |s|
    requires forall j :: from <= j < to ==> s[j] != ':'
    ensures var colon := FindFrom(s, ":", from); !(colon >= 0 && colon < to)
  {
    var colon := FindFrom(s, ":", from);
    if colon != -1 {
      assert s[colon..colon + 1] == ":";
      assert s[colon] == ':';
    }
  }

  /** Where the parts of such a path sit. */
  lemma ComponentShape(d: string, seg: string, rest: string)
    ensures var s := d + "/" + seg + "/.." + rest;
      var index := |d| + 1 + |seg|;
      |s| == index + 3 + |rest| && s[..|d|] == d && s[|d|] == '/' &&
      (forall j :: |d| < j < index ==> s[j] == seg[j - |d| - 1]) &&
      s[index] == '/' && s[index + 1] == '.' && s[index + 2] == '.' && s[index + 3..] == rest
  {
  }

  /** The first "/.." of such a path is the one after the component. */
  lemma ParentAfterComponent(s: string, d: string, seg: string, index: nat)
    requires !Contains(d, "/..") && !StartsWith(d, "..")
    requires seg != [] && '/' !in seg && !StartsWith(seg, "..")
    requires index == |d| + 1 + |seg| && index + 3 <= |s| && s[..|d|] == d && s[|d|] == '/'
    requires forall j :: |d| < j < index ==> s[j] == seg[j - |d| - 1]
    requires s[index] == '/' && s[index + 1] == '.' && s[index + 2] == '.'
    ensures Find(s, "/..") == index && !StartsWith(s, "..") && !StartsWith(s, "/..")
  {
    assert s[index..index + 3] == "/..";
    assert OccursAt(s, "/..", index);
    forall j | 0 <= j < index
      ensures !OccursAt(s, "/..", j)
    {
      if j + 3 <= |d| {
        assert d[j..j + 3] == s[..|d|][j..j + 3] == s[j..j + 3];
        assert !OccursAt(d, "/..", j);
      } else if j + 3 <= |s| {
        var w := s[j..j + 3];
        if j < |d| {
          // the separator after d falls on the second or third character
          assert w[|d| - j] == s[|d|] == '/';
        } else if j == |d| {
          assert s[j + 1] == seg[0];
          assert w[1] == seg[0];
          if |seg| >= 2 {
            assert w[2] == seg[1] && seg[..2] == [seg[0], seg[1]];
          } else {
            assert w[2] == s[index] == '/';
          }
        } else {
          assert w[0] == seg[j - |d| - 1] && seg[j - |d| - 1] in seg;
        }
      }
    }
    if |d| >= 2 {
      assert s[..2] == d[..2];
    } else {
      assert s[1] != '.' || s[0] != '.';
    }
  }

  /** The separator a "/.." removes back to is the one opening the
      component before it, when that component is neither empty nor ".". */
  lemma PreviousSeparatorOfComponent(s: string, k: nat, index: nat)
    requires k + 1 < index && index + 3 <= |s| && s[k] == '/'
    requires forall j :: k < j < index ==> s[j] != '/'
    requires !(index - k == 2 && s[k + 1] == '.')
    ensures PreviousSeparator(s, index, index) == k
  {
    var t := s[..index - 1];
    assert t[k] == '/';
    assert LastIndexOf(t, '/') == k;
    assert LastSlashBefore(s, index - 1) == k;
  }

  /** For example, "a/b/../c" collapses to "a/c". */
  lemma CollapseExample()
    ensures Collapsed("a/b/../c") == (true, "a/c")
  {
    ExampleParts();
    CollapseInnerParent("a", "b", "/c");
    ExampleRest();
    CollapsedShortcuts("a/c");
  }

  lemma ExampleParts()
    ensures "a/b/../c" == "a" + "/" + "b" + "/.." + "/c" && "a" + "/c" == "a/c"
    ensures !Contains("a", "/..") && !StartsWith("a", "..")
    ensures "b" != "." && '/' !in "b" && ':' !in "b" && !StartsWith("b", "..")
  {
  }

  lemma ExampleRest()
    ensures !Contains("a/c", "/..") && !StartsWith("a/c", "..")
    ensures ReplaceAll("a/c", "./", "") == "a/c"
  {
    assert !OccursAt("a/c", "/..", 0) by {
      assert "a/c"[0..3][0] == 'a';
    }
    ExampleRestReplace();
  }

  lemma ExampleRestReplace()
    ensures ReplaceAll("a/c", "./", "") == "a/c"
  {
    assert ReplaceAll("c", "./", "") == "c";
    assert "/c"[..2][0] == '/' && "/c"[1..] == "c";
    assert ReplaceAll("/c", "./", "") == "/c";
    assert "a/c"[..2][0] == 'a' && "a/c"[1..] == "/c";
  }

  /** The reference meaning of RemoveDuplicateSlashes: every run of '/'
      shrinks to a single '/'. */
  function CollapseSlashRuns(s: string): string {
    if |s| < 2 then s
    else if s[0] == '/' && s[1] == '/' then CollapseSlashRuns(s[1..])
    else [s[0]] + CollapseSlashRuns(s[1..])
  }

  lemma {:induction false} CollapseSlashRunsHead(s: string)
    requires |s| > 0
    ensures |CollapseSlashRuns(s)| > 0 && CollapseSlashRuns(s)[0] == s[0]
  {
    if |s| >= 2 && s[0] == '/' && s[1] == '/' {
      CollapseSlashRunsHead(s[1..]);
    }
  }

  /** No "//" survives the collapse. */
  lemma {:induction false} CollapseSlashRunsNoDouble(s: string)
    ensures !Contains(CollapseSlashRuns(s), "//")
  {
    if |s| < 2 {
    } else if s[0] == '/' && s[1] == '/' {
      CollapseSlashRunsNoDouble(s[1..]);
    } else {
      var t := s[1..];
      CollapseSlashRunsNoDouble(t);
      CollapseSlashRunsHead(t);
      ContainsCons(s[0], CollapseSlashRuns(t), "//");
    }
  }

  /** A string without "//" is its own collapse. */
  lemma {:induction false} CollapseSlashRunsFixed(s: string)
    requires !Contains(s, "//")
    ensures CollapseSlashRuns(s) == s
  {
    if |s| >= 2 {
      assert s == [s[0]] + s[1..];
      ContainsCons(s[0], s[1..], "//");
      assert !OccursAt(s, "//", 0);
      CollapseSlashRunsFixed(s[1..]);
    }
  }

  /** Collapsing is idempotent. */
  lemma CollapseSlashRunsIdempotent(s: string)
    ensures CollapseSlashRuns(CollapseSlashRuns(s)) == CollapseSlashRuns(s)
  {
    CollapseSlashRunsNoDouble(s);
    CollapseSlashRunsFixed(CollapseSlashRuns(s));
  }

  lemma {:induction false} ReplaceDoubleSlashHead(s: string)
    requires |s| > 0
    ensures |ReplaceAll(s, "//", "/")| > 0 && ReplaceAll(s, "//", "/")[0] == s[0]
  {
  }

  /** One "//" -> "/" replacement pass does not change the collapse (the
      second statement is the same fact for a string behind one '/'). */
  lemma {:induction false} ReplacePassKeepsCollapse(s: string)
    ensures CollapseSlashRuns(ReplaceAll(s, "//", "/")) == CollapseSlashRuns(s)
    decreases |s|, 0
  {
    if |s| < 2 {
    } else if s[..2] == "//" {
      ReplacePassKeepsCollapseAfterSlash(s[2..]);
      assert s[1..] == "/" + s[2..];
    } else {
      var t := s[1..];
      ReplacePassKeepsCollapse(t);
      ReplaceDoubleSlashHead(t);
      assert ReplaceAll(s, "//", "/") == [s[0]] + ReplaceAll(t, "//", "/");
    }
  }

  lemma {:induction false} ReplacePassKeepsCollapseAfterSlash(t: string)
    ensures CollapseSlashRuns("/" + ReplaceAll(t, "//", "/")) == CollapseSlashRuns("/" + t)
    decreases |t|, 1
  {
    var r := ReplaceAll(t, "//", "/");
    if t == [] {
    } else if t[0] == '/' {
      if |t| >= 2 && t[..2] == "//" {
        ReplacePassKeepsCollapseAfterSlash(t[2..]);
        assert r == "/" + ReplaceAll(t[2..], "//", "/");
        assert ("/" + r)[1..] == r;
        assert ("/" + t)[1..] == t;
        assert t[1..] == "/" + t[2..];
      } else {
        ReplacePassKeepsCollapseAfterSlash(t[1..]);
        assert r == "/" + ReplaceAll(t[1..], "//", "/");
        assert ("/" + r)[1..] == r;
        assert ("/" + t)[1..] == t;
      }
    } else {
      ReplacePassKeepsCollapse(t);
      ReplaceDoubleSlashHead(t);
      assert ("/" + r)[1..] == r;
      assert ("/" + t)[1..] == t;
    }
  }

  /** Replaces "//" by "/" until none is left. */
  method RemoveDuplicateSlashes(path: string) returns (result: string)
    ensures result == CollapseSlashRuns(path)
    ensures !Contains(result, "//")
  {
    result := path;
    while Find(result, "//") != -1
      invariant CollapseSlashRuns(result) == CollapseSlashRuns(path)
      decreases |result|
    {
      ReplaceAllShrinks(result, "//", "/");
      ReplacePassKeepsCollapse(result);
      result := ReplaceAll(result, "//", "/");
    }
    CollapseSlashRunsFixed(result);
  }
}
