/** TextNamespaceUtil: a text namespace may carry the namespace of the
    package it lives in as a trailing block "[package]". These operations
    apply, read and remove that block. */
module TextNamespaceUtil {
  import opened Strings

  const PackageNamespaceStartMarker: char := '['
  const PackageNamespaceEndMarker: char := ']'

  /** The namespace ends with the end marker and holds a start marker; the
      block then runs from the last start marker to the end. */
  predicate HasPackageNamespace(ns: string) {
    |ns| > 0 && ns[|ns| - 1] == PackageNamespaceEndMarker && LastIndexOf(ns, PackageNamespaceStartMarker) != -1
  }

  /** Index of the start marker that opens the package block. */
  function StartMarkerIndex(ns: string): (r: nat)
    requires HasPackageNamespace(ns)
    ensures r < |ns| - 1 && ns[r] == PackageNamespaceStartMarker
    ensures forall j :: r < j < |ns| ==> ns[j] != PackageNamespaceStartMarker
  {
    LastIndexOf(ns, PackageNamespaceStartMarker)
  }

  /** Puts `packageNamespace` into the namespace's package block, replacing
      whatever the block held; without a block, appends one (after a space
      when the namespace is not empty) only when asked to always apply it. */
  function BuildFullNamespace(textNamespace: string, packageNamespace: string, alwaysApply: bool): (r: string)
    ensures HasPackageNamespace(textNamespace) ==>
      r == textNamespace[..StartMarkerIndex(textNamespace) + 1] + packageNamespace + [PackageNamespaceEndMarker]
    ensures !HasPackageNamespace(textNamespace) && !alwaysApply ==> r == textNamespace
    ensures !HasPackageNamespace(textNamespace) && alwaysApply ==>
      r == textNamespace + (if textNamespace == [] then [] else " ") +
        [PackageNamespaceStartMarker] + packageNamespace + [PackageNamespaceEndMarker]
  {
    if HasPackageNamespace(textNamespace) then
      var start, end := StartMarkerIndex(textNamespace), |textNamespace| - 1;
      var removed := textNamespace[..start + 1] + textNamespace[end..];
      removed[..start + 1] + packageNamespace + removed[start + 1..]
    else if alwaysApply then
      if textNamespace == [] then
        [PackageNamespaceStartMarker] + packageNamespace + [PackageNamespaceEndMarker]
      else
        textNamespace + " " + [PackageNamespaceStartMarker] + packageNamespace + [PackageNamespaceEndMarker]
    else
      textNamespace
  }

  /** The text inside the package block, or "" when there is none. */
  function ExtractPackageNamespace(textNamespace: string): (r: string)
    ensures !HasPackageNamespace(textNamespace) ==> r == []
    ensures HasPackageNamespace(textNamespace) ==>
      r == textNamespace[StartMarkerIndex(textNamespace) + 1..|textNamespace| - 1] &&
      PackageNamespaceStartMarker !in r
  {
    if HasPackageNamespace(textNamespace) then
      var start, end := StartMarkerIndex(textNamespace), |textNamespace| - 1;
      Mid(textNamespace, start + 1, end - start - 1)
    else
      []
  }

  /** `s` without its trailing whitespace. */
  function TrimTrailing(s: string): (r: string)
    ensures StartsWith(s, r)
    ensures r == [] || !IsWhitespace(r[|r| - 1])
    ensures forall i :: |r| <= i < |s| ==> IsWhitespace(s[i])
  {
    if s == [] || !IsWhitespace(s[|s| - 1]) then s else TrimTrailing(s[..|s| - 1])
  }

  /** The namespace without its package block and the whitespace before it. */
  function StrippedNamespace(textNamespace: string): string {
    if HasPackageNamespace(textNamespace) then
      TrimTrailing(textNamespace[..StartMarkerIndex(textNamespace)])
    else
      textNamespace
  }

  /** Cuts the namespace at its package block and trims the trailing
      whitespace from the copy, one character at a time. */
  method StripPackageNamespace(textNamespace: string) returns (stripped: string)
    ensures stripped == StrippedNamespace(textNamespace)
  {
    if !HasPackageNamespace(textNamespace) {
      return textNamespace;
    }
    var left := textNamespace[..StartMarkerIndex(textNamespace)];
    var end := |left|;
    while end > 0 && IsWhitespace(left[end - 1])
      invariant 0 <= end <= |left|
      invariant TrimTrailing(left[..end]) == TrimTrailing(left)
    {
      assert left[..end][..end - 1] == left[..end - 1];
      end := end - 1;
    }
    stripped := left[..end];
  }

  /** What BuildFullNamespace keeps in front of the package namespace, up
      to and including the start marker. */
  function BlockPrefix(textNamespace: string): (r: string)
    ensures |r| > 0 && r[|r| - 1] == PackageNamespaceStartMarker
  {
    if HasPackageNamespace(textNamespace) then textNamespace[..StartMarkerIndex(textNamespace) + 1]
    else if textNamespace == [] then [PackageNamespaceStartMarker]
    else textNamespace + " " + [PackageNamespaceStartMarker]
  }

  /** With a block always applied, the result is the prefix, the package
      namespace and the end marker. */
  lemma BuildShape(textNamespace: string, packageNamespace: string)
    ensures BuildFullNamespace(textNamespace, packageNamespace, true) ==
      BlockPrefix(textNamespace) + packageNamespace + [PackageNamespaceEndMarker]
  {
  }

  /** The block BuildFullNamespace writes opens at the end of its prefix. */
  lemma BuiltBlockStart(textNamespace: string, packageNamespace: string)
    requires PackageNamespaceStartMarker !in packageNamespace
    ensures var full := BuildFullNamespace(textNamespace, packageNamespace, true);
      HasPackageNamespace(full) && StartMarkerIndex(full) == |BlockPrefix(textNamespace)| - 1
  {
    var full := BuildFullNamespace(textNamespace, packageNamespace, true);
    BuildShape(textNamespace, packageNamespace);
    var open := |BlockPrefix(textNamespace)| - 1;
    assert full[open] == PackageNamespaceStartMarker;
    forall j | open < j < |full| ensures full[j] != PackageNamespaceStartMarker {
      if j < |full| - 1 {
        assert full[j] == packageNamespace[j - open - 1];
      }
    }
    assert LastIndexOf(full, PackageNamespaceStartMarker) == open;
  }

  /** The package namespace put in by BuildFullNamespace is read back by
      ExtractPackageNamespace, whether or not a block was there before. */
  lemma ExtractBuildRoundTrip(textNamespace: string, packageNamespace: string)
    requires PackageNamespaceStartMarker !in packageNamespace
    ensures ExtractPackageNamespace(BuildFullNamespace(textNamespace, packageNamespace, true)) == packageNamespace
  {
    var full := BuildFullNamespace(textNamespace, packageNamespace, true);
    BuildShape(textNamespace, packageNamespace);
    BuiltBlockStart(textNamespace, packageNamespace);
    var open := |BlockPrefix(textNamespace)| - 1;
    assert full[open + 1..|full| - 1] == packageNamespace;
  }

  /** Building twice keeps only the second package namespace. */
  lemma BuildOverwrites(textNamespace: string, first: string, second: string)
    requires PackageNamespaceStartMarker !in first
    ensures BuildFullNamespace(BuildFullNamespace(textNamespace, first, true), second, true) ==
      BuildFullNamespace(textNamespace, second, true)
  {
    var full := BuildFullNamespace(textNamespace, first, true);
    BuildShape(textNamespace, first);
    BuildShape(textNamespace, second);
    BuiltBlockStart(textNamespace, first);
    var prefix := BlockPrefix(textNamespace);
    assert full[..|prefix|] == prefix;
  }

  /** Stripping a block that BuildFullNamespace appended gives back the
      original namespace, when that namespace had no block and no trailing
      whitespace. */
  lemma StripBuildRoundTrip(textNamespace: string, packageNamespace: string)
    requires !HasPackageNamespace(textNamespace)
    requires textNamespace == [] || !IsWhitespace(textNamespace[|textNamespace| - 1])
    requires PackageNamespaceStartMarker !in packageNamespace
    ensures StrippedNamespace(BuildFullNamespace(textNamespace, packageNamespace, true)) == textNamespace
  {
    var full := BuildFullNamespace(textNamespace, packageNamespace, true);
    BuildShape(textNamespace, packageNamespace);
    BuiltBlockStart(textNamespace, packageNamespace);
    var open := |full| - |packageNamespace| - 2;
    if textNamespace == [] {
      assert full[..open] == [];
    } else {
      var left := full[..open];
      assert left == textNamespace + " ";
      assert left[..|left| - 1] == textNamespace;
    }
  }
}
