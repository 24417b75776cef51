# SolidAngle engine core, modelled in Dafny

SolidAngle is a game engine derived from Unreal Engine 4. This project models
the parts of its runtime core and experimental mesh code that are pure logic or
plain state machines, and proves what that code promises:

- path handling (`FPaths`) and the default-value parsers (`FDefaultValueHelper`);
- the integer helpers of the platform math layer and `YMath` (logarithms,
  Morton codes, clamping, rounding division);
- the crash context's XML escaping and property buffer;
- cultures, plural forms, text namespaces, `FTimespan` formatting and parsing;
- custom version containers and their registration;
- RHI resource reference counts, depth/stencil access flags, uniform buffer
  layout hashing and pipeline optional-state bits;
- static mesh index and vertex buffers, raw meshes, the section info map;
- skeletal mesh sections, influences and resources;
- integer points and vectors, colours and the named colour list;
- log suppression commands, the text localization manager's lookup tables and
  revision counters;
- the build configuration and target names, the printable key map;
- human-readable integers, `BitFlag` and the expression evaluator's bracket
  check;
- the mesh edge builder, the FBX importer's naming and import-type logic;
- the chunked name table and `YName` comparisons.

There is one Dafny module per source file, plus shared modules for
fixed-width integers (`IntTypes`, with C++ truncating division as `TruncDiv`),
strings (`Strings`) and `Option`/`Result` wrappers. Code that computes a
value is written as functions and lemmas. Code that changes objects in place
is written as classes whose methods carry `modifies` clauses and state the new
state. These methods are proved against specification functions, and the
properties of those functions are proved as lemmas. C++ integer widths are
written out where they matter: `uint8`/`uint16`/`uint32` masks, `int32`
ranges, and two's-complement packing. Hashing (`StrCrc32`), the FBX SDK, the
clock and file contents enter the model as parameters.

## Model

| member | source | states |
|---|---|---|
| Paths.GetCleanFilename | Engine/Source/Runtime/Core/Private/Misc/Paths.cpp:484-493 | the result has no separator, is empty exactly when the path is all separators, and is the last component of the path once trailing separators are dropped |
| Paths.NameExtension | Engine/Source/Runtime/Core/Private/Misc/Paths.cpp:472-482 | the result ends the file name; "" when the name has no '.'; with the dot it starts at the last '.', without it it follows the last '.' and holds no '.' |
| Paths.GetBaseFilename | Engine/Source/Runtime/Core/Private/Misc/Paths.cpp:508-527 | with or without the path kept, the result followed by the extension (with its dot) of the part after the last separator gives back the working text, so a '.' inside a directory name is never cut |
| Paths.Leaf | Engine/Source/Runtime/Core/Private/Misc/Paths.cpp:516-520 | the leaf ends the path, holds no separator, and is preceded by a separator whenever it is not the whole path |
| Paths.BaseSplitsLeaf | Engine/Source/Runtime/Core/Private/Misc/Paths.cpp:512-525 | the last '.' of the text lies in the leaf exactly when it comes at or after the leaf's start; then cutting there and appending the leaf's extension rebuilds the text, otherwise the leaf has no extension |
| Paths.PathBaseAndExtensionRebuildPath | Engine/Source/Runtime/Core/Private/Misc/Paths.cpp:508-527 | for a path without a trailing separator, the base name with the path kept followed by the extension with its dot is the path |
| Paths.GetPath | Engine/Source/Runtime/Core/Private/Misc/Paths.cpp:530-541 | the result is a prefix of the path; "" when there is no separator; otherwise it is followed by a separator and then only non-separators |
| Paths.ChangeExtension | Engine/Source/Runtime/Core/Private/Misc/Paths.cpp:557-575 | a path without '.' is unchanged; otherwise the text after the last '.' is replaced, with a '.' inserted when the new extension is non-empty and lacks one |
| Paths.IsRelative | Engine/Source/Runtime/Core/Private/Misc/Paths.cpp:688-698 | a path is not relative exactly when it starts with '\\' or '/', with "root:/" in any case, or with a letter and ':' |
| Paths.NormalizeFilename | Engine/Source/Runtime/Core/Private/Misc/Paths.cpp:700-705 | same length, every backslash becomes '/', every other character is kept, no backslash remains |
| Paths.NormalizeKeepsRooted | Engine/Source/Runtime/Core/Private/Misc/Paths.cpp:688-705 | normalising never turns a rooted path into a relative one |
| Paths.BaseAndExtensionRebuildName | Engine/Source/Runtime/Core/Private/Misc/Paths.cpp:472-527 | the base name followed by the extension with its dot is the clean file name |
| Paths.DirectoryAndNameRebuildPath | Engine/Source/Runtime/Core/Private/Misc/Paths.cpp:484-541 | a path with a separator and no trailing separator is GetPath, the separator, then GetCleanFilename |
| Paths.ChangeExtensionThenGet | Engine/Source/Runtime/Core/Private/Misc/Paths.cpp:472-482 | after changing to a plain non-empty extension, GetExtension reads back exactly that extension |
| Paths.DotSlashRemovalLeadingParent | Engine/Source/Runtime/Core/Private/Misc/Paths.cpp:764 | removing every "./" yields a leading ".." only when the input already started with ".." or held "/.." |
| Paths.DotSlashRemovalKeepsNoParent | Engine/Source/Runtime/Core/Private/Misc/Paths.cpp:764 | removing every "./" never creates a "/.." |
| Paths.CollapseRelativeDirectories | Engine/Source/Runtime/Core/Private/Misc/Paths.cpp:721-769 | the success flag and the resulting text are exactly Collapsed of the input: the loop keeps Collapsed of the working text equal to Collapsed of the input |
| Paths.FindPreviousSeparator | Engine/Source/Runtime/Core/Private/Misc/Paths.cpp:741-753 | the inner loop returns the separator the removal starts at: the last '/' before the "/.." that opens a component other than "/./", or 0 |
| Paths.CollapsedShortcuts | Engine/Source/Runtime/Core/Private/Misc/Paths.cpp:725-739 | a path starting with ".." or "/.." fails unchanged; a path with no "/.." and no leading ".." succeeds with every "./" removed |
| Paths.CollapsedLeavesNoParent | Engine/Source/Runtime/Core/Private/Misc/Paths.cpp:721-769 | a successful collapse leaves no "/.." in the result |
| Paths.CollapseInnerParent | Engine/Source/Runtime/Core/Private/Misc/Paths.cpp:741-761 | a component other than "." with no '/' or ':' followed by "/..", after a prefix with no "/..", is removed with it and collapsing goes on as on the path without them |
| Paths.CollapsedStep | Engine/Source/Runtime/Core/Private/Misc/Paths.cpp:735-761 | when the "/.." found is preceded by no ':' back to the separator the inner loop finds, the text between them is removed and collapsing goes on |
| Paths.CollapseExample | Engine/Source/Runtime/Core/Private/Misc/Paths.cpp:721-769 | "a/b/../c" collapses successfully to "a/c" |
| Paths.CollapseSlashRunsNoDouble | Engine/Source/Runtime/Core/Private/Misc/Paths.cpp:771-777 | the specification of duplicate-slash removal (every run of '/' shortened to one) leaves no "//" |
| Paths.CollapseSlashRunsIdempotent | Engine/Source/Runtime/Core/Private/Misc/Paths.cpp:771-777 | removing duplicate slashes twice gives the same as once |
| Paths.ReplacePassKeepsCollapse | Engine/Source/Runtime/Core/Private/Misc/Paths.cpp:775 | one replace pass of "//" by "/" does not change the collapsed result, so the loop converges on it |
| Paths.RemoveDuplicateSlashes | Engine/Source/Runtime/Core/Private/Misc/Paths.cpp:771-777 | the result is the input with every run of '/' collapsed to one, and it holds no "//" |
| DefaultValueHelper.SkipSpace | Engine/Source/Runtime/Core/Private/Misc/DefaultValueHelper.cpp:83-87 | the new position is the first non-whitespace at or after the start, with only whitespace skipped |
| DefaultValueHelper.Trim | Engine/Source/Runtime/Core/Private/Misc/DefaultValueHelper.cpp:83-87 | advances the position past whitespace and reports whether characters remain |
| DefaultValueHelper.SkipSpaceUnique | Engine/Source/Runtime/Core/Private/Misc/DefaultValueHelper.cpp:83-87 | any position that skips only whitespace and stops at a non-whitespace (or the end) is the one Trim finds |
| DefaultValueHelper.FirstAfterSpace | Engine/Source/Runtime/Core/Private/Misc/DefaultValueHelper.cpp:10-23 | when the trimmed text starts with a non-blank comparison string, its first occurrence is at the trimmed position |
| DefaultValueHelper.NonSpace | Engine/Source/Runtime/Core/Private/Misc/DefaultValueHelper.cpp:35-50 | the kept characters contain no whitespace and are no longer than the input |
| DefaultValueHelper.NonSpaceKeepsCounts | Engine/Source/Runtime/Core/Private/Misc/DefaultValueHelper.cpp:35-50 | every non-whitespace character occurs as often in the result as in the input |
| DefaultValueHelper.RemoveWhitespaces | Engine/Source/Runtime/Core/Private/Misc/DefaultValueHelper.cpp:35-50 | the result is the input's subsequence of non-whitespace characters |
| DefaultValueHelper.HasWhitespaces | Engine/Source/Runtime/Core/Private/Misc/DefaultValueHelper.cpp:111-121 | true exactly when some character is whitespace |
| DefaultValueHelper.GetUnqualifiedEnumValue | Engine/Source/Runtime/Core/Private/Misc/DefaultValueHelper.cpp:99-108 | the whole string when it has no "::"; otherwise the text after the first "::" |
| DefaultValueHelper.Is | Engine/Source/Runtime/Core/Private/Misc/DefaultValueHelper.cpp:10-32 | true exactly when the source is the non-empty comparison string surrounded by whitespace only |
| DefaultValueHelper.GetParameters | Engine/Source/Runtime/Core/Private/Misc/DefaultValueHelper.cpp:124-175 | succeeds exactly when the source is whitespace, the type name at its first occurrence, whitespace, '(' and whitespace, then parameters ending on a character that is neither whitespace nor ')' followed only by whitespace and exactly one ')'; the form is exactly those parameters |
| DefaultValueHelper.OpenParameters | Engine/Source/Runtime/Core/Private/Misc/DefaultValueHelper.cpp:126-151 | succeeds exactly when the source opens as whitespace, the type name at its first occurrence, whitespace, '(' and whitespace with something after; the start is the first character after that |
| DefaultValueHelper.OpensUnique | Engine/Source/Runtime/Core/Private/Misc/DefaultValueHelper.cpp:126-151 | the source determines where the type name, the '(' and the parameters start |
| DefaultValueHelper.CloseParameters | Engine/Source/Runtime/Core/Private/Misc/DefaultValueHelper.cpp:153-174 | succeeds exactly when some end closes the parameters: at least two characters after their start, on a character that is neither whitespace nor ')', followed only by whitespace and exactly one ')'; the end returned is that one |
| DefaultValueHelper.SkipSignAndSpace | Engine/Source/Runtime/Core/Private/Misc/DefaultValueHelper.cpp:180-200 | succeeds exactly when something is left after whitespace, an optional sign and more whitespace, and points at that text |
| DefaultValueHelper.ScanDigits | Engine/Source/Runtime/Core/Private/Misc/DefaultValueHelper.cpp:200-234 | stops at the first character that is not a digit of the base |
| DefaultValueHelper.IsStringValidInteger | Engine/Source/Runtime/Core/Private/Misc/DefaultValueHelper.cpp:180-237 | true exactly for an optional sign, then "0x" and hex digits, a leading '0' and digits, or decimal digits, then only whitespace; reports base 16, 8 or 10 |
| DefaultValueHelper.IsStringValidFloat | Engine/Source/Runtime/Core/Private/Misc/DefaultValueHelper.cpp:258-297 | true exactly for an optional sign, digits, an optional fraction, an optional exponent, an optional 'f', then only whitespace |
| DefaultValueHelper.ScanMantissa | Engine/Source/Runtime/Core/Private/Misc/DefaultValueHelper.cpp:274-278 | skipping the integer digits and an optional '.' turns the mantissa rule into the fraction rule on what follows |
| DefaultValueHelper.ScanFraction | Engine/Source/Runtime/Core/Private/Misc/DefaultValueHelper.cpp:280-289 | skipping the fraction digits and an optional exponent mark with its sign turns the fraction rule into the exponent rule on what follows |
| DefaultValueHelper.ScanExponent | Engine/Source/Runtime/Core/Private/Misc/DefaultValueHelper.cpp:290-294 | skipping the exponent digits and an optional 'f' leaves a text the literal accepts exactly when it is all whitespace |
| DefaultValueHelper.IntegerLiteralIsFloat | Engine/Source/Runtime/Core/Private/Misc/DefaultValueHelper.cpp:180-297 | every decimal or octal integer literal is also a valid float literal |
| DefaultValueHelper.CommaFieldsCount | Engine/Source/Runtime/Core/Private/Misc/DefaultValueHelper.cpp:310-329 | splitting at commas gives one field more than there are commas |
| DefaultValueHelper.IsStringValidVector | Engine/Source/Runtime/Core/Private/Misc/DefaultValueHelper.cpp:310-339 | for non-empty text, which the engine asserts on entry (DefaultValueHelper.cpp:60-64), true exactly when there are exactly three comma-separated fields and each is a valid float |
| PlatformMath.FloorLog2 | Engine/Source/Runtime/Core/Public/GenericPlatform/GenericPlatformMath.h:182-192 | 0 for 0; otherwise the largest r with 2^r <= value |
| PlatformMath.CountLeadingZeros | Engine/Source/Runtime/Core/Public/GenericPlatform/GenericPlatformMath.h:195-199 | 32 exactly for 0; otherwise the highest set bit is bit 31 - r |
| PlatformMath.CountTrailingZeros | Engine/Source/Runtime/Core/Public/GenericPlatform/GenericPlatformMath.h:202-215 | 32 exactly for 0; otherwise the value is an odd number times 2^r |
| PlatformMath.CeilLogTwo | Engine/Source/Runtime/Core/Public/GenericPlatform/GenericPlatformMath.h:217-223 | 0 for 0 and 1; otherwise the smallest r with value <= 2^r |
| PlatformMath.RoundUpToPowerOfTwo | Engine/Source/Runtime/Core/Public/GenericPlatform/GenericPlatformMath.h:226-229 | a power of two at least the value, and less than twice it for values above 1 |
| PlatformMath.MortonCode2Spreads | Engine/Source/Runtime/Core/Public/GenericPlatform/GenericPlatformMath.h:231-239 | bit i of the low 16 bits lands at bit 2i, and the odd bits are clear |
| PlatformMath.MortonCode2RoundTrip | Engine/Source/Runtime/Core/Public/GenericPlatform/GenericPlatformMath.h:231-250 | ReverseMortonCode2 undoes MortonCode2 on the low 16 bits |
| PlatformMath.MortonCode2Injective | Engine/Source/Runtime/Core/Public/GenericPlatform/GenericPlatformMath.h:231-239 | distinct 16-bit inputs have distinct codes |
| PlatformMath.MortonCode3RoundTrip | Engine/Source/Runtime/Core/Public/GenericPlatform/GenericPlatformMath.h:253-272 | ReverseMortonCode3 undoes MortonCode3 on the low 10 bits |
| PlatformMath.MortonCode3Injective | Engine/Source/Runtime/Core/Public/GenericPlatform/GenericPlatformMath.h:253-261 | distinct 10-bit inputs have distinct codes |
| PlatformMath.Abs | Engine/Source/Runtime/Core/Public/GenericPlatform/GenericPlatformMath.h:313-317 | non-negative and equal to the value or its negation |
| PlatformMath.Sign | Engine/Source/Runtime/Core/Public/GenericPlatform/GenericPlatformMath.h:320-324 | 1, -1 or 0 exactly when the value is positive, negative or zero |
| PlatformMath.SignTimesAbs | Engine/Source/Runtime/Core/Public/GenericPlatform/GenericPlatformMath.h:313-324 | Sign(a) * Abs(a) == a |
| PlatformMath.Max | Engine/Source/Runtime/Core/Public/GenericPlatform/GenericPlatformMath.h:327-331 | one of the two arguments and no smaller than either |
| PlatformMath.Min | Engine/Source/Runtime/Core/Public/GenericPlatform/GenericPlatformMath.h:334-338 | one of the two arguments and no larger than either |
| MathUtility.IsPowerOfTwo | Engine/Source/Runtime/Core/Public/Math/SolidAngleMathUtility.h:165-169 | true exactly for 0 and for the values 1 << FloorLog2(value) |
| MathUtility.RoundUpIsPowerOfTwo | Engine/Source/Runtime/Core/Public/Math/SolidAngleMathUtility.h:165-169 | RoundUpToPowerOfTwo always passes IsPowerOfTwo |
| MathUtility.Max3 | Engine/Source/Runtime/Core/Public/Math/SolidAngleMathUtility.h:173-177 | one of the three arguments and no smaller than any |
| MathUtility.Min3 | Engine/Source/Runtime/Core/Public/Math/SolidAngleMathUtility.h:180-184 | one of the three arguments and no larger than any |
| MathUtility.Clamp | Engine/Source/Runtime/Core/Public/Math/SolidAngleMathUtility.h:192-196 | inside [lo, hi] when lo <= hi; values below lo give lo, values in [lo, hi) are unchanged and values at or above hi give hi |
| MathUtility.ClampIdempotent | Engine/Source/Runtime/Core/Public/Math/SolidAngleMathUtility.h:192-196 | clamping twice gives the same as once |
| MathUtility.InclusiveIffClampFixes | Engine/Source/Runtime/Core/Public/Math/SolidAngleMathUtility.h:135-138 | IsWithinInclusive holds exactly when clamping to the same range leaves the value unchanged |
| MathUtility.WithinIsInclusiveWithoutMax | Engine/Source/Runtime/Core/Public/Math/SolidAngleMathUtility.h:128-138 | IsWithin holds exactly when IsWithinInclusive does and the value is not MaxValue; it never holds unless MinValue < MaxValue |
| MathUtility.DivideAndRoundDown | Engine/Source/Runtime/Core/Public/Math/SolidAngleMathUtility.h:230-234 | C++ division; for non-negative operands the largest r with r * divisor <= dividend |
| MathUtility.DivideAndRoundUpAsWritten | Engine/Source/Runtime/Core/Public/Math/SolidAngleMathUtility.h:224-228 | the formula as written divides 2 * dividend - 1, not dividend + divisor - 1: for positive operands r * divisor <= 2 * dividend - 1 < (r + 1) * divisor |
| MathUtility.DivideAndRoundUpAsWrittenOvershoots | Engine/Source/Runtime/Core/Public/Math/SolidAngleMathUtility.h:224-228 | the written formula gives 3 for 4 / 2, where rounding up gives 2 |
| MathUtility.DivideAndRoundUpAsWrittenUndershoots | Engine/Source/Runtime/Core/Public/Math/SolidAngleMathUtility.h:224-228 | the written formula gives 0 for 1 / 2, where rounding up gives 1 |
| MathUtility.DivideAndRoundUpAsWrittenByOne | Engine/Source/Runtime/Core/Public/Math/SolidAngleMathUtility.h:224-228 | dividing n >= 1 by one gives 2n - 1, which is the right answer only for n = 1 |
| MathUtility.DivideAndRoundUpIntended | Engine/Source/Runtime/Core/Public/Math/SolidAngleMathUtility.h:224-228 | the corrected formula: the smallest r with r * divisor >= dividend |
| MathUtility.RoundUpVersusDown | Engine/Source/Runtime/Core/Public/Math/SolidAngleMathUtility.h:224-234 | rounding up exceeds rounding down by one exactly when the division is inexact |
| CrashContext.EscapeIsPerCharacter | Engine/Source/Runtime/Core/Private/GenericPlatform/GenericPlatformCrashContext.cpp:403-415 | the chain of seven replacements equals escaping each character on its own ('&' first, so no entity is escaped twice) |
| CrashContext.EscapeXMLString | Engine/Source/Runtime/Core/Private/GenericPlatform/GenericPlatformCrashContext.cpp:403-415 | the escaped text is each character escaped on its own: '&', quote, apostrophe, '<', '>' and line feed become their entities and carriage returns are dropped |
| CrashContext.UnescapeXMLString | Engine/Source/Runtime/Core/Private/GenericPlatform/GenericPlatformCrashContext.cpp:417-426 | entities are replaced ignoring case, '&amp;' first; text without '&' is returned unchanged |
| CrashContext.UnescapeIgnoresCase | Engine/Source/Runtime/Core/Private/GenericPlatform/GenericPlatformCrashContext.cpp:417-426 | an upper-case entity is still replaced: "&LT;" unescapes to "<" |
| CrashContext.EscapeRemovesSpecials | Engine/Source/Runtime/Core/Private/GenericPlatform/GenericPlatformCrashContext.cpp:403-415 | no '<', '>', quote, apostrophe, line feed or carriage return survives escaping |
| CrashContext.UnescapeEscape | Engine/Source/Runtime/Core/Private/GenericPlatform/GenericPlatformCrashContext.cpp:403-426 | unescaping undoes escaping for text without '&' or carriage returns |
| CrashContext.UnescapeEscapeNeedsNoCarriageReturn | Engine/Source/Runtime/Core/Private/GenericPlatform/GenericPlatformCrashContext.cpp:413-414 | a carriage return does not survive the round trip |
| CrashContext.UnescapeEscapeNeedsNoAmpersand | Engine/Source/Runtime/Core/Private/GenericPlatform/GenericPlatformCrashContext.cpp:403-426 | text that reads like an entity does not survive it: "&lt;" comes back as "<" |
| CrashContext.GetCrashTypeString | Engine/Source/Runtime/Core/Private/GenericPlatform/GenericPlatformCrashContext.cpp:428-440 | "Ensure" when ensuring, else "Assert" when asserting, else "Crash" |
| CrashContext.PropertyElementHoldsValue | Engine/Source/Runtime/Core/Private/GenericPlatform/GenericPlatformCrashContext.cpp:355-368 | the body of a property element unescapes back to the value (without '&' or carriage returns) |
| CrashContext.CrashContextBuffer.AddCrashProperty | Engine/Source/Runtime/Core/Private/GenericPlatform/GenericPlatformCrashContext.cpp:355-368 | appends "<Name>", the escaped value, "</Name>" and a line terminator to the buffer |
| CrashContext.CrashContextBuffer.BeginSection | Engine/Source/Runtime/Core/Private/GenericPlatform/GenericPlatformCrashContext.cpp:387-393 | appends "<Name>" and a line terminator |
| CrashContext.CrashContextBuffer.EndSection | Engine/Source/Runtime/Core/Private/GenericPlatform/GenericPlatformCrashContext.cpp:395-401 | appends "</Name>" and a line terminator |
| CrashContext.CrashContextBuffer.constructor | Engine/Source/Runtime/Core/Private/GenericPlatform/GenericPlatformCrashContext.cpp:209-214 | a new crash context starts with an empty buffer |
| Culture.GetPrioritizedParentCultureNames | Engine/Source/Runtime/Core/Private/Internationalization/Culture.cpp:100-118 | language-script-region (when both are set), then language-region, then language-script, then the bare language last; the count follows the set parts and every tag but the last starts with the language and '-' |
| Culture.GetPluralForm | Engine/Source/Runtime/Core/Private/Internationalization/Culture.cpp:206-214 | a negative count takes the plural form of its magnitude |
| Culture.PluralFormIgnoresSign | Engine/Source/Runtime/Core/Private/Internationalization/Culture.cpp:206-214 | a count and its negation take the same plural form |
| LegacyCulture.GetDefaultPluralForm | Engine/Source/Runtime/Core/Private/Internationalization/LegacyCulture.cpp:163-189 | cardinal: One exactly for 1, else Other; ordinal: One, Two, Few exactly for last digit 1, 2, 3 outside 11-13, else Other |
| LegacyCulture.OrdinalDependsOnLastTwoDigits | Engine/Source/Runtime/Core/Private/Internationalization/LegacyCulture.cpp:174-185 | an ordinal's form depends only on the value modulo 100 |
| LegacyCulture.OrdinalTeensAreOther | Engine/Source/Runtime/Core/Private/Internationalization/LegacyCulture.cpp:174-185 | values ending in 11, 12 or 13 take the Other form |
| LegacyCulture.GetPluralForm | Engine/Source/Runtime/Core/Private/Internationalization/LegacyCulture.cpp:193-197 | demands a non-negative value and applies the default rules |
| LegacyCulture.GetCanonicalName | Engine/Source/Runtime/Core/Private/Internationalization/LegacyCulture.cpp:62-65 | a legacy culture's canonical name is the name itself |
| LegacyCulture.GetNativeLanguage | Engine/Source/Runtime/Core/Private/Internationalization/LegacyCulture.cpp:72-81 | without both brackets the whole name; otherwise the text before the '(' minus the character just before it |
| LegacyCulture.GetNativeRegion | Engine/Source/Runtime/Core/Private/Internationalization/LegacyCulture.cpp:83-92 | without both brackets the whole name; otherwise the text strictly between the first '(' and the last ')', empty when ')' comes first |
| LegacyCulture.NativeNameSplits | Engine/Source/Runtime/Core/Private/Internationalization/LegacyCulture.cpp:72-92 | "Language (Region)" splits back into the language and the region |
| TextNamespaceUtil.StartMarkerIndex | Engine/Source/Runtime/Core/Private/Internationalization/TextNamespaceUtil.cpp:9 | the block opens at the last '[' of a namespace ending in ']' and no '[' follows it |
| TextNamespaceUtil.BuildFullNamespace | Engine/Source/Runtime/Core/Private/Internationalization/TextNamespaceUtil.cpp:5-31 | an existing package block's contents are replaced; without one, a block is appended (after a space for a non-empty namespace) only when always applying, else the namespace is unchanged |
| TextNamespaceUtil.ExtractPackageNamespace | Engine/Source/Runtime/Core/Private/Internationalization/TextNamespaceUtil.cpp:33-43 | the text between the last '[' and the final ']', holding no '['; empty without a block |
| TextNamespaceUtil.TrimTrailing | Engine/Source/Runtime/Core/Private/Internationalization/TextNamespaceUtil.cpp:52 | a prefix of the input, not ending in whitespace, whose removed tail is all whitespace |
| TextNamespaceUtil.StripPackageNamespace | Engine/Source/Runtime/Core/Private/Internationalization/TextNamespaceUtil.cpp:45-58 | the namespace cut before its block with trailing whitespace trimmed; unchanged without a block |
| TextNamespaceUtil.ExtractBuildRoundTrip | Engine/Source/Runtime/Core/Private/Internationalization/TextNamespaceUtil.cpp:5-43 | extracting after building gives back the package namespace |
| TextNamespaceUtil.BuildOverwrites | Engine/Source/Runtime/Core/Private/Internationalization/TextNamespaceUtil.cpp:5-31 | building twice keeps only the second package namespace |
| TextNamespaceUtil.StripBuildRoundTrip | Engine/Source/Runtime/Core/Private/Internationalization/TextNamespaceUtil.cpp:5-58 | stripping an appended block restores a namespace without trailing whitespace |
| Timespan.ComponentMagnitude | Engine/Source/Runtime/Core/Private/Misc/Timespan.cpp:63-67 | the absolute value of a truncating component getter equals the component of the span's absolute tick count |
| Timespan.TrailingPercentReadsPastEnd | Engine/Source/Runtime/Core/Private/Misc/Timespan.cpp:55-84 | as written, a format ending in '%' moves the read position one past the terminator |
| Timespan.NextPosition | Engine/Source/Runtime/Core/Private/Misc/Timespan.cpp:55-84 | the corrected scan always advances and never passes the end of the format, and agrees with the engine's step everywhere else |
| Timespan.FormatWithoutSpecifiers | Engine/Source/Runtime/Core/Private/Misc/Timespan.cpp:51-88 | a format without '%' is copied unchanged |
| Timespan.SignSpecifiers | Engine/Source/Runtime/Core/Private/Misc/Timespan.cpp:61-62 | "%n" gives '-' exactly for a negative span; "%N" always gives '-' or '+' |
| Timespan.UnknownSpecifierIsLiteral | Engine/Source/Runtime/Core/Private/Misc/Timespan.cpp:74-76 | '%' followed by a letter that names no field prints that letter |
| Timespan.DefaultFormatsGiveTimespanText | Engine/Source/Runtime/Core/Private/Misc/Timespan.cpp:40-48 | the two formats ToString() picks print "[-]hh:mm:ss.fff" or "[-]d.hh:mm:ss.fff" |
| Timespan.SplitFields | Engine/Source/Runtime/Core/Private/Misc/Timespan.cpp:152 | splitting on ':' with empty pieces dropped yields only non-empty pieces without ':' |
| Timespan.ParseFieldCount | Engine/Source/Runtime/Core/Private/Misc/Timespan.cpp:154-162 | parsing succeeds exactly for four or five fields, a missing day field being read as 0 |
| Timespan.ParseSign | Engine/Source/Runtime/Core/Private/Misc/Timespan.cpp:145-170 | a parsed span is negative only for input starting with '-', and such input never gives a positive span |
| Timespan.Span.Assign | Engine/Source/Runtime/Core/Private/Misc/Timespan.cpp:193-199 | the ticks become the total of the parts, which must lie in the int64 tick range |
| Timespan.Span.ToStringFormat | Engine/Source/Runtime/Core/Private/Misc/Timespan.cpp:51-88 | the printed text is the format with each "%c" replaced by its field |
| Timespan.Span.ToString | Engine/Source/Runtime/Core/Private/Misc/Timespan.cpp:40-48 | the printed text is the reference "[-][d.]hh:mm:ss.fff" text of the span |
| Timespan.Parse | Engine/Source/Runtime/Core/Private/Misc/Timespan.cpp:142-172 | succeeds exactly when there are four or five non-empty fields once '.', ',' and '-' become ':', then stores the signed total; on failure the target is unchanged |
| Timespan.ShortFormatText | Engine/Source/Runtime/Core/Private/Misc/Timespan.cpp:44 | "%n%h:%m:%s.%f" prints the sign followed by the clock text |
| Timespan.LongFormatText | Engine/Source/Runtime/Core/Private/Misc/Timespan.cpp:47 | "%n%d.%h:%m:%s.%f" prints the sign, the days, a '.' and the clock text |
| Timespan.Span.constructor | Engine/Source/Runtime/Core/Private/Misc/Timespan.cpp:98 | a span holds the ticks it is built from |
| Timespan.Span.GetDays | Engine/Source/Runtime/Core/Private/Misc/Timespan.cpp:42-63 | the whole days of the span, truncated toward zero: its magnitude is the tick magnitude divided by the ticks per day, and its sign is the span's |
| Timespan.DaysMirror | Engine/Source/Runtime/Core/Private/Misc/Timespan.cpp:42-63 | a span and its negation have the same number of whole days in magnitude |
| CustomVersioning.NewVersion | Engine/Source/Runtime/Core/Private/Serialization/CustomVersion.cpp:209 | a new entry holds the key, version and name with one reference |
| CustomVersioning.VersionOf | Engine/Source/Runtime/Core/Private/Serialization/CustomVersion.cpp:145-155 | the unused testing key always yields its sentinel entry; any other key yields its stored entry exactly when it is stored |
| CustomVersioning.FriendlyNameOf | Engine/Source/Runtime/Core/Private/Serialization/CustomVersion.cpp:157-166 | the entry's friendly name, or "Name" when the key has no entry |
| CustomVersioning.WithVersion | Engine/Source/Runtime/Core/Private/Serialization/CustomVersion.cpp:168-182 | the unused key leaves the set unchanged; otherwise the key is present with the new version and name, its reference count kept (1 when new), and every other entry is unchanged |
| CustomVersioning.WithRegistration | Engine/Source/Runtime/Core/Private/Serialization/CustomVersion.cpp:184-213 | registering adds a one-reference entry for a new key or bumps an existing key's count, changing nothing else |
| CustomVersioning.WithoutRegistration | Engine/Source/Runtime/Core/Private/Serialization/CustomVersion.cpp:215-229 | ending a registration removes the key when its count reaches zero, else decrements it, changing nothing else |
| CustomVersioning.WithVersionConsistent | Engine/Source/Runtime/Core/Private/Serialization/CustomVersion.cpp:168-182 | setting a version keeps every entry under its own key with a positive count |
| CustomVersioning.SetThenGetVersion | Engine/Source/Runtime/Core/Private/Serialization/CustomVersion.cpp:145-182 | a set version and name read back, except for the unused key whose sentinel wins; other keys read as before |
| CustomVersioning.RegisterThenUnregister | Engine/Source/Runtime/Core/Private/Serialization/CustomVersion.cpp:184-229 | registering and then ending the registration restores the set |
| CustomVersioning.RegistrationConsistent | Engine/Source/Runtime/Core/Private/Serialization/CustomVersion.cpp:184-229 | registering and ending registrations keep the set consistent |
| CustomVersioning.EnumToCustomVersion | Engine/Source/Runtime/Core/Private/Serialization/CustomVersion.cpp:17-21 | an enum tag becomes the GUID (0,0,0,tag) named "EnumTag" followed by the tag in decimal |
| CustomVersioning.GuidToCustomVersion | Engine/Source/Runtime/Core/Private/Serialization/CustomVersion.cpp:39-43 | a legacy GUID entry keeps its key, version and name |
| CustomVersioning.Converted | Engine/Source/Runtime/Core/Private/Serialization/CustomVersion.cpp:106-135 | each legacy entry converts to one entry with one reference, in order |
| CustomVersioning.SetOf | Engine/Source/Runtime/Core/Private/Serialization/CustomVersion.cpp:114-118 | adding entries one by one stores each under its own key and every entry's key is present |
| CustomVersioning.SetOfHoldsLast | Engine/Source/Runtime/Core/Private/Serialization/CustomVersion.cpp:114-118 | a key holds the last entry added with that key |
| CustomVersioning.SetOfKeys | Engine/Source/Runtime/Core/Private/Serialization/CustomVersion.cpp:114-118 | every key in the set comes from some entry |
| CustomVersioning.SetOfConsistent | Engine/Source/Runtime/Core/Private/Serialization/CustomVersion.cpp:114-133 | a set built from entries with positive counts is consistent |
| CustomVersioning.CustomVersionContainer.constructor | Engine/Source/Runtime/Core/Private/Serialization/CustomVersion.cpp:69-72 | a container starts empty |
| CustomVersioning.CustomVersionContainer.GetVersion | Engine/Source/Runtime/Core/Private/Serialization/CustomVersion.cpp:145-155 | the container's lookup is VersionOf on its set |
| CustomVersioning.CustomVersionContainer.GetFriendlyName | Engine/Source/Runtime/Core/Private/Serialization/CustomVersion.cpp:157-166 | the container's name lookup is FriendlyNameOf on its set |
| CustomVersioning.CustomVersionContainer.SetVersion | Engine/Source/Runtime/Core/Private/Serialization/CustomVersion.cpp:168-182 | the new set is WithVersion of the old one |
| CustomVersioning.CustomVersionContainer.Empty | Engine/Source/Runtime/Core/Private/Serialization/CustomVersion.cpp:69-72 | the set becomes empty |
| CustomVersioning.CustomVersionContainer.Serialize | Engine/Source/Runtime/Core/Private/Serialization/CustomVersion.cpp:100-135 | loading a legacy format replaces the set by the converted entries, later keys winning, and leaves it consistent; only loading is allowed |
| CustomVersioning.EntryFriendlyName | Engine/Source/Runtime/Core/Private/Serialization/CustomVersion.cpp:55-62 | an entry's stored name, or the registered set's name for its key when the stored name is "None" in any letter case |
| CustomVersioning.UpperCaseNoneTakesRegisteredName | Engine/Source/Runtime/Core/Private/Serialization/CustomVersion.cpp:55-62 | an entry stored as "NONE" takes the registered name, as one stored as "None" does |
| CustomVersioning.CustomVersionRegistration.constructor | Engine/Source/Runtime/Core/Private/Serialization/CustomVersion.cpp:184-213 | constructing a registration applies WithRegistration to the registered set |
| CustomVersioning.CustomVersionRegistration.Unregister | Engine/Source/Runtime/Core/Private/Serialization/CustomVersion.cpp:215-229 | ending a registration requires the key to be registered and applies WithoutRegistration |
| RhiResource.RhiResource.constructor | Engine/Source/Experimental/Public/YRHIResource.h:10 | a new resource has no references and is alive |
| RhiResource.RhiResource.GetRefCount | Engine/Source/Experimental/Public/YRHIResource.h:28-33 | the reported count is the current number of references |
| RhiResource.RhiResource.AddRef | Engine/Source/Experimental/Public/YRHIResource.h:12-17 | the count goes up by one and the positive new count is returned |
| RhiResource.RhiResource.Release | Engine/Source/Experimental/Public/YRHIResource.h:18-27 | the count goes down by one, the new count is returned, and the resource is deleted exactly when it reaches zero |
| RhiResource.ExclusiveDepthStencil.constructor | Engine/Source/Experimental/Public/YRHIResource.h:1020-1023 | the access holds the given value |
| RhiResource.ExclusiveDepthStencil.ExtractDepth | Engine/Source/Experimental/Public/YRHIResource.h:1119-1122 | the depth part lies within the low nibble |
| RhiResource.ExclusiveDepthStencil.ExtractStencil | Engine/Source/Experimental/Public/YRHIResource.h:1123-1126 | the stencil part has no depth bits |
| RhiResource.ExclusiveDepthStencil.IsUsingDepthStencil | Engine/Source/Experimental/Public/YRHIResource.h:1025-1028 | true exactly when the depth part or the stencil part is not Nop |
| RhiResource.ExclusiveDepthStencil.IsDepthWrite | Engine/Source/Experimental/Public/YRHIResource.h:1029-1032 | a depth write uses depth-stencil; for a valid access it is true exactly for DepthWrite alone or with a stencil read or write |
| RhiResource.ExclusiveDepthStencil.IsStencilWrite | Engine/Source/Experimental/Public/YRHIResource.h:1033-1036 | a stencil write uses depth-stencil; for a valid access it is true exactly for StencilWrite alone or with a depth read or write |
| RhiResource.ExclusiveDepthStencil.IsAnyWrite | Engine/Source/Experimental/Public/YRHIResource.h:1038-1041 | an access writes exactly when it writes depth or stencil |
| RhiResource.ExclusiveDepthStencil.SetDepthWrite | Engine/Source/Experimental/Public/YRHIResource.h:1043-1046 | depth becomes write, the stencil part is kept, and a valid combination stays valid |
| RhiResource.ExclusiveDepthStencil.SetStencilWrite | Engine/Source/Experimental/Public/YRHIResource.h:1047-1050 | stencil becomes write, the depth part is kept, and a valid combination stays valid |
| RhiResource.ExclusiveDepthStencil.SetDepthStencilWrite | Engine/Source/Experimental/Public/YRHIResource.h:1051-1063 | depth and stencil write exactly as asked, each part not asked for is Nop, and the result is one of the nine combinations |
| RhiResource.ExclusiveDepthStencil.IsValid | Engine/Source/Experimental/Public/YRHIResource.h:1068-1085 | an access is allowed under the current one exactly when each of its parts is Nop or equals the current part |
| RhiResource.ExclusiveDepthStencil.GetIndex | Engine/Source/Experimental/Public/YRHIResource.h:1087-1116 | for the nine combinations, the view index is below 4 and is 1 for read-only depth plus 2 for read-only stencil |
| RhiResource.IsValidReflexive | Engine/Source/Experimental/Public/YRHIResource.h:1068-1085 | every access is allowed under itself, and the Nop access under any |
| RhiResource.AlignProperties | Engine/Source/Experimental/Public/YRHIResource.h:220 | aligning to 8 gives a multiple of 8 and leaves multiples of 8 unchanged |
| RhiResource.ShiftOf | Engine/Source/Experimental/Public/YRHIResource.h:222-237 | each resource type is shifted by 0, 8, 16 or 24 bits, and only by 0 or 16 in the last n mod 4 |
| RhiResource.XorStep | Engine/Source/Experimental/Public/YRHIResource.h:222-237 | one step of the hash folds the next resource, counted from the end, into the hash |
| RhiResource.HashWithoutResources | Engine/Source/Experimental/Public/YRHIResource.h:218-220 | with no resources the hash's low 16 bits are the aligned offset's, and its low 3 bits are zero |
| RhiResource.ComputeHash | Engine/Source/Experimental/Public/YRHIResource.h:216-238 | the three loops compute the reference layout hash |
| RhiResource.UniformBufferLayout.constructor | Engine/Source/Experimental/Public/YRHIResource.h:244-251 | a new layout is empty, named, and has no cached hash |
| RhiResource.UniformBufferLayout.GetHash | Engine/Source/Experimental/Public/YRHIResource.h:214-242 | returns the cached hash, computing and caching the layout hash the first time; the layout itself is unchanged |
| RhiResource.UniformBufferLayout.CopyFrom | Engine/Source/Experimental/Public/YRHIResource.h:266-274 | every field, the cache included, becomes the source's |
| RhiResource.UniformBufferLayout.Equals | Engine/Source/Experimental/Public/YRHIResource.h:287-292 | layouts are equal exactly when sizes, offsets and resource types agree; name and cache play no part |
| RhiResource.EqualLayoutsHashEqual | Engine/Source/Experimental/Public/YRHIResource.h:214-292 | equal layouts have equal hashes |
| RhiResource.GraphicsPipelineStateInitializer.constructor | Engine/Source/Experimental/Public/YRHIResource.h:1399-1421 | a default initializer has no optional state, a zero stencil reference and a white blend factor |
| RhiResource.GraphicsPipelineStateInitializer.WithState | Engine/Source/Experimental/Public/YRHIResource.h:1457-1459 | the full initializer marks both optional states as set and stores both values |
| RhiResource.GraphicsPipelineStateInitializer.SetStencilRef | Engine/Source/Experimental/Public/YRHIResource.h:1558-1562 | sets the stencil flag and the value, keeping the blend factor |
| RhiResource.GraphicsPipelineStateInitializer.ClearSetStencilRef | Engine/Source/Experimental/Public/YRHIResource.h:1564-1567 | clears only the stencil flag |
| RhiResource.GraphicsPipelineStateInitializer.SetBlendFactor | Engine/Source/Experimental/Public/YRHIResource.h:1574-1578 | sets the blend flag and the value, keeping the stencil reference |
| RhiResource.GraphicsPipelineStateInitializer.ClearSetBlendFactor | Engine/Source/Experimental/Public/YRHIResource.h:1580-1583 | clears only the blend flag |
| RhiResource.WithFlag | Engine/Source/Experimental/Public/YRHIResource.h:1560 | the flag bit is set and every other bit is kept |
| RhiResource.WithoutFlag | Engine/Source/Experimental/Public/YRHIResource.h:1566 | the flag bit is cleared and every other bit is kept |
| RhiResource.OptionalStatesIndependent | Engine/Source/Experimental/Public/YRHIResource.h:1558-1583 | setting or clearing one optional state leaves the other's bit unchanged, and clearing undoes setting |
| StaticMeshResource.Encode16 | Engine/Source/Experimental/Private/YStaticMeshResource.cpp:171-181 | demoting writes two bytes per index |
| StaticMeshResource.Encode32 | Engine/Source/Experimental/Private/YStaticMeshResource.cpp:165-170 | the memcpy writes four bytes per index |
| StaticMeshResource.Decode16 | Engine/Source/Experimental/Private/YStaticMeshResource.cpp:196-205 | promoting reads one index per two bytes, each below 65536 |
| StaticMeshResource.Decode16Encode16 | Engine/Source/Experimental/Private/YStaticMeshResource.cpp:171-205 | a 16-bit round trip keeps each index modulo 65536 |
| StaticMeshResource.Decode32Encode32 | Engine/Source/Experimental/Private/YStaticMeshResource.cpp:165-195 | a 32-bit round trip returns the indices unchanged |
| StaticMeshResource.Use32Bit | Engine/Source/Experimental/Private/YStaticMeshResource.cpp:147-161 | under AutoDetect, 32-bit storage is chosen exactly when some index exceeds 65535 |
| StaticMeshResource.DetectStride | Engine/Source/Experimental/Private/YStaticMeshResource.cpp:147-161 | the detection loop computes Use32Bit |
| StaticMeshResource.Demote | Engine/Source/Experimental/Private/YStaticMeshResource.cpp:174-179 | the element-by-element copy computes the 16-bit encoding |
| StaticMeshResource.IndexArrayView.At | Engine/Source/Experimental/Public/YStaticMeshResource.h:432-433 | a 16-bit view yields indices below 65536 |
| StaticMeshResource.RawStaticIndexBuffer.constructor | Engine/Source/Experimental/Private/YStaticMeshResource.cpp:139-143 | a new buffer is empty and 16-bit |
| StaticMeshResource.RawStaticIndexBuffer.SetIndices | Engine/Source/Experimental/Private/YStaticMeshResource.cpp:145-182 | as written: 32-bit storage keeps the old width flag; 16-bit storage clears it |
| StaticMeshResource.RawStaticIndexBuffer.SetIndicesCorrected | Engine/Source/Experimental/Private/YStaticMeshResource.cpp:145-182 | the width flag records the chosen stride and the storage encodes the indices at that width |
| StaticMeshResource.RawStaticIndexBuffer.GetNumIndices | Engine/Source/Experimental/Public/YStaticMeshResource.h:452-455 | the count is the number of indices the storage decodes to at the current width |
| StaticMeshResource.RawStaticIndexBuffer.GetCopy | Engine/Source/Experimental/Private/YStaticMeshResource.cpp:184-206 | the copy decodes the storage at the current width |
| StaticMeshResource.RawStaticIndexBuffer.GetArrayView | Engine/Source/Experimental/Private/YStaticMeshResource.cpp:208-212 | the view covers the storage at the current width and each element matches the decoded copy |
| StaticMeshResource.Encode | Engine/Source/Experimental/Private/YStaticMeshResource.cpp:162-164 | the storage has four or two bytes per index |
| StaticMeshResource.Decode16EncodeFitting | Engine/Source/Experimental/Private/YStaticMeshResource.cpp:171-205 | indices that fit 16 bits survive a 16-bit round trip |
| StaticMeshResource.SameBelow16Bits | Engine/Source/Experimental/Private/YStaticMeshResource.cpp:171-205 | indices equal modulo 65536 and all below 65536 are equal |
| StaticMeshResource.DecodeEncode | Engine/Source/Experimental/Private/YStaticMeshResource.cpp:162-205 | decoding at the width used for encoding returns the indices, when 16 bits is only used for indices that fit |
| StaticMeshResource.AutoDetectRoundTrip | Engine/Source/Experimental/Private/YStaticMeshResource.cpp:145-206 | with the corrected width flag, setting indices by auto-detection and copying them back returns them unchanged |
| StaticMeshResource.AsWrittenLosesWideIndex | Engine/Source/Experimental/Private/YStaticMeshResource.cpp:165-170 | as written, a fresh buffer given index 65536 stores 32 bits but reads back as [0, 1] |
| StaticMeshResource.AsWrittenCopyDiffers | Engine/Source/Experimental/Private/YStaticMeshResource.cpp:165-206 | as written, any index list needing 32 bits reads back on a 16-bit buffer as twice as many indices, unequal to the input |
| StaticMeshResource.StaticMeshVertexData.constructor | Engine/Source/Experimental/Public/YStaticMeshResource.h:88 | new vertex data is empty and records the CPU-access flag |
| StaticMeshResource.StaticMeshVertexData.ResizeBuffer | Engine/Source/Experimental/Public/YStaticMeshResource.h:98-110 | the array gets the requested length and keeps the elements it had below it |
| StaticMeshResource.PositionVertexBuffer.constructor | Engine/Source/Experimental/Private/YStaticMeshResource.cpp:6-12 | a new buffer has no data, zero stride and no vertices |
| StaticMeshResource.PositionVertexBuffer.CleanUp | Engine/Source/Experimental/Private/YStaticMeshResource.cpp:19-25 | the vertex data is released; stride and count are kept |
| StaticMeshResource.PositionVertexBuffer.AllocateData | Engine/Source/Experimental/Private/YStaticMeshResource.cpp:65-70 | fresh empty vertex data is allocated and the stride becomes the position vertex size |
| StaticMeshResource.PositionVertexBuffer.Init | Engine/Source/Experimental/Private/YStaticMeshResource.cpp:27-39 | the buffer holds one vertex per input vertex, with its position |
| StaticMeshResource.StaticMeshUVVertexData.constructor | Engine/Source/Experimental/Public/YStaticMeshResource.h:265 | holds the two given UV sets |
| StaticMeshResource.StaticMeshUVVertexData.SetUV | Engine/Source/Experimental/Public/YStaticMeshResource.h:273-278 | requires an index below 2, sets that UV set and leaves the other unchanged |
| StaticMeshResource.StaticMeshUVVertexData.GetUV | Engine/Source/Experimental/Public/YStaticMeshResource.h:266-271 | the stored UV of the channel, which must be below 2 as the engine checks |
| Colors.UnpackPack | Engine/Source/Runtime/Core/Public/Math/Color.h:533-560 | each byte of a packed word is recovered by shift and mask |
| Colors.PackUnpack | Engine/Source/Runtime/Core/Public/Math/Color.h:397-400 | a word is the packing of its own four bytes |
| Colors.SaturatingAdd | Engine/Source/Runtime/Core/Public/Math/Color.h:428-431 | a channel sum is clamped at 255 |
| Colors.Color.ToPackedARGB | Engine/Source/Runtime/Core/Public/Math/Color.h:533-536 | alpha, red, green and blue occupy bytes 3, 2, 1 and 0 |
| Colors.Color.ToPackedABGR | Engine/Source/Runtime/Core/Public/Math/Color.h:541-544 | the ABGR word is the ARGB word with red and blue exchanged |
| Colors.Color.ToPackedRGBA | Engine/Source/Runtime/Core/Public/Math/Color.h:549-552 | the RGBA word is the ARGB word rotated left by eight bits |
| Colors.Color.ToPackedBGRA | Engine/Source/Runtime/Core/Public/Math/Color.h:557-560 | the BGRA word is the ARGB word byte-swapped |
| Colors.Color.DWColor | Engine/Source/Runtime/Core/Public/Math/Color.h:378-379 | the colour read as one word: alpha in the high byte, then red, green and blue |
| Colors.Color.Equals | Engine/Source/Runtime/Core/Public/Math/Color.h:416-419 | two colours compare equal exactly when they are the same colour |
| Colors.Color.WithAlpha | Engine/Source/Runtime/Core/Public/Math/Color.h:467-470 | the colour keeps red, green and blue and takes the new alpha |
| Colors.Color.Plus | Engine/Source/Runtime/Core/Public/Math/Color.h:426-432 | each channel of the sum is clamped at 255 |
| Colors.FromDWColor | Engine/Source/Runtime/Core/Public/Math/Color.h:397-400 | the colour built from a word reads back as that word |
| Colors.DWColorDistinguishes | Engine/Source/Runtime/Core/Public/Math/Color.h:378-379 | colours with the same word are the same colour, so no two colours share a word |
| ColorList.FindRef | Engine/Source/Runtime/Core/Private/Math/ColorList.cpp:17 | finds a pointer stored under the name compared ignoring case, absent exactly when no pair's name equals it ignoring case |
| ColorList.FindRefIgnoresCase | Engine/Source/Runtime/Core/Private/Math/ColorList.cpp:17 | names that differ only in case find the same pointer |
| ColorList.FindKey | Engine/Source/Runtime/Core/Private/Math/ColorList.cpp:71 | finds a name under which a pointer is stored, absent exactly when no pair holds it |
| ColorList.MapAdd | Engine/Source/Runtime/Core/Private/Math/ColorList.cpp:187 | after adding, the name (in any case) finds the pointer, every name not equal to it ignoring case finds what it found before, and the map grows by at most one pair |
| ColorList.Pointers | Engine/Source/Runtime/Core/Private/Math/ColorList.cpp:188 | the lookup gets the table's pointers in order |
| ColorList.IndexOf | Engine/Source/Runtime/Core/Private/Math/ColorList.cpp:60 | the first position of a pointer, absent exactly when the pointer is not there |
| ColorList.ColorList.constructor | Engine/Source/Runtime/Core/Public/Math/ColorList.h:154-157 | a new list has an empty map and an empty lookup |
| ColorList.ColorList.InitializeColor | Engine/Source/Runtime/Core/Private/Math/ColorList.cpp:185-191 | adds the name to the map, appends the pointer to the lookup and advances the index |
| ColorList.ColorList.InitializeColors | Engine/Source/Runtime/Core/Private/Math/ColorList.cpp:80-180 | registering a table in order adds every pair to the map and appends every pointer |
| ColorList.ColorList.CreateColorMap | Engine/Source/Runtime/Core/Private/Math/ColorList.cpp:78-183 | registers the whole colour table |
| ColorList.ColorList.GetFColorBFName | Engine/Source/Runtime/Core/Private/Math/ColorList.cpp:15-25 | the colour registered under a name equal to the given one ignoring case, or White when there is none |
| ColorList.ColorList.GetFColorByIndex | Engine/Source/Runtime/Core/Private/Math/ColorList.cpp:27-35 | the colour at a valid index, or White |
| ColorList.ColorList.IsValidColorName | Engine/Source/Runtime/Core/Private/Math/ColorList.cpp:49-53 | a name is valid exactly when the map holds a name equal to it ignoring case |
| ColorList.ColorList.GetColorIndex | Engine/Source/Runtime/Core/Private/Math/ColorList.cpp:56-62 | the first lookup position of the name's colour (White for unknown names), or -1 (INDEX_NONE) when that colour is not in the lookup |
| ColorList.ColorList.GetColorNameByIndex | Engine/Source/Runtime/Core/Private/Math/ColorList.cpp:64-76 | for a valid index, a name under which that colour is registered; otherwise "BadIndex" |
| ColorList.CreatedIndexZeroIsBlack | Engine/Source/Runtime/Core/Private/Math/ColorList.cpp:80-82 | after registering the table on an empty list, index 0 holds black |
| RawMesh.CountFace | Engine/Source/Experimental/Private/YRawMesh.cpp:96-104 | counting a face grows the table to cover its material index |
| RawMesh.TrianglesPerSectionCounts | Engine/Source/Experimental/Private/YRawMesh.cpp:92-105 | the count of each section is the number of faces using that material index, and the table covers every non-negative index |
| RawMesh.UsedSections | Engine/Source/Experimental/Private/YRawMesh.cpp:107-116 | the kept sections are sections with at least one triangle, in order |
| RawMesh.NewIndices | Engine/Source/Experimental/Private/YRawMesh.cpp:107-116 | there is one new index per old section |
| RawMesh.NewIndicesNameUsedSections | Engine/Source/Experimental/Private/YRawMesh.cpp:107-116 | a used section's new index points back to it in the kept list; an unused section's new index is INDEX_NONE |
| RawMesh.AllUsedIffNoneDropped | Engine/Source/Experimental/Private/YRawMesh.cpp:118 | the kept list is as long as the section table exactly when every section is used |
| RawMesh.RawMesh.Empty | Engine/Source/Experimental/Private/YRawMesh.cpp:2-16 | every face, vertex and wedge stream becomes empty; the material map is untouched |
| RawMesh.RawMesh.IsValid | Engine/Source/Experimental/Private/YRawMesh.cpp:23-50 | the checks compute MeshIsValid: positive counts, optional streams empty or full-sized, first UV set full, every wedge index in range |
| RawMesh.RawMesh.IsValidOrFixable | Engine/Source/Experimental/Private/YRawMesh.cpp:52-84 | the checks compute MeshIsValidOrFixable, which demands full face streams |
| RawMesh.RawMesh.CheckStreams | Engine/Source/Experimental/Private/YRawMesh.cpp:39-42 | the texture-coordinate loop keeps validity exactly when every further UV set is empty or full-sized |
| RawMesh.RawMesh.CheckWedges | Engine/Source/Experimental/Private/YRawMesh.cpp:43-48 | the wedge loop keeps validity exactly when every wedge indexes an existing vertex |
| RawMesh.RawMesh.GetWedgePosition | Engine/Source/Experimental/Public/YRawMesh.h:68-71 | a wedge's position is one of the mesh's vertex positions |
| RawMesh.RawMesh.CompactMaterialIndices | Engine/Source/Experimental/Private/YRawMesh.cpp:86-130 | when sections are dropped, each face gets a new index whose kept section is its old one; otherwise faces are unchanged and the map is empty |
| RawMesh.RawMesh.CompactSections | Engine/Source/Experimental/Private/YRawMesh.cpp:91-128 | on a valid or fixable mesh: when some section is unused, the map lists the used sections and every face names its old section through it; otherwise faces are unchanged and the map is empty |
| RawMesh.RawMesh.RemapFaces | Engine/Source/Experimental/Private/YRawMesh.cpp:120-123 | each face's material index is replaced by its new index |
| RawMesh.RawMesh.CountTriangles | Engine/Source/Experimental/Private/YRawMesh.cpp:92-105 | the counting loop computes the per-section triangle counts |
| RawMesh.RawMesh.AssignNewIndices | Engine/Source/Experimental/Private/YRawMesh.cpp:107-116 | the loop records the kept sections and each section's new index |
| RawMesh.RemappedFacesNameOldSections | Engine/Source/Experimental/Private/YRawMesh.cpp:117-124 | after remapping, each face's new index names its original section in the kept list |
| RawMesh.ValidWithFullFaceStreamsIsFixable | Engine/Source/Experimental/Private/YRawMesh.cpp:23-84 | a valid mesh whose face streams are full is valid or fixable |
| StaticMeshSectionMap.DefaultSectionInfo | Engine/Source/Experimental/Public/YStaticMesh.h:17-23 | a section without settings uses its own index as material, with collision and shadows on |
| StaticMeshSectionMap.SameSectionInfo | Engine/Source/Experimental/Private/YStaticMesh.cpp:9-19 | two settings compare equal exactly when all three fields agree |
| StaticMeshSectionMap.Low16 | Engine/Source/Experimental/Private/YStaticMesh.cpp:23 | masking with 0xffff gives a value below 65536 and keeps values already in range |
| StaticMeshSectionMap.GetMeshMaterialKey | Engine/Source/Experimental/Private/YStaticMesh.cpp:21-24 | the key's high half is the LOD's low 16 bits and its low half the section's |
| StaticMeshSectionMap.KeyLodAsWritten | Engine/Source/Experimental/Private/YStaticMesh.cpp:36 | the LOD test as written always extracts 0 |
| StaticMeshSectionMap.KeyInjective | Engine/Source/Experimental/Private/YStaticMesh.cpp:21-24 | for LOD and section indices in 0..65535, keys are equal exactly when both indices are |
| StaticMeshSectionMap.MeshSectionInfoMap.constructor | Engine/Source/Experimental/Public/YStaticMesh.h:31 | a new map is empty |
| StaticMeshSectionMap.MeshSectionInfoMap.Clear | Engine/Source/Experimental/Private/YStaticMesh.cpp:26-29 | the map becomes empty |
| StaticMeshSectionMap.MeshSectionInfoMap.Get | Engine/Source/Experimental/Private/YStaticMesh.cpp:44-58 | the stored settings for the LOD's key; failing that, LOD 0's for the section; failing that, the default for the section |
| StaticMeshSectionMap.MeshSectionInfoMap.Set | Engine/Source/Experimental/Private/YStaticMesh.cpp:60-64 | the settings are stored under the section's key, replacing any earlier ones |
| StaticMeshSectionMap.MeshSectionInfoMap.Remove | Engine/Source/Experimental/Private/YStaticMesh.cpp:66-70 | only the section's key is removed |
| StaticMeshSectionMap.MeshSectionInfoMap.CopyFrom | Engine/Source/Experimental/Private/YStaticMesh.cpp:72-78 | every entry of the other map is added, overriding entries under the same key |
| StaticMeshSectionMap.MeshSectionInfoMap.GetSectionNumber | Engine/Source/Experimental/Private/YStaticMesh.cpp:31-42 | as written: counts the keys whose always-zero extracted LOD equals the requested LOD |
| StaticMeshSectionMap.MeshSectionInfoMap.GetSectionNumberCorrected | Engine/Source/Experimental/Private/YStaticMesh.cpp:31-42 | counts the keys whose high half is the requested LOD |
| StaticMeshSectionMap.MeshSectionInfoMap.CountKeys | Engine/Source/Experimental/Private/YStaticMesh.cpp:33-41 | the loop over all keys counts exactly those passing the LOD test |
| StaticMeshSectionMap.MeshSectionInfoMap.AnySectionHasCollision | Engine/Source/Experimental/Private/YStaticMesh.cpp:80-92 | true exactly when some LOD-0 section has collision enabled |
| StaticMeshSectionMap.SetThenGet | Engine/Source/Experimental/Private/YStaticMesh.cpp:44-64 | a section just set reads back with the settings stored |
| StaticMeshSectionMap.RemoveOnlyThatKey | Engine/Source/Experimental/Private/YStaticMesh.cpp:66-70 | removing a section leaves every other key's settings as they were |
| StaticMeshSectionMap.AsWrittenCountsEverySection | Engine/Source/Experimental/Private/YStaticMesh.cpp:31-42 | as written, the count for LOD 0 is every entry and for any other LOD none |
| StaticMeshSectionMap.AsWrittenMissesLodOne | Engine/Source/Experimental/Private/YStaticMesh.cpp:31-42 | one LOD-1 section counts as none as written and as one when corrected |
| StaticMeshSectionMap.SetNewSectionCounts | Engine/Source/Experimental/Private/YStaticMesh.cpp:31-64 | setting a new section adds one to its LOD's corrected count and leaves other LODs' counts alone |
| SkeletalMesh.FirstRigidSlot | Engine/Source/Experimental/Private/SkeletalMesh.cpp:750-758 | the first influence slot with weight 255, absent exactly when none has it |
| SkeletalMesh.GetRigidWeightBone | Engine/Source/Experimental/Private/SkeletalMesh.cpp:746-761 | a vertex is rigid exactly when some weight is 255, then the bone of the first such slot is reported; otherwise the output is untouched |
| SkeletalMesh.ConvertToSoftVert | Engine/Source/Experimental/Private/SkeletalMesh.cpp:1028-1048 | the soft vertex copies position, the three tangents, UVs and colour, stores the basis determinant's sign byte in the normal's w (0 exactly when the determinant is negative), puts the bone in slot 0 with weight 255 and zeroes the other slots, so it reads back as rigid on that bone |
| SkeletalMesh.BasisDeterminantSignByte | Engine/Source/Experimental/Public/YPackedNormal.h:94-97 | 0 exactly when the determinant of the three unpacked axes is negative and 255 otherwise |
| SkeletalMesh.Determinant3SwapRows | Engine/Source/Experimental/Public/YPackedNormal.h:16-24 | exchanging two axes negates the basis determinant |
| SkeletalMesh.SwappedAxesFlipSign | Engine/Source/Experimental/Public/YPackedNormal.h:94-97 | exchanging the tangent and binormal flips the sign byte (0 and 255 swap), unless the determinant is zero |
| SkeletalMesh.AxisBasisSigns | Engine/Source/Experimental/Public/YPackedNormal.h:94-97 | the unit axes give 255, and with the first two swapped give 0 |
| SkeletalMesh.AllEqualIffFullCount | Engine/Source/Experimental/Private/SkeletalMesh.cpp:2080-2087 | a sequence holds a value in every slot exactly when its count of that value is its length |
| SkeletalMesh.SwapKeepsPairs | Engine/Source/Experimental/Private/SkeletalMesh.cpp:2097-2098 | exchanging a weight and its bone together keeps the weights and the weight-bone pairs as multisets |
| SkeletalMesh.PackInfluences | Engine/Source/Experimental/Private/SkeletalMesh.cpp:2080-2103 | after reordering, exactly the first BonesUsed slots carry non-zero weights and every weight stays paired with its bone |
| SkeletalMesh.CountBonesUsed | Engine/Source/Experimental/Private/SkeletalMesh.cpp:2080-2087 | counts the non-zero weights |
| SkeletalMesh.FillSlot | Engine/Source/Experimental/Private/SkeletalMesh.cpp:2091-2102 | a zero slot below BonesUsed is filled by exchanging with a later non-zero slot, keeping all pairs |
| SkeletalMesh.ZeroTailOfFullCount | Engine/Source/Experimental/Private/SkeletalMesh.cpp:2089-2103 | when the first k weights are non-zero and the rest of the zero count is accounted for, every later weight is zero |
| SkeletalMesh.ZeroCountOfZeroTail | Engine/Source/Experimental/Private/SkeletalMesh.cpp:2089-2103 | weights non-zero before k and zero after have exactly length minus k zeroes |
| SkeletalMesh.NoZeroInPrefix | Engine/Source/Experimental/Private/SkeletalMesh.cpp:2089-2103 | a prefix of non-zero weights holds no zero |
| SkeletalMesh.MaxBonesUsed | Engine/Source/Experimental/Private/SkeletalMesh.cpp:2073-2106 | the maximum is at least 1 and bounds every vertex's bone count |
| SkeletalMesh.MaxBonesUsedAttained | Engine/Source/Experimental/Private/SkeletalMesh.cpp:2073-2106 | the maximum is 1 or attained by some vertex |
| SkeletalMesh.SkelMeshSection.CalcMaxBoneInfluences | Engine/Source/Experimental/Private/SkeletalMesh.cpp:2070-2108 | every vertex is packed from its old influences and the section's maximum is the largest bone count, at least 1 |
| SkeletalMesh.InsertCopy | Engine/Source/Experimental/Private/SkeletalMesh.cpp:1741-1742 | inserting n indices at the base keeps the indices before it and shifts the rest up by n |
| SkeletalMesh.RemoveRange | Engine/Source/Experimental/Private/SkeletalMesh.cpp:1757 | removing n indices at the base keeps the indices before it and shifts the rest down by n |
| SkeletalMesh.InsertThenRemove | Engine/Source/Experimental/Private/SkeletalMesh.cpp:1737-1766 | removing the inserted copy restores the index buffer |
| SkeletalMesh.StaticLodModel.VerticesBefore | Engine/Source/Experimental/Private/SkeletalMesh.cpp:1627-1642 | the vertex count of the earlier sections is non-negative |
| SkeletalMesh.StaticLodModel.GetTotalFaces | Engine/Source/Experimental/Private/SkeletalMesh.cpp:1610-1619 | the total is the sum of the sections' triangle counts |
| SkeletalMesh.StaticLodModel.GetSectionFromVertexIndex | Engine/Source/Experimental/Private/SkeletalMesh.cpp:1621-1646 | when some section's range reaches past the vertex, the first such section is reported, it contains a non-negative vertex index, and the index within it and the section's extra-influence flag are returned; when none does, the last section (0 when there are none) with index 0 and no extra influences |
| SkeletalMesh.StaticLodModel.SortTriangles | Engine/Source/Experimental/Private/SkeletalMesh.cpp:1728-1819 | switching to CustomLeftRight inserts a copy of the section's indices and moves later sections up; switching away removes it and moves them back; only that section's sorting changes |
| SkeletalMesh.StaticLodModel.ShiftLaterSections | Engine/Source/Experimental/Private/SkeletalMesh.cpp:1744-1751 | every section beyond the base moves by the delta and no other moves |
| SkeletalMesh.IndicesAfterSort | Engine/Source/Experimental/Private/SkeletalMesh.cpp:1737-1766 | the index buffer grows or shrinks by the copy delta |
| SkeletalMesh.InsertKeepsOtherSections | Engine/Source/Experimental/Private/SkeletalMesh.cpp:1741-1751 | another section's indices are found, unchanged, at its shifted base after an insert |
| SkeletalMesh.RemoveKeepsOtherSections | Engine/Source/Experimental/Private/SkeletalMesh.cpp:1757-1765 | another section's indices are found, unchanged, at its shifted base after a removal |
| SkeletalMesh.SkeletalMeshResource.constructor | Engine/Source/Experimental/Private/SkeletalMesh.cpp:2165-2189 | a new resource is not initialized and no LOD resource is live |
| SkeletalMesh.SkeletalMeshResource.InitResources | Engine/Source/Experimental/Private/SkeletalMesh.cpp:2165-2176 | initializing brings every LOD's resources up once; a second call changes nothing |
| SkeletalMesh.SkeletalMeshResource.ReleaseResources | Engine/Source/Experimental/Private/SkeletalMesh.cpp:2178-2189 | releasing takes every LOD's resources down once; a second call changes nothing |
| SkeletalMesh.Resized | Engine/Source/Experimental/Private/SkeletalMesh.cpp:2781-2789 | the per-section settings are cut or zero-extended to the section count, keeping the existing prefix |
| SkeletalMesh.SkeletalMeshAsset.PostLoad | Engine/Source/Experimental/Private/SkeletalMesh.cpp:2758-2789 | a missing or mis-sized LOD info array is rebuilt with hysteresis 0.02; each LOD's sort settings get one entry per section |
| IntPoints.IntPoint.Get | Engine/Source/Runtime/Core/Public/Math/YIntPoint.h:416-429 | index 0 reads X and every other index reads Y |
| IntPoints.IntPoint.Plus | Engine/Source/Runtime/Core/Public/Math/YIntPoint.h:368-374 | each coordinate is the sum, which must fit 32 bits |
| IntPoints.IntPoint.Minus | Engine/Source/Runtime/Core/Public/Math/YIntPoint.h:377-383 | each coordinate is the difference, which must fit 32 bits |
| IntPoints.IntPoint.Scale | Engine/Source/Runtime/Core/Public/Math/YIntPoint.h:350-356 | each coordinate is multiplied by the scale, the product fitting 32 bits |
| IntPoints.IntPoint.DivideBy | Engine/Source/Runtime/Core/Public/Math/YIntPoint.h:359-365 | each coordinate is divided by the non-zero divisor, truncating toward zero |
| IntPoints.IntPoint.DivideByPoint | Engine/Source/Runtime/Core/Public/Math/YIntPoint.h:386-392 | each coordinate is divided by the matching non-zero coordinate, truncating toward zero |
| IntPoints.IntPoint.ComponentMin | Engine/Source/Runtime/Core/Public/Math/YIntPoint.h:432-435 | each coordinate is the smaller of the two, and is one of them |
| IntPoints.IntPoint.ComponentMax | Engine/Source/Runtime/Core/Public/Math/YIntPoint.h:438-441 | each coordinate is the larger of the two, and is one of them |
| IntPoints.IntPoint.GetMax | Engine/Source/Runtime/Core/Public/Math/YIntPoint.h:477-480 | the larger coordinate |
| IntPoints.IntPoint.GetMin | Engine/Source/Runtime/Core/Public/Math/YIntPoint.h:483-486 | the smaller coordinate |
| IntPoints.IntPoint.SizeSquared | Engine/Source/Runtime/Core/Public/Math/YIntPoint.h:502-505 | the squared length is non-negative and zero exactly at the origin |
| IntPoints.IndexRebuilds | Engine/Source/Runtime/Core/Public/Math/YIntPoint.h:416-429 | indexing 0 and 1 rebuilds the point |
| IntPoints.PlusThenMinus | Engine/Source/Runtime/Core/Public/Math/YIntPoint.h:459-468 | adding then subtracting the same point gives the original |
| IntPoints.ScaleThenDivide | Engine/Source/Runtime/Core/Public/Math/YIntPoint.h:404-413 | dividing a scaled point by the same non-zero scale gives the original |
| IntPoints.MinPlusMaxIsSum | Engine/Source/Runtime/Core/Public/Math/YIntPoint.h:432-441 | per coordinate, the component minimum and maximum add up to the two coordinates |
| IntPoints.DivideAndRoundDown | Engine/Source/Runtime/Core/Public/Math/YIntPoint.h:453-456 | for non-negative coordinates and a positive divisor, each coordinate is its rounded-down quotient |
| IntPoints.IntPointStorage.constructor | Engine/Source/Runtime/Core/Public/Math/YIntPoint.h:308-311 | the point holds the two given coordinates |
| IntPoints.IntPointStorage.AddAssign | Engine/Source/Runtime/Core/Public/Math/YIntPoint.h:368-374 | the point becomes its sum with the other |
| IntPoints.IntPointStorage.SubtractAssign | Engine/Source/Runtime/Core/Public/Math/YIntPoint.h:377-383 | the point becomes its difference with the other |
| IntPoints.IntPointStorage.ScaleAssign | Engine/Source/Runtime/Core/Public/Math/YIntPoint.h:350-356 | the point becomes its scaled value |
| IntPoints.IntPointStorage.DivideAssign | Engine/Source/Runtime/Core/Public/Math/YIntPoint.h:359-365 | the point becomes its truncated quotient by the divisor |
| IntPoints.IntPointStorage.DivideAssignPoint | Engine/Source/Runtime/Core/Public/Math/YIntPoint.h:386-392 | the point becomes its component-wise truncated quotient |
| IntPoints.IntPointStorage.SetComponent | Engine/Source/Runtime/Core/Public/Math/YIntPoint.h:416-421 | writing through index 0 sets X and any other index sets Y; the other coordinate is unchanged |
| IntVectors.IntVector.Get | Engine/Source/Runtime/Core/Public/Math/IntVector.h:281-302 | component i is X, Y or Z for i = 0, 1, 2 |
| IntVectors.IntVector.Plus | Engine/Source/Runtime/Core/Public/Math/IntVector.h:336-342 | each component is the sum, which must fit 32 bits |
| IntVectors.IntVector.Minus | Engine/Source/Runtime/Core/Public/Math/IntVector.h:346-352 | each component is the difference, which must fit 32 bits |
| IntVectors.IntVector.Scale | Engine/Source/Runtime/Core/Public/Math/IntVector.h:316-322 | each component is multiplied by the scale |
| IntVectors.IntVector.DivideBy | Engine/Source/Runtime/Core/Public/Math/IntVector.h:326-332 | each component is divided by the non-zero divisor, truncating toward zero |
| IntVectors.IntVector.GetMax | Engine/Source/Runtime/Core/Public/Math/IntVector.h:395-398 | the largest component, bounding all three |
| IntVectors.IntVector.GetMin | Engine/Source/Runtime/Core/Public/Math/IntVector.h:401-404 | the smallest component, bounded by all three |
| IntVectors.IntVector.IsZero | Engine/Source/Runtime/Core/Public/Math/IntVector.h:421-424 | true exactly when every component is zero |
| IntVectors.Splat | Engine/Source/Runtime/Core/Public/Math/IntVector.h:267-271 | every component holds the value |
| IntVectors.PlusThenMinus | Engine/Source/Runtime/Core/Public/Math/IntVector.h:378-386 | adding then subtracting the same vector gives the original |
| IntVectors.ScaleThenDivide | Engine/Source/Runtime/Core/Public/Math/IntVector.h:366-375 | dividing a scaled vector by the same non-zero scale gives the original |
| IntVectors.SplatExtremes | Engine/Source/Runtime/Core/Public/Math/IntVector.h:267-271 | a splatted vector's maximum and minimum are the value |
| IntVectors.IntVectorStorage.constructor | Engine/Source/Runtime/Core/Public/Math/IntVector.h:260-264 | the vector holds the three given components |
| IntVectors.IntVectorStorage.AddAssign | Engine/Source/Runtime/Core/Public/Math/IntVector.h:336-342 | the vector becomes its sum with the other |
| IntVectors.IntVectorStorage.SubtractAssign | Engine/Source/Runtime/Core/Public/Math/IntVector.h:346-352 | the vector becomes its difference with the other |
| IntVectors.IntVectorStorage.ScaleAssign | Engine/Source/Runtime/Core/Public/Math/IntVector.h:316-322 | the vector becomes its scaled value |
| IntVectors.IntVectorStorage.DivideAssign | Engine/Source/Runtime/Core/Public/Math/IntVector.h:326-332 | the vector becomes its truncated quotient |
| IntVectors.IntVectorStorage.SetComponent | Engine/Source/Runtime/Core/Public/Math/IntVector.h:299-302 | writing component i sets it and leaves the others unchanged |
| LogSuppression.Classify | Engine/Source/Runtime/Core/Private/Logging/LogSuppressionInterface.cpp:217-298 | a token that names a level yields a level between Fatal and VeryVerbose |
| LogSuppression.LevelTokenSetsLevel | Engine/Source/Runtime/Core/Private/Logging/LogSuppressionInterface.cpp:228-266 | a level token replaces the level bits with its level and keeps every other bit |
| LogSuppression.OffAndNoneAreFatal | Engine/Source/Runtime/Core/Private/Logging/LogSuppressionInterface.cpp:228-237 | "None" and "Off", in any case, set the level to Fatal |
| LogSuppression.BreakFlipsOnlyBreakBit | Engine/Source/Runtime/Core/Private/Logging/LogSuppressionInterface.cpp:294-297 | "Break" flips the break bit alone, so applying it twice restores the value |
| LogSuppression.ToggleCategory | Engine/Source/Runtime/Core/Private/Logging/LogSuppressionInterface.cpp:188-207 | a category that is on is switched off keeping its break bit; one that is off takes the saved toggle level, or All when none is saved |
| LogSuppression.ToggleTwiceRestores | Engine/Source/Runtime/Core/Private/Logging/LogSuppressionInterface.cpp:188-207 | toggling off and then on with the level saved at switch-off restores the value |
| LogSuppression.MinLevel | Engine/Source/Runtime/Core/Private/Logging/LogSuppressionInterface.cpp:351-359 | the smaller level, which is one of the two |
| LogSuppression.MaxLevel | Engine/Source/Runtime/Core/Private/Logging/LogSuppressionInterface.cpp:355-359 | the larger level, which is one of the two |
| LogSuppression.LogCategory.SetVerbosity | Engine/Source/Runtime/Core/Private/Logging/LogSuppressionInterface.cpp:316 | the level becomes the new level capped at the compile-time level and the break flag follows the break bit; nothing else changes |
| LogSuppression.LogCategory.ResetFromDefault | Engine/Source/Runtime/Core/Private/Logging/LogSuppressionInterface.cpp:178 | the category returns to what its default value gives, and stays regular |
| LogSuppression.LogCategory.Value | Engine/Source/Runtime/Core/Private/Logging/LogSuppressionInterface.cpp:164 | the byte holds the level in its level bits and the break flag in its break bit |
| LogSuppression.LogCategory.FollowGlobal | Engine/Source/Runtime/Core/Private/Logging/LogSuppressionInterface.cpp:346-370 | the level follows the global level and the break flag takes the global one only when forced |
| LogSuppression.ValueThenSetVerbosity | Engine/Source/Runtime/Core/Private/Logging/LogSuppressionInterface.cpp:164-316 | setting a regular category to its own value changes nothing |
| LogSuppression.SetVerbosityThenValue | Engine/Source/Runtime/Core/Private/Logging/LogSuppressionInterface.cpp:164-316 | a value within the compile-time level reads back unchanged after it is set |
| LogSuppression.ResetIsIdempotent | Engine/Source/Runtime/Core/Private/Logging/LogSuppressionInterface.cpp:178 | resetting twice is resetting once |
| LogSuppression.BootOverride | Engine/Source/Runtime/Core/Private/Logging/LogSuppressionInterface.cpp:141-156 | the category's own boot value when it has one; otherwise the BootGlobal value when there is one; otherwise none |
| LogSuppression.LastIndexNamed | Engine/Source/Runtime/Core/Private/Logging/LogSuppressionInterface.cpp:160-166 | the last category with the name, after which no category has it; -1 exactly when no category has it |
| LogSuppression.FirstIndexNamed | Engine/Source/Runtime/Core/Private/Logging/LogSuppressionInterface.cpp:270-272 | the first category with the name, before which none has it, or -1 |
| LogSuppression.IndexOfId | Engine/Source/Runtime/Core/Private/Logging/LogSuppressionInterface.cpp:442-445 | the position of the category with that identity, or -1 when there is none |
| LogSuppression.RecordLevelsUnderOwnNames | Engine/Source/Runtime/Core/Private/Logging/LogSuppressionInterface.cpp:360-365 | after the global pass each category that is on has its level saved under its own name |
| LogSuppression.RecordLevelsUnderOneKey | Engine/Source/Runtime/Core/Private/Logging/LogSuppressionInterface.cpp:181-185 | the reset pass saves levels under one key only and leaves every other toggle entry alone |
| LogSuppression.GlobalAdjusted | Engine/Source/Runtime/Core/Private/Logging/LogSuppressionInterface.cpp:346-359 | a level within the compile-time level stays within it after following the global level |
| LogSuppression.GlobalAdjustedFixesGlobal | Engine/Source/Runtime/Core/Private/Logging/LogSuppressionInterface.cpp:346-359 | the global category keeps its own level when it follows itself |
| LogSuppression.LoweringCapsEveryCategory | Engine/Source/Runtime/Core/Private/Logging/LogSuppressionInterface.cpp:351-354 | lowering the global level caps every category at the global level |
| LogSuppression.RaisingLiftsEveryCategory | Engine/Source/Runtime/Core/Private/Logging/LogSuppressionInterface.cpp:355-359 | raising the global level never lowers a category and lifts it to the global level when the compile-time level allows |
| LogSuppression.WithoutIdMembers | Engine/Source/Runtime/Core/Private/Logging/LogSuppressionInterface.cpp:442-450 | exactly the categories whose identity differs are kept |
| LogSuppression.WithoutIdKeepsDistinct | Engine/Source/Runtime/Core/Private/Logging/LogSuppressionInterface.cpp:442-450 | removing a category keeps the identities distinct |
| LogSuppression.WithoutIdWellFormed | Engine/Source/Runtime/Core/Private/Logging/LogSuppressionInterface.cpp:442-450 | removing any category but the global proxy keeps the table well formed, and the removed address is no longer found |
| LogSuppression.WithoutAbsentId | Engine/Source/Runtime/Core/Private/Logging/LogSuppressionInterface.cpp:444-445 | removing an unregistered category changes nothing |
| LogSuppression.WithToggle | Engine/Source/Runtime/Core/Private/Logging/LogSuppressionInterface.cpp:325-329 | a value that is on saves its level under the name and no other entry changes; a value that is off changes nothing |
| LogSuppression.GlobalChanges | Engine/Source/Runtime/Core/Private/Logging/LogSuppressionInterface.cpp:334-373 | the global pass keeps the registry well formed, leaves the global category and the boot values unchanged and touches only levels and break flags |
| LogSuppression.Stored | Engine/Source/Runtime/Core/Private/Logging/LogSuppressionInterface.cpp:300-330 | at boot only the boot value is stored; otherwise categories change but boot values do not |
| LogSuppression.Store | Engine/Source/Runtime/Core/Private/Logging/LogSuppressionInterface.cpp:300-330 | storing keeps the registry well formed and every category's identity; at boot no category changes, otherwise no boot value changes |
| LogSuppression.ResetState | Engine/Source/Runtime/Core/Private/Logging/LogSuppressionInterface.cpp:173-187 | every category is back at its default and nothing else but the toggles changes |
| LogSuppression.SubCommand | Engine/Source/Runtime/Core/Private/Logging/LogSuppressionInterface.cpp:120-331 | a sub-command keeps the registry well formed and every category's identity; at boot it changes no category, otherwise no boot value |
| LogSuppression.CmdString | Engine/Source/Runtime/Core/Private/Logging/LogSuppressionInterface.cpp:106-332 | a whole command string keeps the registry well formed; at boot it changes no category, otherwise no boot value |
| LogSuppression.NameOf | Engine/Source/Runtime/Core/Private/Logging/LogSuppressionInterface.cpp:130 | the name a text stands for has the text's length and is the text itself when that has no capitals, so names compare ignoring case |
| LogSuppression.CategoryOfName | Engine/Source/Runtime/Core/Private/Logging/LogSuppressionInterface.cpp:130-135 | a first word that is already a name addresses that name, except "global" at boot, which addresses BootGlobal |
| LogSuppression.SameClassSameEffect | Engine/Source/Runtime/Core/Private/Logging/LogSuppressionInterface.cpp:228-297 | two tokens equal ignoring case change a value alike |
| LogSuppression.ApplyTokensIgnoreCase | Engine/Source/Runtime/Core/Private/Logging/LogSuppressionInterface.cpp:215-298 | token lists equal word by word ignoring case change a value alike |
| LogSuppression.CommandValueIgnoresCase | Engine/Source/Runtime/Core/Private/Logging/LogSuppressionInterface.cpp:130-298 | sub-commands equal word by word ignoring case address the same category and compute the same value |
| LogSuppression.CommandsIgnoreCase | Engine/Source/Runtime/Core/Private/Logging/LogSuppressionInterface.cpp:120-331 | sub-commands equal word by word ignoring case have the same effect on the whole state |
| LogSuppression.ResetStoresUnderResetKey | Engine/Source/Runtime/Core/Private/Logging/LogSuppressionInterface.cpp:173-187 | as written, the one-word "Reset" sends every category back to its default, keeps the boot values, and stores levels under the key "reset" only: every other toggle entry is kept |
| LogSuppression.ExampleAfterReset | Engine/Source/Runtime/Core/Private/Logging/LogSuppressionInterface.cpp:173-187 | in the example, the reset as written leaves LogFoo at its default Log while VeryVerbose stays stored under LogFoo's own name |
| LogSuppression.IntendedResetFindsOwnLevel | Engine/Source/Runtime/Core/Private/Logging/LogSuppressionInterface.cpp:173-187 | after the corrected reset, a category whose name is unique is the one its name finds and its own level is stored under its name |
| LogSuppression.IntendedResetTogglesBack | Engine/Source/Runtime/Core/Private/Logging/LogSuppressionInterface.cpp:173-207 | in the example, with the corrected reset, toggling LogFoo off and on brings it back at Log |
| LogSuppression.BootGlobalClearsBootValues | Engine/Source/Runtime/Core/Private/Logging/LogSuppressionInterface.cpp:304-308 | setting the global level at boot forgets every earlier boot value and stores BootGlobal alone |
| LogSuppression.LevelCommandValue | Engine/Source/Runtime/Core/Private/Logging/LogSuppressionInterface.cpp:215-298 | a command with a level token yields that level |
| LogSuppression.LevelCommandSetsNamedCategories | Engine/Source/Runtime/Core/Private/Logging/LogSuppressionInterface.cpp:313-317 | a level command gives every category of that name the level, capped at its compile-time level |
| LogSuppression.GlobalOffSilencesEveryCategory | Engine/Source/Runtime/Core/Private/Logging/LogSuppressionInterface.cpp:318-322 | "log global off" leaves no category above Fatal |
| LogSuppression.GlobalLoweredToFatal | Engine/Source/Runtime/Core/Private/Logging/LogSuppressionInterface.cpp:349-354 | the global pass after lowering the global level to Fatal leaves every category at Fatal or below |
| LogSuppression.ToggleOffStep | Engine/Source/Runtime/Core/Private/Logging/LogSuppressionInterface.cpp:188-194 | toggling a category that is on switches every category of that name off and saves the old level |
| LogSuppression.ToggleOnStep | Engine/Source/Runtime/Core/Private/Logging/LogSuppressionInterface.cpp:195-207 | toggling a category that is off restores every category of that name to the saved level |
| LogSuppression.ToggleOffAndOnRestores | Engine/Source/Runtime/Core/Private/Logging/LogSuppressionInterface.cpp:188-207 | toggling a category twice restores the whole state |
| LogSuppression.SetOffThenOnRestores | Engine/Source/Runtime/Core/Private/Logging/LogSuppressionInterface.cpp:313-317 | switching the named categories off and back on at their common level restores them |
| LogSuppression.ResetStoresOwnLevels | Engine/Source/Runtime/Core/Private/Logging/LogSuppressionInterface.cpp:173-187 | the corrected reset saves each category's default level under the category's own name |
| LogSuppression.ResetThenToggleRestores | Engine/Source/Runtime/Core/Private/Logging/LogSuppressionInterface.cpp:173-207 | with the corrected reset, toggling a category of unique name off and on again gives back exactly the reset state |
| LogSuppression.ResetTogglesUnderResetKey | Engine/Source/Runtime/Core/Private/Logging/LogSuppressionInterface.cpp:173-207 | as written, LogFoo raised to VeryVerbose and reset to its default Log comes back at VeryVerbose when toggled off and on |
| LogSuppression.LogSuppressionSystem.GlobalVerbosity | Engine/Source/Runtime/Core/Private/Logging/LogSuppressionInterface.cpp:42 | the registered global category is regular and named Global |
| LogSuppression.LogSuppressionSystem.constructor | Engine/Source/Runtime/Core/Private/Logging/LogSuppressionInterface.cpp:42-57 | the registry holds the global category alone, with no boot values and the global level saved for toggling |
| LogSuppression.LogSuppressionSystem.SetupSuppress | Engine/Source/Runtime/Core/Private/Logging/LogSuppressionInterface.cpp:379-406 | a boot value, or else the BootGlobal value, becomes the category's default and resets it; a level that is on is saved for toggling |
| LogSuppression.LogSuppressionSystem.CopyFromNamed | Engine/Source/Runtime/Core/Private/Logging/LogSuppressionInterface.cpp:417-433 | a category registered under the same name passes on its level, break flag and default, the last such one winning |
| LogSuppression.LogSuppressionSystem.AssociateSuppress | Engine/Source/Runtime/Core/Private/Logging/LogSuppressionInterface.cpp:410-441 | the category is appended; with a registered namesake it copies the last one's level, break flag and default and the toggle values are kept; otherwise it is set up from its boot value (or BootGlobal's) and a nonzero level is saved under its name for toggling |
| LogSuppression.LogSuppressionSystem.DisassociateSuppress | Engine/Source/Runtime/Core/Private/Logging/LogSuppressionInterface.cpp:442-450 | the category is removed and nothing else is |
| LogSuppression.LogSuppressionSystem.ApplyGlobalChanges | Engine/Source/Runtime/Core/Private/Logging/LogSuppressionInterface.cpp:334-373 | the state becomes the global pass of the old state |
| LogSuppression.LogSuppressionSystem.ResetAll | Engine/Source/Runtime/Core/Private/Logging/LogSuppressionInterface.cpp:173-187 | the state becomes the reset of the old state |
| LogSuppression.LogSuppressionSystem.StoreValue | Engine/Source/Runtime/Core/Private/Logging/LogSuppressionInterface.cpp:300-330 | the state becomes Store of the old state, so the registry stays well formed and the at-boot and run-time frames of Store hold |
| LogSuppression.LogSuppressionSystem.StoreAtBoot | Engine/Source/Runtime/Core/Private/Logging/LogSuppressionInterface.cpp:302-309 | the boot values gain the value, BootGlobal first clearing them |
| LogSuppression.LogSuppressionSystem.SetNamed | Engine/Source/Runtime/Core/Private/Logging/LogSuppressionInterface.cpp:313-322 | the state becomes Stored of the old state at run time: every category of the name takes the value and all follow the global level when it was the global proxy |
| LogSuppression.LogSuppressionSystem.ProcessSubCommand | Engine/Source/Runtime/Core/Private/Logging/LogSuppressionInterface.cpp:120-331 | the state becomes SubCommand of the old state, the as-written reset included |
| LogSuppression.LogSuppressionSystem.ComputeValue | Engine/Source/Runtime/Core/Private/Logging/LogSuppressionInterface.cpp:139-298 | the value is CommandValue of the registry, boot values and toggle values: at boot the category's or BootGlobal's boot value, otherwise the last category of the name, toggled for a one-word command or changed by each token |
| LogSuppression.LogSuppressionSystem.ProcessCmdString | Engine/Source/Runtime/Core/Private/Logging/LogSuppressionInterface.cpp:106-332 | the state becomes CmdString of the old state: the sub-commands applied in order |
| LogSuppression.FollowGlobalAll | Engine/Source/Runtime/Core/Private/Logging/LogSuppressionInterface.cpp:344-371 | every category follows the global level and each level that is on is saved under its name |
| LogSuppression.ResetCategories | Engine/Source/Runtime/Core/Private/Logging/LogSuppressionInterface.cpp:175-186 | every category is reset and each level that is on is saved under the key |
| LogSuppression.SetNamedAll | Engine/Source/Runtime/Core/Private/Logging/LogSuppressionInterface.cpp:313-317 | exactly the categories of that name take the value |
| LogSuppression.ReadNamed | Engine/Source/Runtime/Core/Private/Logging/LogSuppressionInterface.cpp:160-166 | the value of the last category of the name and the position of the first |
| LogSuppression.ApplyTokensLoop | Engine/Source/Runtime/Core/Private/Logging/LogSuppressionInterface.cpp:215-298 | the value is the tokens applied one after another |
| TextLocalization.NextRevision | Engine/Source/Runtime/Core/Private/Internationalization/TextLocalizationManager.cpp:843 | the incremented revision is never zero and never the old one, and is one more unless it wrapped |
| TextLocalization.IncrementSkippingZero | Engine/Source/Runtime/Core/Private/Internationalization/TextLocalizationManager.cpp:843 | the loop that skips zero yields the next revision |
| TextLocalization.AdvanceCycles | Engine/Source/Runtime/Core/Private/Internationalization/TextLocalizationManager.cpp:843 | from a nonzero value the revision runs through 1 to 65535 in a cycle |
| TextLocalization.RevisionDistinguishesChanges | Engine/Source/Runtime/Core/Private/Internationalization/TextLocalizationManager.cpp:838-856 | fewer than 65535 changes always leave a revision different from the old one and nonzero |
| TextLocalization.LoadKeysAppends | Engine/Source/Runtime/Core/Private/Internationalization/TextLocalizationManager.cpp:185-206 | loading one namespace appends exactly its entries for each key, in file order |
| TextLocalization.LoadResourceAppends | Engine/Source/Runtime/Core/Private/Internationalization/TextLocalizationManager.cpp:172-208 | loading a resource appends exactly its entries for each key, and adds only keys it holds |
| TextLocalization.LoadKeepsArraysNonEmpty | Engine/Source/Runtime/Core/Private/Internationalization/TextLocalizationManager.cpp:172-208 | loading never leaves a key with an empty entry array |
| TextLocalization.ConflictFlagAsWritten | Engine/Source/Runtime/Core/Private/Internationalization/TextLocalizationManager.cpp:221-233 | the flag as written reports only whether the last two entries differ |
| TextLocalization.ConflictFlag | Engine/Source/Runtime/Core/Private/Internationalization/TextLocalizationManager.cpp:221-233 | the corrected flag reports whether any two entries differ |
| TextLocalization.LastPairDiffersIsConflict | Engine/Source/Runtime/Core/Private/Internationalization/TextLocalizationManager.cpp:221-233 | the flag as written never reports a conflict that is not there |
| TextLocalization.AsWrittenMissesConflict | Engine/Source/Runtime/Core/Private/Internationalization/TextLocalizationManager.cpp:221-233 | entries a, b, b with a differing from b are a conflict the flag as written misses |
| TextLocalization.LocalizationEntryTracker.constructor | Engine/Source/Runtime/Core/Private/Internationalization/TextLocalizationManager.cpp:143 | a new tracker holds no entries |
| TextLocalization.LocalizationEntryTracker.LoadFromLocalizationResource | Engine/Source/Runtime/Core/Private/Internationalization/TextLocalizationManager.cpp:172-208 | the tables become the old tables with the resource loaded |
| TextLocalization.LocalizationEntryTracker.DetectConflicts | Engine/Source/Runtime/Core/Private/Internationalization/TextLocalizationManager.cpp:210-253 | as written, exactly the keys whose last two entries differ are reported, and every key reported does have conflicting entries |
| TextLocalization.FindDisplayString | Engine/Source/Runtime/Core/Private/Internationalization/TextLocalizationManager.cpp:284-299 | a display string is found exactly when the key is live and, when a source is given, its hash matches |
| TextLocalization.GetLocResID | Engine/Source/Runtime/Core/Private/Internationalization/TextLocalizationManager.cpp:421-436 | a resource name is returned exactly when the live entry has a non-empty one |
| TextLocalization.FindNamespaceAndKey | Engine/Source/Runtime/Core/Private/Internationalization/TextLocalizationManager.cpp:438-451 | the reverse lookup succeeds exactly for registered display strings |
| TextLocalization.LookupsInvert | Engine/Source/Runtime/Core/Private/Internationalization/TextLocalizationManager.cpp:284-299 | in consistent tables the key finds the display string exactly when the display string finds the key |
| TextLocalization.GetLocalRevision | Engine/Source/Runtime/Core/Private/Internationalization/TextLocalizationManager.cpp:453-459 | the stored local revision, or zero when none is stored |
| TextLocalization.DirtyLocal | Engine/Source/Runtime/Core/Private/Internationalization/TextLocalizationManager.cpp:838-849 | the display string's local revision changes to a nonzero value, starting at 1, and no other revision changes |
| TextLocalization.DirtyText | Engine/Source/Runtime/Core/Private/Internationalization/TextLocalizationManager.cpp:851-856 | the text revision changes to a nonzero value and every local revision is forgotten |
| TextLocalization.AddKeepsConsistent | Engine/Source/Runtime/Core/Private/Internationalization/TextLocalizationManager.cpp:461-484 | a successful add keeps the tables consistent and each lookup finds the other |
| TextLocalization.AddAgainSucceeds | Engine/Source/Runtime/Core/Private/Internationalization/TextLocalizationManager.cpp:461-484 | adding the same association again is never refused |
| TextLocalization.UpdateKeepsConsistent | Engine/Source/Runtime/Core/Private/Internationalization/TextLocalizationManager.cpp:486-535 | a successful update moves the display string to the new key, keeps the tables consistent and sets its value |
| TextLocalization.GetKeepsConsistent | Engine/Source/Runtime/Core/Private/Internationalization/TextLocalizationManager.cpp:301-419 | getting a display string keeps the tables consistent and registers the returned one under the key |
| TextLocalization.GetPresentKeepsConsistent | Engine/Source/Runtime/Core/Private/Internationalization/TextLocalizationManager.cpp:330-359 | for a live key the existing display string is returned, overridden only when a different source hash is given |
| TextLocalization.GetAbsentKeepsConsistent | Engine/Source/Runtime/Core/Private/Internationalization/TextLocalizationManager.cpp:361-419 | for an absent key a new unlocalized display string is registered and returned |
| TextLocalization.EarlyLookupHoldsErrorMessage | Engine/Source/Runtime/Core/Private/Internationalization/TextLocalizationManager.cpp:387-393 | before initialization an unknown key without a source yields the error message text |
| TextLocalization.FirstTracker | Engine/Source/Runtime/Core/Private/Internationalization/TextLocalizationManager.cpp:764-774 | the first tracker in priority order that has an entry for the key, none before it having one |
| TextLocalization.FirstTrackerWins | Engine/Source/Runtime/Core/Private/Internationalization/TextLocalizationManager.cpp:764-774 | the first entry of the first tracker with the key is taken, whatever later trackers hold |
| TextLocalization.NoTrackerNoSource | Engine/Source/Runtime/Core/Private/Internationalization/TextLocalizationManager.cpp:764-774 | without any tracker entry for the key nothing is taken |
| TextLocalization.RefreshAppliesOnHashMatch | Engine/Source/Runtime/Core/Private/Internationalization/TextLocalizationManager.cpp:776-799 | a live entry becomes localized exactly when the winning entry's source hash matches and then takes its localized string; otherwise its string is kept, except that an unlocalized entry still holding the early-lookup error message (compared ignoring case) is cleared |
| TextLocalization.RefreshKeepsConsistent | Engine/Source/Runtime/Core/Private/Internationalization/TextLocalizationManager.cpp:752-801 | refreshing keeps the tables consistent and the same live keys |
| TextLocalization.RefreshEntryStep | Engine/Source/Runtime/Core/Private/Internationalization/TextLocalizationManager.cpp:756-800 | one refreshed entry extends the refreshed part of the table |
| TextLocalization.RefreshStringStep | Engine/Source/Runtime/Core/Private/Internationalization/TextLocalizationManager.cpp:776-799 | one refreshed display string extends the refreshed part of the strings |
| TextLocalization.RefreshedAll | Engine/Source/Runtime/Core/Private/Internationalization/TextLocalizationManager.cpp:752-801 | once every entry is refreshed the state is the refreshed state |
| TextLocalization.RefreshOne | Engine/Source/Runtime/Core/Private/Internationalization/TextLocalizationManager.cpp:756-800 | one iteration refreshes one more live entry |
| TextLocalization.RefreshEntries | Engine/Source/Runtime/Core/Private/Internationalization/TextLocalizationManager.cpp:752-801 | the first loop yields every live entry refreshed from the trackers |
| TextLocalization.TrackerKeyHasSource | Engine/Source/Runtime/Core/Private/Internationalization/TextLocalizationManager.cpp:804-814 | every key a loaded tracker holds has an entry to take |
| TextLocalization.KeepsExistingStep | Engine/Source/Runtime/Core/Private/Internationalization/TextLocalizationManager.cpp:816-830 | adding a new entry keeps every existing live entry and display string |
| TextLocalization.NewEntriesStep | Engine/Source/Runtime/Core/Private/Internationalization/TextLocalizationManager.cpp:819-830 | an added entry is localized from the winning tracker entry |
| TextLocalization.AddEntryStep | Engine/Source/Runtime/Core/Private/Internationalization/TextLocalizationManager.cpp:819-830 | one added key keeps the extension invariant |
| TextLocalization.AddEntry | Engine/Source/Runtime/Core/Private/Internationalization/TextLocalizationManager.cpp:816-830 | one iteration adds exactly the key, localized from the winning entry |
| TextLocalization.AddNewEntries | Engine/Source/Runtime/Core/Private/Internationalization/TextLocalizationManager.cpp:803-833 | the second loop adds exactly the keys the trackers hold that were not live, each localized from the winning entry |
| TextLocalization.AddFreshKeepsConsistent | Engine/Source/Runtime/Core/Private/Internationalization/TextLocalizationManager.cpp:821-829 | registering a new display string under an unused key keeps the tables consistent |
| TextLocalization.TextLocalizationManager.constructor | Engine/Source/Runtime/Core/Private/Internationalization/TextLocalizationManager.cpp:273-282 | the tables start empty and not initialized |
| TextLocalization.TextLocalizationManager.EndInitialization | Engine/Source/Runtime/Core/Private/Internationalization/TextLocalizationManager.cpp:140 | the manager becomes initialized and nothing else changes |
| TextLocalization.TextLocalizationManager.DirtyLocalRevisionForDisplayString | Engine/Source/Runtime/Core/Private/Internationalization/TextLocalizationManager.cpp:838-849 | the state becomes the old state with the display string's local revision dirtied |
| TextLocalization.TextLocalizationManager.DirtyTextRevision | Engine/Source/Runtime/Core/Private/Internationalization/TextLocalizationManager.cpp:851-856 | the state becomes the old state with the text revision dirtied |
| TextLocalization.TextLocalizationManager.GetDisplayString | Engine/Source/Runtime/Core/Private/Internationalization/TextLocalizationManager.cpp:301-419 | the state and the returned display string are those the lookup gives, and the tables stay consistent |
| TextLocalization.TextLocalizationManager.AddDisplayString | Engine/Source/Runtime/Core/Private/Internationalization/TextLocalizationManager.cpp:461-484 | the add succeeds exactly when it conflicts with nothing; on success the association is added, otherwise nothing changes |
| TextLocalization.TextLocalizationManager.UpdateDisplayString | Engine/Source/Runtime/Core/Private/Internationalization/TextLocalizationManager.cpp:486-535 | the update succeeds exactly when the new key is free; on success the entry moves, otherwise nothing changes |
| TextLocalization.TextLocalizationManager.UpdateFromLocalizations | Engine/Source/Runtime/Core/Private/Internationalization/TextLocalizationManager.cpp:749-836 | live entries are refreshed as RefreshAppliesOnHashMatch states, every tracker key becomes live, existing display strings are kept, the text revision moves on and bIsInitialized is unchanged |
| PlatformMisc.ConfigurationFromString | Engine/Source/Runtime/Core/Private/GenericPlatform/GenericPlatformMisc.cpp:50-74 | a recognised name is exactly the name of the configuration returned |
| PlatformMisc.ConfigurationRoundTrip | Engine/Source/Runtime/Core/Private/GenericPlatform/GenericPlatformMisc.cpp:50-98 | every configuration, Unknown included, reads back from its name |
| PlatformMisc.ConfigurationNamesDistinct | Engine/Source/Runtime/Core/Private/GenericPlatform/GenericPlatformMisc.cpp:76-98 | ToString gives distinct configurations distinct names |
| PlatformMisc.UnknownConfigurationNames | Engine/Source/Runtime/Core/Private/GenericPlatform/GenericPlatformMisc.cpp:50-74 | a string reads as Unknown exactly when it is none of the five names |
| PlatformMisc.ConfigurationToText | Engine/Source/Runtime/Core/Private/GenericPlatform/GenericPlatformMisc.cpp:100-122 | the text lives in the UnrealBuildConfigurations namespace, shows the configuration's name and is keyed by the name followed by "Name" |
| PlatformMisc.ConfigurationTextKeysDistinct | Engine/Source/Runtime/Core/Private/GenericPlatform/GenericPlatformMisc.cpp:100-122 | distinct configurations have distinct text keys |
| PlatformMisc.TargetFromString | Engine/Source/Runtime/Core/Private/GenericPlatform/GenericPlatformMisc.cpp:131-147 | a recognised name is exactly the name of the target returned |
| PlatformMisc.TargetRoundTrip | Engine/Source/Runtime/Core/Private/GenericPlatform/GenericPlatformMisc.cpp:131-165 | every target, Unknown included, reads back from its name |
| PlatformMisc.TargetNamesDistinct | Engine/Source/Runtime/Core/Private/GenericPlatform/GenericPlatformMisc.cpp:149-165 | ToString gives distinct targets distinct names |
| PlatformMisc.UnknownTargetNames | Engine/Source/Runtime/Core/Private/GenericPlatform/GenericPlatformMisc.cpp:131-147 | a string reads as Unknown exactly when it is none of the three names |
| PlatformMisc.StandardKeys | Engine/Source/Runtime/Core/Private/GenericPlatform/GenericPlatformMisc.cpp:804-904 | 37 fixed mappings plus 26 for each letter case that is mapped |
| PlatformMisc.FixedBlocksHaveNoLetters | Engine/Source/Runtime/Core/Private/GenericPlatform/GenericPlatformMisc.cpp:804-813 | the digit, punctuation and AZERTY mappings use no letter code |
| PlatformMisc.UppercaseBlockFollowsFlag | Engine/Source/Runtime/Core/Private/GenericPlatform/GenericPlatformMisc.cpp:816-844 | an upper-case letter is offered, named by itself, exactly when upper-case keys are mapped |
| PlatformMisc.LowercaseBlockFollowsFlag | Engine/Source/Runtime/Core/Private/GenericPlatform/GenericPlatformMisc.cpp:846-874 | a lower-case letter is offered, named by its upper-case letter, exactly when lower-case keys are mapped |
| PlatformMisc.AddKeyMap | Engine/Source/Runtime/Core/Private/GenericPlatform/GenericPlatformMisc.cpp:802 | while there is room the mapping is written at the next slot and the count grows by one; otherwise nothing changes |
| PlatformMisc.GetStandardPrintableKeyMap | Engine/Source/Runtime/Core/Private/GenericPlatform/GenericPlatformMisc.cpp:798-907 | the first MaxMappings standard mappings are written in order, later slots are untouched and the count written is returned |
| SolidAngleMath.BitFlag | Engine/Source/Runtime/Core/Private/Math/SolidAngleMath.cpp:35-45 | the table has 32 entries |
| SolidAngleMath.BitFlagDoubles | Engine/Source/Runtime/Core/Private/Math/SolidAngleMath.cpp:35-45 | each entry is twice the one before it |
| SolidAngleMath.BitFlagIsPowerOfTwo | Engine/Source/Runtime/Core/Private/Math/SolidAngleMath.cpp:35-45 | entry i is 2 to the power i |
| SolidAngleMath.IntText | Engine/Source/Runtime/Core/Private/Math/SolidAngleMath.cpp:2745 | the "%i" text is never empty and is all digits for a non-negative value |
| SolidAngleMath.StripCommasAppend | Engine/Source/Runtime/Core/Private/Math/SolidAngleMath.cpp:2743-2764 | dropping commas distributes over concatenation |
| SolidAngleMath.StripCommasNoComma | Engine/Source/Runtime/Core/Private/Math/SolidAngleMath.cpp:2743-2764 | text without commas is unchanged by dropping them |
| SolidAngleMath.InsertCommas | Engine/Source/Runtime/Core/Private/Math/SolidAngleMath.cpp:2748-2758 | inserting k commas into text of at least 3k characters adds exactly k characters |
| SolidAngleMath.InsertCommasStrips | Engine/Source/Runtime/Core/Private/Math/SolidAngleMath.cpp:2743-2764 | inserting commas into comma-free text and dropping them again gives the text back |
| SolidAngleMath.InsertCommasGrouped | Engine/Source/Runtime/Core/Private/Math/SolidAngleMath.cpp:2743-2764 | digits with commas before their last k triples are well grouped exactly when one to three digits lead |
| SolidAngleMath.Pow10 | Engine/Source/Runtime/Core/Private/Math/SolidAngleMath.cpp:2748-2758 | a power of ten is at least 1 |
| SolidAngleMath.DecimalTextLength | Engine/Source/Runtime/Core/Private/Math/SolidAngleMath.cpp:2748-2758 | the decimal text of n is longer than k digits exactly when n is at least 10 to the k |
| SolidAngleMath.CommaGroupsAsWritten | Engine/Source/Runtime/Core/Private/Math/SolidAngleMath.cpp:2748-2758 | at most two commas, and none exactly when the value is at most 999 |
| SolidAngleMath.InsertCommasUnfold | Engine/Source/Runtime/Core/Private/Math/SolidAngleMath.cpp:2750-2757 | one comma sits before the last three characters, two before the last three and the three before them |
| SolidAngleMath.FormatIntToHumanReadable | Engine/Source/Runtime/Core/Private/Math/SolidAngleMath.cpp:2743-2764 | the result is the "%i" text with the engine's commas inserted, and dropping the commas gives the "%i" text |
| SolidAngleMath.CommaPositionsAsWritten | Engine/Source/Runtime/Core/Private/Math/SolidAngleMath.cpp:2748-2758 | the engine's commas sit before the last three digits above 999 and also before the three before them above 999999 |
| SolidAngleMath.AsWrittenLeavesBillionsUngrouped | Engine/Source/Runtime/Core/Private/Math/SolidAngleMath.cpp:2743-2764 | from one billion up the engine's result is not well grouped |
| SolidAngleMath.HumanReadable | Engine/Source/Runtime/Core/Private/Math/SolidAngleMath.cpp:2743-2764 | the corrected result drops to the "%i" text, is well grouped above 999 and is the plain text otherwise |
| SolidAngleMath.HumanReadableAgreesBelowBillion | Engine/Source/Runtime/Core/Private/Math/SolidAngleMath.cpp:2743-2764 | below one billion the engine's result is the corrected one |
| SolidAngleMath.Occurrences | Engine/Source/Runtime/Core/Private/Math/SolidAngleMath.cpp:3096-3107 | a character occurs at most as many times as the text is long |
| SolidAngleMath.BracketBalance | Engine/Source/Runtime/Core/Private/Math/SolidAngleMath.cpp:3096-3107 | the balance is the count of '(' minus the count of ')' |
| SolidAngleMath.Eval | Engine/Source/Runtime/Core/Private/Math/SolidAngleMath.cpp:3091-3125 | success exactly when the brackets match and the evaluator succeeds; mismatched brackets yield no value, success yields the evaluator's value |
| SolidAngleMath.LeadingBlanks | Engine/Source/Runtime/Core/Private/Math/SolidAngleMath.cpp:2849-2854 | the count of leading blanks: every character before it is a blank and the one at it is not |
| SolidAngleMath.DropFirst | Engine/Source/Runtime/Core/Private/Math/SolidAngleMath.cpp:2853 | the text without its first character, an empty text staying empty |
| SolidAngleMath.GrabChar | Engine/Source/Runtime/Core/Private/Math/SolidAngleMath.cpp:2845-2862 | the grabbed character and the remaining text are those the specification gives |
| SolidAngleMath.GrabbedNeverBlank | Engine/Source/Runtime/Core/Private/Math/SolidAngleMath.cpp:2845-2862 | the grabbed character is never a blank, is empty exactly when the text is all blanks, and is at most one character |
| SolidAngleMath.GrabKeepsNonBlanks | Engine/Source/Runtime/Core/Private/Math/SolidAngleMath.cpp:2845-2862 | grabbing loses only the leading blanks: the grabbed character followed by the rest is the text after them |
| EdgeBuilder.Filled | Engine/Source/Experimental/Public/YMeshUtilitiesWrap.h:101-108 | the number of edges with a second face is at most the number of edges |
| EdgeBuilder.FilledAppend | Engine/Source/Experimental/Public/YMeshUtilitiesWrap.h:97-101 | appending an edge whose second face is free leaves the count alone |
| EdgeBuilder.FilledFill | Engine/Source/Experimental/Public/YMeshUtilitiesWrap.h:106-109 | filling one free second face adds one to the count |
| EdgeBuilder.MultiFind | Engine/Source/Experimental/Public/YMeshUtilitiesWrap.h:66 | a position that is no key has an empty list |
| EdgeBuilder.YEdgeBuilder.constructor | Engine/Source/Experimental/Public/YMeshUtilitiesWrap.h:116-124 | the builder keeps the indices and vertices and starts with no edges |
| EdgeBuilder.YEdgeBuilder.FindOppositeEdge | Engine/Source/Experimental/Public/YMeshUtilitiesWrap.h:61-80 | an edge is found exactly when some edge ends where the first index sits, starts where the second sits and has a free second face; one found is such an edge |
| EdgeBuilder.YEdgeBuilder.AppendEdge | Engine/Source/Experimental/Public/YMeshUtilitiesWrap.h:96-104 | a new edge from the first index to the second, with the triangle as first face and no second face, is appended and listed |
| EdgeBuilder.YEdgeBuilder.FillFace | Engine/Source/Experimental/Public/YMeshUtilitiesWrap.h:108 | the opposite edge's second face becomes the triangle and nothing else changes |
| EdgeBuilder.YEdgeBuilder.AddEdge | Engine/Source/Experimental/Public/YMeshUtilitiesWrap.h:89-110 | an opposite edge gets the triangle as second face, otherwise a new edge is appended; each call adds one edge side |
| EdgeBuilder.YEdgeBuilder.FindEdges | Engine/Source/Experimental/Public/YMeshUtilitiesWrap.h:136-157 | every triangle adds three edge sides, and there are at most as many edges as indices |
| EdgeBuilder.YEdgeBuilder.AddTriangle | Engine/Source/Experimental/Public/YMeshUtilitiesWrap.h:144-155 | the three directed edges of one triangle add three edge sides |
| EdgeBuilder.FreshEdgeBound | Engine/Source/Experimental/Public/YMeshUtilitiesWrap.h:121-123 | from an empty array the edges fit the reserved size and every face names a triangle |
| FbxImport.ReplaceChar | Engine/Source/Experimental/Private/FbxImporter.cpp:917-921 | the same length, with every occurrence of the character turned into '_' and every other character kept |
| FbxImport.SanitizeWith | Engine/Source/Experimental/Private/FbxImporter.cpp:914-922 | the replacement passes keep the length |
| FbxImport.Sanitize | Engine/Source/Experimental/Private/FbxImporter.cpp:914-922 | sanitising keeps the length |
| FbxImport.SanitizeWithChars | Engine/Source/Experimental/Private/FbxImporter.cpp:914-922 | after k passes exactly the first k special characters have become '_' |
| FbxImport.SanitizeReplacesSpecials | Engine/Source/Experimental/Private/FbxImporter.cpp:910-922 | each of '.', ',', '/', '`' and '%' becomes '_', every other character is kept, and no special character remains |
| FbxImport.Strchr | Engine/Source/Experimental/Private/FbxImporter.cpp:924-936 | the first occurrence at or after the start position, or none when there is no occurrence there |
| FbxImport.LastFound | Engine/Source/Experimental/Private/FbxImporter.cpp:928-933 | a colon after which the search finds no other is the last colon |
| FbxImport.MakeName | Engine/Source/Experimental/Private/FbxImporter.cpp:908-942 | the result is the sanitised name with everything up to its last ':' removed, as the specification function AfterLastColon gives it |
| FbxImport.SanitizeBuffer | Engine/Source/Experimental/Private/FbxImporter.cpp:910-922 | the buffer ends up holding the sanitised name: every special character replaced by '_' in place |
| FbxImport.MeshObjectName | Engine/Source/Experimental/Private/FbxImporter.cpp:979-999 | the object's name sanitised and then stripped by the namespace loop as written, which restarts one past each ':' and never searches the character after it |
| FbxImport.MakeNameResult | Engine/Source/Experimental/Private/FbxImporter.cpp:908-942 | the result holds no ':' and no special character, ends the sanitised name, and is the whole sanitised name when there is no ':' |
| FbxImport.StripAsWrittenKeepsColon | Engine/Source/Experimental/Private/FbxImporter.cpp:979-999 | the mesh-name namespace loop as written turns "a::b" into ":b", which keeps a colon |
| FbxImport.StripToLastColonHasNoColon | Engine/Source/Experimental/Private/FbxImporter.cpp:926-941 | stripping up to the last ':' never leaves a colon, and turns "a::b" into "b" |
| FbxImport.SuffixedInjective | Engine/Source/Experimental/Private/FbxImporter.cpp:462-467 | different indices give different suffixed names |
| FbxImport.SuffixedRangeSize | Engine/Source/Experimental/Private/FbxImporter.cpp:463-467 | the indices tried so far give as many distinct names |
| FbxImport.ResolveClash | Engine/Source/Experimental/Private/FbxImporter.cpp:455-479 | a name whose lower-case form is not taken is kept; a taken one becomes the name, "_ncl1_" and the smallest index from 1 whose lower-case form is free, every smaller one being taken |
| FbxImport.SuffixedFolds | Engine/Source/Experimental/Private/FbxImporter.cpp:462-467 | lower-casing a suffixed name lower-cases only its base, since the index is digits |
| FbxImport.NumberedFolds | Engine/Source/Experimental/Private/FbxImporter.cpp:1001-1017 | lower-casing a numbered candidate lower-cases only its prefix |
| FbxImport.FoldedAppend | Engine/Source/Experimental/Private/FbxImporter.cpp:457-479 | adding a name to the list adds its lower-case form to the set of names in use |
| FbxImport.AppendKeepsDistinct | Engine/Source/Experimental/Private/FbxImporter.cpp:457-479 | a name whose lower-case form is new keeps the list distinct ignoring case |
| FbxImport.ImportTypePriorities | Engine/Source/Experimental/Private/FbxImporter.cpp:385-446 | skeletal mesh ranks above static mesh above animation: 1 with skinned meshes or with geometry and animation, 0 with geometry alone, 2 with animation alone, -1 otherwise or when the scene info is missing |
| FbxImport.Numbered | Engine/Source/Experimental/Private/FbxImporter.cpp:1001-1017 | from 1 on, a candidate is the prefix, '_' and the count |
| FbxImport.NumberedRangeSize | Engine/Source/Experimental/Private/FbxImporter.cpp:1001-1017 | the first k candidates are k distinct names |
| FbxImport.UniqueMeshName | Engine/Source/Experimental/Private/FbxImporter.cpp:1001-1017 | the name is not in the cache in any case, and it is the first candidate for which that holds: every earlier candidate is cached in some case |
| FbxImport.FbxImporter.constructor | Engine/Source/Experimental/Private/FbxImporter.cpp:193-218 | the importer starts before any file is opened, with zeroed options and no names |
| FbxImport.FbxImporter.OpenFile | Engine/Source/Experimental/Private/FbxImporter.cpp:304-383 | the file opens exactly when no file was open and the SDK initialises; only then does the phase become file-opened |
| FbxImport.FbxImporter.GetImportType | Engine/Source/Experimental/Private/FbxImporter.cpp:385-446 | when the file opens the result is the priority decision and the importer is closed again; otherwise -1 and nothing changes |
| FbxImport.FbxImporter.FixMaterialClashName | Engine/Source/Experimental/Private/FbxImporter.cpp:448-481 | as many names as before, distinct ignoring case, each resolved against the lower-case forms of the names before it: kept when free, else given the first free "_ncl1_" index |
| FbxImport.FbxImporter.MakeNameForMesh | Engine/Source/Experimental/Private/FbxImporter.cpp:949-1024 | the given name when it is used in full (or there is no object) and is not "None" in any case; otherwise the first numbered name, not cached in any case, built on the object's name stripped by the namespace loop as written (after the given name unless that is "None"); the result is appended to the cache |
| FbxImport.RenameStep | Engine/Source/Experimental/Private/FbxImporter.cpp:452-479 | renaming one more material keeps the names distinct ignoring case and every earlier one resolved, and adds the new name's lower-case form to the names in use |
| NameTypes.NameEntry.ForLinkerTable | Engine/Source/Runtime/Core/Public/SObject/NameTypes.h:147-150 | the entry made for the linker table (the ForLinkerTable constructor) is wide and its table index is 0 |
| NameTypes.NameEntry.PreSetIsWideForSerialization | Engine/Source/Runtime/Core/Public/SObject/NameTypes.h:162-165 | the entry is wide exactly as asked and its table index is 0 |
| NameTypes.NameEntry.GetIndex | Engine/Source/Runtime/Core/Public/SObject/NameTypes.h:173-176 | packing the index back with the wide flag gives the stored value, and the index fits in 31 bits |
| NameTypes.PackedIndexRoundTrip | Engine/Source/Runtime/Core/Public/SObject/NameTypes.h:173-184 | unpacking a packed value gives back the table index and the wide flag |
| NameTypes.PackedIndexFits | Engine/Source/Runtime/Core/Public/SObject/NameTypes.h:116-117 | an index below 2^30 in magnitude packs into an int32 |
| NameTypes.ChunkTableSize | Engine/Source/Runtime/Core/Public/SObject/NameTypes.h:306 | enough chunks to hold every element, and not one more than needed |
| NameTypes.ChunkTableMonotone | Engine/Source/Runtime/Core/Public/SObject/NameTypes.h:306 | more elements never need fewer chunks |
| NameTypes.ZeroChunk | Engine/Source/Runtime/Core/Public/SObject/NameTypes.h:330-331 | a new chunk has one null pointer per element |
| NameTypes.StaticIndirectArray.constructor | Engine/Source/Runtime/Core/Public/SObject/NameTypes.h:362-367 | the array is empty, with no chunk allocated |
| NameTypes.StaticIndirectArray.Num | Engine/Source/Runtime/Core/Public/SObject/NameTypes.h:373-376 | the element count never exceeds the maximum |
| NameTypes.StaticIndirectArray.GetItemPtr | Engine/Source/Runtime/Core/Public/SObject/NameTypes.h:350-358 | the element lies in an allocated chunk, at the quotient and remainder of its index by the chunk size |
| NameTypes.StaticIndirectArray.Get | Engine/Source/Runtime/Core/Public/SObject/NameTypes.h:393-398 | the element is the one stored in its chunk at its slot |
| NameTypes.StaticIndirectArray.ExpandChunksToIndex | Engine/Source/Runtime/Core/Public/SObject/NameTypes.h:319-344 | as written: aborts exactly when the chunk holding the index lies beyond the next one, after one pass that fills that slot; otherwise the chunk holding the index is allocated, the table stays valid and earlier chunks are kept |
| NameTypes.StaticIndirectArray.ExpandChunksToNextSlot | Engine/Source/Runtime/Core/Public/SObject/NameTypes.h:319-344 | the intended expansion: the chunk holding the index is allocated, earlier chunks are kept and each new chunk is zeroed |
| NameTypes.StaticIndirectArray.AddChunk | Engine/Source/Runtime/Core/Public/SObject/NameTypes.h:328-340 | one pass allocates the next zeroed chunk |
| NameTypes.StaticIndirectArray.AddZeroed | Engine/Source/Runtime/Core/Public/SObject/NameTypes.h:405-414 | as written: the old count is returned; the add aborts exactly when the new elements need two or more new chunks, leaving the count unchanged; otherwise the count grows by the number added, the table stays valid and existing chunks are kept |
| NameTypes.StaticIndirectArray.AddZeroedIntended | Engine/Source/Runtime/Core/Public/SObject/NameTypes.h:405-414 | with the intended expansion the add never aborts: the old count is returned, the count grows by the number added and existing chunks are kept |
| NameTypes.StaticIndirectArray.Reserve | Engine/Source/Runtime/Core/Public/SObject/NameTypes.h:425-443 | enough zeroed chunks for the capacity are allocated and no element is added |
| NameTypes.ValidIndexStaysValid | Engine/Source/Runtime/Core/Public/SObject/NameTypes.h:383-386 | an index once valid stays valid as the array grows |
| NameTypes.IsValidIndexRange | Engine/Source/Runtime/Core/Public/SObject/NameTypes.h:383-386 | an index is valid exactly when it lies between 0 and the count |
| NameTypes.ExpandAsWritten | Engine/Source/Runtime/Core/Public/SObject/NameTypes.h:319-344 | each successful pass of the as-written loop moves past the chunk index it was asked for |
| NameTypes.AsWrittenGrowsOneChunk | Engine/Source/Runtime/Core/Public/SObject/NameTypes.h:319-344 | needing at most one new chunk, the loop as written allocates it and stops |
| NameTypes.AsWrittenAbortsOnChunkGap | Engine/Source/Runtime/Core/Public/SObject/NameTypes.h:319-344 | needing two or more new chunks, the loop as written allocates the target chunk first and then aborts on finding it taken |
| NameTypes.AddZeroedAcrossTwoChunksAborts | Engine/Source/Runtime/Core/Public/SObject/NameTypes.h:405-414 | adding 16385 names to an empty table with 16384 per chunk aborts in the loop as written |
| NameTypes.NameNoNumber | Engine/Source/Runtime/Core/Public/SObject/NameTypes.h:40-47 | the external "no number" value is -1 |
| NameTypes.NameNumberRoundTrip | Engine/Source/Runtime/Core/Public/SObject/NameTypes.h:40-44 | the internal and external instance numbers convert back and forth |
| NameTypes.NameInternalToExternal | Engine/Source/Runtime/Core/Public/SObject/NameTypes.h:43 | the internal number 0 (no number) and only it maps to the external -1 |
| NameTypes.NameExternalToInternal | Engine/Source/Runtime/Core/Public/SObject/NameTypes.h:44 | converting back to external gives the number passed in |
| NameTypes.IsEqual | Engine/Source/Runtime/Core/Public/SObject/NameTypes.h:600-604 | equal names have equal numbers when numbers are compared, and equal comparison indices when case is ignored |
| NameTypes.NameEquals | Engine/Source/Runtime/Core/Public/SObject/NameTypes.h:606-614 | without case preservation, equality is equality of everything but the display index |
| NameTypes.IsEqualDefaultsIsEquals | Engine/Source/Runtime/Core/Public/SObject/NameTypes.h:600-614 | IsEqual with its defaults is the == operator |
| NameTypes.IsEqualEquivalence | Engine/Source/Runtime/Core/Public/SObject/NameTypes.h:600-604 | every IsEqual mode is reflexive, symmetric and transitive |
| NameTypes.CaseSensitiveImpliesIgnoreCase | Engine/Source/Runtime/Core/Public/SObject/NameTypes.h:600-604 | names equal case-sensitively are equal ignoring case when each display entry determines its comparison entry |
| NameTypes.IgnoreCaseDoesNotImplyCaseSensitive | Engine/Source/Runtime/Core/Public/SObject/NameTypes.h:600-604 | two spellings of one name are equal ignoring case but not case-sensitively |
| NameTypes.IsNoneIsEqualsNone | Engine/Source/Runtime/Core/Public/SObject/NameTypes.h:636-639 | a name is None exactly when it equals NAME_None |
| NameTypes.IsNone | Engine/Source/Runtime/Core/Public/SObject/NameTypes.h:636-639 | true exactly when comparison index and number are both zero, whatever the display index |

## Left out

- Floating point: `YMath` interpolation and geometry, vector and point `Size`, and float equality of positions. The edge builder compares vertex positions as exact reals.
- SolidAngleMath.Eval: the floating-point sub-expression evaluator `SubEval` is a parameter, and the `int32` overflow of the bracket counter is not modelled.
- EdgeBuilder.YEdgeBuilder.FindOppositeEdge: `TMultiMap` is not part of this model, so its iteration order is unknown. The contracts hold for whichever matching edge is picked.
- FBX SDK calls: the results of `Initialize` and the scene statistics are parameters. `OpenFile`'s logging, statistics and the `MAX_SPRINTF` buffer are not modelled.
- FbxImport.StripAsWrittenKeepsColon: models only the namespace-strip loop as written; its read past the terminator on a trailing ':' is not modelled.
- NameTypes: case-insensitive comparison goes through comparison indices, and how the name table folds case is not modelled; names are compared through their indices only. `YName::IsValid`, name hashing, atomics and locking are not modelled; the model is sequential. Writes to chunk elements happen outside the class and are not modelled.
- Culture.GetPluralForm: requires the value not to be `INT_MIN`, whose negation overflows `int32` in the source.
- PlatformMath.RoundUpToPowerOfTwo: requires a value of at most 2^31, where the 32-bit shift does not wrap.
- MathUtility.DivideAndRoundUpIntended: covers non-negative operands only; the corrected rounding is stated for those.
- MathUtility.DivideAndRoundUpAsWritten: computes with C++'s truncating division for every sign, but its contract states the result for positive operands only.
- MathUtility.DivideAndRoundUpAsWritten: `int32` overflow of `Dividend + Dividend` is not modelled.
- CrashContext.UnescapeEscape: requires text with no '&' and no '\r'. The lemmas beside it show why each condition is needed.
- RawMesh.RawMesh.CompactMaterialIndices: requires non-negative face material indices.
- Timespan.Parse: requires `ParseFits`, meaning each field fits in the range of `atoi` and passes `Assign`'s range check. Overflowing fields are not modelled.
- Timespan.Span.ToStringFormat: the totals printed by `%D`, `%H`, `%M`, `%S` and `%F` use `printf("%f")`. They are a parameter.
- Colors.Color.Plus: `operator+=` is modelled as a function on channel values rather than as an update in place.
- IntVectors.IntVector.GetMax: returns `float` in the source; the model keeps the `int32` value (GetMin likewise).
- `IsStringValidRotator`, `YIntVector::ToString` and `YIntVector::DivideAndRoundUp` are not modelled. `YIntPoint::DivideAndRoundUp` is not modelled either: it applies the `DivideAndRoundUp` formula per component, and that formula is covered by DivideAndRoundUpAsWritten and under Findings.
- LogSuppression: `ProcessLogOnly` is not modelled. `LogCategory.cpp` is not part of this model, so `SetVerbosity` and `ResetFromDefault` are modelled from how they are called.
- Serialization is not modelled: `FArchive`, the skeletal mesh `operator<<` functions and the raw mesh `Serialize`. For custom versions, only the `Enums`/`Guids` conversions and the "requires loading" rule are kept; the `Optimized` format is not.
- TextLocalization: `StrCrc32` is a constructor parameter, and so is the initial `TextRevisionCounter`. The empty namespace tables that a failed `UpdateDisplayString` leaves behind cannot be observed and are not modelled. `ENABLE_LOC_TESTING` and leetification are taken as off. Locking is not modelled.
- Strings are sequences of characters. Embedded NUL characters and `TrimToNullTerminator` are not modelled.
- CustomVersioning.EntryFriendlyName: the engine also writes the looked-up name back into the entry (CustomVersion.cpp:59); the model returns the name and leaves the entry as it was, so a name looked up once is not kept if the registered set changes later.
- SkeletalMesh.BasisDeterminantSignByte: the determinant is computed exactly on the axes unpacked to -255..255 (the engine's `2b/255 - 1` scaled by 255); float rounding of a determinant near zero and the `FVector4` conversion are not modelled.
- CrashContext.EscapeXMLString: its `Replace` calls, and the separator replacements in Timespan.Parse, match ignoring case in the engine; the model matches exactly. None of those patterns holds a letter, so the two agree (Strings.ReplaceAllIgnoreCaseWithoutLetters). Unescaping, whose entities hold letters, matches ignoring case, and the path functions ask for case-sensitive matching.
- StaticMeshResource.StaticMeshUVVertexData.SetUV: the UVs are stored as `FVector2DHalf`, so a UV set is read back rounded to half precision; the model stores the value exactly (GetUV likewise).
- RhiResource.RhiResource.AddRef: the reference count is updated with atomic increments in the source; the model is sequential (Release likewise).
- LogSuppression.LogSuppressionSystem.ProcessCmdString: the command string arrives already split; the trimming and quote stripping, the split at ',', the removal of a leading "Log " and the split at whitespace are not modelled.
- LogSuppression.SubCommand: its own contract states only that the registry stays well formed and what is left alone at boot and at run time; what each command form does is stated by LevelCommandSetsNamedCategories, GlobalOffSilencesEveryCategory, ToggleOffStep, ToggleOnStep, ResetStoresUnderResetKey and BootGlobalClearsBootValues (Store and CmdString likewise).
- LogSuppression: names compare ignoring ASCII case only, by lower-casing the text of each name; how the engine's name table folds other characters is not modelled.
- TextLocalization.TextLocalizationManager.UpdateDisplayString: the engine's string-keyed tables compare namespaces and keys ignoring case; here namespaces and keys compare exactly, so two spellings that differ only in case are different keys (GetDisplayString, AddDisplayString, UpdateFromLocalizations and LocalizationEntryTracker.LoadFromLocalizationResource likewise). Localized strings are compared ignoring case in Differ.
- Strings: IsWhitespace, IsAlpha, ToLower and EqualsIgnoreCase know ASCII only; Unicode letters and case folding beyond ASCII are not modelled.
- Direct3D and rendering, windowing, the FBX converter, platform processes and memory, the `FPaths` directory getters and `ConvertRelativePathToFull` are not modelled: they are GPU, OS or foreign-library calls.

## Findings

| source | as written | input that shows it | evidently intended | confidence | as-written member | corrected member |
|---|---|---|---|---|---|---|
| Engine/Source/Experimental/Private/YStaticMeshResource.cpp:165-180 | the 32-bit path writes four-byte indices but only ever sets `b32Bit` to false | a fresh buffer given the index 65536 stores 32-bit data, and `GetCopy` reads it back as [0, 1] | `b32Bit` records the stride that was chosen | not executed | StaticMeshResource.AsWrittenLosesWideIndex | StaticMeshResource.RawStaticIndexBuffer.SetIndicesCorrected |
| Engine/Source/Experimental/Private/YStaticMesh.cpp:36 | the LOD of a key is read as `(Key & 0xffff) >> 16`, which is always 0 | one section at LOD 1 is counted as 0 sections for LOD 1 | count the keys whose high 16 bits equal the LOD | not executed | StaticMeshSectionMap.AsWrittenMissesLodOne | StaticMeshSectionMap.MeshSectionInfoMap.GetSectionNumberCorrected |
| Engine/Source/Runtime/Core/Public/Math/SolidAngleMathUtility.h:224-228 | `DivideAndRoundUp` computes `(Dividend + Dividend - 1) / Divisor` | 4 divided by 2 gives 3 and 1 divided by 2 gives 0 (the ceilings are 2 and 1) | `(Dividend + Divisor - 1) / Divisor`, the ceiling | not executed | MathUtility.DivideAndRoundUpAsWrittenOvershoots | MathUtility.DivideAndRoundUpIntended |
| Engine/Source/Runtime/Core/Private/Misc/Timespan.cpp:55-84 | a '%' at the end of the format consumes the terminator and the scan steps past it | the format "%" | stop at the end of the format | not executed | Timespan.TrailingPercentReadsPastEnd | Timespan.NextPosition |
| Engine/Source/Runtime/Core/Private/Logging/LogSuppressionInterface.cpp:181-185 | "Reset" saves every category's level under the key "Reset", not under the category's name | LogFoo raised to VeryVerbose, then "log Reset", then "log LogFoo" twice: LogFoo comes back at VeryVerbose, not at the Log level it was reset to | save each level under the category's own name | not executed | LogSuppression.ResetTogglesUnderResetKey | LogSuppression.ResetThenToggleRestores |
| Engine/Source/Runtime/Core/Private/Internationalization/TextLocalizationManager.cpp:221-233 | `WasConflictDetected` is overwritten for every pair of entries | entries with sources a, b, b are not reported as a conflict | accumulate the flag over all pairs | not executed | TextLocalization.AsWrittenMissesConflict | TextLocalization.ConflictFlag |
| Engine/Source/Runtime/Core/Private/Math/SolidAngleMath.cpp:2743-2764 | at most two commas are inserted | 1000000000 gives "1000,000,000" | a comma before every group of three digits | not executed | SolidAngleMath.AsWrittenLeavesBillionsUngrouped | SolidAngleMath.HumanReadableAgreesBelowBillion |
| Engine/Source/Experimental/Private/FbxImporter.cpp:979-999 | the namespace loop of `MakeNameForMesh` stops one character short and keeps a ':' | "a::b" gives ":b" | strip through the last ':', giving "b" | not executed | FbxImport.StripAsWrittenKeepsColon | FbxImport.StripToLastColonHasNoColon |
| Engine/Source/Runtime/Core/Public/SObject/NameTypes.h:319-344 | every pass of `ExpandChunksToIndex` allocates `Chunks[ChunkIndex]`, not `Chunks[NumChunks]` | `AddZeroed(16385)` on an empty table reaches `check(0)` | allocate the next missing chunk on each pass | not executed | NameTypes.AsWrittenAbortsOnChunkGap | NameTypes.StaticIndirectArray.ExpandChunksToNextSlot |
