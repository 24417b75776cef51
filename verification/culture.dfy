/** FCulture: the fallback chain of culture names a lookup tries, from the
    most specific tag to the bare language, and the sign handling in front
    of the plural rules. */
module Culture {
  import opened IntTypes
  import LegacyCulture

  function Flag(b: bool): nat {
    if b then 1 else 0
  }

  /** The tags to try for a culture, most specific first: language-script-
      region when both parts are known, then language-region, then
      language-script, and always the bare language last. */
  method GetPrioritizedParentCultureNames(languageCode: string, scriptCode: string, regionCode: string)
    returns (names: seq<string>)
    ensures |names| == 1 + Flag(regionCode != []) + Flag(scriptCode != []) +
      Flag(scriptCode != [] && regionCode != [])
    ensures names[|names| - 1] == languageCode
    ensures scriptCode != [] && regionCode != [] ==>
      names[0] == languageCode + "-" + scriptCode + "-" + regionCode
    ensures regionCode != [] ==>
      names[Flag(scriptCode != [])] == languageCode + "-" + regionCode
    ensures scriptCode != [] ==>
      names[Flag(scriptCode != [] && regionCode != []) + Flag(regionCode != [])] == languageCode + "-" + scriptCode
    ensures forall i :: 0 <= i < |names| - 1 ==> names[i][..|languageCode| + 1] == languageCode + "-"
  {
    names := [];
    if scriptCode != [] && regionCode != [] {
      names := names + [languageCode + "-" + scriptCode + "-" + regionCode];
    }
    if regionCode != [] {
      names := names + [languageCode + "-" + regionCode];
    }
    if scriptCode != [] {
      names := names + [languageCode + "-" + scriptCode];
    }
    names := names + [languageCode];
  }

  /** The plural form of a signed count: negative counts take the form of
      their magnitude. Negating the most negative 32-bit value overflows and
      the implementation would reject the still-negative result, so that one
      input is excluded. */
  function GetPluralForm(val: i32, pluralType: LegacyCulture.PluralType): (r: LegacyCulture.PluralForm)
    requires val != -0x8000_0000
    ensures r == LegacyCulture.GetDefaultPluralForm(if val < 0 then -val as int else val as int, pluralType)
  {
    var magnitude := if val < 0 then val * -1 else val;
    LegacyCulture.GetPluralForm(magnitude as int, pluralType)
  }

  /** A count and its negation take the same plural form. */
  lemma PluralFormIgnoresSign(val: i32, pluralType: LegacyCulture.PluralType)
    requires val != -0x8000_0000
    ensures GetPluralForm(-val, pluralType) == GetPluralForm(val, pluralType)
  {
  }
}
