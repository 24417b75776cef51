/** YGenericPlatformMisc: the names of build configurations and build
    targets, and the standard table of printable keys. */
module PlatformMisc {
  import opened IntTypes

  /** EBuildConfigurations::Type. */
  datatype BuildConfiguration = UnknownConfiguration | Debug | DebugGame | Development | Shipping | Test

  /** EBuildConfigurations::ToString. */
  function ConfigurationToString(configuration: BuildConfiguration): string {
    match configuration
    case Debug => "Debug"
    case DebugGame => "DebugGame"
    case Development => "Development"
    case Shipping => "Shipping"
    case Test => "Test"
    case UnknownConfiguration => "Unknown"
  }

  /** EBuildConfigurations::FromString: an exact, case-sensitive match of
      one of the five names; anything else is Unknown. */
  function ConfigurationFromString(configuration: string): (r: BuildConfiguration)
    ensures r != UnknownConfiguration ==> ConfigurationToString(r) == configuration
  {
    if configuration == "Debug" then Debug
    else if configuration == "DebugGame" then DebugGame
    else if configuration == "Development" then Development
    else if configuration == "Shipping" then Shipping
    else if configuration == "Test" then Test
    else UnknownConfiguration
  }

  /** Every configuration, Unknown included, survives a round trip
      through its name. */
  lemma ConfigurationRoundTrip(configuration: BuildConfiguration)
    ensures ConfigurationFromString(ConfigurationToString(configuration)) == configuration
  {
  }

  /** Distinct configurations have distinct names. */
  lemma ConfigurationNamesDistinct(a: BuildConfiguration, b: BuildConfiguration)
    requires a != b
    ensures ConfigurationToString(a) != ConfigurationToString(b)
  {
    ConfigurationRoundTrip(a);
    ConfigurationRoundTrip(b);
  }

  /** A string that is none of the five names reads as Unknown, and only
      such a string does. */
  lemma UnknownConfigurationNames(configuration: string)
    ensures ConfigurationFromString(configuration) == UnknownConfiguration <==>
      configuration !in {"Debug", "DebugGame", "Development", "Shipping", "Test"}
  {
  }

  /** A localizable text: namespace, key and source string (NSLOCTEXT). */
  datatype LocText = LocText(namespace: string, key: string, source: string)

  /** EBuildConfigurations::ToText. */
  function ConfigurationToText(configuration: BuildConfiguration): (r: LocText)
    ensures r.namespace == "UnrealBuildConfigurations"
    ensures r.source == ConfigurationToString(configuration)
    ensures r.key == ConfigurationToString(configuration) + "Name"
  {
    match configuration
    case Debug => LocText("UnrealBuildConfigurations", "DebugName", "Debug")
    case DebugGame => LocText("UnrealBuildConfigurations", "DebugGameName", "DebugGame")
    case Development => LocText("UnrealBuildConfigurations", "DevelopmentName", "Development")
    case Shipping => LocText("UnrealBuildConfigurations", "ShippingName", "Shipping")
    case Test => LocText("UnrealBuildConfigurations", "TestName", "Test")
    case UnknownConfiguration => LocText("UnrealBuildConfigurations", "UnknownName", "Unknown")
  }

  /** Distinct configurations have distinct localization keys. */
  lemma ConfigurationTextKeysDistinct(a: BuildConfiguration, b: BuildConfiguration)
    requires a != b
    ensures ConfigurationToText(a).key != ConfigurationToText(b).key
  {
  }

  /** EBuildTargets::Type. */
  datatype BuildTarget = UnknownTarget | Editor | Game | Server

  /** EBuildTargets::ToString. */
  function TargetToString(target: BuildTarget): string {
    match target
    case Editor => "Editor"
    case Game => "Game"
    case Server => "Server"
    case UnknownTarget => "Unknown"
  }

  /** EBuildTargets::FromString. */
  function TargetFromString(target: string): (r: BuildTarget)
    ensures r != UnknownTarget ==> TargetToString(r) == target
  {
    if target == "Editor" then Editor
    else if target == "Game" then Game
    else if target == "Server" then Server
    else UnknownTarget
  }

  /** Distinct targets have distinct names. */
  lemma TargetNamesDistinct(a: BuildTarget, b: BuildTarget)
    requires a != b
    ensures TargetToString(a) != TargetToString(b)
  {
    TargetRoundTrip(a);
    TargetRoundTrip(b);
  }

  lemma TargetRoundTrip(target: BuildTarget)
    ensures TargetFromString(TargetToString(target)) == target
  {
  }

  lemma UnknownTargetNames(target: string)
    ensures TargetFromString(target) == UnknownTarget <==> target !in {"Editor", "Game", "Server"}
  {
  }

  // ---------------------------------------------------------------------
  // GetStandardPrintableKeyMap

  datatype KeyMapping = KeyMapping(code: u32, name: string)

  const DigitKeys: seq<KeyMapping> := [
    KeyMapping('0' as u32, "Zero"), KeyMapping('1' as u32, "One"), KeyMapping('2' as u32, "Two"),
    KeyMapping('3' as u32, "Three"), KeyMapping('4' as u32, "Four"), KeyMapping('5' as u32, "Five"),
    KeyMapping('6' as u32, "Six"), KeyMapping('7' as u32, "Seven"), KeyMapping('8' as u32, "Eight"),
    KeyMapping('9' as u32, "Nine")]

  /** 'A'..'Z', each named by its letter. */
  function UppercaseKeys(): seq<KeyMapping> {
    seq(26, i requires 0 <= i < 26 => KeyMapping(('A' as int + i) as u32, [('A' as int + i) as char]))
  }

  /** 'a'..'z', each named by its upper-case letter. */
  function LowercaseKeys(): seq<KeyMapping> {
    seq(26, i requires 0 <= i < 26 => KeyMapping(('a' as int + i) as u32, [('A' as int + i) as char]))
  }

  const PunctuationKeys: seq<KeyMapping> := [
    KeyMapping(';' as u32, "Semicolon"), KeyMapping('=' as u32, "Equals"), KeyMapping(',' as u32, "Comma"),
    KeyMapping('-' as u32, "Hyphen"), KeyMapping('.' as u32, "Period"), KeyMapping('/' as u32, "Slash"),
    KeyMapping('`' as u32, "Tilde"), KeyMapping('[' as u32, "LeftBracket"), KeyMapping('\\' as u32, "Backslash"),
    KeyMapping(']' as u32, "RightBracket"), KeyMapping('\'' as u32, "Apostrophe"), KeyMapping(' ' as u32, "SpaceBar")]

  /** The keys of the AZERTY layout. */
  const AzertyKeys: seq<KeyMapping> := [
    KeyMapping('&' as u32, "Ampersand"), KeyMapping('*' as u32, "Asterix"), KeyMapping('^' as u32, "Caret"),
    KeyMapping(':' as u32, "Colon"), KeyMapping('$' as u32, "Dollar"), KeyMapping('!' as u32, "Exclamation"),
    KeyMapping('(' as u32, "LeftParantheses"), KeyMapping(')' as u32, "RightParantheses"),
    KeyMapping('"' as u32, "Quote"), KeyMapping('_' as u32, "Underscore"),
    KeyMapping(224, "A_AccentGrave"), KeyMapping(231, "C_Cedille"), KeyMapping(233, "E_AccentAigu"),
    KeyMapping(232, "E_AccentGrave"), KeyMapping(167, "Section")]

  /** Every mapping the function offers, in the order it adds them. */
  function StandardKeys(mapUppercase: bool, mapLowercase: bool): (r: seq<KeyMapping>)
    ensures |r| == 37 + (if mapUppercase then 26 else 0) + (if mapLowercase then 26 else 0)
  {
    DigitKeys + (if mapUppercase then UppercaseKeys() else []) + (if mapLowercase then LowercaseKeys() else [])
    + PunctuationKeys + AzertyKeys
  }

  /** Letter codes appear in none of the fixed blocks. */
  lemma FixedBlocksHaveNoLetters(m: KeyMapping)
    requires m in DigitKeys || m in PunctuationKeys || m in AzertyKeys
    ensures !('A' as u32 <= m.code <= 'Z' as u32) && !('a' as u32 <= m.code <= 'z' as u32)
  {
  }

  /** An upper-case letter's code is offered exactly when upper-case keys
      are mapped, named by its letter. */
  lemma UppercaseBlockFollowsFlag(mapUppercase: bool, mapLowercase: bool, i: nat)
    requires i < 26
    ensures KeyMapping(('A' as int + i) as u32, [('A' as int + i) as char]) in StandardKeys(mapUppercase, mapLowercase)
      <==> mapUppercase
  {
    var upper := KeyMapping(('A' as int + i) as u32, [('A' as int + i) as char]);
    assert UppercaseKeys()[i] == upper;
    if upper in DigitKeys || upper in PunctuationKeys || upper in AzertyKeys {
      FixedBlocksHaveNoLetters(upper);
    }
    assert upper !in LowercaseKeys();
  }

  /** A lower-case letter's code is offered exactly when lower-case keys
      are mapped, named by its upper-case letter. */
  lemma LowercaseBlockFollowsFlag(mapUppercase: bool, mapLowercase: bool, i: nat)
    requires i < 26
    ensures KeyMapping(('a' as int + i) as u32, [('A' as int + i) as char]) in StandardKeys(mapUppercase, mapLowercase)
      <==> mapLowercase
  {
    var lower := KeyMapping(('a' as int + i) as u32, [('A' as int + i) as char]);
    assert LowercaseKeys()[i] == lower;
    if lower in DigitKeys || lower in PunctuationKeys || lower in AzertyKeys {
      FixedBlocksHaveNoLetters(lower);
    }
    assert lower !in UppercaseKeys();
  }

  /** ADDKEYMAP: writes the mapping at the next slot while there is room. */
  method AddKeyMap(keyCodes: array<u32>, keyNames: array<string>, numMappings: nat, maxMappings: nat, m: KeyMapping)
    returns (n: nat)
    requires maxMappings <= keyCodes.Length && maxMappings <= keyNames.Length && numMappings <= maxMappings
    modifies keyCodes, keyNames
    ensures n == if numMappings < maxMappings then numMappings + 1 else numMappings
    ensures numMappings < maxMappings ==>
      keyCodes[..] == old(keyCodes[..])[numMappings := m.code] && keyNames[..] == old(keyNames[..])[numMappings := m.name]
    ensures numMappings >= maxMappings ==> keyCodes[..] == old(keyCodes[..]) && keyNames[..] == old(keyNames[..])
  {
    n := numMappings;
    if n < maxMappings {
      keyCodes[n] := m.code;
      keyNames[n] := m.name;
      n := n + 1;
    }
  }

  function Codes(ms: seq<KeyMapping>): (r: seq<u32>)
    ensures |r| == |ms| && forall i | 0 <= i < |ms| :: r[i] == ms[i].code
  {
    seq(|ms|, i requires 0 <= i < |ms| => ms[i].code)
  }

  function Names(ms: seq<KeyMapping>): (r: seq<string>)
    ensures |r| == |ms| && forall i | 0 <= i < |ms| :: r[i] == ms[i].name
  {
    seq(|ms|, i requires 0 <= i < |ms| => ms[i].name)
  }

  /** GetStandardPrintableKeyMap: writes the first `maxMappings` standard
      mappings to the two arrays, leaves every slot after them untouched,
      and returns how many it wrote. */
  method GetStandardPrintableKeyMap(keyCodes: array<u32>, keyNames: array<string>, maxMappings: nat,
                                    mapUppercase: bool, mapLowercase: bool) returns (numMappings: nat)
    requires maxMappings <= keyCodes.Length && maxMappings <= keyNames.Length
    modifies keyCodes, keyNames
    ensures var all := StandardKeys(mapUppercase, mapLowercase);
      numMappings == (if maxMappings < |all| then maxMappings else |all|)
      && keyCodes[..numMappings] == Codes(all[..numMappings])
      && keyNames[..numMappings] == Names(all[..numMappings])
    ensures keyCodes[numMappings..] == old(keyCodes[numMappings..])
    ensures keyNames[numMappings..] == old(keyNames[numMappings..])
  {
    var all := StandardKeys(mapUppercase, mapLowercase);
    numMappings := 0;
    var i := 0;
    while i < |all|
      invariant 0 <= i <= |all|
      invariant numMappings == (if maxMappings < i then maxMappings else i)
      invariant keyCodes[..numMappings] == Codes(all[..numMappings])
      invariant keyNames[..numMappings] == Names(all[..numMappings])
      invariant keyCodes[numMappings..] == old(keyCodes[numMappings..])
      invariant keyNames[numMappings..] == old(keyNames[numMappings..])
    {
      numMappings := AddKeyMap(keyCodes, keyNames, numMappings, maxMappings, all[i]);
      i := i + 1;
    }
  }
}
