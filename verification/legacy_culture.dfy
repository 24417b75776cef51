/** The legacy (non-ICU) culture implementation: the English plural rules
    every legacy culture falls back to, and the language and region parts of
    a native name written as "Language (Region)". */
module LegacyCulture {
  import opened Strings

  /** The plural categories a number can select. */
  datatype PluralForm = Zero | One | Two | Few | Many | Other

  /** Counting ("1 file") or ranking ("1st place"). */
  datatype PluralType = Cardinal | Ordinal

  /** The English rules: a cardinal is singular only for 1; an ordinal takes
      the "st", "nd" or "rd" form by its last digit, except in the teens. */
  function GetDefaultPluralForm(val: nat, pluralType: PluralType): (r: PluralForm)
    ensures r == One || r == Two || r == Few || r == Other
    ensures pluralType == Cardinal ==> (r == One <==> val == 1) && (r == One || r == Other)
    ensures pluralType == Ordinal ==> (r == One <==> val % 10 == 1 && val % 100 != 11)
    ensures pluralType == Ordinal ==> (r == Two <==> val % 10 == 2 && val % 100 != 12)
    ensures pluralType == Ordinal ==> (r == Few <==> val % 10 == 3 && val % 100 != 13)
  {
    if pluralType == Cardinal then
      (if val == 1 then One else Other)
    else if val % 10 == 1 && val % 100 != 11 then One
    else if val % 10 == 2 && val % 100 != 12 then Two
    else if val % 10 == 3 && val % 100 != 13 then Few
    else Other
  }

  /** The last digit of a number is the last digit of its last two digits. */
  lemma LastDigitOfLastTwo(val: nat)
    ensures (val % 100) % 10 == val % 10
  {
    var h, t := val / 100, val % 100;
    assert val == 10 * (10 * h + t / 10) + t % 10;
    DivModUnique(val, 10 * h + t / 10, t % 10);
  }

  lemma DivModUnique(a: nat, q: int, m: int)
    requires 0 <= m < 10 && a == 10 * q + m
    ensures a % 10 == m
  {
  }

  /** An ordinal's form depends only on its last two digits. */
  lemma OrdinalDependsOnLastTwoDigits(val: nat)
    ensures GetDefaultPluralForm(val, Ordinal) == GetDefaultPluralForm(val % 100, Ordinal)
  {
    LastDigitOfLastTwo(val);
  }

  /** 11th, 12th and 13th (and 111th, ...) take the general form. */
  lemma OrdinalTeensAreOther(val: nat)
    requires 11 <= val % 100 <= 13
    ensures GetDefaultPluralForm(val, Ordinal) == Other
  {
  }

  /** The legacy implementation demands a non-negative value. */
  function GetPluralForm(val: int, pluralType: PluralType): (r: PluralForm)
    requires val >= 0
    ensures r == GetDefaultPluralForm(val, pluralType)
  {
    GetDefaultPluralForm(val, pluralType)
  }

  /** Legacy cultures have no canonical form: a name is its own canonical
      name. */
  function GetCanonicalName(name: string): (r: string)
    ensures r == name
  {
    name
  }

  /** The native name has a ')' and a '(' at different places. The two
      characters differ, so the places always differ once both are found. */
  predicate HasBrackets(nativeName: string) {
    LastIndexOf(nativeName, ')') != -1 && IndexOf(nativeName, '(') != -1
  }

  /** The part of the native name before the bracketed region, without the
      character just before the '(' (the separating space); the whole name
      when it holds no brackets. */
  function GetNativeLanguage(nativeName: string): (r: string)
    ensures !HasBrackets(nativeName) ==> r == nativeName
    ensures HasBrackets(nativeName) && IndexOf(nativeName, '(') >= 1 ==>
      r == nativeName[..IndexOf(nativeName, '(') - 1]
    ensures HasBrackets(nativeName) && IndexOf(nativeName, '(') == 0 ==> r == []
  {
    var last, first := LastIndexOf(nativeName, ')'), IndexOf(nativeName, '(');
    if last != -1 && first != -1 && last != first then
      Left(nativeName, first - 1)
    else
      nativeName
  }

  /** The text strictly between the first '(' and the last ')'; empty when
      the ')' comes first; the whole name when it holds no brackets. */
  function GetNativeRegion(nativeName: string): (r: string)
    ensures !HasBrackets(nativeName) ==> r == nativeName
    ensures HasBrackets(nativeName) && IndexOf(nativeName, '(') < LastIndexOf(nativeName, ')') ==>
      r == nativeName[IndexOf(nativeName, '(') + 1..LastIndexOf(nativeName, ')')]
    ensures HasBrackets(nativeName) && LastIndexOf(nativeName, ')') < IndexOf(nativeName, '(') ==> r == []
  {
    var last, first := LastIndexOf(nativeName, ')'), IndexOf(nativeName, '(');
    if last != -1 && first != -1 && last != first then
      Mid(nativeName, first + 1, last - first - 1)
    else
      nativeName
  }

  predicate NoBrackets(s: string) {
    '(' !in s && ')' !in s
  }

  /** A native name written "Language (Region)" splits back into its two
      parts. */
  lemma NativeNameSplits(language: string, region: string)
    requires NoBrackets(language) && NoBrackets(region)
    ensures GetNativeLanguage(language + " (" + region + ")") == language
    ensures GetNativeRegion(language + " (" + region + ")") == region
  {
    var name := language + " (" + region + ")";
    var open, close := |language| + 1, |name| - 1;
    assert name[open] == '(' && name[close] == ')';
    forall j | 0 <= j < open ensures name[j] != '(' {
      if j < |language| {
        assert name[j] == language[j];
      }
    }
    assert IndexOf(name, '(') == open;
    assert LastIndexOf(name, ')') == close;
    assert name[..open - 1] == language;
    assert name[open + 1..close] == region;
  }
}
