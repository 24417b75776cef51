/** Character-sequence helpers shared by the string-handling modules: the
    searching and replacing that the engine's string class provides. Strings
    are `seq<char>`; searches are case-sensitive unless a caller says
    otherwise. */
module Strings {

  predicate StartsWith(s: string, prefix: string) {
    |prefix| <= |s| && s[..|prefix|] == prefix
  }

  predicate EndsWith(s: string, suffix: string) {
    |suffix| <= |s| && s[|s| - |suffix|..] == suffix
  }

  /** `sub` occurs in `s` starting at index `i`. */
  predicate OccursAt(s: string, sub: string, i: int) {
    0 <= i && i + |sub| <= |s| && s[i..i + |sub|] == sub
  }

  predicate Contains(s: string, sub: string) {
    exists i :: 0 <= i <= |s| && OccursAt(s, sub, i)
  }

  predicate IsWhitespace(c: char) {
    c == ' ' || c == '\t' || c == '\n' || c == '\r' || c == '\U{000B}' || c == '\U{000C}'
  }

  predicate IsDigit(c: char) {
    '0' <= c <= '9'
  }

  predicate IsAlpha(c: char) {
    ('a' <= c <= 'z') || ('A' <= c <= 'Z')
  }

  /** ASCII lower-casing, as used by the case-insensitive comparisons. */
  function ToLowerChar(c: char): (r: char)
    ensures 'A' <= c <= 'Z' ==> r != c && 'a' <= r <= 'z'
    ensures !('A' <= c <= 'Z') ==> r == c
  {
    if 'A' <= c <= 'Z' then (c as int + 32) as char else c
  }

  function ToLower(s: string): (r: string)
    ensures |r| == |s|
    ensures forall i :: 0 <= i < |s| ==> r[i] == ToLowerChar(s[i])
  {
    if s == [] then [] else [ToLowerChar(s[0])] + ToLower(s[1..])
  }

  /** The engine's string equality, which ignores (ASCII) case. */
  predicate EqualsIgnoreCase(a: string, b: string) {
    ToLower(a) == ToLower(b)
  }

  lemma ToLowerAppend(a: string, b: string)
    ensures ToLower(a + b) == ToLower(a) + ToLower(b)
  {
    assert forall i :: 0 <= i < |a + b| ==> ToLower(a + b)[i] == (ToLower(a) + ToLower(b))[i];
  }

  lemma ToLowerKeepsDigits(s: string)
    requires AllDigits(s)
    ensures ToLower(s) == s
  {
    assert forall i :: 0 <= i < |s| ==> ToLower(s)[i] == s[i];
  }

  /** Index of the last element of `s` satisfying `p`, or -1 (INDEX_NONE). */
  function LastWhere(s: string, p: char -> bool): (r: int)
    ensures -1 <= r < |s|
    ensures r >= 0 ==> p(s[r])
    ensures forall j :: r < j < |s| ==> !p(s[j])
  {
    if s == [] then -1
    else if p(s[|s| - 1]) then |s| - 1
    else LastWhere(s[..|s| - 1], p)
  }

  /** Index of the last occurrence of `c` in `s`, or -1 (INDEX_NONE). */
  function LastIndexOf(s: string, c: char): (r: int)
    ensures -1 <= r < |s|
    ensures r >= 0 ==> s[r] == c
    ensures forall j :: r < j < |s| ==> s[j] != c
    ensures r == -1 <==> c !in s
  {
    if s == [] then -1
    else if s[|s| - 1] == c then |s| - 1
    else LastIndexOf(s[..|s| - 1], c)
  }

  /** Index of the first occurrence of `c` in `s`, or -1. */
  function IndexOf(s: string, c: char): (r: int)
    ensures -1 <= r < |s|
    ensures r >= 0 ==> s[r] == c
    ensures forall j :: 0 <= j < |s| && (r == -1 || j < r) ==> s[j] != c
    ensures r == -1 <==> c !in s
  {
    if s == [] then -1
    else if s[0] == c then 0
    else var k := IndexOf(s[1..], c); if k == -1 then -1 else k + 1
  }

  /** The first `count` characters, with `count` clamped to [0, |s|]. */
  function Left(s: string, count: int): (r: string)
    ensures |r| == if count < 0 then 0 else if count > |s| then |s| else count
    ensures StartsWith(s, r)
  {
    if count <= 0 then [] else if count >= |s| then s else s[..count]
  }

  /** The characters from `start` up to `start + count`, both ends clamped
      into the string and the end never before the start. */
  function Mid(s: string, start: nat, count: int): (r: string)
    requires start + count >= 0
    ensures start <= |s| && start + count <= |s| && count >= 0 ==> r == s[start..start + count]
    ensures count <= 0 || start >= |s| ==> r == []
  {
    var lo := if start > |s| then |s| else start;
    var hi := if start + count < lo then lo else if start + count > |s| then |s| else start + count;
    s[lo..hi]
  }

  predicate AllDigits(s: string) {
    forall i :: 0 <= i < |s| ==> IsDigit(s[i])
  }

  function DigitChar(d: nat): (c: char)
    requires d < 10
    ensures IsDigit(c) && c as int - '0' as int == d
  {
    ('0' as int + d) as char
  }

  /** The decimal text of `n`, without leading zeros ("%i"). */
  function DecimalText(n: nat): (r: string)
    ensures |r| >= 1 && AllDigits(r)
    ensures n >= 10 ==> r[0] != '0'
  {
    if n < 10 then [DigitChar(n)] else DecimalText(n / 10) + [DigitChar(n % 10)]
  }

  /** The number a string of decimal digits denotes. */
  function DigitsValue(s: string): nat
    requires AllDigits(s)
  {
    if s == [] then 0 else DigitsValue(s[..|s| - 1]) * 10 + (s[|s| - 1] as int - '0' as int)
  }

  /** Reading back the decimal text of a number gives the number. */
  lemma {:induction false} DecimalTextValue(n: nat)
    ensures DigitsValue(DecimalText(n)) == n
  {
    if n >= 10 {
      DecimalTextValue(n / 10);
      var t := DecimalText(n);
      assert t[..|t| - 1] == DecimalText(n / 10);
    }
  }

  function Zeros(k: nat): (r: string)
    ensures |r| == k && AllDigits(r)
    ensures forall i :: 0 <= i < k ==> r[i] == '0'
  {
    if k == 0 then [] else Zeros(k - 1) + ['0']
  }

  /** The decimal text of `n` padded with leading zeros to at least `width`
      characters ("%02i", "%03i"). */
  function ZeroPad(n: nat, width: nat): (r: string)
    ensures AllDigits(r) && |r| >= width
  {
    var t := DecimalText(n);
    (if |t| < width then Zeros(width - |t|) else []) + t
  }

  /** Leading zeros do not change the value of a digit string. */
  lemma {:induction false} LeadingZerosValue(k: nat, s: string)
    requires AllDigits(s)
    ensures DigitsValue(Zeros(k) + s) == DigitsValue(s)
    decreases |s|
  {
    if s == [] {
      assert Zeros(k) + s == Zeros(k);
      ZerosValue(k);
    } else {
      var t := Zeros(k) + s;
      assert t[..|t| - 1] == Zeros(k) + s[..|s| - 1];
      LeadingZerosValue(k, s[..|s| - 1]);
    }
  }

  lemma {:induction false} ZerosValue(k: nat)
    ensures DigitsValue(Zeros(k)) == 0
  {
    if k > 0 {
      ZerosValue(k - 1);
      assert Zeros(k)[..k - 1] == Zeros(k - 1);
    }
  }

  lemma ZeroPadValue(n: nat, width: nat)
    ensures DigitsValue(ZeroPad(n, width)) == n
  {
    var t := DecimalText(n);
    DecimalTextValue(n);
    if |t| < width {
      LeadingZerosValue(width - |t|, t);
    } else {
      assert ZeroPad(n, width) == t;
    }
  }

  /** The longest prefix of decimal digits. */
  function LeadingDigits(s: string): (r: string)
    ensures AllDigits(r) && StartsWith(s, r)
    ensures AllDigits(s) ==> r == s
  {
    if s == [] || !IsDigit(s[0]) then [] else [s[0]] + LeadingDigits(s[1..])
  }

  /** C's atoi: leading whitespace, an optional sign, then as many decimal
      digits as follow; 0 when there are none. */
  function Atoi(s: string): int {
    if s != [] && IsWhitespace(s[0]) then Atoi(s[1..])
    else if s != [] && s[0] == '-' then 0 - DigitsValue(LeadingDigits(s[1..])) as int
    else if s != [] && s[0] == '+' then DigitsValue(LeadingDigits(s[1..]))
    else DigitsValue(LeadingDigits(s))
  }

  lemma AtoiDigits(s: string)
    requires AllDigits(s)
    ensures Atoi(s) == DigitsValue(s)
  {
  }

  /** Index of the first occurrence of `sub` at or after `from`, or -1. */
  function FindFrom(s: string, sub: string, from: nat): (r: int)
    requires from <= |s|
    ensures r == -1 || (from <= r && OccursAt(s, sub, r))
    ensures forall j :: from <= j && (r == -1 || j < r) ==> !OccursAt(s, sub, j)
    decreases |s| - from
  {
    if from + |sub| > |s| then -1
    else if s[from..from + |sub|] == sub then from
    else FindFrom(s, sub, from + 1)
  }

  function Find(s: string, sub: string): (r: int)
    ensures r == -1 <==> !Contains(s, sub)
    ensures r >= 0 ==> OccursAt(s, sub, r) && forall j :: 0 <= j < r ==> !OccursAt(s, sub, j)
  {
    FindFrom(s, sub, 0)
  }

  /** Left-to-right, non-overlapping replacement of every `from` by `to`. */
  function ReplaceAll(s: string, from: string, to: string): string
    requires from != []
  {
    if |s| < |from| then s
    else if s[..|from|] == from then to + ReplaceAll(s[|from|..], from, to)
    else [s[0]] + ReplaceAll(s[1..], from, to)
  }

  /** EqualsIgnoreCase one character at a time, the form in which the
      engine's search compares a candidate with the pattern. */
  predicate MatchesIgnoreCase(w: string, p: string)
    decreases |p|
  {
    |w| == |p| && (p == [] || (ToLowerChar(w[0]) == ToLowerChar(p[0]) && MatchesIgnoreCase(w[1..], p[1..])))
  }

  lemma {:induction false} MatchesIgnoreCaseIff(w: string, p: string)
    ensures MatchesIgnoreCase(w, p) <==> EqualsIgnoreCase(w, p)
    decreases |p|
  {
    if |w| == |p| && p != [] {
      MatchesIgnoreCaseIff(w[1..], p[1..]);
      assert ToLower(w) == [ToLowerChar(w[0])] + ToLower(w[1..]);
      assert ToLower(p) == [ToLowerChar(p[0])] + ToLower(p[1..]);
    }
  }

  /** `sub` starts at index `i` of `s` when letter case is ignored. */
  predicate OccursAtIgnoreCase(s: string, sub: string, i: int) {
    0 <= i && i + |sub| <= |s| && MatchesIgnoreCase(s[i..i + |sub|], sub)
  }

  /** Left-to-right, non-overlapping replacement of every `from`, matched
      ignoring letter case, by `to`. */
  function ReplaceAllIgnoreCase(s: string, from: string, to: string): string
    requires from != []
  {
    if |s| < |from| then s
    else if MatchesIgnoreCase(s[..|from|], from) then to + ReplaceAllIgnoreCase(s[|from|..], from, to)
    else [s[0]] + ReplaceAllIgnoreCase(s[1..], from, to)
  }

  /** Ignoring case matters only for letters: a text equals a pattern
      without letters ignoring case exactly when it equals it outright. */
  lemma EqualsIgnoreCaseWithoutLetters(w: string, from: string)
    requires forall i :: 0 <= i < |from| ==> !IsAlpha(from[i])
    ensures EqualsIgnoreCase(w, from) <==> w == from
  {
    if EqualsIgnoreCase(w, from) {
      assert ToLower(from) == from;
      forall i | 0 <= i < |w| ensures w[i] == from[i] {
        assert ToLowerChar(w[i]) == ToLower(w)[i];
      }
    }
  }

  /** For a pattern without letters the case-insensitive replacement is the
      exact one. */
  lemma {:induction false} ReplaceAllIgnoreCaseWithoutLetters(s: string, from: string, to: string)
    requires from != []
    requires forall i :: 0 <= i < |from| ==> !IsAlpha(from[i])
    ensures ReplaceAllIgnoreCase(s, from, to) == ReplaceAll(s, from, to)
  {
    if |s| >= |from| {
      EqualsIgnoreCaseWithoutLetters(s[..|from|], from);
      MatchesIgnoreCaseIff(s[..|from|], from);
      if s[..|from|] == from {
        ReplaceAllIgnoreCaseWithoutLetters(s[|from|..], from, to);
      } else {
        ReplaceAllIgnoreCaseWithoutLetters(s[1..], from, to);
      }
    }
  }

  /** Replacing a single character by a text without it removes it. */
  lemma {:induction false} ReplaceAllRemovesChar(s: string, c: char, to: string)
    requires c !in to
    ensures c !in ReplaceAll(s, [c], to)
  {
    if |s| >= 1 {
      if s[..1] == [c] {
        ReplaceAllRemovesChar(s[1..], c, to);
      } else {
        ReplaceAllRemovesChar(s[1..], c, to);
        assert s[0] != c;
      }
    }
  }

  /** Replacing a pattern by a strictly shorter text shortens any string that
      holds the pattern. */
  lemma {:induction false} ReplaceAllShrinks(s: string, from: string, to: string)
    requires from != [] && |to| < |from|
    ensures |ReplaceAll(s, from, to)| <= |s|
    ensures Contains(s, from) ==> |ReplaceAll(s, from, to)| < |s|
  {
    if |s| < |from| {
    } else if s[..|from|] == from {
      ReplaceAllShrinks(s[|from|..], from, to);
    } else {
      ReplaceAllShrinks(s[1..], from, to);
      if Contains(s, from) {
        var i :| 0 <= i <= |s| && OccursAt(s, from, i);
        assert i != 0;
        assert s[1..][i - 1..i - 1 + |from|] == s[i..i + |from|];
        assert OccursAt(s[1..], from, i - 1);
      }
    }
  }

  /** Replacement never leaves a character that is in neither the input nor
      the replacement text. */
  lemma {:induction false} ReplaceAllChars(s: string, from: string, to: string, c: char)
    requires from != []
    requires c in ReplaceAll(s, from, to)
    ensures c in s || c in to
  {
    if |s| < |from| {
    } else if s[..|from|] == from {
      if c !in to {
        ReplaceAllChars(s[|from|..], from, to, c);
      }
    } else {
      if c != s[0] {
        ReplaceAllChars(s[1..], from, to, c);
      }
    }
  }

  /** An occurrence in `[c] + t` is either at the front or an occurrence in `t`. */
  lemma ContainsCons(c: char, t: string, sub: string)
    ensures Contains([c] + t, sub) <==> OccursAt([c] + t, sub, 0) || Contains(t, sub)
  {
    var s := [c] + t;
    if Contains(s, sub) && !OccursAt(s, sub, 0) {
      var i :| 0 <= i <= |s| && OccursAt(s, sub, i);
      assert s[i..i + |sub|] == t[i - 1..i - 1 + |sub|];
      assert OccursAt(t, sub, i - 1);
    }
    if Contains(t, sub) {
      var j :| 0 <= j <= |t| && OccursAt(t, sub, j);
      assert s[j + 1..j + 1 + |sub|] == t[j..j + |sub|];
      assert OccursAt(s, sub, j + 1);
    }
  }

  /** Whatever occurs in a string occurs in any string it is a part of. */
  lemma ContainsSlice(s: string, lo: nat, hi: nat, sub: string)
    requires lo <= hi <= |s|
    requires Contains(s[lo..hi], sub)
    ensures Contains(s, sub)
  {
    var i :| 0 <= i <= |s[lo..hi]| && OccursAt(s[lo..hi], sub, i);
    var inner, outer := s[lo..hi][i..i + |sub|], s[lo + i..lo + i + |sub|];
    forall k | 0 <= k < |sub| ensures inner[k] == outer[k] { }
    assert inner == outer;
    assert OccursAt(s, sub, lo + i);
  }
}
