/** FGenericCrashContext: the XML text of a crash report. Values are escaped
    with the five predefined entities of section 4.6 of XML 1.0 plus the
    engine's own "&nl;" for line feeds (carriage returns are dropped), and
    the report is accumulated in the CommonBuffer string field. */
module CrashContext {
  import opened Strings

  const NewLineTag: string := "&nl;"
  const CrashTypeCrash: string := "Crash"
  const CrashTypeAssert: string := "Assert"
  const CrashTypeEnsure: string := "Ensure"
  /** The Windows line terminator the engine appends after each element. */
  const LineTerminator: string := "\r\n"

  /** The escaping chain in the engine's order: '&' first, so the entities
      it introduces are never escaped again. The engine matches ignoring
      case; no pattern here holds a letter, so exact matching is the same
      (ReplaceAllIgnoreCaseWithoutLetters). */
  function EscapeChain(text: string): string {
    ReplaceAll(ReplaceAll(ReplaceAll(ReplaceAll(ReplaceAll(ReplaceAll(ReplaceAll(
      text, "&", "&amp;"), "\"", "&quot;"), "'", "&apos;"), "<", "&lt;"), ">", "&gt;"),
      "\n", NewLineTag), "\r", "")
  }

  /** Escaping replaces each character by its escaped form on its own
      (EscapeRemovesSpecials: no markup character survives it). */
  function EscapeXMLString(text: string): (r: string)
    ensures r == EscapeEach(text)
  {
    EscapeIsPerCharacter(text);
    EscapeChain(text)
  }

  /** The unescaping chain in the engine's order, each entity matched
      ignoring case. Text without '&' holds no entity and passes unchanged. */
  function UnescapeXMLString(text: string): (r: string)
    ensures '&' !in text ==> r == text
  {
    AmpersandFreeKept(text, "&amp;", "&");
    AmpersandFreeKept(text, "&quot;", "\"");
    AmpersandFreeKept(text, "&apos;", "'");
    AmpersandFreeKept(text, "&lt;", "<");
    AmpersandFreeKept(text, "&gt;", ">");
    AmpersandFreeKept(text, NewLineTag, "\n");
    ReplaceAllIgnoreCase(ReplaceAllIgnoreCase(ReplaceAllIgnoreCase(ReplaceAllIgnoreCase(
      ReplaceAllIgnoreCase(ReplaceAllIgnoreCase(
      text, "&amp;", "&"), "&quot;", "\""), "&apos;", "'"), "&lt;", "<"), "&gt;", ">"),
      NewLineTag, "\n")
  }

  /** Only '&' lowers to '&', so a pattern that starts with '&' matches
      nowhere in text without it. */
  lemma {:induction false} AmpersandFreeKept(s: string, from: string, to: string)
    requires from != [] && from[0] == '&'
    ensures '&' !in s ==> ReplaceAllIgnoreCase(s, from, to) == s
  {
    if '&' !in s && |s| >= |from| {
      NoAmpersandNoMatch(s[0], s[1..], from);
      assert [s[0]] + s[1..] == s;
      AmpersandFreeKept(s[1..], from, to);
    }
  }

  /** The escaped form of one character, as a reference definition. */
  function EscapeChar(c: char): string {
    if c == '&' then "&amp;"
    else if c == '"' then "&quot;"
    else if c == '\'' then "&apos;"
    else if c == '<' then "&lt;"
    else if c == '>' then "&gt;"
    else if c == '\n' then NewLineTag
    else if c == '\r' then ""
    else [c]
  }

  /** Every character replaced by its escaped form. */
  function EscapeEach(s: string): (r: string)
    ensures |s| <= |r| || '\r' in s
  {
    if s == [] then [] else EscapeChar(s[0]) + EscapeEach(s[1..])
  }

  // ---- escaping, one replacement at a time ----

  /** The characters the escaping chain replaces, in its order. */
  const EscapedChars: seq<char> := ['&', '"', '\'', '<', '>', '\n', '\r']

  /** The first `k` replacements of the chain. */
  function EscapeSteps(s: string, k: nat): string
    requires k <= 7
  {
    if k == 0 then s
    else ReplaceAll(EscapeSteps(s, k - 1), [EscapedChars[k - 1]], EscapeChar(EscapedChars[k - 1]))
  }

  /** What one character has become after the first `k` replacements. */
  function EscapeToken(k: nat, c: char): string
    requires k <= 7
  {
    if c in EscapedChars[..k] then EscapeChar(c) else [c]
  }

  function EscapeTokens(k: nat, s: string): string
    requires k <= 7
  {
    if s == [] then [] else EscapeToken(k, s[0]) + EscapeTokens(k, s[1..])
  }

  /** A prefix in which the pattern starts nowhere is copied unchanged. */
  lemma {:induction false} ReplaceAllSkip(x: string, rest: string, from: string, to: string)
    requires from != []
    requires forall j :: 0 <= j < |x| ==> !OccursAt(x + rest, from, j)
    ensures ReplaceAll(x + rest, from, to) == x + ReplaceAll(rest, from, to)
  {
    if x != [] {
      var s := x + rest;
      assert !OccursAt(s, from, 0);
      if |s| >= |from| {
        var s1 := s[1..];
        assert s1 == x[1..] + rest;
        forall j | 0 <= j < |x| - 1
          ensures !OccursAt(s1, from, j)
        {
          assert !OccursAt(s, from, j + 1);
          if j + |from| <= |s1| {
            assert s1[j..j + |from|] == s[j + 1..j + 1 + |from|];
          }
        }
        ReplaceAllSkip(x[1..], rest, from, to);
        assert ReplaceAll(s, from, to) == [s[0]] + ReplaceAll(s1, from, to);
        assert [s[0]] + x[1..] == x;
      } else {
        assert ReplaceAll(rest, from, to) == rest;
      }
    } else {
      assert x + rest == rest;
    }
  }

  /** A leading occurrence is replaced. */
  lemma ReplaceAllHead(from: string, rest: string, to: string)
    requires from != []
    ensures ReplaceAll(from + rest, from, to) == to + ReplaceAll(rest, from, to)
  {
    assert (from + rest)[..|from|] == from;
    assert (from + rest)[|from|..] == rest;
  }

  /** A single-character pattern that a prefix lacks starts nowhere in it. */
  lemma SkipCharFree(x: string, rest: string, d: char, to: string)
    requires d !in x
    ensures ReplaceAll(x + rest, [d], to) == x + ReplaceAll(rest, [d], to)
  {
    forall j | 0 <= j < |x| ensures !OccursAt(x + rest, [d], j) {
      assert (x + rest)[j..j + 1] == [x[j]];
    }
    ReplaceAllSkip(x, rest, [d], to);
  }

  /** Replacement number `k` turns the tokens of step `k` into those of
      step `k + 1`. */
  lemma {:induction false} EscapeStep(k: nat, s: string)
    requires k < 7
    ensures ReplaceAll(EscapeTokens(k, s), [EscapedChars[k]], EscapeChar(EscapedChars[k]))
            == EscapeTokens(k + 1, s)
  {
    var d := EscapedChars[k];
    if s != [] {
      var c := s[0];
      EscapeStep(k, s[1..]);
      TokenStep(k, c);
      if c == d {
        ReplaceAllHead([d], EscapeTokens(k, s[1..]), EscapeChar(d));
      } else {
        SkipCharFree(EscapeToken(k, c), EscapeTokens(k, s[1..]), d, EscapeChar(d));
      }
    }
  }

  /** Replacement number `k` escapes its own character, which is still
      unescaped, and finds no copy of it in any other token. */
  lemma TokenStep(k: nat, c: char)
    requires k < 7
    ensures var d := EscapedChars[k];
      && (c == d ==> EscapeToken(k, c) == [d] && EscapeToken(k + 1, c) == EscapeChar(d))
      && (c != d ==> d !in EscapeToken(k, c) && EscapeToken(k + 1, c) == EscapeToken(k, c))
  {
    assert EscapedChars[..k + 1] == EscapedChars[..k] + [EscapedChars[k]];
  }

  lemma {:induction false} EscapeTokensNone(s: string)
    ensures EscapeTokens(0, s) == s
  {
    if s != [] {
      EscapeTokensNone(s[1..]);
    }
  }

  lemma {:induction false} EscapeTokensAll(s: string)
    ensures EscapeTokens(7, s) == EscapeEach(s)
  {
    if s != [] {
      assert EscapedChars[..7] == EscapedChars;
      EscapeTokensAll(s[1..]);
    }
  }

  lemma {:induction false} EscapeStepsTokens(s: string, k: nat)
    requires k <= 7
    ensures EscapeSteps(s, k) == EscapeTokens(k, s)
  {
    if k == 0 {
      EscapeTokensNone(s);
    } else {
      EscapeStepsTokens(s, k - 1);
      EscapeStep(k - 1, s);
    }
  }

  /** The replacement chain escapes each character independently. */
  lemma EscapeIsPerCharacter(s: string)
    ensures EscapeChain(s) == EscapeEach(s)
  {
    var e1 := ReplaceAll(s, "&", "&amp;");
    var e2 := ReplaceAll(e1, "\"", "&quot;");
    var e3 := ReplaceAll(e2, "'", "&apos;");
    var e4 := ReplaceAll(e3, "<", "&lt;");
    var e5 := ReplaceAll(e4, ">", "&gt;");
    var e6 := ReplaceAll(e5, "\n", NewLineTag);
    assert EscapeSteps(s, 1) == e1;
    assert EscapeSteps(s, 2) == e2;
    assert EscapeSteps(s, 3) == e3;
    assert EscapeSteps(s, 4) == e4;
    assert EscapeSteps(s, 5) == e5;
    assert EscapeSteps(s, 6) == e6;
    assert EscapeSteps(s, 7) == EscapeChain(s);
    EscapeStepsTokens(s, 7);
    EscapeTokensAll(s);
  }

  /** The characters XML text may not carry unescaped here. */
  predicate IsSpecial(c: char) {
    c == '<' || c == '>' || c == '"' || c == '\'' || c == '\n' || c == '\r'
  }

  predicate NoSpecials(s: string) {
    forall i :: 0 <= i < |s| ==> !IsSpecial(s[i])
  }

  /** No markup character, line feed or carriage return survives escaping. */
  lemma EscapeRemovesSpecials(s: string)
    ensures NoSpecials(EscapeXMLString(s))
  {
    EscapeEachClean(s);
  }

  lemma {:induction false} EscapeEachClean(s: string)
    ensures NoSpecials(EscapeEach(s))
  {
    if s != [] {
      EscapeEachClean(s[1..]);
      EscapeCharClean(s[0]);
      var a, b := EscapeChar(s[0]), EscapeEach(s[1..]);
      assert forall i :: 0 <= i < |a + b| ==> (a + b)[i] == if i < |a| then a[i] else b[i - |a|];
    }
  }

  lemma EscapeCharClean(c: char)
    ensures NoSpecials(EscapeChar(c))
  {
  }

  // ---- unescaping the escaped text ----

  /** "&" + lower-case letters + ";". */
  predicate IsEntity(e: string) {
    |e| >= 2 && e[0] == '&' && e[|e| - 1] == ';' &&
    forall i :: 0 < i < |e| - 1 ==> 'a' <= e[i] <= 'z'
  }

  /** A different entity starts nowhere inside an entity, whatever follows. */
  lemma EntityNoOverlap(e: string, p: string, rest: string)
    requires IsEntity(e) && IsEntity(p) && e != p
    ensures forall j :: 0 <= j < |e| ==> !OccursAt(e + rest, p, j)
  {
    var s := e + rest;
    forall j | 0 <= j < |e| ensures !OccursAt(s, p, j) {
      if j > 0 {
        if j + |p| <= |s| {
          assert s[j..j + |p|][0] != p[0];
        }
      } else if |p| < |e| {
        assert s[0..|p|][|p| - 1] != p[|p| - 1];
      } else if |p| == |e| {
        assert s[0..|p|] == e;
      } else if |p| <= |s| {
        assert s[0..|p|][|e| - 1] != p[|e| - 1];
      }
    }
  }

  /** An entity is its own lower-case form. */
  lemma EntityIsLowerCase(e: string)
    requires IsEntity(e)
    ensures ToLower(e) == e
  {
    forall i | 0 <= i < |e| ensures ToLower(e)[i] == e[i] {
      assert ToLowerChar(e[i]) == e[i];
    }
  }

  /** The same, with entities matched ignoring case: a different entity
      starts nowhere inside an entity. */
  lemma EntityNoOverlapIgnoreCase(e: string, p: string, rest: string)
    requires IsEntity(e) && IsEntity(p) && e != p
    ensures forall j :: 0 <= j < |e| ==> !OccursAtIgnoreCase(e + rest, p, j)
  {
    var s := e + rest;
    EntityIsLowerCase(p);
    forall j | 0 <= j < |e| ensures !OccursAtIgnoreCase(s, p, j) {
      if j + |p| <= |s| {
        var w := s[j..j + |p|];
        MatchesIgnoreCaseIff(w, p);
        if j > 0 {
          assert ToLower(w)[0] != ToLower(p)[0];
        } else if |p| < |e| {
          assert ToLower(w)[|p| - 1] != ToLower(p)[|p| - 1];
        } else if |p| == |e| {
          assert w == e;
          EntityIsLowerCase(e);
        } else {
          assert ToLower(w)[|e| - 1] != ToLower(p)[|e| - 1];
        }
      }
    }
  }

  /** A prefix in which the pattern starts nowhere, ignoring case, is
      copied unchanged. */
  lemma {:induction false} ReplaceAllIgnoreCaseSkip(x: string, rest: string, from: string, to: string)
    requires from != []
    requires forall j :: 0 <= j < |x| ==> !OccursAtIgnoreCase(x + rest, from, j)
    ensures ReplaceAllIgnoreCase(x + rest, from, to) == x + ReplaceAllIgnoreCase(rest, from, to)
  {
    if x != [] {
      var s := x + rest;
      ReplaceAllIgnoreCaseCons(s, from, to);
      assert s[1..] == x[1..] + rest;
      forall j | 0 <= j < |x| - 1
        ensures !OccursAtIgnoreCase(x[1..] + rest, from, j)
      {
        OccursAtIgnoreCaseTail(s, from, j);
      }
      ReplaceAllIgnoreCaseSkip(x[1..], rest, from, to);
      var r := ReplaceAllIgnoreCase(rest, from, to);
      assert ReplaceAllIgnoreCase(s, from, to) == [s[0]] + (x[1..] + r);
      assert [s[0]] + (x[1..] + r) == x + r by {
        assert [s[0]] + x[1..] == x;
      }
    } else {
      assert x + rest == rest;
    }
  }

  /** Where the pattern does not start at the front, the first character is
      copied and the rest replaced. */
  lemma ReplaceAllIgnoreCaseCons(s: string, from: string, to: string)
    requires from != [] && |s| > 0 && !OccursAtIgnoreCase(s, from, 0)
    ensures ReplaceAllIgnoreCase(s, from, to) == [s[0]] + ReplaceAllIgnoreCase(s[1..], from, to)
  {
    if |s| < |from| {
      assert ReplaceAllIgnoreCase(s[1..], from, to) == s[1..];
      assert [s[0]] + s[1..] == s;
    } else {
      assert s[..|from|] == s[0..|from|];
    }
  }

  /** An occurrence in the tail of a text is one a place further on in it. */
  lemma OccursAtIgnoreCaseTail(s: string, from: string, j: nat)
    requires |s| > 0
    ensures OccursAtIgnoreCase(s[1..], from, j) == OccursAtIgnoreCase(s, from, j + 1)
  {
    if j + |from| <= |s| - 1 {
      assert s[1..][j..j + |from|] == s[j + 1..j + 1 + |from|];
    }
  }

  /** A pattern that starts with '&' does not start at a character other
      than '&', whatever the case. */
  lemma NoAmpersandNoMatch(c: char, rest: string, from: string)
    requires c != '&' && from != [] && from[0] == '&'
    ensures !OccursAtIgnoreCase([c] + rest, from, 0)
  {
    var s := [c] + rest;
    if |from| <= |s| {
      assert s[0..|from|][0] == c;
    }
  }

  /** A leading occurrence is replaced. */
  lemma ReplaceAllIgnoreCaseHead(from: string, rest: string, to: string)
    requires from != []
    ensures ReplaceAllIgnoreCase(from + rest, from, to) == to + ReplaceAllIgnoreCase(rest, from, to)
  {
    MatchesIgnoreCaseIff(from, from);
    assert (from + rest)[..|from|] == from;
    assert (from + rest)[|from|..] == rest;
  }

  /** The entities the unescaping chain replaces, in its order, and the
      characters they stand for. */
  const Entities: seq<string> := ["&amp;", "&quot;", "&apos;", "&lt;", "&gt;", NewLineTag]
  const EntityChars: seq<char> := ['&', '"', '\'', '<', '>', '\n']

  lemma EntitiesAreEntities(i: nat)
    requires i < 6
    ensures IsEntity(Entities[i]) && EscapeChar(EntityChars[i]) == Entities[i]
  {
  }

  function UnescapeSteps(s: string, k: nat): string
    requires k <= 6
  {
    if k == 0 then s
    else ReplaceAllIgnoreCase(UnescapeSteps(s, k - 1), Entities[k - 1], [EntityChars[k - 1]])
  }

  /** What an escaped character has become after `k` unescaping steps. */
  function UnescapeToken(k: nat, c: char): string
    requires k <= 6
  {
    if c in EntityChars[..k] then [c] else EscapeChar(c)
  }

  function UnescapeTokens(k: nat, s: string): string
    requires k <= 6
  {
    if s == [] then [] else UnescapeToken(k, s[0]) + UnescapeTokens(k, s[1..])
  }

  /** The escaped form of a character other than '&' and '\r' is either the
      character itself (never '&') or an entity. */
  lemma EscapeCharShape(c: char)
    requires c != '&' && c != '\r'
    ensures EscapeChar(c) == [c] || IsEntity(EscapeChar(c))
    ensures EscapeChar(c) == [c] <==> c !in EntityChars
  {
  }

  /** Step `k` unescapes its own entity, which is still escaped. */
  lemma UnescapeTokenOwn(k: nat, rest: string)
    requires k < 6
    ensures var c := EntityChars[k];
      ReplaceAllIgnoreCase(UnescapeToken(k, c) + rest, Entities[k], [c])
      == UnescapeToken(k + 1, c) + ReplaceAllIgnoreCase(rest, Entities[k], [c])
  {
    var c := EntityChars[k];
    EntitiesAreEntities(k);
    assert EntityChars[..k + 1] == EntityChars[..k] + [c];
    assert c !in EntityChars[..k];
    ReplaceAllIgnoreCaseHead(Entities[k], rest, [c]);
  }

  /** Step `k` finds its entity nowhere in another character's token, in
      any letter case, and leaves that token as it is. */
  lemma UnescapeTokenOther(k: nat, c: char, rest: string)
    requires k < 6 && c != '&' && c != '\r' && c != EntityChars[k]
    ensures ReplaceAllIgnoreCase(UnescapeToken(k, c) + rest, Entities[k], [EntityChars[k]])
            == UnescapeToken(k + 1, c) + ReplaceAllIgnoreCase(rest, Entities[k], [EntityChars[k]])
  {
    var t, p := UnescapeToken(k, c), Entities[k];
    EntitiesAreEntities(k);
    EscapeCharShape(c);
    assert EntityChars[..k + 1] == EntityChars[..k] + [EntityChars[k]];
    assert UnescapeToken(k + 1, c) == t;
    if t == [c] {
      NoAmpersandNoMatch(c, rest, p);
    } else {
      EntityNoOverlapIgnoreCase(t, p, rest);
    }
    ReplaceAllIgnoreCaseSkip(t, rest, p, [EntityChars[k]]);
  }

  /** Unescaping step `k` turns the tokens of step `k` into those of step
      `k + 1`; without '&' in the text, "&amp;" occurs nowhere in its
      escaped form. */
  lemma {:induction false} UnescapeStep(k: nat, s: string)
    requires k < 6 && '&' !in s && '\r' !in s
    ensures ReplaceAllIgnoreCase(UnescapeTokens(k, s), Entities[k], [EntityChars[k]])
            == UnescapeTokens(k + 1, s)
  {
    if s != [] {
      var c := s[0];
      UnescapeStep(k, s[1..]);
      if c == EntityChars[k] {
        UnescapeTokenOwn(k, UnescapeTokens(k, s[1..]));
      } else {
        UnescapeTokenOther(k, c, UnescapeTokens(k, s[1..]));
      }
    }
  }

  lemma {:induction false} UnescapeTokensNone(s: string)
    ensures UnescapeTokens(0, s) == EscapeEach(s)
  {
    if s != [] {
      UnescapeTokensNone(s[1..]);
    }
  }

  lemma {:induction false} UnescapeTokensAll(s: string)
    requires '&' !in s && '\r' !in s
    ensures UnescapeTokens(6, s) == s
  {
    if s != [] {
      assert EntityChars[..6] == EntityChars;
      EscapeCharShape(s[0]);
      UnescapeTokensAll(s[1..]);
    }
  }

  lemma {:induction false} UnescapeStepsTokens(s: string, k: nat)
    requires k <= 6 && '&' !in s && '\r' !in s
    ensures UnescapeSteps(EscapeEach(s), k) == UnescapeTokens(k, s)
  {
    if k == 0 {
      UnescapeTokensNone(s);
    } else {
      UnescapeStepsTokens(s, k - 1);
      UnescapeStep(k - 1, s);
    }
  }

  /** Unescaping undoes escaping for text with no '&' and no carriage
      return (those two do not survive the round trip). */
  lemma UnescapeEscape(s: string)
    requires '&' !in s && '\r' !in s
    ensures UnescapeXMLString(EscapeXMLString(s)) == s
  {
    var x := EscapeEach(s);
    var u1 := ReplaceAllIgnoreCase(x, "&amp;", "&");
    var u2 := ReplaceAllIgnoreCase(u1, "&quot;", "\"");
    var u3 := ReplaceAllIgnoreCase(u2, "&apos;", "'");
    var u4 := ReplaceAllIgnoreCase(u3, "&lt;", "<");
    var u5 := ReplaceAllIgnoreCase(u4, "&gt;", ">");
    assert UnescapeSteps(x, 1) == u1;
    assert UnescapeSteps(x, 2) == u2;
    assert UnescapeSteps(x, 3) == u3;
    assert UnescapeSteps(x, 4) == u4;
    assert UnescapeSteps(x, 5) == u5;
    assert UnescapeSteps(x, 6) == UnescapeXMLString(x);
    UnescapeStepsTokens(s, 6);
    UnescapeTokensAll(s);
  }

  /** The two characters the round trip excludes do break it: a carriage
      return is dropped, and text that already reads like an entity is
      unescaped twice ("&lt;" comes back as "<", because "&amp;" is undone
      first). */
  lemma UnescapeEscapeNeedsNoCarriageReturn()
    ensures UnescapeXMLString(EscapeXMLString("\r")) != "\r"
  {
    assert EscapeEach("\r") == "";
  }

  lemma UnescapeEscapeNeedsNoAmpersand()
    ensures UnescapeXMLString(EscapeXMLString("&lt;")) == "<"
  {
    EscapeOfEntityText();
    UnescapeTwice();
  }

  lemma EscapeOfEntityText()
    ensures EscapeEach("&lt;") == "&amp;lt;"
  {
    assert "&lt;"[1..] == "lt;" && "lt;"[1..] == "t;" && "t;"[1..] == ";" && ";"[1..] == "";
    assert EscapeEach(";") == ";";
    assert EscapeEach("t;") == "t;";
    assert EscapeEach("lt;") == "lt;";
  }

  lemma UnescapeTwice()
    ensures UnescapeXMLString("&amp;lt;") == "<"
  {
    assert "&amp;" + "lt;" == "&amp;lt;";
    ReplaceAllIgnoreCaseHead("&amp;", "lt;", "&");
    assert ReplaceAllIgnoreCase("lt;", "&amp;", "&") == "lt;";
    assert ReplaceAllIgnoreCase("&amp;lt;", "&amp;", "&") == "&lt;";
    assert "&lt;" + "" == "&lt;";
    ReplaceAllIgnoreCaseHead("&lt;", "", "<");
    assert ReplaceAllIgnoreCase("&lt;", "&quot;", "\"") == "&lt;";
    assert ReplaceAllIgnoreCase("&lt;", "&apos;", "'") == "&lt;";
    assert ReplaceAllIgnoreCase("<", "&gt;", ">") == "<";
    assert ReplaceAllIgnoreCase("<", NewLineTag, "\n") == "<";
  }

  /** Entities are matched ignoring case: "&LT;" unescapes to "<". */
  lemma UnescapeIgnoresCase()
    ensures UnescapeXMLString("&LT;") == "<"
  {
    assert ReplaceAllIgnoreCase("&LT;", "&amp;", "&") == "&LT;";
    assert ReplaceAllIgnoreCase("&LT;", "&quot;", "\"") == "&LT;";
    assert ReplaceAllIgnoreCase("&LT;", "&apos;", "'") == "&LT;";
    assert ToLower("&LT;") == "&lt;";
    MatchesIgnoreCaseIff("&LT;", "&lt;");
    assert ReplaceAllIgnoreCase("&LT;", "&lt;", "<") == "<" + ReplaceAllIgnoreCase("", "&lt;", "<");
    assert ReplaceAllIgnoreCase("<", "&gt;", ">") == "<";
    assert ReplaceAllIgnoreCase("<", NewLineTag, "\n") == "<";
  }

  /** The crash type names the ensure first, then the assert, else a crash. */
  function GetCrashTypeString(isEnsure: bool, isAssert: bool): (r: string)
    ensures isEnsure ==> r == CrashTypeEnsure
    ensures !isEnsure && isAssert ==> r == CrashTypeAssert
    ensures !isEnsure && !isAssert ==> r == CrashTypeCrash
  {
    if isEnsure then CrashTypeEnsure
    else if isAssert then CrashTypeAssert
    else CrashTypeCrash
  }

  /** The text of one property element. */
  function PropertyElement(name: string, value: string): string {
    "<" + name + ">" + EscapeXMLString(value) + "</" + name + ">" + LineTerminator
  }

  /** An element's body unescapes back to the value it was built from. */
  lemma PropertyElementHoldsValue(name: string, value: string)
    requires '&' !in value && '\r' !in value
    ensures var e := PropertyElement(name, value);
      var start := |name| + 2;
      var end := |e| - |name| - 3 - |LineTerminator|;
      start <= end && UnescapeXMLString(e[start..end]) == value
  {
    var e := PropertyElement(name, value);
    var esc := EscapeXMLString(value);
    var pre, post := "<" + name + ">", "</" + name + ">" + LineTerminator;
    assert e == pre + esc + post;
    assert e[|pre|..|pre| + |esc|] == esc;
    UnescapeEscape(value);
  }

  class CrashContextBuffer {
    var CommonBuffer: string

    constructor ()
      ensures CommonBuffer == []
    {
      CommonBuffer := [];
    }

    /** Appends "<Name>", the escaped value, "</Name>" and a line end. */
    method AddCrashProperty(name: string, value: string)
      modifies this
      ensures CommonBuffer == old(CommonBuffer) + PropertyElement(name, value)
    {
      CommonBuffer := CommonBuffer + "<" + name + ">" + EscapeXMLString(value) + "</" + name + ">" + LineTerminator;
    }

    method BeginSection(sectionName: string)
      modifies this
      ensures CommonBuffer == old(CommonBuffer) + "<" + sectionName + ">" + LineTerminator
    {
      CommonBuffer := CommonBuffer + "<" + sectionName + ">" + LineTerminator;
    }

    method EndSection(sectionName: string)
      modifies this
      ensures CommonBuffer == old(CommonBuffer) + "</" + sectionName + ">" + LineTerminator
    {
      CommonBuffer := CommonBuffer + "</" + sectionName + ">" + LineTerminator;
    }
  }
}
