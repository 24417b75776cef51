/** YTimespan: a signed time interval held as a count of 100-nanosecond
    ticks, its text form "[-][d.]hh:mm:ss.fff", the format-string printer
    that produces it and the forgiving parser that reads it back. */
module Timespan {
  import opened IntTypes
  import opened Strings
  import opened Wrappers

  const TicksPerMicrosecond: int := 10
  const TicksPerMillisecond: int := 10_000
  const TicksPerSecond: int := 10_000_000
  const TicksPerMinute: int := 600_000_000
  const TicksPerHour: int := 36_000_000_000
  const TicksPerDay: int := 864_000_000_000

  /** The tick range of MinValue() and MaxValue(): the whole int64 range. */
  const MinTicks: int := -0x8000_0000_0000_0000
  const MaxTicks: int := 0x7FFF_FFFF_FFFF_FFFF

  /** C++ remainder: it takes the sign of the dividend. */
  function Rem(a: int, b: int): int
    requires b > 0
  {
    a - b * TruncDiv(a, b)
  }

  function Magnitude(a: int): nat {
    if a < 0 then -a else a
  }

  /** The components the getters report; each carries the sign of the span. */
  function Days(ticks: int): int { TruncDiv(ticks, TicksPerDay) }
  function Hours(ticks: int): int { Rem(TruncDiv(ticks, TicksPerHour), 24) }
  function Minutes(ticks: int): int { Rem(TruncDiv(ticks, TicksPerMinute), 60) }
  function Seconds(ticks: int): int { Rem(TruncDiv(ticks, TicksPerSecond), 60) }
  function Milliseconds(ticks: int): int { Rem(TruncDiv(ticks, TicksPerMillisecond), 1000) }

  /** Truncating division is odd: negating the dividend negates the
      quotient, and so the remainder. */
  lemma TruncDivNegate(a: int, b: int)
    requires b > 0
    ensures TruncDiv(-a, b) == -TruncDiv(a, b)
    ensures Rem(-a, b) == -Rem(a, b)
  {
    var q := TruncDiv(a, b);
    assert b * TruncDiv(-a, b) == b * -q == -(b * q);
  }

  /** On non-negative values C++ and Dafny division agree. */
  lemma TruncDivNonNegative(a: int, b: int)
    requires a >= 0 && b > 0
    ensures TruncDiv(a, b) == a / b && Rem(a, b) == a % b
  {
  }

  /** The size of a component is the component of the span's size: the
      truncating getters treat a negative span as the mirror of a positive
      one. */
  lemma ComponentMagnitude(ticks: int, unit: int, modulus: int)
    requires unit > 0 && modulus > 0
    ensures Magnitude(Rem(TruncDiv(ticks, unit), modulus)) == (Magnitude(ticks) / unit) % modulus
  {
    var n := Magnitude(ticks);
    var q := n / unit;
    assert TruncDiv(n, unit) == q && q >= 0 by { TruncDivNonNegative(n, unit); }
    var r := q % modulus;
    assert Rem(q, modulus) == r && r >= 0 by { TruncDivNonNegative(q, modulus); }
    if ticks < 0 {
      assert ticks == -n;
      assert TruncDiv(ticks, unit) == -q by { TruncDivNegate(n, unit); }
      assert Rem(-q, modulus) == -r by { TruncDivNegate(q, modulus); }
    }
  }

  /** Whole days treat a negative span as the mirror of a positive one. */
  lemma DaysMirror(ticks: int)
    ensures Magnitude(Days(ticks)) == Magnitude(ticks) / TicksPerDay
  {
    var n: int := Magnitude(ticks);
    TruncDivNonNegative(n, TicksPerDay);
    if ticks < 0 {
      assert ticks == -n;
      TruncDivNegate(n, TicksPerDay);
    }
  }

  /** The tick count of a span given by its parts. */
  function TotalTicks(days: int, hours: int, minutes: int, seconds: int, milliseconds: int, microseconds: int): int {
    TicksPerMicrosecond * (1000 * (1000 * (60 * 60 * 24 * days + 60 * 60 * hours + 60 * minutes + seconds) + milliseconds) + microseconds)
  }

  /** The text each specifier letter of the format language stands for,
      for one span. The fractional totals (%D, %H, %M, %S, %F) are printed
      with printf's "%f", which is given as `totalText`. */
  function Fields(ticks: int, totalText: char -> string): map<char, string> {
    map[
      'n' := (if ticks < 0 then "-" else ""),
      'N' := (if ticks < 0 then "-" else "+"),
      'd' := DecimalText(Magnitude(Days(ticks))),
      'h' := ZeroPad(Magnitude(Hours(ticks)), 2),
      'm' := ZeroPad(Magnitude(Minutes(ticks)), 2),
      's' := ZeroPad(Magnitude(Seconds(ticks)), 2),
      'f' := ZeroPad(Magnitude(Milliseconds(ticks)), 3),
      'D' := totalText('D'),
      'H' := totalText('H'),
      'M' := totalText('M'),
      'S' := totalText('S'),
      'F' := totalText('F')]
  }

  /** The text of "%c": the field for a specifier letter, the letter itself
      for any other character. */
  function FieldText(c: char, fields: map<char, string>): string {
    if c in fields then fields[c] else [c]
  }

  /** The text ToString(Format) produces: other characters are copied, and
      a lone '%' at the end contributes nothing. */
  function Formatted(format: string, fields: map<char, string>): string
    decreases |format|
  {
    if format == [] then []
    else if format[0] != '%' then [format[0]] + Formatted(format[1..], fields)
    else if |format| == 1 then []
    else FieldText(format[1], fields) + Formatted(format[2..], fields)
  }

  /** Where the engine's scan reads next after position `i`: on a '%' the
      pointer is moved onto the following character before the loop's own
      step, even when that character is the terminator. */
  function NextPositionAsWritten(format: string, i: nat): nat
    requires i < |format|
  {
    if format[i] == '%' then i + 2 else i + 1
  }

  /** For the format "%" the next read is at index 2, one past the
      terminator at index 1, so the scan runs off the end of the string. */
  lemma TrailingPercentReadsPastEnd()
    ensures NextPositionAsWritten("%", 0) == |"%"| + 1
  {
  }

  /** Where the scan reads next when a trailing '%' stops at the
      terminator: never beyond the end of the format. */
  function NextPosition(format: string, i: nat): (r: nat)
    requires i < |format|
    ensures i < r <= |format|
    ensures format[i] == '%' && i + 1 < |format| ==> r == NextPositionAsWritten(format, i)
    ensures format[i] != '%' ==> r == NextPositionAsWritten(format, i)
  {
    if format[i] == '%' && i + 1 < |format| then i + 2 else i + 1
  }

  /** A format with no '%' is copied unchanged. */
  lemma {:induction false} FormatWithoutSpecifiers(format: string, fields: map<char, string>)
    requires '%' !in format
    ensures Formatted(format, fields) == format
    decreases |format|
  {
    if format != [] {
      assert '%' !in format[1..];
      FormatWithoutSpecifiers(format[1..], fields);
    }
  }

  lemma SpecifierStep(c: char, rest: string, fields: map<char, string>)
    ensures Formatted(['%', c] + rest, fields) == FieldText(c, fields) + Formatted(rest, fields)
  {
    assert (['%', c] + rest)[2..] == rest;
  }

  lemma LiteralStep(c: char, rest: string, fields: map<char, string>)
    requires c != '%'
    ensures Formatted([c] + rest, fields) == [c] + Formatted(rest, fields)
  {
    assert ([c] + rest)[1..] == rest;
  }

  /** "%n" gives '-' exactly for a negative span, and nothing otherwise;
      "%N" always gives a sign. */
  lemma SignSpecifiers(ticks: int, totalText: char -> string)
    ensures Formatted("%n", Fields(ticks, totalText)) == (if ticks < 0 then "-" else "")
    ensures Formatted("%N", Fields(ticks, totalText)) == (if ticks < 0 then "-" else "+")
  {
    SpecifierStep('n', [], Fields(ticks, totalText));
    SpecifierStep('N', [], Fields(ticks, totalText));
    assert "%n" == ['%', 'n'] + [];
    assert "%N" == ['%', 'N'] + [];
  }

  /** A letter that names no field stands for itself. */
  lemma UnknownSpecifierIsLiteral(ticks: int, c: char, rest: string, totalText: char -> string)
    requires c !in "nNdhmsfDHMSF"
    ensures Formatted(['%', c] + rest, Fields(ticks, totalText)) == [c] + Formatted(rest, Fields(ticks, totalText))
  {
    SpecifierStep(c, rest, Fields(ticks, totalText));
  }

  /** The reference text of a span: an optional '-', the days and a '.' when
      there are whole days, then hh:mm:ss.fff. */
  function TimespanText(ticks: int): string {
    var sign := if ticks < 0 then "-" else "";
    var clock := ZeroPad(Magnitude(Hours(ticks)), 2) + (":" + (ZeroPad(Magnitude(Minutes(ticks)), 2) + (":" +
      (ZeroPad(Magnitude(Seconds(ticks)), 2) + ("." + ZeroPad(Magnitude(Milliseconds(ticks)), 3))))));
    if Days(ticks) == 0 then sign + clock else sign + (DecimalText(Magnitude(Days(ticks))) + ("." + clock))
  }


  function NoTotals(c: char): string {
    []
  }

  /** The text of the clock part "%h:%m:%s.%f" of both default formats. */
  function ClockText(fields: map<char, string>): string {
    FieldText('h', fields) + (":" + (FieldText('m', fields) + (":" + (FieldText('s', fields) + ("." + FieldText('f', fields))))))
  }

  /** "%h:%m:%s.%f", and the formats ToString() uses: "%n%h:%m:%s.%f" and
      "%n%d.%h:%m:%s.%f". */
  const ClockPattern: string := "%h:%m:%s.%f"
  const ShortFormat: string := "%n" + ClockPattern
  const LongFormat: string := "%n%d." + ClockPattern

  lemma ClockFormat(fields: map<char, string>)
    requires 'h' in fields && 'm' in fields && 's' in fields && 'f' in fields
    ensures Formatted(ClockPattern, fields) == ClockText(fields)
  {
    var h, m, s, f := fields['h'], fields['m'], fields['s'], fields['f'];
    var p1 := ['%', 'f'];
    assert Formatted(p1, fields) == f by { SpecifierStep('f', [], fields); }
    var p2 := ['.'] + p1;
    assert Formatted(p2, fields) == "." + f by { LiteralStep('.', p1, fields); }
    var p3 := ['%', 's'] + p2;
    assert Formatted(p3, fields) == s + ("." + f) by { SpecifierStep('s', p2, fields); }
    var p4 := [':'] + p3;
    assert Formatted(p4, fields) == ":" + (s + ("." + f)) by { LiteralStep(':', p3, fields); }
    var p5 := ['%', 'm'] + p4;
    assert Formatted(p5, fields) == m + (":" + (s + ("." + f))) by { SpecifierStep('m', p4, fields); }
    var p6 := [':'] + p5;
    assert Formatted(p6, fields) == ":" + (m + (":" + (s + ("." + f)))) by { LiteralStep(':', p5, fields); }
    var p7 := ['%', 'h'] + p6;
    assert Formatted(p7, fields) == h + (":" + (m + (":" + (s + ("." + f))))) by { SpecifierStep('h', p6, fields); }
    assert ClockPattern == p7;
  }

  lemma ShortFormatText(fields: map<char, string>)
    requires 'n' in fields && 'h' in fields && 'm' in fields && 's' in fields && 'f' in fields
    ensures Formatted(ShortFormat, fields) == fields['n'] + ClockText(fields)
  {
    var p := ['%', 'n'] + ClockPattern;
    assert Formatted(p, fields) == fields['n'] + ClockText(fields) by {
      ClockFormat(fields);
      SpecifierStep('n', ClockPattern, fields);
    }
    assert ShortFormat == p;
  }

  lemma LongFormatText(fields: map<char, string>)
    requires 'n' in fields && 'd' in fields && 'h' in fields && 'm' in fields && 's' in fields && 'f' in fields
    ensures Formatted(LongFormat, fields) == fields['n'] + (fields['d'] + ("." + ClockText(fields)))
  {
    var p8 := ['.'] + ClockPattern;
    assert Formatted(p8, fields) == "." + ClockText(fields) by {
      ClockFormat(fields);
      LiteralStep('.', ClockPattern, fields);
    }
    var p9 := ['%', 'd'] + p8;
    assert Formatted(p9, fields) == fields['d'] + ("." + ClockText(fields)) by { SpecifierStep('d', p8, fields); }
    var p10 := ['%', 'n'] + p9;
    assert Formatted(p10, fields) == fields['n'] + (fields['d'] + ("." + ClockText(fields))) by {
      SpecifierStep('n', p9, fields);
    }
    assert LongFormat == p10;
  }

  /** The two formats ToString() chooses between print the reference text. */
  lemma DefaultFormatsGiveTimespanText(ticks: int)
    ensures Formatted(if Days(ticks) == 0 then ShortFormat else LongFormat, Fields(ticks, NoTotals)) == TimespanText(ticks)
  {
    var fields := Fields(ticks, NoTotals);
    if Days(ticks) == 0 {
      ShortFormatText(fields);
    } else {
      LongFormatText(fields);
    }
  }

  /** ParseIntoArray with ':' as the delimiter, dropping empty pieces. */
  function SplitFields(s: string): (r: seq<string>)
    ensures forall k :: 0 <= k < |r| ==> r[k] != [] && ':' !in r[k]
    decreases |s|
  {
    if s == [] then []
    else
      var i := IndexOf(s, ':');
      if i == -1 then [s]
      else (if i == 0 then [] else [s[..i]]) + SplitFields(s[i + 1..])
  }

  /** '.' and ',' become ':'; this is the text the sign is read from. */
  function Separated(s: string): string {
    ReplaceAll(ReplaceAll(s, ".", ":"), ",", ":")
  }

  /** The fields Parse reads: a missing day field is supplied as "0". */
  function ParseFields(s: string): seq<string> {
    var fields := SplitFields(ReplaceAll(Separated(s), "-", ":"));
    if |fields| == 4 then ["0"] + fields else fields
  }

  /** The tick count Parse stores, or None when it fails. */
  function ParsedTicks(s: string): Option<int> {
    var f := ParseFields(s);
    if |f| != 5 then None
    else
      var total := TotalTicks(Atoi(f[0]), Atoi(f[1]), Atoi(f[2]), Atoi(f[3]), Atoi(f[4]), 0);
      Some(if StartsWith(Separated(s), "-") then -total else total)
  }

  /** What Parse demands of its input once it has five fields: each field
      fits atoi's int, and the total passes Assign's range check. */
  predicate ParseFits(s: string) {
    var f := ParseFields(s);
    |f| == 5 ==>
      FitsInt32(Atoi(f[0])) && FitsInt32(Atoi(f[1])) && FitsInt32(Atoi(f[2])) &&
      FitsInt32(Atoi(f[3])) && FitsInt32(Atoi(f[4])) &&
      MinTicks <= TotalTicks(Atoi(f[0]), Atoi(f[1]), Atoi(f[2]), Atoi(f[3]), Atoi(f[4]), 0) <= MaxTicks
  }

  /** Parsing succeeds exactly for four or five fields, and four fields are
      read as hours, minutes, seconds and milliseconds. */
  lemma ParseFieldCount(s: string)
    ensures ParsedTicks(s).Some? <==> |SplitFields(ReplaceAll(Separated(s), "-", ":"))| in {4, 5}
    ensures |SplitFields(ReplaceAll(Separated(s), "-", ":"))| == 4 ==> ParseFields(s)[0] == "0"
  {
  }

  /** No field holds `c`. */
  predicate FieldsAvoid(fields: seq<string>, c: char) {
    forall k :: 0 <= k < |fields| ==> c !in fields[k]
  }

  /** The fields hold no '-': every one was a separator. */
  lemma {:induction false} SplitFieldsAvoid(s: string, c: char)
    requires c !in s
    ensures FieldsAvoid(SplitFields(s), c)
    decreases |s|
  {
    if s != [] {
      var i := IndexOf(s, ':');
      if i == -1 {
        assert SplitFields(s) == [s];
      } else {
        var head: seq<string> := if i == 0 then [] else [s[..i]];
        assert FieldsAvoid(head, c) by {
          if i > 0 {
            assert head[0] == s[..i];
          }
        }
        assert c !in s[i + 1..];
        SplitFieldsAvoid(s[i + 1..], c);
        FieldsAvoidConcat(head, SplitFields(s[i + 1..]), c);
        assert SplitFields(s) == head + SplitFields(s[i + 1..]);
      }
    }
  }

  /** Fields free of a character stay free of it when joined. */
  lemma FieldsAvoidConcat(a: seq<string>, b: seq<string>, c: char)
    requires FieldsAvoid(a, c) && FieldsAvoid(b, c)
    ensures FieldsAvoid(a + b, c)
  {
    forall k | 0 <= k < |a + b| ensures c !in (a + b)[k] {
      if k >= |a| {
        assert (a + b)[k] == b[k - |a|];
      }
    }
  }

  /** atoi of text without a '-' is never negative. */
  lemma {:induction false} AtoiWithoutMinus(s: string)
    requires '-' !in s
    ensures Atoi(s) >= 0
  {
    if s != [] && IsWhitespace(s[0]) {
      assert '-' !in s[1..];
      AtoiWithoutMinus(s[1..]);
    }
  }

  /** Replacing one character leaves the first character alone unless it is
      that character. */
  lemma ReplaceCharKeepsHead(s: string, c: char, to: string)
    requires s != [] && s[0] != c
    ensures ReplaceAll(s, [c], to)[0] == s[0]
  {
    assert s[..1] != [c];
  }

  lemma ReplaceCharStart(s: string, c: char)
    requires s != [] && s[0] == c
    ensures ReplaceAll(s, [c], ":")[0] == ':'
  {
    assert s[..1] == [c];
  }

  /** Every field Parse reads is free of '-': each '-' became a separator. */
  lemma ParseFieldsAvoidMinus(s: string)
    ensures FieldsAvoid(ParseFields(s), '-')
  {
    var dashed := ReplaceAll(Separated(s), "-", ":");
    ReplaceAllRemovesChar(Separated(s), '-', ":");
    SplitFieldsAvoid(dashed, '-');
    if |SplitFields(dashed)| == 4 {
      FieldsAvoidConcat(["0"], SplitFields(dashed), '-');
    }
  }

  /** Replacing '.' and ',' by ':' keeps a leading '-', and makes none. */
  lemma SeparatedKeepsMinus(s: string)
    ensures StartsWith(Separated(s), "-") <==> StartsWith(s, "-")
  {
    if s != [] {
      var once := ReplaceAll(s, ".", ":");
      if s[0] == '.' {
        ReplaceCharStart(s, '.');
        ReplaceCharKeepsHead(once, ',', ":");
      } else {
        ReplaceCharKeepsHead(s, '.', ":");
        if s[0] == ',' {
          ReplaceCharStart(once, ',');
        } else {
          ReplaceCharKeepsHead(once, ',', ":");
        }
      }
    }
  }

  /** A parsed span is negative only for input that starts with '-', and
      input that starts with '-' never parses to a positive span. */
  lemma ParseSign(s: string)
    requires ParsedTicks(s).Some?
    ensures ParsedTicks(s).value < 0 ==> StartsWith(s, "-")
    ensures StartsWith(s, "-") ==> ParsedTicks(s).value <= 0
  {
    ParseFieldsAvoidMinus(s);
    var f := ParseFields(s);
    assert '-' !in f[0] && '-' !in f[1] && '-' !in f[2] && '-' !in f[3] && '-' !in f[4];
    AtoiWithoutMinus(f[0]);
    AtoiWithoutMinus(f[1]);
    AtoiWithoutMinus(f[2]);
    AtoiWithoutMinus(f[3]);
    AtoiWithoutMinus(f[4]);
    SeparatedKeepsMinus(s);
  }

  class Span {
    var Ticks: int

    constructor (ticks: int)
      ensures Ticks == ticks
    {
      Ticks := ticks;
    }

    /** The whole days of the span, rounded toward zero: as many days as
        the span's size holds, with the span's sign. */
    function GetDays(): (r: int)
      reads this
      ensures Magnitude(r) == Magnitude(Ticks) / TicksPerDay
      ensures r > 0 ==> Ticks > 0
      ensures r < 0 ==> Ticks < 0
    {
      DaysMirror(Ticks);
      Days(Ticks)
    }

    /** Sets the span from its parts. The engine checks that the total lies
        in the tick range. */
    method Assign(days: i32, hours: i32, minutes: i32, seconds: i32, milliseconds: i32, microseconds: i32)
      requires MinTicks <= TotalTicks(days as int, hours as int, minutes as int, seconds as int, milliseconds as int, microseconds as int) <= MaxTicks
      modifies this
      ensures Ticks == TotalTicks(days as int, hours as int, minutes as int, seconds as int, milliseconds as int, microseconds as int)
    {
      var totalTicks := TicksPerMicrosecond * (1000 * (1000 * (60 * 60 * 24 * days as int + 60 * 60 * hours as int + 60 * minutes as int + seconds as int) + milliseconds as int) + microseconds as int);
      Ticks := totalTicks;
    }

    /** Prints the span by the format, walking it one character (or one
        "%c" pair) at a time. */
    method ToStringFormat(format: string, totalText: char -> string) returns (result: string)
      ensures result == Formatted(format, Fields(Ticks, totalText))
    {
      result := [];
      var i := 0;
      while i < |format|
        invariant 0 <= i <= |format|
        invariant result + Formatted(format[i..], Fields(Ticks, totalText)) == Formatted(format, Fields(Ticks, totalText))
      {
        var rest := format[i..];
        if format[i] == '%' && i + 1 < |format| {
          assert rest[2..] == format[i + 2..];
          result := result + FieldText(format[i + 1], Fields(Ticks, totalText));
        } else if format[i] != '%' {
          assert rest[1..] == format[i + 1..];
          result := result + [format[i]];
        }
        i := NextPosition(format, i);
      }
    }

    /** "[-]hh:mm:ss.fff" for spans shorter than a day, else
        "[-]d.hh:mm:ss.fff". */
    method ToString() returns (result: string)
      ensures result == TimespanText(Ticks)
    {
      if GetDays() == 0 {
        result := ToStringFormat(ShortFormat, NoTotals);
      } else {
        result := ToStringFormat(LongFormat, NoTotals);
      }
      DefaultFormatsGiveTimespanText(Ticks);
    }
  }

  /** Reads "[-][d.]h:m:s.f" (with '.', ',' and '-' all accepted as
      separators) into `outTimespan`; fails, leaving it unchanged, unless
      there are four or five fields. */
  method Parse(timespanString: string, outTimespan: Span) returns (ok: bool)
    requires ParseFits(timespanString)
    modifies outTimespan
    ensures ok <==> ParsedTicks(timespanString).Some?
    ensures ok ==> outTimespan.Ticks == ParsedTicks(timespanString).value
    ensures !ok ==> outTimespan.Ticks == old(outTimespan.Ticks)
  {
    var tokenString := ReplaceAll(timespanString, ".", ":");
    tokenString := ReplaceAll(tokenString, ",", ":");
    var negative := StartsWith(tokenString, "-");
    tokenString := ReplaceAll(tokenString, "-", ":");
    var tokens := SplitFields(tokenString);
    if |tokens| == 4 {
      tokens := ["0"] + tokens;
    }
    if |tokens| != 5 {
      return false;
    }
    outTimespan.Assign(Atoi(tokens[0]) as i32, Atoi(tokens[1]) as i32, Atoi(tokens[2]) as i32,
      Atoi(tokens[3]) as i32, Atoi(tokens[4]) as i32, 0);
    if negative {
      outTimespan.Ticks := outTimespan.Ticks * -1;
    }
    return true;
  }
}
