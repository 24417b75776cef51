/** YMath: the table of single-bit flags, thousands grouping of an int32,
    and the two pieces of the expression evaluator that do not touch
    floating point: the bracket balance check of Eval and GrabChar, which
    takes the next non-blank character off the expression. */
module SolidAngleMath {
  import opened Wrappers
  import opened IntTypes
  import opened Strings
  import opened PlatformMath

  // ---------------------------------------------------------------------
  // BitFlag

  /** `YMath::BitFlag`: entry i is `1U << i`. */
  function BitFlag(): (r: seq<u32>)
    ensures |r| == 32
  {
    [0x1, 0x2, 0x4, 0x8,
     0x10, 0x20, 0x40, 0x80,
     0x100, 0x200, 0x400, 0x800,
     0x1000, 0x2000, 0x4000, 0x8000,
     0x1_0000, 0x2_0000, 0x4_0000, 0x8_0000,
     0x10_0000, 0x20_0000, 0x40_0000, 0x80_0000,
     0x100_0000, 0x200_0000, 0x400_0000, 0x800_0000,
     0x1000_0000, 0x2000_0000, 0x4000_0000, 0x8000_0000]
  }

  /** Each entry is twice the one before it. */
  lemma BitFlagDoubles(i: nat)
    requires 0 < i < 32
    ensures BitFlag()[i] as int == 2 * BitFlag()[i - 1] as int
  {
  }

  /** Entry i is 2 to the power i. */
  lemma {:induction false} BitFlagIsPowerOfTwo(i: nat)
    requires i < 32
    ensures BitFlag()[i] as int == Pow2(i)
  {
    if i > 0 {
      BitFlagIsPowerOfTwo(i - 1);
      BitFlagDoubles(i);
    }
  }

  // ---------------------------------------------------------------------
  // FormatIntToHumanReadable

  /** `Printf("%i", v)`: a minus sign for negative values, then the
      decimal digits of the magnitude. */
  function IntText(v: int): (r: string)
    ensures |r| >= 1 && (v >= 0 ==> AllDigits(r))
  {
    if v < 0 then "-" + DecimalText(-v) else DecimalText(v)
  }

  /** The string with every ',' dropped. */
  function StripCommas(s: string): (r: string)
    ensures |r| <= |s|
  {
    if s == [] then []
    else (if s[0] == ',' then [] else [s[0]]) + StripCommas(s[1..])
  }

  lemma {:induction false} StripCommasAppend(a: string, b: string)
    ensures StripCommas(a + b) == StripCommas(a) + StripCommas(b)
  {
    if a != [] {
      assert (a + b)[0] == a[0] && (a + b)[1..] == a[1..] + b;
      StripCommasAppend(a[1..], b);
      var head := if a[0] == ',' then [] else [a[0]];
      assert StripCommas(a + b) == head + (StripCommas(a[1..]) + StripCommas(b));
      assert head + StripCommas(a[1..]) == StripCommas(a);
    } else {
      assert a + b == b;
    }
  }

  /** A string without commas is left as it is. */
  lemma {:induction false} StripCommasNoComma(s: string)
    requires forall i :: 0 <= i < |s| ==> s[i] != ','
    ensures StripCommas(s) == s
  {
    if s != [] {
      StripCommasNoComma(s[1..]);
      assert [s[0]] + s[1..] == s;
    }
  }

  /** `s` with a ',' in front of each of its last `k` blocks of three
      characters, as long as three characters remain. */
  function InsertCommas(s: string, k: nat): (r: string)
    ensures |s| >= 3 * k ==> |r| == |s| + k
  {
    if k == 0 || |s| < 3 then s
    else InsertCommas(s[..|s| - 3], k - 1) + "," + s[|s| - 3..]
  }

  /** Inserting commas into comma-free text and stripping them again gives
      the text back. */
  lemma {:induction false} InsertCommasStrips(s: string, k: nat)
    requires |s| >= 3 * k
    requires forall i :: 0 <= i < |s| ==> s[i] != ','
    ensures StripCommas(InsertCommas(s, k)) == s
  {
    if k == 0 {
      StripCommasNoComma(s);
    } else {
      var front, back := s[..|s| - 3], s[|s| - 3..];
      InsertCommasStrips(front, k - 1);
      StripCommasAppend(InsertCommas(front, k - 1) + ",", back);
      StripCommasAppend(InsertCommas(front, k - 1), ",");
      StripCommasNoComma(back);
      assert front + back == s;
    }
  }

  /** Digit groups separated by commas: a leading group of one to three
      digits, then groups of exactly three. */
  predicate WellGrouped(s: string)
    decreases |s|
  {
    (1 <= |s| <= 3 && AllDigits(s))
    || (|s| >= 5 && s[|s| - 4] == ',' && AllDigits(s[|s| - 3..]) && WellGrouped(s[..|s| - 4]))
  }

  /** Digits with commas before their last k triples are well grouped
      exactly when one to three digits are left in front. */
  lemma {:induction false} InsertCommasGrouped(d: string, k: nat)
    requires AllDigits(d) && |d| >= 3 * k
    ensures WellGrouped(InsertCommas(d, k)) <==> 1 <= |d| - 3 * k <= 3
  {
    var r := InsertCommas(d, k);
    if k > 0 {
      var front := d[..|d| - 3];
      InsertCommasGrouped(front, k - 1);
      assert r[..|r| - 4] == InsertCommas(front, k - 1);
      assert r[|r| - 3..] == d[|d| - 3..];
    } else if 1 <= |d| <= 3 {
      assert WellGrouped(r);
    } else if |d| >= 5 {
      assert !IsDigit(',');
      assert r[|r| - 4] != ',';
    }
  }

  function Pow10(k: nat): (r: nat)
    ensures r >= 1
  {
    if k == 0 then 1 else 10 * Pow10(k - 1)
  }

  /** The decimal text of n is longer than k digits exactly when n is at
      least 10^k. */
  lemma {:induction false} DecimalTextLength(n: nat, k: nat)
    requires k >= 1
    ensures |DecimalText(n)| > k <==> n >= Pow10(k)
  {
    var p := Pow10(k - 1);
    assert Pow10(k) == 10 * p;
    if n >= 10 {
      assert |DecimalText(n)| == |DecimalText(n / 10)| + 1;
      if k > 1 {
        DecimalTextLength(n / 10, k - 1);
        assert n == 10 * (n / 10) + n % 10 && 0 <= n % 10 < 10;
        assert n / 10 >= p <==> n >= 10 * p;
      }
    }
  }

  /** How many commas the engine inserts into the text of `val`. */
  function CommaGroupsAsWritten(val: i32): (r: nat)
    ensures r <= 2
    ensures r == 0 <==> val <= 999
  {
    if val > 999999 then 2 else if val > 999 then 1 else 0
  }

  /** One and two groups written out. */
  lemma InsertCommasUnfold(text: string)
    ensures |text| >= 3 ==> InsertCommas(text, 1) == text[..|text| - 3] + "," + text[|text| - 3..]
    ensures |text| >= 6 ==>
      InsertCommas(text, 2) == text[..|text| - 6] + "," + text[|text| - 6..|text| - 3] + "," + text[|text| - 3..]
  {
    if |text| >= 6 {
      var front := text[..|text| - 3];
      assert InsertCommas(text, 2) == InsertCommas(front, 1) + "," + text[|text| - 3..];
      assert InsertCommas(front, 1) == front[..|front| - 3] + "," + front[|front| - 3..];
      assert front[..|front| - 3] == text[..|text| - 6];
      assert front[|front| - 3..] == text[|text| - 6..|text| - 3];
    }
  }

  /** `YMath::FormatIntToHumanReadable`: the "%i" text of `val` with a
      comma before the last three digits when `val > 999`, and another
      before the three in front of those when `val > 999999`. Negative
      values come back with no commas. */
  method FormatIntToHumanReadable(val: i32) returns (r: string)
    ensures r == InsertCommas(IntText(val as int), CommaGroupsAsWritten(val))
    ensures StripCommas(r) == IntText(val as int)
  {
    var text := IntText(val as int);
    AsWrittenShape(val);
    var src := text;
    var dst := "";
    // Mid(Len - 3, 3) and Left(Len - 3) of a text at least four long
    if val > 999 {
      dst := "," + src[|src| - 3..];
      src := src[..|src| - 3];
      assert src == text[..|text| - 3] && dst == "," + text[|text| - 3..];
    }
    if val > 999999 {
      dst := "," + src[|src| - 3..] + dst;
      src := src[..|src| - 3];
      assert src == text[..|text| - 6] && dst == "," + text[|text| - 6..|text| - 3] + "," + text[|text| - 3..];
    }
    r := src + dst;
  }

  /** The text of `val` with the engine's commas, written out: long enough
      for each comma, and giving the text back once they are stripped. */
  lemma AsWrittenShape(val: i32)
    ensures var text := IntText(val as int);
      (val > 999 ==> |text| >= 4) && (val > 999999 ==> |text| >= 7) &&
      StripCommas(InsertCommas(text, CommaGroupsAsWritten(val))) == text &&
      InsertCommas(text, CommaGroupsAsWritten(val)) ==
        if val > 999999 then text[..|text| - 6] + "," + text[|text| - 6..|text| - 3] + "," + text[|text| - 3..]
        else if val > 999 then text[..|text| - 3] + "," + text[|text| - 3..]
        else text
  {
    var text := IntText(val as int);
    if val > 999 {
      DecimalTextLength(val as int, 3);
    }
    if val > 999999 {
      DecimalTextLength(val as int, 6);
    }
    InsertCommasUnfold(text);
    assert forall i :: 0 <= i < |text| ==> text[i] != ',' by {
      assert !IsDigit(',');
    }
    InsertCommasStrips(text, CommaGroupsAsWritten(val));
  }

  /** The engine's commas sit before the last three digits when `val >
      999` and before the last six when `val > 999999`. */
  lemma CommaPositionsAsWritten(val: i32)
    ensures var r := InsertCommas(IntText(val as int), CommaGroupsAsWritten(val));
      (val > 999 ==> |r| >= 4 && r[|r| - 4] == ',')
      && (val > 999999 ==> |r| >= 8 && r[|r| - 8] == ',')
  {
    var text := IntText(val as int);
    if val > 999 {
      DecimalTextLength(val as int, 3);
    }
    if val > 999999 {
      DecimalTextLength(val as int, 6);
      var front := text[..|text| - 3];
      assert InsertCommas(text, 2) == InsertCommas(front, 1) + "," + text[|text| - 3..];
    }
  }

  /** From one billion up the engine's result keeps four or more digits in
      front of the first comma: 1000000000 reads "1000,000,000". */
  lemma AsWrittenLeavesBillionsUngrouped(val: i32)
    requires val as int >= 1_000_000_000
    ensures !WellGrouped(InsertCommas(IntText(val as int), CommaGroupsAsWritten(val)))
  {
    DecimalTextLength(val as int, 9);
    assert Pow10(9) == 1_000_000_000;
    InsertCommasGrouped(DecimalText(val as int), 2);
  }

  /** The grouping the name promises: above 999, a comma before every
      block of three digits counted from the right. */
  function HumanReadable(val: i32): (r: string)
    ensures StripCommas(r) == IntText(val as int)
    ensures val > 999 ==> WellGrouped(r)
    ensures val <= 999 ==> r == IntText(val as int)
  {
    var text := IntText(val as int);
    if val > 999 then
      var k := (|text| - 1) / 3;
      assert 3 * k <= |text| - 1;
      assert forall i :: 0 <= i < |text| ==> text[i] != ',' by {
        assert !IsDigit(',');
      }
      InsertCommasStrips(text, k);
      InsertCommasGrouped(text, k);
      InsertCommas(text, k)
    else
      assert forall i :: 0 <= i < |text| ==> text[i] != ',' by {
        assert !IsDigit(',');
      }
      StripCommasNoComma(text);
      text
  }

  /** Below one billion the engine's two-step grouping is the full
      grouping. */
  lemma HumanReadableAgreesBelowBillion(val: i32)
    requires val as int < 1_000_000_000
    ensures HumanReadable(val) == InsertCommas(IntText(val as int), CommaGroupsAsWritten(val))
  {
    if val > 999 {
      DecimalTextLength(val as int, 3);
      DecimalTextLength(val as int, 6);
      DecimalTextLength(val as int, 9);
      assert Pow10(9) == 1_000_000_000;
    }
  }

  // ---------------------------------------------------------------------
  // Eval: the bracket check

  /** The number of times `c` occurs in `s`. */
  function Occurrences(s: string, c: char): (r: nat)
    ensures r <= |s|
  {
    if s == [] then 0 else Occurrences(s[..|s| - 1], c) + (if s[|s| - 1] == c then 1 else 0)
  }

  /** Eval's first loop: +1 for every '(' and -1 for every ')'. */
  method BracketBalance(str: string) returns (brackets: int)
    ensures brackets == Occurrences(str, '(') - Occurrences(str, ')')
  {
    brackets := 0;
    var x := 0;
    while x < |str|
      invariant 0 <= x <= |str|
      invariant brackets == Occurrences(str[..x], '(') - Occurrences(str[..x], ')')
    {
      assert str[..x + 1][..x] == str[..x];
      if str[x] == '(' {
        brackets := brackets + 1;
      }
      if str[x] == ')' {
        brackets := brackets - 1;
      }
      x := x + 1;
    }
    assert str[..x] == str;
  }

  /** `YMath::Eval`. The recursive-descent evaluator SubEval works on
      floats and is supplied as `subEval`, which yields the value or None
      on a syntax error; it is consulted only once the brackets balance. */
  method Eval(str: string, subEval: string -> Option<real>) returns (ok: bool, outValue: Option<real>)
    ensures ok <==> Occurrences(str, '(') == Occurrences(str, ')') && subEval(str).Some?
    ensures Occurrences(str, '(') != Occurrences(str, ')') ==> outValue == None
    ensures ok ==> outValue == subEval(str)
  {
    ok := true;
    outValue := None;
    var brackets := BracketBalance(str);
    if brackets != 0 {
      ok := false;
    } else {
      outValue := subEval(str);
      if outValue.None? {
        ok := false;
      }
    }
  }

  // ---------------------------------------------------------------------
  // GrabChar

  /** The number of blanks at the front of `s`. */
  function LeadingBlanks(s: string): (r: nat)
    ensures r <= |s|
    ensures forall i :: 0 <= i < r ==> s[i] == ' '
    ensures r < |s| ==> s[r] != ' '
  {
    if s != [] && s[0] == ' ' then 1 + LeadingBlanks(s[1..]) else 0
  }

  /** The character GrabChar hands back: the first non-blank one, or the
      empty string when there is none. */
  function GrabbedChar(s: string): (r: string)
  {
    var k := LeadingBlanks(s);
    if k < |s| then [s[k]] else []
  }

  /** What GrabChar leaves in the expression: everything after the
      grabbed character. */
  function RestAfterGrab(s: string): (r: string)
  {
    var k := LeadingBlanks(s);
    if k < |s| then s[k + 1..] else []
  }

  /** Drops the first character; `Mid(1)` of an empty string is empty. */
  function DropFirst(s: string): (r: string)
    ensures s != [] ==> r == s[1..]
    ensures s == [] ==> r == []
  {
    if s == [] then [] else s[1..]
  }

  /** `GrabChar`: takes characters off the front of the expression until
      one is not a blank, and returns it; the expression keeps what
      follows it. */
  method GrabChar(str: string) returns (grabbed: string, rest: string)
    ensures grabbed == GrabbedChar(str) && rest == RestAfterGrab(str)
  {
    rest := str;
    if |rest| > 0 {
      grabbed := Left(rest, 1);
      rest := DropFirst(rest);
      while grabbed == " "
        invariant |rest| < |str| && rest == str[|str| - |rest|..]
        invariant grabbed == " " ==> |str| - |rest| <= LeadingBlanks(str)
        invariant grabbed != " " ==> grabbed == GrabbedChar(str) && rest == RestAfterGrab(str)
        decreases |rest| + |grabbed|
      {
        grabbed := Left(rest, 1);
        rest := DropFirst(rest);
      }
    } else {
      grabbed := "";
    }
  }

  /** The grabbed character is never a blank; it is empty exactly when the
      expression is empty or all blanks, and otherwise a single character.
      */
  lemma GrabbedNeverBlank(s: string)
    ensures GrabbedChar(s) != " "
    ensures GrabbedChar(s) == [] <==> forall i :: 0 <= i < |s| ==> s[i] == ' '
    ensures |GrabbedChar(s)| <= 1
    ensures s == [] ==> GrabbedChar(s) == [] && RestAfterGrab(s) == []
  {
    var k := LeadingBlanks(s);
    if GrabbedChar(s) == [] {
      assert k == |s|;
    }
  }

  /** Grabbing loses only blanks: the grabbed character followed by the
      rest is the expression with its leading blanks removed. */
  lemma GrabKeepsNonBlanks(s: string)
    ensures GrabbedChar(s) + RestAfterGrab(s) == s[LeadingBlanks(s)..]
  {
  }
}
