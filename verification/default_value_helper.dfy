/** FDefaultValueHelper: recognisers for the C++ default-value literals that
    appear in metadata (integers, floats, vectors, "TypeName(...)" forms)
    and the whitespace helpers they are built from. The pointer-walking
    validators are methods over the character range they are given; a read
    at the end of a range sees a character that no rule matches (the
    terminating NUL or the ',' that ends a vector component). */
module DefaultValueHelper {
  import opened Strings
  import opened Wrappers

  /** Whitespace, line breaks and carriage return (the Unicode space
      separators beyond these are not modelled). */
  predicate IsSpace(c: char) {
    IsWhitespace(c) || c == '\U{0085}' || c == '\U{2028}' || c == '\U{2029}'
  }

  predicate AllSpace(s: string) {
    forall i :: 0 <= i < |s| ==> IsSpace(s[i])
  }

  predicate IsHexDigit(c: char) {
    IsDigit(c) || ('a' <= c <= 'f') || ('A' <= c <= 'F')
  }

  /** The character at `i`, or NUL past the end of the range. */
  function At(s: string, i: nat): char {
    if i < |s| then s[i] else '\0'
  }

  /** The first index at or after `pos` that is not whitespace (or |s|). */
  function SkipSpace(s: string, pos: nat): (r: nat)
    ensures pos <= r && (pos <= |s| ==> r <= |s|) && (pos > |s| ==> r == pos)
    ensures forall k :: pos <= k < r ==> IsSpace(s[k])
    ensures r < |s| ==> !IsSpace(s[r])
    decreases |s| - pos
  {
    if pos < |s| && IsSpace(s[pos]) then SkipSpace(s, pos + 1) else pos
  }

  /** The string without its leading whitespace. */
  function TrimStart(s: string): string {
    s[SkipSpace(s, 0)..]
  }

  /** Advances `pos` past whitespace and reports whether anything is left. */
  method Trim(s: string, pos: nat) returns (newPos: nat, nonEmpty: bool)
    ensures pos <= newPos && (pos <= |s| ==> newPos <= |s|) && (pos > |s| ==> newPos == pos)
    ensures forall k :: pos <= k < newPos ==> IsSpace(s[k])
    ensures newPos < |s| ==> !IsSpace(s[newPos])
    ensures nonEmpty <==> newPos < |s|
  {
    newPos := pos;
    while newPos < |s| && IsSpace(s[newPos])
      invariant pos <= newPos && (pos <= |s| ==> newPos <= |s|) && (pos > |s| ==> newPos == pos)
      invariant forall k :: pos <= k < newPos ==> IsSpace(s[k])
    {
      newPos := newPos + 1;
    }
    nonEmpty := newPos < |s|;
  }

  /** Any index that Trim may return is SkipSpace's. */
  lemma SkipSpaceUnique(s: string, pos: nat, r: nat)
    requires pos <= r && (pos <= |s| ==> r <= |s|) && (pos > |s| ==> r == pos)
    requires forall k :: pos <= k < r ==> IsSpace(s[k])
    requires r < |s| ==> !IsSpace(s[r])
    ensures r == SkipSpace(s, pos)
  {
  }

  /** Skipping whitespace in a suffix is skipping it in the whole string. */
  lemma {:induction false} SkipSpaceShift(s: string, p: nat, q: nat)
    requires p + q <= |s|
    ensures SkipSpace(s[p..], q) == SkipSpace(s, p + q) - p
    decreases |s| - p - q
  {
    if p + q < |s| {
      assert s[p..][q] == s[p + q];
      if IsSpace(s[p + q]) {
        SkipSpaceShift(s, p, q + 1);
      }
    }
  }

  /** Trimming a suffix of `s` starts at SkipSpace(s, p). */
  lemma TrimStartSuffix(s: string, p: nat)
    requires p <= |s|
    ensures TrimStart(s[p..]) == s[SkipSpace(s, p)..]
  {
    SkipSpaceShift(s, p, 0);
  }

  /** When the trimmed text starts with a `cmp` whose first character is not
      whitespace, the first occurrence of `cmp` is right after the
      whitespace. */
  lemma FirstAfterSpace(s: string, cmp: string)
    requires cmp != [] && !IsSpace(cmp[0]) && StartsWith(TrimStart(s), cmp)
    ensures Find(s, cmp) == SkipSpace(s, 0)
  {
    var pos := SkipSpace(s, 0);
    assert s[pos..pos + |cmp|] == TrimStart(s)[..|cmp|];
    assert OccursAt(s, cmp, pos);
  }

  /** The non-whitespace characters of `s`, in order. */
  function NonSpace(s: string): (r: string)
    ensures forall i :: 0 <= i < |r| ==> !IsSpace(r[i])
    ensures |r| <= |s|
  {
    if s == [] then []
    else if IsSpace(s[0]) then NonSpace(s[1..])
    else [s[0]] + NonSpace(s[1..])
  }

  /** Every non-whitespace character keeps its number of occurrences. */
  lemma {:induction false} NonSpaceKeepsCounts(s: string, c: char)
    requires !IsSpace(c)
    ensures multiset(NonSpace(s))[c] == multiset(s)[c]
  {
    if s != [] {
      NonSpaceKeepsCounts(s[1..], c);
      assert s == [s[0]] + s[1..];
    }
  }

  lemma NonSpaceAppend(s: string, c: char)
    ensures NonSpace(s + [c]) == NonSpace(s) + (if IsSpace(c) then [] else [c])
  {
    if s != [] {
      assert (s + [c])[1..] == s[1..] + [c];
      NonSpaceAppend(s[1..], c);
    }
  }

  /** Copies every non-whitespace character. */
  method RemoveWhitespaces(s: string) returns (r: string)
    ensures r == NonSpace(s)
  {
    r := [];
    var pos := 0;
    while pos < |s|
      invariant pos <= |s|
      invariant r == NonSpace(s[..pos])
    {
      assert s[..pos + 1] == s[..pos] + [s[pos]];
      NonSpaceAppend(s[..pos], s[pos]);
      if !IsSpace(s[pos]) {
        r := r + [s[pos]];
      }
      pos := pos + 1;
    }
    assert s[..pos] == s;
  }

  method HasWhitespaces(s: string) returns (r: bool)
    ensures r <==> exists i :: 0 <= i < |s| && IsSpace(s[i])
  {
    var pos := 0;
    while pos < |s|
      invariant pos <= |s|
      invariant forall k :: 0 <= k < pos ==> !IsSpace(s[k])
    {
      if IsSpace(s[pos]) {
        return true;
      }
      pos := pos + 1;
    }
    return false;
  }

  /** The text after the first "::", or the whole string without one. */
  function GetUnqualifiedEnumValue(s: string): (r: string)
    ensures !Contains(s, "::") ==> r == s
    ensures Contains(s, "::") ==>
      EndsWith(s, r) && |r| + 2 <= |s| && OccursAt(s, "::", |s| - |r| - 2) &&
      forall j :: 0 <= j < |s| - |r| - 2 ==> !OccursAt(s, "::", j)
  {
    var sep := Find(s, "::");
    if sep == -1 then s else s[sep + 2..]
  }

  /** True when the source is `cmp` surrounded by whitespace only (and
      `cmp` is not empty and does not itself start with whitespace). */
  method Is(s: string, cmp: string) returns (r: bool)
    ensures r <==> (cmp != [] && !IsSpace(cmp[0]) &&
                    StartsWith(TrimStart(s), cmp) && AllSpace(TrimStart(s)[|cmp|..]))
  {
    var pos, nonEmpty := Trim(s, 0);
    SkipSpaceUnique(s, 0, pos);
    if !nonEmpty {
      return false;
    }
    var found := Find(s, cmp);
    if cmp != [] && !IsSpace(cmp[0]) && StartsWith(TrimStart(s), cmp) {
      FirstAfterSpace(s, cmp);
    }
    if found != pos {
      return false;
    }
    assert OccursAt(s, cmp, pos);
    var after := pos + |cmp|;
    var afterPos, rest := Trim(s, after);
    if rest {
      assert TrimStart(s)[|cmp|..][afterPos - after] == s[afterPos];
      return false;
    }
    if cmp == [] {
      assert false;
    }
    assert s[pos..][..|cmp|] == s[pos..pos + |cmp|];
    return true;
  }

  /** The number of occurrences of `c` in `s`. */
  function CountChar(s: string, c: char): nat {
    if s == [] then 0 else (if s[0] == c then 1 else 0) + CountChar(s[1..], c)
  }

  /** The parameters of "TypeName(...)" start at `start`: the source is
      whitespace up to `p`, the type name at `p`, its first occurrence,
      whitespace up to the '(' at `q`, whitespace, and `start` is the first
      character after those. */
  predicate Opens(s: string, typeName: string, p: nat, q: nat, start: nat) {
    p + |typeName| <= q < start < |s|
    && (forall k | 0 <= k < p :: IsSpace(s[k])) && !IsSpace(s[p])
    && s[p..p + |typeName|] == typeName && Find(s, typeName) == p
    && (forall k | p + |typeName| <= k < q :: IsSpace(s[k])) && s[q] == '('
    && (forall k | q < k < start :: IsSpace(s[k])) && !IsSpace(s[start])
  }

  /** The parameters that start at `start` end at `e`: the last character
      after `start` that is neither whitespace nor ')' is at e - 1, and
      exactly one ')' lies among the whitespace after it. */
  predicate ClosesAt(s: string, start: nat, e: nat) {
    start + 2 <= e <= |s| && !IsSpace(s[e - 1]) && s[e - 1] != ')'
    && CountChar(s[e..], ')') == 1
    && forall k | e <= k < |s| :: s[k] == ')' || IsSpace(s[k])
  }

  /** The source determines where the parameters open. */
  lemma OpensUnique(s: string, typeName: string, p: nat, q: nat, start: nat, p': nat, q': nat, start': nat)
    requires Opens(s, typeName, p, q, start) && Opens(s, typeName, p', q', start')
    ensures p == p' && q == q' && start == start'
  {
    SkipSpaceUnique(s, p + |typeName|, q);
    SkipSpaceUnique(s, p + |typeName|, q');
    SkipSpaceUnique(s, q + 1, start);
    SkipSpaceUnique(s, q + 1, start');
  }

  /** GetParameters: succeeds exactly when the source has the form
      "TypeName ( parameters )" with whitespace around each part, and the
      form is the parameters, from their first to their last character
      that is neither whitespace nor ')'. */
  method GetParameters(s: string, typeName: string) returns (ok: bool, form: string)
    ensures ok ==> exists p: nat, q: nat, start: nat, e: nat :: Opens(s, typeName, p, q, start) && ClosesAt(s, start, e) && form == s[start..e]
    ensures !ok ==> forall p, q, start, e :: !(Opens(s, typeName, p, q, start) && ClosesAt(s, start, e))
  {
    form := [];
    var startPos;
    ok, startPos := OpenParameters(s, typeName);
    if !ok {
      return false, form;
    }
    var endPos := CloseParameters(s, startPos);
    if endPos < 0 {
      forall p, q, start, e | Opens(s, typeName, p, q, start)
        ensures !ClosesAt(s, start, e)
      {
        var p0, q0 :| Opens(s, typeName, p0, q0, startPos);
        OpensUnique(s, typeName, p, q, start, p0, q0, startPos);
      }
      return false, form;
    }
    form := s[startPos..endPos];
    return true, form;
  }

  /** The front of GetParameters: whitespace, the type name, whitespace, '('
      and whitespace; `startPos` is where the parameters begin. */
  method OpenParameters(s: string, typeName: string) returns (ok: bool, startPos: nat)
    ensures ok ==> exists p, q :: Opens(s, typeName, p, q, startPos)
    ensures !ok ==> forall p, q, start :: !Opens(s, typeName, p, q, start)
  {
    var pos, nonEmpty := Trim(s, 0);
    if !nonEmpty {
      return false, 0;
    }
    if Find(s, typeName) != pos {
      forall p, q, start | Opens(s, typeName, p, q, start)
        ensures false
      {
      }
      return false, 0;
    }
    var p := pos;
    assert s[pos..pos + |typeName|] == typeName;
    pos, nonEmpty := Trim(s, pos + |typeName|);
    if !nonEmpty || s[pos] != '(' {
      forall p', q, start | Opens(s, typeName, p', q, start)
        ensures false
      {
      }
      return false, 0;
    }
    var q := pos;
    pos, nonEmpty := Trim(s, q + 1);
    if !nonEmpty {
      forall p', q', start | Opens(s, typeName, p', q', start)
        ensures false
      {
      }
      return false, 0;
    }
    assert Opens(s, typeName, p, q, pos);
    return true, pos;
  }

  /** The back of GetParameters: scans from the end over whitespace and
      ')' down to the last other character, which must lie after
      `startPos`; exactly one ')' may be passed. Returns the end of the
      parameters, or -1. */
  method CloseParameters(s: string, startPos: nat) returns (endPos: int)
    requires startPos < |s|
    ensures endPos != -1 ==> endPos >= 0 && ClosesAt(s, startPos, endPos)
    ensures endPos == -1 ==> forall e :: !ClosesAt(s, startPos, e)
  {
    endPos := -1;
    var pending := 1;
    var pos := |s| - 1;
    while pos > startPos
      invariant startPos <= pos < |s|
      invariant endPos == -1
      invariant pending == 1 - CountChar(s[pos + 1..], ')')
      invariant forall k :: pos < k < |s| ==> s[k] == ')' || IsSpace(s[k])
    {
      assert s[pos..] == [s[pos]] + s[pos + 1..];
      if s[pos] == ')' {
        pending := pending - 1;
      } else if !IsSpace(s[pos]) {
        endPos := pos + 1;
        break;
      }
      pos := pos - 1;
    }
    if endPos < 0 || pending != 0 {
      return -1;
    }
  }

  // ---- numeric literal recognisers ----

  /** The text after the leading whitespace, an optional sign and the
      whitespace after it; None when nothing is left at either trim. */
  function Unsigned(s: string): Option<string> {
    var t := TrimStart(s);
    if t == [] then None
    else
      var u := if t[0] == '-' || t[0] == '+' then TrimStart(t[1..]) else t;
      if u == [] then None else Some(u)
  }

  /** Skips the leading whitespace and the optional sign, as both validators
      do; `pos` is where the body starts. */
  method SkipSignAndSpace(s: string) returns (ok: bool, pos: nat)
    ensures ok <==> Unsigned(s).Some?
    ensures ok ==> pos < |s| && s[pos..] == Unsigned(s).value
  {
    var nonEmpty;
    pos, nonEmpty := Trim(s, 0);
    SkipSpaceUnique(s, 0, pos);
    if !nonEmpty {
      return false, pos;
    }
    ghost var p0 := pos;
    if s[pos] == '-' || s[pos] == '+' {
      pos := pos + 1;
    }
    var p1 := pos;
    pos, nonEmpty := Trim(s, pos);
    SkipSpaceUnique(s, p1, pos);
    TrimStartSuffix(s, p1);
    assert p1 == p0 + 1 ==> s[p0..][1..] == s[p1..];
    return nonEmpty, pos;
  }

  predicate IsDigitIn(c: char, hex: bool) {
    if hex then IsHexDigit(c) else IsDigit(c)
  }

  /** Digits (hexadecimal when `hex`) followed by nothing but whitespace. */
  predicate DigitsThenSpace(b: string, hex: bool) {
    if b == [] then true
    else if IsDigitIn(b[0], hex) then DigitsThenSpace(b[1..], hex)
    else AllSpace(b)
  }

  /** Advances past the digits at `start`. */
  method ScanDigits(s: string, start: nat, hex: bool) returns (end: nat)
    requires start <= |s|
    ensures start <= end <= |s|
    ensures forall k :: start <= k < end ==> IsDigitIn(s[k], hex)
    ensures end < |s| ==> !IsDigitIn(s[end], hex)
  {
    end := start;
    while end < |s| && IsDigitIn(s[end], hex)
      invariant start <= end <= |s|
      invariant forall k :: start <= k < end ==> IsDigitIn(s[k], hex)
    {
      end := end + 1;
    }
  }

  /** After the digits, the rest is accepted exactly when it is whitespace. */
  lemma {:induction false} DigitsThenSpaceSkip(s: string, start: nat, end: nat, hex: bool)
    requires start <= end <= |s|
    requires forall k :: start <= k < end ==> IsDigitIn(s[k], hex)
    requires end < |s| ==> !IsDigitIn(s[end], hex)
    ensures DigitsThenSpace(s[start..], hex) == AllSpace(s[end..])
    decreases end - start
  {
    if start < end {
      assert s[start..][1..] == s[start + 1..];
      DigitsThenSpaceSkip(s, start + 1, end, hex);
    }
  }

  /** "0x"/"0X" and at least one hex digit; or '0' and decimal digits; or at
      least one decimal digit; then only whitespace. */
  predicate IsIntegerBody(u: string) {
    if |u| >= 1 && u[0] == '0' then
      if |u| >= 2 && (u[1] == 'x' || u[1] == 'X') then
        |u| >= 3 && IsHexDigit(u[2]) && DigitsThenSpace(u[3..], true)
      else DigitsThenSpace(u[1..], false)
    else |u| >= 1 && IsDigit(u[0]) && DigitsThenSpace(u[1..], false)
  }

  /** The base the literal is read in: 16 after "0x", 8 after '0', else 10. */
  function IntegerBase(u: string): int {
    if |u| >= 1 && u[0] == '0' then
      if |u| >= 2 && (u[1] == 'x' || u[1] == 'X') then 16 else 8
    else 10
  }

  predicate IsIntegerLiteral(s: string) {
    Unsigned(s).Some? && IsIntegerBody(Unsigned(s).value)
  }

  lemma AllSpaceFrom(s: string, i: nat, j: nat)
    requires i <= j <= |s|
    requires forall k :: i <= k < j ==> IsSpace(s[k])
    requires j < |s| ==> !IsSpace(s[j])
    ensures AllSpace(s[i..]) <==> j == |s|
  {
    if j < |s| {
      assert s[i..][j - i] == s[j];
    }
  }

  /** Accepts an optionally signed integer literal and reports its base. */
  method IsStringValidInteger(s: string) returns (ok: bool, base: int)
    ensures ok <==> IsIntegerLiteral(s)
    ensures ok ==> base == IntegerBase(Unsigned(s).value)
  {
    var start;
    ok, start := SkipSignAndSpace(s);
    if !ok {
      return false, 10;
    }
    ghost var u := s[start..];
    var allowHex, digitFound := false, false;
    if s[start] == '0' {
      start := start + 1;
      digitFound := true;
      if At(s, start) == 'x' || At(s, start) == 'X' {
        start := start + 1;
        allowHex, digitFound := true, false;
        base := 16;
      } else {
        base := 8;
      }
    } else {
      base := 10;
    }
    var bodyStart := start;
    start := ScanDigits(s, start, allowHex);
    digitFound := digitFound || start > bodyStart;
    var rest, more := Trim(s, start);
    AllSpaceFrom(s, start, rest);
    DigitsThenSpaceSkip(s, bodyStart, start, allowHex);
    ok := !more && digitFound;
    if allowHex {
      assert u[2..] == s[bodyStart..];
      if start > bodyStart {
        assert u[3..] == s[bodyStart + 1..];
        DigitsThenSpaceSkip(s, bodyStart + 1, start, true);
      }
    } else if u[0] == '0' {
      assert u[1..] == s[bodyStart..];
    } else if start > bodyStart {
      assert u[1..] == s[bodyStart + 1..];
      DigitsThenSpaceSkip(s, bodyStart + 1, start, false);
    }
  }

  /** Float literal: digits, optional '.', digits, optional exponent mark with
      optional sign, digits, optional 'f', then whitespace; every part may be
      empty. */
  predicate FloatMantissa(b: string) {
    if b != [] && IsDigit(b[0]) then FloatMantissa(b[1..])
    else if b != [] && b[0] == '.' then FloatFraction(b[1..])
    else FloatFraction(b)
  }

  predicate FloatFraction(b: string) {
    if b != [] && IsDigit(b[0]) then FloatFraction(b[1..])
    else if b != [] && (b[0] == 'e' || b[0] == 'E') then
      FloatExponent(if |b| > 1 && (b[1] == '-' || b[1] == '+') then b[2..] else b[1..])
    else FloatExponent(b)
  }

  predicate FloatExponent(b: string) {
    if b != [] && IsDigit(b[0]) then FloatExponent(b[1..])
    else if b != [] && (b[0] == 'f' || b[0] == 'F') then AllSpace(b[1..])
    else AllSpace(b)
  }

  predicate IsFloatLiteral(s: string) {
    Unsigned(s).Some? && FloatMantissa(Unsigned(s).value)
  }

  lemma {:induction false} MantissaSkip(s: string, start: nat, end: nat)
    requires start <= end <= |s|
    requires forall k :: start <= k < end ==> IsDigit(s[k])
    ensures FloatMantissa(s[start..]) == FloatMantissa(s[end..])
    decreases end - start
  {
    if start < end {
      assert s[start..][1..] == s[start + 1..];
      MantissaSkip(s, start + 1, end);
    }
  }

  lemma {:induction false} FractionSkip(s: string, start: nat, end: nat)
    requires start <= end <= |s|
    requires forall k :: start <= k < end ==> IsDigit(s[k])
    ensures FloatFraction(s[start..]) == FloatFraction(s[end..])
    decreases end - start
  {
    if start < end {
      assert s[start..][1..] == s[start + 1..];
      FractionSkip(s, start + 1, end);
    }
  }

  lemma {:induction false} ExponentSkip(s: string, start: nat, end: nat)
    requires start <= end <= |s|
    requires forall k :: start <= k < end ==> IsDigit(s[k])
    ensures FloatExponent(s[start..]) == FloatExponent(s[end..])
    decreases end - start
  {
    if start < end {
      assert s[start..][1..] == s[start + 1..];
      ExponentSkip(s, start + 1, end);
    }
  }

  /** At the first non-digit, the mantissa either takes the '.' or moves on. */
  lemma MantissaStep(s: string, p: nat)
    requires p <= |s| && (p < |s| ==> !IsDigit(s[p]))
    ensures At(s, p) == '.' ==> FloatMantissa(s[p..]) == FloatFraction(s[p + 1..])
    ensures At(s, p) != '.' ==> FloatMantissa(s[p..]) == FloatFraction(s[p..])
  {
    if p < |s| {
      assert s[p..][1..] == s[p + 1..];
    }
  }

  lemma FractionStep(s: string, p: nat, q: nat)
    requires p <= |s| && (p < |s| ==> !IsDigit(s[p]))
    requires (At(s, p) == 'e' || At(s, p) == 'E') ==>
      q == if At(s, p + 1) == '-' || At(s, p + 1) == '+' then p + 2 else p + 1
    requires !(At(s, p) == 'e' || At(s, p) == 'E') ==> q == p
    ensures q <= |s| && FloatFraction(s[p..]) == FloatExponent(s[q..])
  {
    if p < |s| {
      assert s[p..][1..] == s[p + 1..];
      if p + 1 < |s| {
        assert s[p..][2..] == s[p + 2..];
      }
    }
  }

  lemma ExponentStep(s: string, p: nat)
    requires p <= |s| && (p < |s| ==> !IsDigit(s[p]))
    ensures (At(s, p) == 'f' || At(s, p) == 'F') ==> FloatExponent(s[p..]) == AllSpace(s[p + 1..])
    ensures !(At(s, p) == 'f' || At(s, p) == 'F') ==> FloatExponent(s[p..]) == AllSpace(s[p..])
  {
    if p < |s| {
      assert s[p..][1..] == s[p + 1..];
    }
  }

  /** Accepts an optionally signed float literal. */
  method IsStringValidFloat(s: string) returns (ok: bool)
    ensures ok <==> IsFloatLiteral(s)
  {
    var start;
    ok, start := SkipSignAndSpace(s);
    if !ok {
      return false;
    }
    start := ScanMantissa(s, start);
    start := ScanFraction(s, start);
    start := ScanExponent(s, start);
    var rest, more := Trim(s, start);
    AllSpaceFrom(s, start, rest);
    ok := !more;
  }

  /** The integer digits and the optional '.'. */
  method ScanMantissa(s: string, start: nat) returns (next: nat)
    requires start <= |s|
    ensures next <= |s| && FloatMantissa(s[start..]) == FloatFraction(s[next..])
  {
    next := ScanDigits(s, start, false);
    MantissaSkip(s, start, next);
    MantissaStep(s, next);
    if At(s, next) == '.' {
      next := next + 1;
    }
  }

  /** The fraction digits and the optional exponent mark with its sign. */
  method ScanFraction(s: string, start: nat) returns (next: nat)
    requires start <= |s|
    ensures next <= |s| && FloatFraction(s[start..]) == FloatExponent(s[next..])
  {
    var p := ScanDigits(s, start, false);
    FractionSkip(s, start, p);
    next := p;
    if At(s, next) == 'e' || At(s, next) == 'E' {
      next := next + 1;
      if At(s, next) == '-' || At(s, next) == '+' {
        next := next + 1;
      }
    }
    FractionStep(s, p, next);
  }

  /** The exponent digits and the optional 'f'. */
  method ScanExponent(s: string, start: nat) returns (next: nat)
    requires start <= |s|
    ensures next <= |s| && FloatExponent(s[start..]) == AllSpace(s[next..])
  {
    next := ScanDigits(s, start, false);
    ExponentSkip(s, start, next);
    ExponentStep(s, next);
    if At(s, next) == 'f' || At(s, next) == 'F' {
      next := next + 1;
    }
  }

  /** A decimal or octal integer literal is also a float literal. */
  lemma {:induction false} DecimalDigitsAreFloat(b: string)
    requires DigitsThenSpace(b, false)
    ensures FloatMantissa(b)
  {
    if b != [] && IsDigit(b[0]) {
      DecimalDigitsAreFloat(b[1..]);
    } else if b != [] {
      assert IsSpace(b[0]);
    }
  }

  lemma IntegerLiteralIsFloat(s: string)
    requires IsIntegerLiteral(s) && IntegerBase(Unsigned(s).value) != 16
    ensures IsFloatLiteral(s)
  {
    var u := Unsigned(s).value;
    DecimalDigitsAreFloat(u[1..]);
  }

  /** The first index at or after `from` holding `c`, or -1; the search
      FCString::Strstr makes for a one-character pattern. */
  function IndexOfFrom(s: string, c: char, from: nat): (r: int)
    requires from <= |s|
    ensures r == -1 || (from <= r < |s| && s[r] == c)
    ensures forall j :: from <= j < |s| && (r == -1 || j < r) ==> s[j] != c
    decreases |s| - from
  {
    if from == |s| then -1
    else if s[from] == c then from
    else IndexOfFrom(s, c, from + 1)
  }

  /** The comma-separated fields of `s[from..]`. */
  function FieldsFrom(s: string, from: nat): (fields: seq<string>)
    requires from <= |s|
    ensures |fields| >= 1
    decreases |s| - from
  {
    var i := IndexOfFrom(s, ',', from);
    if i == -1 then [s[from..]] else [s[from..i]] + FieldsFrom(s, i + 1)
  }

  function CommaFields(s: string): seq<string> {
    FieldsFrom(s, 0)
  }

  lemma {:induction false} NoCommaCount(s: string)
    requires ',' !in s
    ensures CountChar(s, ',') == 0
  {
    if s != [] {
      assert ',' !in s[1..];
      NoCommaCount(s[1..]);
    }
  }

  lemma {:induction false} CountSplit(s: string, i: nat)
    requires i < |s| && s[i] == ',' && ',' !in s[..i]
    ensures CountChar(s, ',') == 1 + CountChar(s[i + 1..], ',')
  {
    if i > 0 {
      assert s[1..][..i - 1] == s[..i][1..];
      assert s[1..][i..] == s[i + 1..];
      CountSplit(s[1..], i - 1);
    } else {
      assert s[1..] == s[i + 1..];
    }
  }

  /** There is one more field than there are commas. */
  lemma {:induction false} FieldsFromCount(s: string, from: nat)
    requires from <= |s|
    ensures |FieldsFrom(s, from)| == CountChar(s[from..], ',') + 1
    decreases |s| - from
  {
    var i := IndexOfFrom(s, ',', from);
    if i == -1 {
      NoCommaCount(s[from..]);
    } else {
      assert s[from..][..i - from] == s[from..i];
      assert s[from..][i - from + 1..] == s[i + 1..];
      CountSplit(s[from..], i - from);
      FieldsFromCount(s, i + 1);
    }
  }

  lemma CommaFieldsCount(s: string)
    ensures |CommaFields(s)| == CountChar(s, ',') + 1
  {
    FieldsFromCount(s, 0);
    assert s[0..] == s;
  }

  predicate AllFloats(fields: seq<string>) {
    forall i :: 0 <= i < |fields| ==> IsFloatLiteral(fields[i])
  }

  /** Exactly three comma-separated fields (two commas, by CommaFieldsCount),
      each a float literal. The text must not be empty: the engine asserts
      that before it looks at the first character. */
  method IsStringValidVector(s: string) returns (ok: bool)
    requires |s| > 0
    ensures ok <==> |CommaFields(s)| == 3 && AllFloats(CommaFields(s))
  {
    var first := IndexOfFrom(s, ',', 0);
    if first == -1 {
      return false;
    }
    assert CommaFields(s) == [s[0..first]] + FieldsFrom(s, first + 1);
    var second := IndexOfFrom(s, ',', first + 1);
    if second == -1 {
      assert FieldsFrom(s, first + 1) == [s[first + 1..]];
      return false;
    }
    assert FieldsFrom(s, first + 1) == [s[first + 1..second]] + FieldsFrom(s, second + 1);
    if IndexOfFrom(s, ',', second + 1) != -1 {
      assert |FieldsFrom(s, second + 1)| >= 2;
      return false;
    }
    ghost var fields := CommaFields(s);
    assert s[0..first] == s[..first];
    assert fields == [s[..first], s[first + 1..second], s[second + 1..]];
    assert fields[0] == s[..first] && fields[1] == s[first + 1..second] && fields[2] == s[second + 1..];
    var x := IsStringValidFloat(s[..first]);
    if !x {
      return false;
    }
    var y := IsStringValidFloat(s[first + 1..second]);
    if !y {
      return false;
    }
    ok := IsStringValidFloat(s[second + 1..]);
  }
}
