/** String primitives the .NET code relies on: whitespace tests, trimming,
    ordinal case-insensitive comparison, and decimal rendering and parsing
    of integers. A Dafny `char` is a Unicode scalar value, whereas a .NET
    `char` is a UTF-16 code unit: the two agree on text inside the Basic
    Multilingual Plane, and a character outside it counts once here and
    twice in .NET. */
module Text {
  import opened Wrappers

  // ---------------------------------------------------------------------
  // Whitespace
  // ---------------------------------------------------------------------

  /** The whitespace characters recognised by `char.IsWhiteSpace`, limited to
      the ASCII range: space, tab, line feed, vertical tab, form feed and
      carriage return. */
  predicate IsWhiteSpace(c: char) {
    c == ' ' || c == '\t' || c == '\n' || c == '\r' || c as int == 11 || c as int == 12
  }

  /** Every character of `s` is whitespace (the empty string included). */
  predicate IsBlank(s: string) {
    forall i :: 0 <= i < |s| ==> IsWhiteSpace(s[i])
  }

  /** `string.IsNullOrWhiteSpace`; `None` stands for `null`. */
  predicate IsNullOrWhiteSpace(s: Option<string>) {
    s.None? || IsBlank(s.value)
  }

  /** `string.IsNullOrEmpty`; `None` stands for `null`. */
  predicate IsNullOrEmpty(s: Option<string>) {
    s.None? || s.value == []
  }

  /** `string.TrimStart()`: drops the leading whitespace and nothing else. */
  function TrimStart(s: string): (r: string)
    ensures |r| <= |s| && r == s[|s| - |r|..]
    ensures IsBlank(s[..|s| - |r|])
    ensures r == [] || !IsWhiteSpace(r[0])
  {
    if |s| > 0 && IsWhiteSpace(s[0]) then
      var r := TrimStart(s[1..]);
      assert s[..|s| - |r|] == [s[0]] + s[1..][..|s| - 1 - |r|];
      assert s[1..][|s| - 1 - |r|..] == s[|s| - |r|..];
      r
    else s
  }

  /** `string.TrimEnd()`: drops the trailing whitespace and nothing else. */
  function TrimEnd(s: string): (r: string)
    ensures |r| <= |s| && r == s[..|r|]
    ensures IsBlank(s[|r|..])
    ensures r == [] || !IsWhiteSpace(r[|r| - 1])
  {
    if |s| > 0 && IsWhiteSpace(s[|s| - 1]) then TrimEnd(s[..|s| - 1]) else s
  }

  /** `string.Trim()`: the text between the leading and the trailing
      whitespace. It is empty exactly when `s` is blank, and otherwise starts
      and ends with a non-whitespace character. */
  function Trim(s: string): (r: string)
    ensures |r| <= |s|
    ensures r == [] <==> IsBlank(s)
    ensures r != [] ==> !IsWhiteSpace(r[0]) && !IsWhiteSpace(r[|r| - 1])
  {
    var t := TrimStart(s);
    if t == [] then [] else
      assert !IsWhiteSpace(t[0]);
      assert !IsWhiteSpace(s[|s| - |t|]);
      TrimEnd(t)
  }

  /** Trimming a second time changes nothing. */
  lemma TrimIdempotent(s: string)
    ensures Trim(Trim(s)) == Trim(s)
  {
    var r := Trim(s);
    if r != [] {
      assert TrimStart(r) == r;
      assert TrimEnd(r) == r;
    }
  }

  // ---------------------------------------------------------------------
  // Ordinal case-insensitive comparison
  // ---------------------------------------------------------------------

  /** ASCII case folding, standing for `StringComparison.OrdinalIgnoreCase`. */
  function ToLower(c: char): char {
    if 'A' <= c <= 'Z' then (c as int + 32) as char else c
  }

  /** The two strings are equal up to ASCII case. */
  predicate EqualsIgnoreCase(a: string, b: string) {
    |a| == |b| && forall i :: 0 <= i < |a| ==> ToLower(a[i]) == ToLower(b[i])
  }

  /** `sub` occurs in `s` at position `i`, ignoring case. */
  predicate MatchesAt(s: string, sub: string, i: nat) {
    i + |sub| <= |s| && EqualsIgnoreCase(s[i..i + |sub|], sub)
  }

  /** `s.Contains(sub, StringComparison.OrdinalIgnoreCase)`: `sub` occurs in
      `s` at some position, ignoring case. */
  function ContainsIgnoreCase(s: string, sub: string): (b: bool)
    ensures b <==> exists i: nat :: i <= |s| && MatchesAt(s, sub, i)
    decreases |s|
  {
    if |s| < |sub| then false
    else if EqualsIgnoreCase(s[..|sub|], sub) then
      assert MatchesAt(s, sub, 0);
      true
    else if s == [] then false
    else
      var b := ContainsIgnoreCase(s[1..], sub);
      assert forall i: nat :: i < |s| - 1 ==> (MatchesAt(s[1..], sub, i) <==> MatchesAt(s, sub, i + 1)) by {
        forall i: nat | i < |s| - 1
          ensures MatchesAt(s[1..], sub, i) <==> MatchesAt(s, sub, i + 1)
        {
          if i + |sub| <= |s| - 1 {
            assert s[1..][i..i + |sub|] == s[i + 1..i + 1 + |sub|];
          }
        }
      }
      assert b ==> exists i: nat :: i <= |s| && MatchesAt(s, sub, i) by {
        if b {
          var i: nat :| i <= |s| - 1 && MatchesAt(s[1..], sub, i);
          assert MatchesAt(s, sub, i + 1);
        }
      }
      assert (exists i: nat :: i <= |s| && MatchesAt(s, sub, i)) ==> b by {
        if exists i: nat :: i <= |s| && MatchesAt(s, sub, i) {
          var i: nat :| i <= |s| && MatchesAt(s, sub, i);
          assert i != 0;
          assert MatchesAt(s[1..], sub, i - 1);
        }
      }
      b
  }

  /** `s.EndsWith(suffix, StringComparison.OrdinalIgnoreCase)`. */
  predicate EndsWithIgnoreCase(s: string, suffix: string) {
    |suffix| <= |s| && EqualsIgnoreCase(s[|s| - |suffix|..], suffix)
  }

  // ---------------------------------------------------------------------
  // Prefixes and tokens
  // ---------------------------------------------------------------------

  /** `s.StartsWith(prefix)` under ordinal comparison. */
  predicate StartsWith(s: string, prefix: string) {
    |prefix| <= |s| && s[..|prefix|] == prefix
  }

  /** `s.EndsWith(suffix)` under ordinal comparison. */
  predicate EndsWith(s: string, suffix: string) {
    |suffix| <= |s| && s[|s| - |suffix|..] == suffix
  }

  /** A text starts with its first part. */
  lemma StartsWithConcat(a: string, b: string)
    ensures StartsWith(a + b, a)
  {
    assert (a + b)[..|a|] == a;
  }

  /** A text ends with whatever its last part ends with. */
  lemma EndsWithConcat(a: string, b: string, suffix: string)
    requires EndsWith(b, suffix)
    ensures EndsWith(a + b, suffix)
  {
    assert (a + b)[|a + b| - |suffix|..] == b[|b| - |suffix|..];
  }

  /** A text ends with its last part. */
  lemma EndsWithLast(a: string, b: string)
    ensures EndsWith(a + b, b)
  {
    assert (a + b)[|a + b| - |b|..] == b;
  }

  /** The position of the first `c` in `s`, if any. */
  function IndexOf(s: string, c: char): (r: Option<nat>)
    ensures r.Some? ==> r.value < |s| && s[r.value] == c && c !in s[..r.value]
    ensures r.None? ==> c !in s
  {
    if s == [] then None
    else if s[0] == c then Some(0)
    else match IndexOf(s[1..], c)
      case None => None
      case Some(i) =>
        assert s[..i + 1] == [s[0]] + s[1..][..i];
        Some(i + 1)
  }

  /** A position holding `c` with no `c` before it is the one `IndexOf` finds. */
  lemma IndexOfFirst(s: string, c: char, i: nat)
    requires i < |s| && s[i] == c && c !in s[..i]
    ensures IndexOf(s, c) == Some(i)
  {
    assert s[i] in s;
  }

  /** Splits `s` before its first `d`: the text up to the delimiter, and the
      rest, which is empty or starts with `d`. */
  function TakeUntil(s: string, d: char): (r: (string, string))
    ensures r.0 + r.1 == s
    ensures d !in r.0
    ensures r.1 == [] || r.1[0] == d
  {
    match IndexOf(s, d)
    case None => (s, [])
    case Some(i) => (s[..i], s[i..])
  }

  /** A token free of the delimiter, followed by the delimiter or by nothing,
      is read back whole. */
  lemma TakeUntilToken(token: string, rest: string, d: char)
    requires d !in token
    requires rest == [] || rest[0] == d
    ensures TakeUntil(token + rest, d) == (token, rest)
  {
    var s := token + rest;
    var r := TakeUntil(s, d);
    assert r.0 == s[..|token|] == token;
  }

  /** A prefix, then a token free of the delimiter, then the delimiter or
      nothing: the text opens with the prefix, and after it the token is read
      back whole. */
  lemma PrefixThenToken(prefix: string, token: string, rest: string, d: char)
    requires d !in token
    requires rest == [] || rest[0] == d
    ensures StartsWith(prefix + (token + rest), prefix)
    ensures (prefix + (token + rest))[|prefix|..] == token + rest
    ensures TakeUntil((prefix + (token + rest))[|prefix|..], d) == (token, rest)
  {
    StartsWithConcat(prefix, token + rest);
    assert (prefix + (token + rest))[|prefix|..] == token + rest;
    TakeUntilToken(token, rest, d);
  }

  // ---------------------------------------------------------------------
  // Decimal integers
  // ---------------------------------------------------------------------

  /** The range of a .NET `int`. */
  const Int32Min: int := -0x8000_0000
  const Int32Max: int := 0x7FFF_FFFF

  predicate IsDigit(c: char) {
    '0' <= c <= '9'
  }

  predicate AllDigits(s: string) {
    forall i :: 0 <= i < |s| ==> IsDigit(s[i])
  }

  function DigitChar(d: nat): (c: char)
    requires d < 10
    ensures IsDigit(c)
  {
    ('0' as int + d) as char
  }

  function DigitValue(c: char): nat
    requires IsDigit(c)
  {
    c as int - '0' as int
  }

  /** The value of a run of decimal digits, most significant first. */
  function DigitsValue(s: string): nat
    requires AllDigits(s)
  {
    if s == [] then 0 else DigitsValue(s[..|s| - 1]) * 10 + DigitValue(s[|s| - 1])
  }

  /** The shortest decimal rendering of a natural number. */
  function NatToString(n: nat): (r: string)
    ensures 1 <= |r| && AllDigits(r)
    ensures n >= 10 <==> |r| > 1
  {
    if n < 10 then [DigitChar(n)] else NatToString(n / 10) + [DigitChar(n % 10)]
  }

  /** `int.ToString()` under the invariant culture: a minus sign for negative
      values, then the digits. */
  function IntToString(n: int): string {
    if n < 0 then "-" + NatToString(-n) else NatToString(n)
  }

  /** Reads an integer written as an optional `+` or `-` sign followed by at
      least one decimal digit, and nothing else. */
  function ParseInteger(s: string): (r: Option<int>)
    ensures r.Some? ==> |s| > 0
  {
    if |s| > 0 && (s[0] == '-' || s[0] == '+') then
      var digits := s[1..];
      if digits != [] && AllDigits(digits) then
        Some(if s[0] == '-' then 0 - DigitsValue(digits) as int else DigitsValue(digits))
      else None
    else if s != [] && AllDigits(s) then Some(DigitsValue(s))
    else None
  }

  /** `int.TryParse` on text that has already been trimmed: fails unless the
      text is a sign-prefixed decimal that fits a .NET `int`. */
  function TryParseInt32(s: string): (r: Option<int>)
    ensures r.Some? ==> Int32Min <= r.value <= Int32Max
    ensures r.Some? ==> ParseInteger(s) == r
  {
    match ParseInteger(s)
    case Some(n) => if Int32Min <= n <= Int32Max then Some(n) else None
    case None => None
  }

  /** Reading back the rendering of a natural number gives the number. */
  lemma {:induction false} NatToStringRoundTrip(n: nat)
    ensures DigitsValue(NatToString(n)) == n
  {
    if n >= 10 {
      NatToStringRoundTrip(n / 10);
      var s := NatToString(n);
      assert s[..|s| - 1] == NatToString(n / 10);
    }
  }

  /** Reading back the rendering of any integer gives the integer. */
  lemma IntToStringRoundTrip(n: int)
    ensures ParseInteger(IntToString(n)) == Some(n)
  {
    var s := IntToString(n);
    if n < 0 {
      var digits := NatToString(-n);
      assert s[0] == '-' && s[1..] == digits;
      NatToStringRoundTrip(-n);
      assert ParseInteger(s) == Some(0 - DigitsValue(digits) as int);
    } else {
      assert IsDigit(s[0]);
      NatToStringRoundTrip(n);
      assert ParseInteger(s) == Some(DigitsValue(s));
    }
  }

  /** A rendered integer contains no whitespace and none of the delimiters
      `"`, `@` and `:`; in particular it never contains a space. */
  lemma IntToStringHasNoDelimiter(n: int, c: char)
    requires IsWhiteSpace(c) || c == '"' || c == '@' || c == ':'
    ensures c !in IntToString(n)
  {
  }
}
