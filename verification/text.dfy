/**
  Character classes and small string functions shared by both back ends.

  Strings are `seq<char>`. Letter case is ASCII only: lowering maps 'A'..'Z'
  to 'a'..'z' and leaves every other character alone.
 */
module Text {
  import opened Collections

  predicate IsDigit(c: char) { '0' <= c <= '9' }

  predicate IsUpper(c: char) { 'A' <= c <= 'Z' }

  predicate IsLower(c: char) { 'a' <= c <= 'z' }

  predicate IsLetter(c: char) { IsUpper(c) || IsLower(c) }

  /** A word character in the sense of a regular-expression `\w` (ASCII). */
  predicate IsWordChar(c: char) { IsLetter(c) || IsDigit(c) || c == '_' }

  /** JavaScript's `\s` and the set `String.prototype.trim` removes. */
  predicate IsJsSpace(c: char) {
    || c == ' ' || c == '\t' || c == '\n' || c == '\U{000B}' || c == '\U{000C}' || c == '\r'
    || c == '\U{00A0}' || c == '\U{1680}' || ('\U{2000}' <= c <= '\U{200A}')
    || c == '\U{2028}' || c == '\U{2029}' || c == '\U{202F}' || c == '\U{205F}'
    || c == '\U{3000}' || c == '\U{FEFF}'
  }

  /** Python's `str.isspace()`, which is also what `re`'s `\s` and `str.strip()` use. */
  predicate IsPySpace(c: char) {
    || c == ' ' || c == '\t' || c == '\n' || c == '\U{000B}' || c == '\U{000C}' || c == '\r'
    || ('\U{001C}' <= c <= '\U{001F}') || c == '\U{0085}' || c == '\U{00A0}' || c == '\U{1680}'
    || ('\U{2000}' <= c <= '\U{200A}') || c == '\U{2028}' || c == '\U{2029}' || c == '\U{202F}'
    || c == '\U{205F}' || c == '\U{3000}'
  }

  predicate AllDigits(s: string) { forall i :: 0 <= i < |s| ==> IsDigit(s[i]) }

  predicate AllLetters(s: string) { forall i :: 0 <= i < |s| ==> IsLetter(s[i]) }

  function LowerChar(c: char): (r: char)
    ensures !IsUpper(r)
    ensures IsUpper(c) ==> IsLower(r)
    ensures !IsUpper(c) ==> r == c
  {
    if IsUpper(c) then (c as int + 32) as char else c
  }

  function UpperChar(c: char): (r: char)
    ensures !IsLower(r)
    ensures IsLower(c) ==> IsUpper(r) && LowerChar(r) == c
    ensures !IsLower(c) ==> r == c
  {
    if IsLower(c) then (c as int - 32) as char else c
  }

  /** `toLowerCase()` / `lower()`, restricted to ASCII letters. */
  function Lower(s: string): (r: string)
    ensures |r| == |s|
    ensures forall i :: 0 <= i < |s| ==> r[i] == LowerChar(s[i])
  {
    seq(|s|, i requires 0 <= i < |s| => LowerChar(s[i]))
  }

  /** `toUpperCase()` / `upper()`, restricted to ASCII letters. */
  function Upper(s: string): (r: string)
    ensures |r| == |s|
    ensures forall i :: 0 <= i < |s| ==> r[i] == UpperChar(s[i])
  {
    seq(|s|, i requires 0 <= i < |s| => UpperChar(s[i]))
  }

  /** Lowering twice is lowering once, and a lowered string holds no upper-case letter. */
  lemma LowerIdempotent(s: string)
    ensures Lower(Lower(s)) == Lower(s)
    ensures forall i :: 0 <= i < |s| ==> !IsUpper(Lower(s)[i])
  {
  }

  /** A string without upper-case letters is its own lower-cased form. */
  lemma LowerOfNoUpper(w: string)
    requires forall c :: c in w ==> !IsUpper(c)
    ensures Lower(w) == w
  {
    forall t | 0 <= t < |w| ensures Lower(w)[t] == w[t] {
      assert w[t] in w;
    }
  }

  predicate OccursAt(s: string, sub: string, i: int) {
    0 <= i && i + |sub| <= |s| && s[i..i + |sub|] == sub
  }

  /** Substring test: JavaScript `includes`, Python `in`. */
  predicate Contains(s: string, sub: string) {
    exists i :: 0 <= i <= |s| - |sub| && OccursAt(s, sub, i)
  }

  /** Case-insensitive substring test, as a regular expression with the `i` flag and no metacharacters. */
  predicate ContainsIgnoreCase(s: string, sub: string) {
    Contains(Lower(s), Lower(sub))
  }

  predicate StartsWith(s: string, prefix: string) {
    |prefix| <= |s| && s[..|prefix|] == prefix
  }

  function DigitChar(d: nat): (c: char)
    requires d < 10
    ensures IsDigit(c)
  {
    ('0' as int + d) as char
  }

  function DigitValue(c: char): (d: nat)
    requires IsDigit(c)
    ensures d < 10 && DigitChar(d) == c
  {
    c as int - '0' as int
  }

  /** Decimal rendering of a natural number, as a template literal or an f-string prints it. */
  function NatToString(n: nat): (r: string)
    ensures |r| >= 1 && AllDigits(r)
    ensures n > 0 ==> r[0] != '0'
    decreases n
  {
    if n < 10 then [DigitChar(n)] else NatToString(n / 10) + [DigitChar(n % 10)]
  }

  /** The value of a string of decimal digits. */
  function ParseDigits(s: string): nat
    requires AllDigits(s)
  {
    if |s| == 0 then 0 else 10 * ParseDigits(s[..|s| - 1]) + DigitValue(s[|s| - 1])
  }

  /** Rendering a number and reading it back gives the number. */
  lemma {:induction false} ParseNatToString(n: nat)
    ensures ParseDigits(NatToString(n)) == n
    decreases n
  {
    if n >= 10 {
      var s := NatToString(n);
      assert s[..|s| - 1] == NatToString(n / 10);
      ParseNatToString(n / 10);
    }
  }

  /** `NatToString` is injective, so distinct ids render as distinct strings. */
  lemma NatToStringInjective(a: nat, b: nat)
    requires NatToString(a) == NatToString(b)
    ensures a == b
  {
    ParseNatToString(a);
    ParseNatToString(b);
  }

  /** `s.replace(/\D/g, '')`: the digits of `s`, in order. */
  function KeepDigits(s: string): (r: string)
    ensures AllDigits(r)
    ensures |r| <= |s|
  {
    if |s| == 0 then []
    else (if IsDigit(s[0]) then [s[0]] else []) + KeepDigits(s[1..])
  }

  lemma {:induction false} KeepDigitsAppend(a: string, b: string)
    ensures KeepDigits(a + b) == KeepDigits(a) + KeepDigits(b)
    decreases |a|
  {
    if |a| > 0 {
      assert (a + b)[1..] == a[1..] + b;
      KeepDigitsAppend(a[1..], b);
    } else {
      assert a + b == b;
    }
  }

  /** A string of digits is its own digit string. */
  lemma {:induction false} KeepDigitsOfDigits(s: string)
    requires AllDigits(s)
    ensures KeepDigits(s) == s
    decreases |s|
  {
    if |s| > 0 {
      KeepDigitsOfDigits(s[1..]);
    }
  }

  /** A string with no digit has an empty digit string. */
  lemma {:induction false} KeepDigitsNoDigits(s: string)
    requires forall i :: 0 <= i < |s| ==> !IsDigit(s[i])
    ensures KeepDigits(s) == []
    decreases |s|
  {
    if |s| > 0 {
      KeepDigitsNoDigits(s[1..]);
    }
  }

  /** Number of leading characters of `s` satisfying `isSpace`. */
  function LeadingCount(s: string, isSpace: char -> bool): (n: nat)
    ensures n <= |s|
    ensures forall i :: 0 <= i < n ==> isSpace(s[i])
    ensures n < |s| ==> !isSpace(s[n])
  {
    if |s| == 0 || !isSpace(s[0]) then 0 else 1 + LeadingCount(s[1..], isSpace)
  }

  /** Number of trailing characters of `s` satisfying `isSpace`. */
  function TrailingCount(s: string, isSpace: char -> bool): (n: nat)
    ensures n <= |s|
    ensures forall i :: |s| - n <= i < |s| ==> isSpace(s[i])
    ensures n < |s| ==> !isSpace(s[|s| - n - 1])
  {
    if |s| == 0 || !isSpace(s[|s| - 1]) then 0 else 1 + TrailingCount(s[..|s| - 1], isSpace)
  }

  /** `trim()` / `strip()` for the given whitespace class. */
  function Trim(s: string, isSpace: char -> bool): (r: string)
    ensures |r| <= |s|
    ensures |r| > 0 ==> !isSpace(r[0]) && !isSpace(r[|r| - 1])
    ensures exists i :: 0 <= i <= |s| - |r| && OccursAt(s, r, i)
    ensures (forall i :: 0 <= i < |s| ==> isSpace(s[i])) <==> |r| == 0
  {
    var a := LeadingCount(s, isSpace);
    var rest := s[a..];
    var b := TrailingCount(rest, isSpace);
    TrimFacts(s, isSpace, a, b);
    rest[..|rest| - b]
  }

  lemma TrimFacts(s: string, isSpace: char -> bool, a: nat, b: nat)
    requires a == LeadingCount(s, isSpace)
    requires b == TrailingCount(s[a..], isSpace)
    ensures var r := s[a..][..|s| - a - b];
      && OccursAt(s, r, a)
      && (|r| > 0 ==> !isSpace(r[0]))
      && ((forall i :: 0 <= i < |s| ==> isSpace(s[i])) <==> |r| == 0)
  {
    var rest := s[a..];
    var r := rest[..|rest| - b];
    assert r == s[a..a + |r|];
    if |r| == 0 {
      assert a == |s|;
    } else {
      assert rest[0] == s[a];
    }
  }

  /**
    JavaScript's `length` of a string: the number of UTF-16 code units, so a
    character beyond U+FFFF (an emoji, say) counts twice.
   */
  /** A character outside the Basic Multilingual Plane, written as a surrogate pair. */
  predicate IsAstral(c: char) { c as int >= 0x1_0000 }

  function Utf16Length(s: string): (n: nat)
    ensures n == |s| + Count(s, IsAstral)
    ensures |s| <= n <= 2 * |s|
    ensures (forall i :: 0 <= i < |s| ==> s[i] as int < 0x1_0000) ==> n == |s|
    ensures (exists i :: 0 <= i < |s| && s[i] as int >= 0x1_0000) ==> n > |s|
  {
    if |s| == 0 then 0 else (if s[0] as int < 0x1_0000 then 1 else 2) + Utf16Length(s[1..])
  }

  function JsTrim(s: string): string { Trim(s, IsJsSpace) }

  function PyStrip(s: string): string { Trim(s, IsPySpace) }
}
