/**
  The regular expressions both back ends use to spot one-time passcodes,
  reduced to scanners over the message text.

  * The standalone pattern `\b\d{4,8}\b` matches a run of four to eight
    digits with no word character on either side. Because the character
    after the run is not a word character, it is not a digit either, so the
    run is the maximal digit run at its start.
  * A labelled pattern `label[:\s]*\d+` (case-insensitive) matches the
    label, then the longest run of ':' and white space, then at least one
    digit. Colons and white space are never digits, so the separator run
    cannot be shortened to make room for a digit: a match at a position
    exists exactly when the maximal separator run is followed by a digit,
    and the greedy `\d+` then takes the maximal digit run there.

  A search (`match`, `re.search`) reports the leftmost position at which a
  match exists; the scanners below find that position and prove it leftmost.
 */
module OtpPatterns {
  import opened Wrappers
  import opened Text

  // ---------------------------------------------------------------------
  // Digit runs and the standalone pattern

  /** The length of the maximal run of digits starting at `i`. */
  function DigitRun(s: string, i: nat): (n: nat)
    requires i <= |s|
    ensures i + n <= |s|
    ensures forall t :: i <= t < i + n ==> IsDigit(s[t])
    ensures i + n < |s| ==> !IsDigit(s[i + n])
    decreases |s| - i
  {
    if i < |s| && IsDigit(s[i]) then 1 + DigitRun(s, i + 1) else 0
  }

  /** A match of `\b\d{4,8}\b` occupying `s[i..i + k]`. */
  predicate StandaloneAt(s: string, i: int, k: int) {
    && 4 <= k <= 8 && 0 <= i && i + k <= |s|
    && (i == 0 || !IsWordChar(s[i - 1]))
    && (forall t :: i <= t < i + k ==> IsDigit(s[t]))
    && (i + k == |s| || !IsWordChar(s[i + k]))
  }

  /** At each position the standalone pattern can only match the maximal digit run. */
  lemma StandaloneLength(s: string, i: nat, k: int)
    requires i <= |s|
    ensures StandaloneAt(s, i, k) <==> k == DigitRun(s, i) && StandaloneAt(s, i, k)
  {
  }

  /** The leftmost standalone match at or after `p`, as (start, length). */
  function FirstStandaloneFrom(s: string, p: nat): (r: Option<(nat, nat)>)
    requires p <= |s|
    ensures r.Some? ==>
      && p <= r.value.0
      && StandaloneAt(s, r.value.0, r.value.1)
      && forall j, k :: p <= j < r.value.0 ==> !StandaloneAt(s, j, k)
    ensures r.None? ==> forall j, k :: p <= j ==> !StandaloneAt(s, j, k)
    decreases |s| - p
  {
    if p == |s| then None
    else
      var n := DigitRun(s, p);
      if StandaloneAt(s, p, n) then Some((p, n))
      else
        var rest := FirstStandaloneFrom(s, p + 1);
        forall k ensures !StandaloneAt(s, p, k) {
          StandaloneLength(s, p, k);
        }
        rest
  }

  /** The first match of `\b\d{4,8}\b` in `s`, as (start, length). */
  function FirstStandalone(s: string): (r: Option<(nat, nat)>)
    ensures r.Some? ==>
      && StandaloneAt(s, r.value.0, r.value.1)
      && forall j, k :: 0 <= j < r.value.0 ==> !StandaloneAt(s, j, k)
    ensures r.None? ==> forall j, k :: !StandaloneAt(s, j, k)
  {
    FirstStandaloneFrom(s, 0)
  }

  /** The text of the first standalone match: `s.match(/\b\d{4,8}\b/)[0]`. */
  function StandaloneCode(s: string): (r: Option<string>)
    ensures r.Some? <==> exists i, k :: StandaloneAt(s, i, k)
    ensures r.Some? ==> 4 <= |r.value| <= 8 && AllDigits(r.value) && Contains(s, r.value)
  {
    match FirstStandalone(s)
    case None => None
    case Some((i, k)) =>
      var code := s[i..i + k];
      assert OccursAt(s, code, i);
      Some(code)
  }

  /** A standalone match with no digit before it is the first one. */
  lemma StandaloneFirstAt(s: string, i: nat, k: nat)
    requires StandaloneAt(s, i, k)
    requires forall j :: 0 <= j < i ==> !IsDigit(s[j])
    ensures StandaloneCode(s) == Some(s[i..i + k])
  {
    StandaloneLength(s, i, k);
    var r := FirstStandalone(s);
    assert r.Some?;
    var (i', k') := r.value;
    assert IsDigit(s[i']);
    assert i' == i;
    StandaloneLength(s, i, k');
  }

  /** In `p + d + q`, a run `d` of four to eight digits with no digit before it and non-word neighbours is the first match. */
  lemma StandaloneInLayout(p: string, d: string, q: string)
    requires 4 <= |d| <= 8
    requires forall c :: c in d ==> IsDigit(c)
    requires forall c :: c in p ==> !IsDigit(c)
    requires |p| == 0 || !IsWordChar(p[|p| - 1])
    requires |q| == 0 || !IsWordChar(q[0])
    ensures StandaloneCode(p + d + q) == Some(d)
  {
    var s := p + d + q;
    var i := |p|;
    assert s[i..i + |d|] == d;
    forall t | i <= t < i + |d| ensures IsDigit(s[t]) {
      assert s[t] == d[t - i];
    }
    forall j | 0 <= j < i ensures !IsDigit(s[j]) {
      assert s[j] == p[j];
    }
    assert StandaloneAt(s, i, |d|);
    StandaloneFirstAt(s, i, |d|);
  }

  /** Text without digits holds no passcode for any pattern. */
  lemma NoDigitNoCode(s: string)
    requires forall j :: 0 <= j < |s| ==> !IsDigit(s[j])
    ensures StandaloneCode(s).None?
    ensures forall tag, isSpace :: LabelledCode(s, tag, isSpace).None?
  {
    assert forall i, k :: StandaloneAt(s, i, k) ==> IsDigit(s[i]);
    forall tag: string, isSpace: char -> bool ensures LabelledCode(s, tag, isSpace).None? {
      assert forall i :: 0 <= i ==> !LabelledAt(s, tag, isSpace, i);
    }
  }

  // ---------------------------------------------------------------------
  // Labelled patterns

  /** The lower-case label `tag` occurs at `i`, ignoring ASCII case. */
  predicate LabelAt(s: string, tag: string, i: int) {
    0 <= i && i + |tag| <= |s| && Lower(s[i..i + |tag|]) == tag
  }

  /** A separator character: ':' or white space of the given class. */
  predicate IsSep(c: char, isSpace: char -> bool) { c == ':' || isSpace(c) }

  /** The length of the maximal run of separator characters starting at `i`. */
  function SepRun(s: string, i: nat, isSpace: char -> bool): (n: nat)
    requires i <= |s|
    ensures i + n <= |s|
    ensures forall t :: i <= t < i + n ==> IsSep(s[t], isSpace)
    ensures i + n < |s| ==> !IsSep(s[i + n], isSpace)
    decreases |s| - i
  {
    if i < |s| && IsSep(s[i], isSpace) then 1 + SepRun(s, i + 1, isSpace) else 0
  }

  /** Where the digits of a labelled match at `i` begin. */
  function DigitsStart(s: string, tag: string, isSpace: char -> bool, i: nat): (j: nat)
    requires i + |tag| <= |s|
    ensures i + |tag| <= j <= |s|
  {
    i + |tag| + SepRun(s, i + |tag|, isSpace)
  }

  /** `label[:\s]*\d+` matches at `i` (the scanner's criterion). */
  predicate LabelledAt(s: string, tag: string, isSpace: char -> bool, i: int) {
    && LabelAt(s, tag, i)
    && var j := DigitsStart(s, tag, isSpace, i);
       j < |s| && IsDigit(s[j])
  }

  /**
    `label[:\s]*\d+` matches at `i` with `m` separator characters and `d`
    digits: the regular expression's own reading, with no maximality.
   */
  predicate RegexLabelled(s: string, tag: string, isSpace: char -> bool, i: int, m: nat, d: nat) {
    && LabelAt(s, tag, i)
    && d >= 1
    && i + |tag| + m + d <= |s|
    && (forall t :: i + |tag| <= t < i + |tag| + m ==> IsSep(s[t], isSpace))
    && (forall t :: i + |tag| + m <= t < i + |tag| + m + d ==> IsDigit(s[t]))
  }

  /** A white-space class holds no word character (no letter, no digit). */
  predicate SpaceIsNotWord(isSpace: char -> bool) {
    forall c :: isSpace(c) ==> !IsWordChar(c)
  }

  lemma JsSpaceIsNotWord()
    ensures SpaceIsNotWord(IsJsSpace)
  {
  }

  lemma PySpaceIsNotWord()
    ensures SpaceIsNotWord(IsPySpace)
  {
  }

  /** The scanner's criterion holds exactly when the regular expression matches at `i`. */
  lemma LabelledAtIsRegexMatch(s: string, tag: string, isSpace: char -> bool, i: nat)
    requires SpaceIsNotWord(isSpace)
    ensures LabelledAt(s, tag, isSpace, i) <==> exists m, d :: RegexLabelled(s, tag, isSpace, i, m, d)
  {
    if LabelledAt(s, tag, isSpace, i) {
      var a := i + |tag|;
      var n := SepRun(s, a, isSpace);
      var d := DigitRun(s, a + n);
      assert RegexLabelled(s, tag, isSpace, i, n, d);
    }
    if m: nat, d: nat :| RegexLabelled(s, tag, isSpace, i, m, d) {
      var a := i + |tag|;
      var n := SepRun(s, a, isSpace);
      assert IsDigit(s[a + m]);
      assert n == m;
    }
  }

  /** The leftmost labelled match at or after `p`. */
  function FirstLabelledFrom(s: string, tag: string, isSpace: char -> bool, p: nat): (r: Option<nat>)
    requires p <= |s|
    ensures r.Some? ==>
      && p <= r.value
      && LabelledAt(s, tag, isSpace, r.value)
      && forall j :: p <= j < r.value ==> !LabelledAt(s, tag, isSpace, j)
    ensures r.None? ==> forall j :: p <= j ==> !LabelledAt(s, tag, isSpace, j)
    decreases |s| - p
  {
    if p == |s| || p + |tag| > |s| then None
    else if LabelledAt(s, tag, isSpace, p) then Some(p)
    else FirstLabelledFrom(s, tag, isSpace, p + 1)
  }

  /** The digits captured by the first match of `label[:\s]*(\d+)`, if any. */
  function LabelledCode(s: string, tag: string, isSpace: char -> bool): (r: Option<string>)
    ensures r.Some? <==> exists i :: 0 <= i && LabelledAt(s, tag, isSpace, i)
    ensures r.Some? ==> |r.value| >= 1 && AllDigits(r.value) && Contains(s, r.value)
    ensures r.Some? ==> exists i :: FirstLabelledFrom(s, tag, isSpace, 0) == Some(i)
    ensures r.Some? ==> (FirstLabelledFrom(s, tag, isSpace, 0).Some?
      && WholeRunAt(s, DigitsStart(s, tag, isSpace, FirstLabelledFrom(s, tag, isSpace, 0).value), r.value))
  {
    match FirstLabelledFrom(s, tag, isSpace, 0)
    case None => None
    case Some(i) =>
      var j := DigitsStart(s, tag, isSpace, i);
      var code := s[j..j + DigitRun(s, j)];
      assert OccursAt(s, code, j);
      assert WholeRunAt(s, j, code);
      Some(code)
  }

  /** `code` is the whole run of digits that starts at `j`: nothing but digits, and no digit right after it. */
  predicate WholeRunAt(s: string, j: int, code: string) {
    && 0 <= j && j + |code| <= |s| && s[j..j + |code|] == code
    && (forall t :: 0 <= t < |code| ==> IsDigit(code[t]))
    && (j + |code| < |s| ==> !IsDigit(s[j + |code|]))
  }

  /** Lower-casing the text changes neither the labelled matches nor the standalone ones. */
  lemma LabelledAtLower(s: string, tag: string, isSpace: char -> bool, i: nat)
    requires SpaceIsNotWord(isSpace)
    requires i + |tag| <= |s|
    ensures LabelledAt(Lower(s), tag, isSpace, i) <==> LabelledAt(s, tag, isSpace, i)
  {
    LabelAtLower(s, tag, i);
    DigitsStartLower(s, tag, isSpace, i);
    var j := DigitsStart(s, tag, isSpace, i);
    if j < |s| {
      assert Lower(s)[j] == LowerChar(s[j]);
    }
  }

  lemma LabelAtLower(s: string, tag: string, i: nat)
    requires i + |tag| <= |s|
    ensures LabelAt(Lower(s), tag, i) <==> LabelAt(s, tag, i)
  {
    LowerSlice(s, i, i + |tag|);
  }

  lemma DigitsStartLower(s: string, tag: string, isSpace: char -> bool, i: nat)
    requires SpaceIsNotWord(isSpace)
    requires i + |tag| <= |s|
    ensures DigitsStart(Lower(s), tag, isSpace, i) == DigitsStart(s, tag, isSpace, i)
  {
    SepRunLower(s, i + |tag|, isSpace);
  }

  lemma LowerSlice(s: string, a: nat, b: nat)
    requires a <= b <= |s|
    ensures Lower(Lower(s)[a..b]) == Lower(s[a..b])
  {
    assert Lower(s)[a..b] == Lower(s[a..b]);
    LowerIdempotent(s[a..b]);
  }

  lemma {:induction false} SepRunLower(s: string, i: nat, isSpace: char -> bool)
    requires SpaceIsNotWord(isSpace)
    requires i <= |s|
    ensures SepRun(Lower(s), i, isSpace) == SepRun(s, i, isSpace)
    decreases |s| - i
  {
    if i < |s| {
      assert Lower(s)[i] == LowerChar(s[i]);
      SepRunLower(s, i + 1, isSpace);
    }
  }

  lemma StandaloneAtLower(s: string, i: int, k: int)
    ensures StandaloneAt(Lower(s), i, k) <==> StandaloneAt(s, i, k)
  {
  }

  // ---------------------------------------------------------------------
  // Keyword lists

  /** The words that make the Node back end treat a message as a verification message. */
  const JsKeywords: seq<string> := [
    "verification", "verify", "confirm", "authenticate",
    "code", "otp", "pin", "security", "login", "signin",
    "access", "account", "password", "reset"
  ]

  /** The words that make the Flask back end treat a message as a verification message. */
  const PyKeywords: seq<string> := [
    "verification", "verify", "confirm", "authenticate",
    "code", "otp", "pin", "security"
  ]

  /** A keyword is absent from lower-cased text that lacks one of its letters in either case. */
  lemma KeywordAbsent(s: string, keyword: string, c: char)
    requires IsLower(c) && c in keyword
    requires c !in s && UpperChar(c) !in s
    ensures !Contains(Lower(s), keyword)
  {
  }

  /** Each Node keyword holds one of the letters v, f, h, c, p, l, i, r: text lacking all of them in either case has none. */
  lemma NoJsKeyword(s: string)
    requires forall c :: c in "vfhcplirVFHCPLIR" ==> c !in s
    ensures !HasKeyword(Lower(s), JsKeywords)
  {
    assert 'v' !in s && 'V' !in s && 'f' !in s && 'F' !in s && 'h' !in s && 'H' !in s;
    assert 'c' !in s && 'C' !in s && 'p' !in s && 'P' !in s;
    assert 'l' !in s && 'L' !in s && 'i' !in s && 'I' !in s && 'r' !in s && 'R' !in s;
    NoJsKeywordBefore(s);
    NoJsKeywordFrom(s);
  }

  lemma NoJsKeywordBefore(s: string)
    requires 'v' !in s && 'V' !in s && 'f' !in s && 'F' !in s && 'h' !in s && 'H' !in s
    requires 'c' !in s && 'C' !in s && 'p' !in s && 'P' !in s
    ensures forall k | 0 <= k < 7 :: !Contains(Lower(s), JsKeywords[k])
  {
    KeywordAbsent(s, JsKeywords[0], 'v');
    KeywordAbsent(s, JsKeywords[1], 'v');
    KeywordAbsent(s, JsKeywords[2], 'f');
    KeywordAbsent(s, JsKeywords[3], 'h');
    KeywordAbsent(s, JsKeywords[4], 'c');
    KeywordAbsent(s, JsKeywords[5], 'p');
    KeywordAbsent(s, JsKeywords[6], 'p');
  }

  lemma NoJsKeywordFrom(s: string)
    requires 'c' !in s && 'C' !in s && 'p' !in s && 'P' !in s
    requires 'l' !in s && 'L' !in s && 'i' !in s && 'I' !in s && 'r' !in s && 'R' !in s
    ensures forall k | 7 <= k < 14 :: !Contains(Lower(s), JsKeywords[k])
  {
    KeywordAbsent(s, JsKeywords[7], 'c');
    KeywordAbsent(s, JsKeywords[8], 'l');
    KeywordAbsent(s, JsKeywords[9], 'i');
    KeywordAbsent(s, JsKeywords[10], 'c');
    KeywordAbsent(s, JsKeywords[11], 'c');
    KeywordAbsent(s, JsKeywords[12], 'p');
    KeywordAbsent(s, JsKeywords[13], 'r');
  }

  /** `b` occurs in `a + b + c` right after `a`. */
  lemma OccursInMiddle(a: string, b: string, c: string)
    ensures OccursAt(a + b + c, b, |a|)
  {
    assert (a + b + c)[|a|..|a| + |b|] == b;
  }

  /** A keyword without upper-case letters that occurs in the text is found by the lower-cased test. */
  lemma KeywordPresent(s: string, keywords: seq<string>, k: nat, i: nat)
    requires k < |keywords| && OccursAt(s, keywords[k], i)
    requires forall c :: c in keywords[k] ==> !IsUpper(c)
    ensures HasKeyword(Lower(s), keywords)
  {
    var w := keywords[k];
    assert Lower(s)[i..i + |w|] == w by {
      forall t | 0 <= t < |w| ensures Lower(s)[i + t] == w[t] {
        assert s[i + t] == w[t];
        assert w[t] in w;
      }
    }
    assert OccursAt(Lower(s), w, i);
  }

  /** Some keyword of the list occurs in the (already lower-cased) text. */
  predicate HasKeyword(low: string, keywords: seq<string>) {
    exists i :: 0 <= i < |keywords| && Contains(low, keywords[i])
  }

  /** Every Flask keyword is also a Node keyword. */
  lemma PyKeywordsAreJsKeywords(low: string)
    ensures HasKeyword(low, PyKeywords) ==> HasKeyword(low, JsKeywords)
  {
    if HasKeyword(low, PyKeywords) {
      var i :| 0 <= i < |PyKeywords| && Contains(low, PyKeywords[i]);
      assert PyKeywords[i] == JsKeywords[i];
    }
  }
}
