/**
  The Node back end's `Message` document: one received SMS, its passcode
  detection, its highlighted rendering, and the collection-wide operations
  (creation from a provider webhook, per-user listing, bulk read marking and
  retention cleanup).

  Times are milliseconds since the epoch. A collection is a sequence of
  documents in insertion order with distinct ids.
 */
module JsMessage {
  import opened Wrappers
  import opened Text
  import opened Collections
  import opened Time
  import opened OtpPatterns
  import Paging
  import JsPhoneNumber


  /** The longest content the schema admits, in UTF-16 code units (JavaScript's `length`). */
  const MaxContent: nat := 1600

  datatype MessageType = Sms | Mms | Otp | Verification | Notification | Other

  /** The stored spelling of a message type, as the schema's enum lists it. */
  function TypeName(t: MessageType): (r: string)
    ensures r in {"sms", "mms", "otp", "verification", "notification", "other"}
  {
    match t
    case Sms => "sms"
    case Mms => "mms"
    case Otp => "otp"
    case Verification => "verification"
    case Notification => "notification"
    case Other => "other"
  }

  /** The type a spelling names, if it is one of the six. */
  function ParseType(s: string): (r: Option<MessageType>)
    ensures r.Some? ==> TypeName(r.value) == s
    ensures r.None? <==> s !in {"sms", "mms", "otp", "verification", "notification", "other"}
  {
    if s == "sms" then Some(Sms)
    else if s == "mms" then Some(Mms)
    else if s == "otp" then Some(Otp)
    else if s == "verification" then Some(Verification)
    else if s == "notification" then Some(Notification)
    else if s == "other" then Some(Other)
    else None
  }

  /** Every type's spelling reads back as that type. */
  lemma ParseTypeName(t: MessageType)
    ensures ParseType(TypeName(t)) == Some(t)
  {
  }

  datatype Message = Message(
    id: nat,
    phoneNumber: nat,
    user: nat,
    fromNumber: string,
    toNumber: string,
    content: string,
    messageType: MessageType,
    detectedOtp: Option<string>,
    provider: string,
    providerMessageId: Option<string>,
    isRead: bool,
    readAt: Option<nat>,
    receivedAt: nat,
    metadata: map<string, string>)

  /** A JavaScript-truthy string value: present and not empty. */
  predicate Truthy(o: Option<string>) { o.Some? && o.value != [] }

  /** Every detected passcode is a run of four to eight digits. */
  predicate WellFormed(m: Message) {
    m.detectedOtp.Some? ==> 4 <= |m.detectedOtp.value| <= 8 && AllDigits(m.detectedOtp.value)
  }

  // ---------------------------------------------------------------------
  // Passcode detection

  /** The labels of the labelled patterns, in the order they are tried. */
  const JsLabels: seq<string> := ["code", "verification", "otp", "pin", "token"]

  /** A pattern's first match yields a usable passcode: four to eight digits. */
  predicate Usable(code: Option<string>) {
    code.Some? && 4 <= |code.value| <= 8
  }

  /** The passcode of the first labelled pattern, from the `n`-th on, whose first match is usable. */
  function LabelledFrom(content: string, n: nat): (r: Option<string>)
    requires n <= |JsLabels|
    ensures r.Some? ==> 4 <= |r.value| <= 8 && AllDigits(r.value) && Contains(content, r.value)
    ensures r.Some? ==> exists k :: FirstUsableLabel(content, n, k) && LabelCode(content, k) == r
    ensures r.None? <==> forall k :: n <= k < |JsLabels| ==> !Usable(LabelCode(content, k))
    decreases |JsLabels| - n
  {
    if n == |JsLabels| then None
    else
      var code := LabelCode(content, n);
      if Usable(code) then
        assert FirstUsableLabel(content, n, n);
        code
      else
        LabelledStep(content, n);
        LabelledFrom(content, n + 1)
  }

  /** Skipping a label whose match is not usable keeps "first usable label" unchanged. */
  lemma LabelledStep(content: string, n: nat)
    requires n < |JsLabels| && !Usable(LabelCode(content, n))
    ensures forall k :: FirstUsableLabel(content, n + 1, k) ==> FirstUsableLabel(content, n, k)
    ensures (forall k :: n + 1 <= k < |JsLabels| ==> !Usable(LabelCode(content, k))) ==>
      forall k :: n <= k < |JsLabels| ==> !Usable(LabelCode(content, k))
  {
  }

  /** The code the `k`-th labelled pattern's first match captures. */
  function LabelCode(content: string, k: nat): (r: Option<string>)
    requires k < |JsLabels|
    ensures r.Some? ==> |r.value| >= 1 && AllDigits(r.value) && Contains(content, r.value)
  {
    LabelledCode(content, JsLabels[k], IsJsSpace)
  }

  /** Label `k` is the first one from `n` on whose first match is usable. */
  predicate FirstUsableLabel(content: string, n: nat, k: nat) {
    && n <= k < |JsLabels|
    && Usable(LabelCode(content, k))
    && forall j :: n <= j < k ==> !Usable(LabelCode(content, j))
  }

  /**
    The passcode the pattern list yields: the standalone pattern first, then
    the labelled ones; a pattern counts only when its first match has four to
    eight digits.
   */
  function PatternCode(content: string): (r: Option<string>)
    ensures r.Some? ==> 4 <= |r.value| <= 8 && AllDigits(r.value) && Contains(content, r.value)
    ensures StandaloneCode(content).Some? ==> r == StandaloneCode(content)
    ensures StandaloneCode(content).None? ==> r == LabelledFrom(content, 0)
  {
    var standalone := StandaloneCode(content);
    if standalone.Some? then standalone else LabelledFrom(content, 0)
  }

  /** The outcome of `detectOTP`: the updated document and the returned code (`null` as `None`). */
  datatype Detection = Detection(message: Message, code: Option<string>)

  /**
    `detectOTP`. Without a keyword nothing changes. With one, a usable
    passcode marks the message as `otp` and records the code; otherwise the
    message becomes `verification` and keeps any earlier code.
   */
  function DetectOtp(m: Message): (r: Detection)
    ensures r.message == m.(messageType := r.message.messageType, detectedOtp := r.message.detectedOtp)
    ensures !HasKeyword(Lower(m.content), JsKeywords) ==> r == Detection(m, None)
    ensures HasKeyword(Lower(m.content), JsKeywords) ==> r.code == PatternCode(m.content)
    ensures r.code.Some? ==>
      && r.message.messageType == Otp && r.message.detectedOtp == r.code
      && 4 <= |r.code.value| <= 8 && AllDigits(r.code.value) && Contains(m.content, r.code.value)
    ensures HasKeyword(Lower(m.content), JsKeywords) && r.code.None? ==>
      r.message == m.(messageType := Verification)
    ensures WellFormed(m) ==> WellFormed(r.message)
  {
    if !HasKeyword(Lower(m.content), JsKeywords) then Detection(m, None)
    else
      match PatternCode(m.content)
      case Some(code) => Detection(m.(detectedOtp := Some(code), messageType := Otp), Some(code))
      case None => Detection(m.(messageType := Verification), None)
  }

  /** Detecting again on the result changes nothing: the pre-save hook's second run is harmless. */
  lemma DetectOtpIdempotent(m: Message)
    ensures DetectOtp(DetectOtp(m).message).message == DetectOtp(m).message
  {
  }

  /** "Your code: 482913" yields the passcode 482913 and becomes an `otp` message. */
  lemma ExampleCodeDetected(m: Message)
    requires m.content == "Your " + "code" + ": " + "482913"
    ensures DetectOtp(m).code == Some("482913")
    ensures DetectOtp(m).message.messageType == Otp
  {
    OccursInMiddle("Your ", "code", ": " + "482913");
    assert m.content == "Your " + "code" + (": " + "482913");
    KeywordPresent(m.content, JsKeywords, 4, 5);
    assert m.content == "Your " + "code" + ": " + "482913" + "";
    StandaloneInLayout("Your " + "code" + ": ", "482913", "");
  }

  /**
    A bare four-to-eight digit run wins over a labelled code: in
    "Order 55512 code: 1234" the passcode is 55512, not 1234.
   */
  lemma ExampleBareRunFirst(m: Message)
    requires m.content == "Order " + "55512" + " " + "code" + ": 1234"
    ensures DetectOtp(m).code == Some("55512")
  {
    OccursInMiddle("Order " + "55512" + " ", "code", ": 1234");
    KeywordPresent(m.content, JsKeywords, 4, 12);
    assert m.content == "Order " + "55512" + (" " + "code" + ": 1234");
    StandaloneInLayout("Order ", "55512", " " + "code" + ": 1234");
  }

  /** "Please verify your login" has keywords but no digits: a `verification` message without a code. */
  lemma ExampleVerificationOnly(m: Message)
    requires m.content == "Please " + "verify" + " your login"
    ensures DetectOtp(m) == Detection(m.(messageType := Verification), None)
  {
    OccursInMiddle("Please ", "verify", " your login");
    KeywordPresent(m.content, JsKeywords, 1, 7);
    PleaseVerifyHasNoDigit(m.content);
    KeywordWithoutDigits(m);
  }

  lemma PleaseVerifyHasNoDigit(s: string)
    requires s == "Please " + "verify" + " your login"
    ensures forall j :: 0 <= j < |s| ==> !IsDigit(s[j])
  {
    assert forall j :: 0 <= j < |s| ==> s[j] in s;
  }

  /** Content with a keyword and no digit at all makes a `verification` message without a code. */
  lemma KeywordWithoutDigits(m: Message)
    requires HasKeyword(Lower(m.content), JsKeywords)
    requires forall j :: 0 <= j < |m.content| ==> !IsDigit(m.content[j])
    ensures DetectOtp(m) == Detection(m.(messageType := Verification), None)
  {
    NoDigitNoCode(m.content);
    assert forall k :: 0 <= k < |JsLabels| ==> LabelCode(m.content, k).None?;
  }

  /** "see you at noon" contains no keyword, so detection changes nothing. */
  lemma ExampleNoKeyword(m: Message)
    requires m.content == "see you at noon"
    ensures DetectOtp(m) == Detection(m, None)
  {
    NoonHasNoKeyword(m.content);
  }

  lemma NoonHasNoKeyword(s: string)
    requires s == "see you at noon"
    ensures !HasKeyword(Lower(s), JsKeywords)
  {
    NoJsKeyword(s);
  }

  /** The pre-save hook: a new document without a passcode gets one more detection pass. */
  function PreSave(m: Message, isNew: bool): (r: Message)
    ensures !isNew || Truthy(m.detectedOtp) ==> r == m
    ensures r == m.(messageType := r.messageType, detectedOtp := r.detectedOtp)
  {
    if isNew && !Truthy(m.detectedOtp) then DetectOtp(m).message else m
  }

  /** A document that went through detection is left as it is by the hook. */
  lemma PreSaveAfterDetect(m: Message)
    ensures PreSave(DetectOtp(m).message, true) == DetectOtp(m).message
  {
    DetectOtpIdempotent(m);
  }

  // ---------------------------------------------------------------------
  // Highlighting

  /** The detected code stands at `i` as a whole word (`\b<code>\b`). */
  predicate WordAt(s: string, code: string, i: int) {
    && OccursAt(s, code, i)
    && (i == 0 || !IsWordChar(s[i - 1]))
    && (i + |code| == |s| || !IsWordChar(s[i + |code|]))
  }

  /** `s` with every '*' removed. */
  function Unstarred(s: string): (r: string)
    ensures |r| <= |s|
  {
    if |s| == 0 then [] else (if s[0] == '*' then [] else [s[0]]) + Unstarred(s[1..])
  }

  lemma {:induction false} UnstarredAppend(a: string, b: string)
    ensures Unstarred(a + b) == Unstarred(a) + Unstarred(b)
    decreases |a|
  {
    if |a| > 0 {
      assert (a + b)[1..] == a[1..] + b;
      UnstarredAppend(a[1..], b);
    } else {
      assert a + b == b;
    }
  }

  lemma {:induction false} UnstarredDigits(s: string)
    requires AllDigits(s)
    ensures Unstarred(s) == s
    decreases |s|
  {
    if |s| > 0 {
      UnstarredDigits(s[1..]);
    }
  }

  /**
    `content.replace(/\b<code>\b/g, '**<code>**')` from position `i` on:
    occurrences are replaced left to right without overlapping.
   */
  function HighlightFrom(s: string, code: string, i: nat): (r: string)
    requires i <= |s| && |code| > 0 && AllDigits(code)
    ensures Unstarred(r) == Unstarred(s[i..])
    ensures (forall j :: i <= j < |s| ==> !WordAt(s, code, j)) ==> r == s[i..]
    ensures NotInside(s, code, i) ==> r == Marked(s, Starts(s, code), |code|, "**", i)
    decreases |s| - i
  {
    if i == |s| then []
    else if WordAt(s, code, i) then
      var rest := HighlightFrom(s, code, i + |code|);
      UnstarredWrapped(s, code, i, rest);
      HighlightedWord(s, code, i);
      "**" + code + "**" + rest
    else
      var rest := HighlightFrom(s, code, i + 1);
      UnstarredKept(s, i, rest);
      CopiedChar(s, code, i);
      [s[i]] + rest
  }

  lemma UnstarredWrapped(s: string, code: string, i: nat, rest: string)
    requires AllDigits(code) && OccursAt(s, code, i)
    requires Unstarred(rest) == Unstarred(s[i + |code|..])
    ensures Unstarred("**" + code + "**" + rest) == Unstarred(s[i..])
  {
    UnstarredAppend("**" + code + "**", rest);
    UnstarredAppend("**" + code, "**");
    UnstarredAppend("**", code);
    UnstarredDigits(code);
    assert s[i..] == code + s[i + |code|..];
    UnstarredAppend(code, s[i + |code|..]);
  }

  lemma UnstarredKept(s: string, i: nat, rest: string)
    requires i < |s|
    requires Unstarred(rest) == Unstarred(s[i + 1..])
    ensures Unstarred([s[i]] + rest) == Unstarred(s[i..])
  {
    assert s[i..] == [s[i]] + s[i + 1..];
    UnstarredAppend([s[i]], s[i + 1..]);
    UnstarredAppend([s[i]], rest);
  }

  /** The positions at which a whole-word occurrence of the code starts. */
  function Starts(s: string, code: string): int -> bool {
    (j: int) => WordAt(s, code, j)
  }

  /** No other occurrence of length `n` starts close enough to overlap the one at `i`. */
  ghost predicate Isolated(starts: int -> bool, n: nat, i: int) {
    forall j :: i - n < j < i + n && j != i ==> !starts(j)
  }

  /** The mark before position `i`: `mark` when an occurrence starts there. */
  function OpenMark(starts: int -> bool, mark: string, i: nat): string {
    if starts(i) then mark else ""
  }

  /** The mark after position `i`: `mark` when an occurrence of length `n` ends there. */
  function CloseMark(starts: int -> bool, n: nat, mark: string, i: nat): string {
    if i + 1 >= n && starts(i + 1 - n) then mark else ""
  }

  /**
    The highlighting described position by position: `mark` goes before each
    character that starts an occurrence and after each character that ends
    one; every character of `s` from `i` on is copied.
   */
  function Marked(s: string, starts: int -> bool, n: nat, mark: string, i: nat): string
    decreases |s| - i
  {
    if i >= |s| then []
    else OpenMark(starts, mark, i) + [s[i]] + CloseMark(starts, n, mark, i) + Marked(s, starts, n, mark, i + 1)
  }

  /** No whole-word occurrence of the code starts before `i` and still covers `i`. */
  predicate NotInside(s: string, code: string, i: nat) {
    forall j :: 0 <= j < i < j + |code| ==> !WordAt(s, code, j)
  }

  /** Inside an occurrence of an all-digit code every character is a word character. */
  lemma WordAtDigits(s: string, code: string, i: int, q: int)
    requires AllDigits(code) && WordAt(s, code, i) && i <= q < i + |code|
    ensures IsWordChar(s[q])
  {
    assert s[i..i + |code|][q - i] == code[q - i];
  }

  /** Two whole-word occurrences of an all-digit code never overlap. */
  lemma WordsApart(s: string, code: string, i: int, j: int)
    requires AllDigits(code) && WordAt(s, code, i) && WordAt(s, code, j) && i < j
    ensures i + |code| <= j
  {
    if j < i + |code| {
      WordAtDigits(s, code, i, j - 1);
    }
  }

  lemma StartsIsolated(s: string, code: string, i: int)
    requires AllDigits(code) && WordAt(s, code, i)
    ensures Isolated(Starts(s, code), |code|, i)
  {
    forall j | i - |code| < j < i + |code| && j != i ensures !Starts(s, code)(j) {
      if WordAt(s, code, j) && j < i {
        WordsApart(s, code, j, i);
      }
      if WordAt(s, code, j) && j > i {
        WordsApart(s, code, i, j);
      }
    }
  }

  /** Within an occurrence starting at `i`, only `i` opens and only its last position closes. */
  lemma MarksWithin(starts: int -> bool, n: nat, mark: string, i: nat, q: nat)
    requires n > 0 && Isolated(starts, n, i) && starts(i) && i <= q < i + n
    ensures OpenMark(starts, mark, q) == (if q == i then mark else "")
    ensures CloseMark(starts, n, mark, q) == (if q + 1 == i + n then mark else "")
  {
  }

  /** One step of `Marked`. */
  lemma MarkedStep(s: string, starts: int -> bool, n: nat, mark: string, q: nat)
    requires q < |s|
    ensures Marked(s, starts, n, mark, q)
      == OpenMark(starts, mark, q) + [s[q]] + CloseMark(starts, n, mark, q) + Marked(s, starts, n, mark, q + 1)
  {
  }

  lemma Regroup<T>(a: seq<T>, b: seq<T>, c: T, d: seq<T>)
    ensures a + b + ([c] + d) == a + (b + [c]) + d
  {
  }

  /** Reading one more character of a run: the algebra of `MarkedRun`'s step. */
  lemma Extend<T>(x: seq<T>, mark: seq<T>, a: seq<T>, c: T, before: seq<T>, after: seq<T>, b: seq<T>)
    requires x == mark + a + before && before == [c] + after && b == a + [c]
    ensures x == mark + b + after
  {
    Regroup(mark, a, c, after);
  }

  /** The first character of an occurrence: the opening mark, then the character. */
  lemma MarkedRunStart(s: string, starts: int -> bool, n: nat, mark: string, i: nat)
    requires n > 1 && Isolated(starts, n, i) && starts(i) && i + n <= |s|
    ensures Marked(s, starts, n, mark, i) == mark + s[i..i + 1] + Marked(s, starts, n, mark, i + 1)
  {
    MarksWithin(starts, n, mark, i, i);
    MarkedStep(s, starts, n, mark, i);
    assert s[i..i + 1] == [s[i]];
  }

  /** A character strictly inside an occurrence is copied without a mark. */
  lemma MarkedInner(s: string, starts: int -> bool, n: nat, mark: string, i: nat, q: nat)
    requires n > 0 && Isolated(starts, n, i) && starts(i) && i < q && q + 1 < i + n && i + n <= |s|
    ensures Marked(s, starts, n, mark, q) == [s[q]] + Marked(s, starts, n, mark, q + 1)
  {
    MarksWithin(starts, n, mark, i, q);
    MarkedStep(s, starts, n, mark, q);
  }

  /** A later character inside an occurrence: no mark, just the character. */
  lemma MarkedRunNext(s: string, starts: int -> bool, n: nat, mark: string, i: nat, q: nat)
    requires n > 0 && Isolated(starts, n, i) && starts(i) && i < q && q + 1 < i + n && i + n <= |s|
    requires Marked(s, starts, n, mark, i) == mark + s[i..q] + Marked(s, starts, n, mark, q)
    ensures Marked(s, starts, n, mark, i) == mark + s[i..q + 1] + Marked(s, starts, n, mark, q + 1)
  {
    MarkedInner(s, starts, n, mark, i, q);
    var read := s[i..q + 1];
    assert read == s[i..q] + [s[q]];
    Extend(Marked(s, starts, n, mark, i), mark, s[i..q], s[q], Marked(s, starts, n, mark, q),
           Marked(s, starts, n, mark, q + 1), read);
  }

  /** Inside an occurrence starting at `i`, the marked text is the opening mark and the characters read so far. */
  lemma {:induction false} MarkedRun(s: string, starts: int -> bool, n: nat, mark: string, i: nat, p: nat)
    requires n > 0 && Isolated(starts, n, i) && starts(i) && i < p < i + n && i + n <= |s|
    ensures Marked(s, starts, n, mark, i) == mark + s[i..p] + Marked(s, starts, n, mark, p)
    decreases p - i
  {
    if p == i + 1 {
      MarkedRunStart(s, starts, n, mark, i);
    } else {
      MarkedRun(s, starts, n, mark, i, p - 1);
      MarkedRunNext(s, starts, n, mark, i, p - 1);
    }
  }

  /** An occurrence at `i` is marked as its characters between two marks. */
  lemma MarkedWord(s: string, starts: int -> bool, n: nat, mark: string, i: nat)
    requires n > 0 && Isolated(starts, n, i) && starts(i) && i + n <= |s|
    ensures Marked(s, starts, n, mark, i) == mark + s[i..i + n] + mark + Marked(s, starts, n, mark, i + n)
  {
    var q := i + n - 1;
    var after := Marked(s, starts, n, mark, i + n);
    MarksWithin(starts, n, mark, i, q);
    MarkedStep(s, starts, n, mark, q);
    assert s[i..i + n] == s[i..q] + [s[q]];
    if q == i {
      assert s[i..i + n] == [s[q]];
    } else {
      MarkedRun(s, starts, n, mark, i, q);
      assert Marked(s, starts, n, mark, q) == [s[q]] + (mark + after);
      Regroup(mark, s[i..q], s[q], mark + after);
    }
  }

  /** From a position no occurrence covers, the next marks depend only on what starts there. */
  lemma NotInsideNext(s: string, code: string, i: nat)
    requires i < |s| && |code| > 0 && AllDigits(code)
    ensures NotInside(s, code, i) && !WordAt(s, code, i) ==>
      CloseMark(Starts(s, code), |code|, "**", i) == "" && NotInside(s, code, i + 1)
    ensures NotInside(s, code, i) && WordAt(s, code, i) ==> NotInside(s, code, i + |code|)
  {
    if NotInside(s, code, i) && WordAt(s, code, i) {
      forall j | 0 <= j < i + |code| < j + |code| ensures !WordAt(s, code, j) {
        if WordAt(s, code, j) && j < i {
          WordsApart(s, code, j, i);
        }
        if WordAt(s, code, j) && j > i {
          WordsApart(s, code, i, j);
        }
      }
    }
  }

  /** The marking of a whole-word occurrence of the code at `i`. */
  lemma HighlightedWord(s: string, code: string, i: nat)
    requires i < |s| && |code| > 0 && AllDigits(code) && WordAt(s, code, i)
    ensures NotInside(s, code, i) ==> NotInside(s, code, i + |code|)
    ensures Marked(s, Starts(s, code), |code|, "**", i)
      == "**" + code + "**" + Marked(s, Starts(s, code), |code|, "**", i + |code|)
  {
    NotInsideNext(s, code, i);
    StartsIsolated(s, code, i);
    assert s[i..i + |code|] == code;
    MarkedCode(s, Starts(s, code), code, i);
  }

  /** An isolated occurrence of `code` at `i` is marked as `**code**`. */
  lemma MarkedCode(s: string, starts: int -> bool, code: string, i: nat)
    requires |code| > 0 && Isolated(starts, |code|, i) && starts(i) && i + |code| <= |s| && s[i..i + |code|] == code
    ensures Marked(s, starts, |code|, "**", i) == "**" + code + "**" + Marked(s, starts, |code|, "**", i + |code|)
  {
    MarkedWord(s, starts, |code|, "**", i);
  }

  /** The marking at a position where no occurrence starts, ends or runs. */
  lemma CopiedChar(s: string, code: string, i: nat)
    requires i < |s| && |code| > 0 && AllDigits(code) && !WordAt(s, code, i)
    ensures NotInside(s, code, i) ==> NotInside(s, code, i + 1)
    ensures NotInside(s, code, i) ==>
      Marked(s, Starts(s, code), |code|, "**", i) == [s[i]] + Marked(s, Starts(s, code), |code|, "**", i + 1)
  {
    NotInsideNext(s, code, i);
    MarkedStep(s, Starts(s, code), |code|, "**", i);
    assert OpenMark(Starts(s, code), "**", i) == "";
  }

  /**
    `getFormattedContent`: the content with the detected code wrapped in
    `**` wherever it stands as a whole word. Only '*' characters are added.
   */
  function FormattedContent(m: Message): (r: string)
    requires WellFormed(m)
    ensures Unstarred(r) == Unstarred(m.content)
    ensures !Truthy(m.detectedOtp) ==> r == m.content
    ensures Truthy(m.detectedOtp) && (forall j :: 0 <= j < |m.content| ==> !WordAt(m.content, m.detectedOtp.value, j)) ==>
      r == m.content
    ensures Truthy(m.detectedOtp) ==> r == Marked(m.content, Starts(m.content, m.detectedOtp.value), |m.detectedOtp.value|, "**", 0)
  {
    if Truthy(m.detectedOtp) then
      assert m.content[0..] == m.content;
      HighlightFrom(m.content, m.detectedOtp.value, 0)
    else m.content
  }

  // ---------------------------------------------------------------------
  // Reading state

  /** `markAsRead`. */
  function MarkAsRead(m: Message, now: nat): (r: Message)
    ensures r.isRead && r.readAt == Some(now)
    ensures r == m.(isRead := r.isRead, readAt := r.readAt)
  {
    m.(isRead := true, readAt := Some(now))
  }

  /** The condition of `markAllAsReadForUser`: the user's unread messages, on one number when given. */
  predicate UnreadOf(m: Message, user: nat, phoneNumber: Option<nat>) {
    m.user == user && !m.isRead && (phoneNumber.Some? ==> m.phoneNumber == phoneNumber.value)
  }

  /** `markAllAsReadForUser`: marks the matching messages read and reports how many changed. */
  function MarkAllAsReadForUser(store: seq<Message>, user: nat, phoneNumber: Option<nat>, now: nat): (r: (seq<Message>, nat))
    ensures |r.0| == |store|
    ensures r.1 == Count(store, (m: Message) => UnreadOf(m, user, phoneNumber))
    ensures forall i :: 0 <= i < |store| ==>
      r.0[i] == (if UnreadOf(store[i], user, phoneNumber) then MarkAsRead(store[i], now) else store[i])
    ensures Count(r.0, (m: Message) => UnreadOf(m, user, phoneNumber)) == 0
  {
    var updated := Map(store, (m: Message) => if UnreadOf(m, user, phoneNumber) then MarkAsRead(m, now) else m);
    FilterNone(updated, (m: Message) => UnreadOf(m, user, phoneNumber));
    (updated, Count(store, (m: Message) => UnreadOf(m, user, phoneNumber)))
  }

  /** Marking all read a second time changes nothing and reports zero. */
  lemma MarkAllAsReadTwice(store: seq<Message>, user: nat, phoneNumber: Option<nat>, t1: nat, t2: nat)
    ensures var once := MarkAllAsReadForUser(store, user, phoneNumber, t1).0;
      MarkAllAsReadForUser(once, user, phoneNumber, t2) == (once, 0)
  {
    var once := MarkAllAsReadForUser(store, user, phoneNumber, t1).0;
    var twice := MarkAllAsReadForUser(once, user, phoneNumber, t2).0;
    assert twice == once;
  }

  // ---------------------------------------------------------------------
  // Listing

  /** The options of `findByUser`; `limit == 0` means no limit, as in the database. */
  datatype FindOptions = FindOptions(
    phoneNumber: Option<nat>,
    messageType: Option<MessageType>,
    isRead: Option<bool>,
    since: Option<nat>,
    limit: nat,
    offset: nat,
    newestFirst: bool)

  const DefaultFindOptions := FindOptions(None, None, None, None, 50, 0, true)

  /** The filter of `findByUser` (and of the count beside it in the listing route). */
  predicate Selected(m: Message, user: nat, o: FindOptions) {
    && m.user == user
    && (o.phoneNumber.Some? ==> m.phoneNumber == o.phoneNumber.value)
    && (o.messageType.Some? ==> m.messageType == o.messageType.value)
    && (o.isRead.Some? ==> m.isRead == o.isRead.value)
    && (o.since.Some? ==> m.receivedAt >= o.since.value)
  }

  predicate NewestFirst(s: seq<Message>) {
    forall i, j :: 0 <= i < j < |s| ==> s[i].receivedAt >= s[j].receivedAt
  }

  predicate OldestFirst(s: seq<Message>) {
    forall i, j :: 0 <= i < j < |s| ==> s[i].receivedAt <= s[j].receivedAt
  }

  /** The user's matching messages in the requested time order, before paging. */
  function SelectedSorted(store: seq<Message>, user: nat, o: FindOptions): (r: seq<Message>)
    ensures multiset(r) == multiset(Filter(store, (m: Message) => Selected(m, user, o)))
    ensures o.newestFirst ==> NewestFirst(r)
    ensures !o.newestFirst ==> OldestFirst(r)
  {
    var matching := Filter(store, (m: Message) => Selected(m, user, o));
    if o.newestFirst then
      var r := SortBy(matching, (m: Message) => -(m.receivedAt as int));
      assert forall i, j :: 0 <= i < j < |r| ==> -(r[i].receivedAt as int) <= -(r[j].receivedAt as int);
      r
    else SortBy(matching, (m: Message) => m.receivedAt as int)
  }

  lemma SelectedSortedMembers(store: seq<Message>, user: nat, o: FindOptions)
    ensures forall i :: 0 <= i < |SelectedSorted(store, user, o)| ==>
      SelectedSorted(store, user, o)[i] in store && Selected(SelectedSorted(store, user, o)[i], user, o)
  {
    var sorted := SelectedSorted(store, user, o);
    var matching := Filter(store, (m: Message) => Selected(m, user, o));
    forall i | 0 <= i < |sorted| ensures sorted[i] in store && Selected(sorted[i], user, o) {
      assert sorted[i] in multiset(matching);
      assert sorted[i] in matching;
    }
  }

  /** Every message of a page of the selection is one of the user's matching messages. */
  lemma WindowOfSelected(store: seq<Message>, user: nat, o: FindOptions, limit: nat)
    ensures var page := Paging.Window(SelectedSorted(store, user, o), o.offset, limit);
      forall i :: 0 <= i < |page| ==> page[i] in store && Selected(page[i], user, o)
  {
    var sorted := SelectedSorted(store, user, o);
    var page := Paging.Window(sorted, o.offset, limit);
    SelectedSortedMembers(store, user, o);
    Paging.WindowWithin(sorted, o.offset, limit, (m: Message) => m in store && Selected(m, user, o));
  }

  /** A page of a time-ordered list is ordered the same way. */
  lemma WindowKeepsOrder(s: seq<Message>, offset: nat, limit: nat)
    ensures NewestFirst(s) ==> NewestFirst(Paging.Window(s, offset, limit))
    ensures OldestFirst(s) ==> OldestFirst(Paging.Window(s, offset, limit))
  {
    var r := Paging.Window(s, offset, limit);
    assert forall i, j :: 0 <= i < j < |r| ==> r[i] == s[offset + i] && r[j] == s[offset + j];
  }

  /** `findByUser`: one page of the user's matching messages. */
  function FindByUser(store: seq<Message>, user: nat, o: FindOptions): (r: seq<Message>)
    ensures var sorted := SelectedSorted(store, user, o);
      Paging.WindowOf(r, sorted, o.offset, if o.limit == 0 then |sorted| else o.limit)
    ensures o.limit > 0 ==> |r| <= o.limit
    ensures forall i :: 0 <= i < |r| ==> r[i] in store && Selected(r[i], user, o)
    ensures o.newestFirst ==> NewestFirst(r)
    ensures !o.newestFirst ==> OldestFirst(r)
  {
    var sorted := SelectedSorted(store, user, o);
    var r := Paging.Window(sorted, o.offset, if o.limit == 0 then |sorted| else o.limit);
    PageOfSelected(store, user, o, r);
    r
  }

  /** What a page of the selection is: a window of it, bounded, matching and in order. */
  lemma PageOfSelected(store: seq<Message>, user: nat, o: FindOptions, r: seq<Message>)
    requires var sorted := SelectedSorted(store, user, o);
      r == Paging.Window(sorted, o.offset, if o.limit == 0 then |sorted| else o.limit)
    ensures var sorted := SelectedSorted(store, user, o);
      Paging.WindowOf(r, sorted, o.offset, if o.limit == 0 then |sorted| else o.limit)
    ensures o.limit > 0 ==> |r| <= o.limit
    ensures forall i :: 0 <= i < |r| ==> r[i] in store && Selected(r[i], user, o)
    ensures o.newestFirst ==> NewestFirst(r)
    ensures !o.newestFirst ==> OldestFirst(r)
  {
    var sorted := SelectedSorted(store, user, o);
    var limit := if o.limit == 0 then |sorted| else o.limit;
    WindowOfSelected(store, user, o, limit);
    WindowKeepsOrder(sorted, o.offset, limit);
  }

  // ---------------------------------------------------------------------
  // Retention

  /** A message the retention sweep keeps: received at or after the cutoff. */
  predicate ReceivedSince(m: Message, cutoff: int) {
    m.receivedAt >= cutoff
  }

  /** `cleanupOldMessages`: deletes messages received before `now - daysOld` days. */
  function CleanupOldMessages(store: seq<Message>, now: nat, daysOld: int): (r: (seq<Message>, nat))
    ensures r.0 == Filter(store, (m: Message) => ReceivedSince(m, now - daysOld * DayMs))
    ensures r.1 == Count(store, (m: Message) => !ReceivedSince(m, now - daysOld * DayMs))
    ensures forall i :: 0 <= i < |r.0| ==> r.0[i] in store && r.0[i].receivedAt >= now - daysOld * DayMs
    ensures forall i :: 0 <= i < |store| && store[i].receivedAt >= now - daysOld * DayMs ==> store[i] in r.0
    ensures |r.0| + r.1 == |store|
  {
    var cutoff := now - daysOld * DayMs;
    var kept := Filter(store, (m: Message) => ReceivedSince(m, cutoff));
    var gone := Filter(store, (m: Message) => !ReceivedSince(m, cutoff));
    FilterPartition(store, (m: Message) => !ReceivedSince(m, cutoff), (m: Message) => ReceivedSince(m, cutoff));
    (kept, |gone|)
  }

  // ---------------------------------------------------------------------
  // Creation from a webhook

  /** The fields a webhook handler passes to `createFromWebhook`; content is always a string there. */
  datatype WebhookData = WebhookData(
    fromNumber: Option<string>,
    toNumber: Option<string>,
    content: string,
    provider: Option<string>,
    providerMessageId: Option<string>,
    metadata: map<string, string>)

  /** The schema's checks on a new message, as the names of the failing paths in schema order. */
  function SchemaErrors(fromNumber: Option<string>, toNumber: Option<string>, content: string, provider: Option<string>): (errors: seq<string>)
    ensures errors == [] <==>
      && fromNumber.Some? && JsTrim(fromNumber.value) != []
      && toNumber.Some? && JsTrim(toNumber.value) != []
      && content != [] && Utf16Length(content) <= MaxContent
      && provider.Some? && JsPhoneNumber.IsProvider(provider.value)
    ensures provider.Some? && !JsPhoneNumber.IsProvider(provider.value) ==> "provider" in errors
    ensures Utf16Length(content) > MaxContent ==> "content" in errors
  {
    (if fromNumber.Some? && JsTrim(fromNumber.value) != [] then [] else ["fromNumber"])
    + (if toNumber.Some? && JsTrim(toNumber.value) != [] then [] else ["toNumber"])
    + (if content != [] && Utf16Length(content) <= MaxContent then [] else ["content"])
    + (if provider.Some? && JsPhoneNumber.IsProvider(provider.value) then [] else ["provider"])
  }

  /** The index of the first number document whose number equals `number`. */
  function FindNumber(leases: seq<JsPhoneNumber.Lease>, number: string): (r: Option<nat>)
    ensures r.Some? ==> (r.value < |leases| && leases[r.value].phoneNumber == number
      && forall j :: 0 <= j < r.value ==> leases[j].phoneNumber != number)
    ensures r.None? ==> forall j :: 0 <= j < |leases| ==> leases[j].phoneNumber != number
  {
    FirstIndex(leases, (l: JsPhoneNumber.Lease) => l.phoneNumber == number)
  }

  datatype CreateOutcome =
    | Created(messages: seq<Message>, leases: seq<JsPhoneNumber.Lease>, message: Message)
      /** Thrown: "Phone number not found or not assigned to user". */
    | NoHolder
      /** The schema refused the document (a `ValidationError` naming these paths). */
    | Invalid(paths: seq<string>)

  /** The number document a message for `data` would be filed under, and its holder. */
  function Recipient(leases: seq<JsPhoneNumber.Lease>, users: set<nat>, data: WebhookData): (r: Option<(nat, nat)>)
    ensures r.Some? ==> (r.value.0 < |leases| && leases[r.value.0].user == Some(r.value.1) && r.value.1 in users
      && data.toNumber.Some? && leases[r.value.0].phoneNumber == JsTrim(data.toNumber.value))
  {
    if data.toNumber.None? then None
    else match FindNumber(leases, JsTrim(data.toNumber.value))
      case None => None
      case Some(k) =>
        if leases[k].user.Some? && leases[k].user.value in users then Some((k, leases[k].user.value)) else None
  }

  /**
    `createFromWebhook`: files the message under the number it was sent to
    and that number's holder, runs detection, saves it, and records its id
    on the number document. An absent recipient matches no number.
   */
  function CreateFromWebhook(
    messages: seq<Message>, leases: seq<JsPhoneNumber.Lease>, users: set<nat>,
    data: WebhookData, newId: nat, now: nat): (r: CreateOutcome)
    ensures r.NoHolder? <==> Recipient(leases, users, data).None?
    ensures r.Invalid? <==> (Recipient(leases, users, data).Some?
      && SchemaErrors(data.fromNumber, data.toNumber, data.content, data.provider) != [])
    ensures r.Created? ==>
      && r.messages == messages + [r.message]
      && |r.leases| == |leases|
      && var (k, holder) := Recipient(leases, users, data).value;
         && r.message.id == newId && r.message.user == holder && r.message.phoneNumber == leases[k].id
         && r.message.content == data.content && !r.message.isRead && r.message.receivedAt == now
         && r.message.fromNumber == JsTrim(data.fromNumber.value) && r.message.provider == data.provider.value
         && r.message.providerMessageId == data.providerMessageId && r.message.metadata == data.metadata
         && r.leases[k].messages == leases[k].messages + [newId]
         && forall j :: 0 <= j < |leases| && j != k ==> r.leases[j] == leases[j]
    ensures r.Created? ==> (
      var keyword := HasKeyword(Lower(data.content), JsKeywords);
      && (!keyword ==> r.message.messageType == Sms && r.message.detectedOtp == None)
      && (keyword && PatternCode(data.content).Some? ==>
            r.message.messageType == Otp && r.message.detectedOtp == PatternCode(data.content))
      && (keyword && PatternCode(data.content).None? ==>
            r.message.messageType == Verification && r.message.detectedOtp == None))
    ensures r.Created? ==> WellFormed(r.message)
    ensures r.Created? ==> r.message.messageType in {Sms, Otp, Verification}
    ensures r.Created? && r.message.detectedOtp.Some? ==> Contains(data.content, r.message.detectedOtp.value)
  {
    match Recipient(leases, users, data)
    case None => NoHolder
    case Some((k, holder)) =>
      var errors := SchemaErrors(data.fromNumber, data.toNumber, data.content, data.provider);
      if errors != [] then Invalid(errors)
      else
        var created := Message(
          newId, leases[k].id, holder, JsTrim(data.fromNumber.value), JsTrim(data.toNumber.value),
          data.content, Sms, None, data.provider.value, data.providerMessageId,
          false, None, now, data.metadata);
        var detected := DetectOtp(created).message;
        PreSaveAfterDetect(created);
        var saved := PreSave(detected, true);
        var lease := leases[k].(messages := leases[k].messages + [newId]);
        var savedLease := JsPhoneNumber.PreSave(lease);
        Created(messages + [saved], leases[k := savedLease.value], saved)
  }
}
