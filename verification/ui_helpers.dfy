/**
  The pure helpers of the React pages: the countdown and relative-time
  texts, the badge and type colours, the passcode shown with a message,
  the local read-state updates and request parameters of the messages page,
  and the dashboard's greeting and number summaries.

  Clock readings (`new Date()`, `getHours()`) and locale formatting
  (`toLocaleDateString`) are parameters; times are milliseconds.
 */
module UiHelpers {
  import opened Wrappers
  import opened Text
  import opened Time
  import opened Collections
  import opened OtpPatterns
  import PyMessage

  // ---------------------------------------------------------------------
  // Countdown: formatTimeRemaining
  // ---------------------------------------------------------------------

  const NoExpiry := "No expiry"
  const Expired := "Expired"

  /** Whole hours and the whole minutes left over make up the whole minutes. */
  lemma HoursAndMinutes(diff: nat)
    ensures (diff % HourMs) / MinuteMs < 60
    ensures (diff / HourMs) * 60 + (diff % HourMs) / MinuteMs == diff / MinuteMs
  {
    var h := diff / HourMs;
    var rest := diff % HourMs;
    assert diff == h * HourMs + rest;
    assert h * HourMs == (h * 60) * MinuteMs;
    var m := rest / MinuteMs;
    assert rest == m * MinuteMs + rest % MinuteMs;
    assert diff == (h * 60 + m) * MinuteMs + rest % MinuteMs;
  }

  /** A run of digits from `i` that stops at `j` is measured exactly. */
  lemma {:induction false} DigitRunUpTo(s: string, i: nat, j: nat)
    requires i <= j <= |s|
    requires forall t :: i <= t < j ==> IsDigit(s[t])
    requires j == |s| || !IsDigit(s[j])
    ensures DigitRun(s, i) == j - i
    decreases j - i
  {
    if i < j {
      DigitRunUpTo(s, i + 1, j);
    }
  }

  /**
    Reads the two figures of a countdown text back: `{h}h {m}m` shows `h`
    hours and `m` minutes, `{m}m` shows no hours and `m` minutes.
   */
  function ShownFields(s: string): (r: Option<(nat, nat)>) {
    if |s| < 2 || s[|s| - 1] != 'm' then None
    else
      var body := s[..|s| - 1];
      var k := DigitRun(body, 0);
      if k == 0 then None
      else if k == |body| then Some((0, ParseDigits(body)))
      else if k + 2 < |body| && body[k] == 'h' && body[k + 1] == ' ' && AllDigits(body[k + 2..]) then
        assert AllDigits(body[..k]);
        Some((ParseDigits(body[..k]), ParseDigits(body[k + 2..])))
      else None
  }

  /** The whole minutes a countdown text stands for. */
  function ParseCountdown(s: string): (r: Option<nat>) {
    match ShownFields(s)
    case None => None
    case Some((h, m)) => Some(h * 60 + m)
  }

  /** A text `{digits}h {digits}m` with its hour mark at `k` reads back as hours and minutes. */
  lemma ParseHoursAt(s: string, k: nat)
    requires |s| >= 2 && s[|s| - 1] == 'm' && 1 <= k && k + 3 < |s|
    requires s[k] == 'h' && s[k + 1] == ' '
    requires AllDigits(s[..k]) && AllDigits(s[k + 2..|s| - 1])
    ensures ShownFields(s) == Some((ParseDigits(s[..k]), ParseDigits(s[k + 2..|s| - 1])))
  {
    var body := s[..|s| - 1];
    DigitRunUpTo(body, 0, k);
    assert body[..k] == s[..k] && body[k + 2..] == s[k + 2..|s| - 1];
  }

  /** `{h}h {m}m` shows `h` hours and `m` minutes, and an hour mark. */
  lemma HoursLayout(hs: string, m: string, r: string)
    requires |hs| >= 1 && AllDigits(hs) && |m| >= 1 && AllDigits(m)
    requires r == hs + "h " + m + "m"
    ensures ShownFields(r) == Some((ParseDigits(hs), ParseDigits(m)))
    ensures 'h' in r
  {
    HoursLayoutParts(hs, m, r);
    ParseHoursAt(r, |hs|);
  }

  /** Where the parts of `{h}h {m}m` sit. */
  lemma HoursLayoutParts(hs: string, m: string, r: string)
    requires r == hs + "h " + m + "m"
    ensures |r| == |hs| + |m| + 3
    ensures r[|hs|] == 'h' && r[|hs| + 1] == ' ' && r[|r| - 1] == 'm'
    ensures r[..|hs|] == hs && r[|hs| + 2..|r| - 1] == m
  {
    assert r[..|hs|] == hs;
    assert r[|hs| + 2..|r| - 1] == m;
  }

  /** `{m}m` shows no hours and `m` minutes, and no hour mark. */
  lemma MinutesLayout(m: string)
    requires |m| >= 1 && AllDigits(m)
    ensures ShownFields(m + "m") == Some((0, ParseDigits(m)))
    ensures 'h' !in m + "m"
  {
    var r := m + "m";
    assert r[..|r| - 1] == m;
    DigitRunUpTo(m, 0, |m|);
    assert forall j :: 0 <= j < |m| ==> r[j] != 'h';
  }

  /** The text of a positive time left: hours and minutes, or minutes alone under an hour. */
  function Countdown(diff: int): (r: string)
    requires diff > 0
    ensures |r| >= 2 && r[|r| - 1] == 'm'
    ensures ShownFields(r) == Some((diff / HourMs, (diff % HourMs) / MinuteMs))
    ensures ShownFields(r).value.1 < 60
    ensures ParseCountdown(r) == Some(diff / MinuteMs)
    ensures 'h' in r <==> diff >= HourMs
  {
    var hours := diff / HourMs;
    var m := NatToString((diff % HourMs) / MinuteMs);
    var r := if hours > 0 then NatToString(hours) + "h " + m + "m" else m + "m";
    CountdownReadsBack(diff, r);
    r
  }

  /** The countdown text of `diff` shows its whole hours and the minutes left over. */
  lemma CountdownReadsBack(diff: int, r: string)
    requires diff > 0
    requires
      var m := NatToString((diff % HourMs) / MinuteMs);
      r == if diff / HourMs > 0 then NatToString(diff / HourMs) + "h " + m + "m" else m + "m"
    ensures |r| >= 2 && r[|r| - 1] == 'm'
    ensures ShownFields(r) == Some((diff / HourMs, (diff % HourMs) / MinuteMs))
    ensures ParseCountdown(r) == Some(diff / MinuteMs)
    ensures 'h' in r <==> diff >= HourMs
  {
    var hours := diff / HourMs;
    var minutes := (diff % HourMs) / MinuteMs;
    HoursAndMinutes(diff);
    ParseNatToString(minutes);
    if hours > 0 {
      ParseNatToString(hours);
      HoursLayout(NatToString(hours), NatToString(minutes), r);
    } else {
      MinutesLayout(NatToString(minutes));
    }
  }

  /**
    `formatTimeRemaining` (the same code serves the numbers page and the
    dashboard): no expiry, expired when the expiry is not in the future,
    otherwise a countdown that reads back as the whole minutes left and
    shows hours exactly when at least an hour is left.
   */
  function FormatTimeRemaining(expiresAt: Option<int>, now: int): (r: string)
    ensures r == NoExpiry <==> expiresAt.None?
    ensures r == Expired <==> expiresAt.Some? && expiresAt.value <= now
    ensures expiresAt.Some? && expiresAt.value > now ==>
      && ShownFields(r) == Some(((expiresAt.value - now) / HourMs, ((expiresAt.value - now) % HourMs) / MinuteMs))
      && ShownFields(r).value.1 < 60
      && ParseCountdown(r) == Some((expiresAt.value - now) / MinuteMs)
      && ('h' in r <==> expiresAt.value - now >= HourMs)
  {
    match expiresAt
    case None => NoExpiry
    case Some(expiry) =>
      var diff := expiry - now;
      if diff <= 0 then Expired
      else
        var r := Countdown(diff);
        assert r != NoExpiry && r != Expired by {
          assert NoExpiry[|NoExpiry| - 1] != 'm' && Expired[|Expired| - 1] != 'm';
        }
        r
  }

  /**
    `getStatusColor`: destructive for an expired status or an expiry not in
    the future, whatever the status; then by status.
   */
  function StatusColor(status: string, expiresAt: Option<int>, now: int): (r: string)
    ensures r == "destructive" <==> status == "expired" || (expiresAt.Some? && expiresAt.value <= now)
    ensures r != "destructive" ==>
      && (r == "default" <==> status == "assigned")
      && (r == "secondary" <==> status == "available")
      && (r == "outline" <==> status != "assigned" && status != "available")
  {
    if status == "expired" || (expiresAt.Some? && expiresAt.value <= now) then "destructive"
    else if status == "assigned" then "default"
    else if status == "available" then "secondary"
    else "outline"
  }

  /** For a live status, the badge turns destructive exactly when the countdown says expired. */
  lemma BadgeAgreesWithCountdown(status: string, expiresAt: Option<int>, now: int)
    requires status != "expired"
    ensures StatusColor(status, expiresAt, now) == "destructive" <==> FormatTimeRemaining(expiresAt, now) == Expired
  {
  }

  // ---------------------------------------------------------------------
  // Relative time: formatTime
  // ---------------------------------------------------------------------

  /** The relative-time bucket of an age. */
  datatype Age = JustNow | MinutesAgo(minutes: nat) | HoursAgo(hours: nat) | Dated

  /** The bucket of a message `diff` milliseconds old: under a minute, whole minutes, whole hours, or a day or more. */
  function AgeOf(diff: int): (r: Age)
    ensures r == JustNow <==> diff < MinuteMs
    ensures r.MinutesAgo? <==> MinuteMs <= diff < HourMs
    ensures r.HoursAgo? <==> HourMs <= diff < DayMs
    ensures r == Dated <==> diff >= DayMs
    ensures r.MinutesAgo? ==> 1 <= r.minutes <= 59 && r.minutes * MinuteMs <= diff < (r.minutes + 1) * MinuteMs
    ensures r.HoursAgo? ==> 1 <= r.hours <= 23 && r.hours * HourMs <= diff < (r.hours + 1) * HourMs
  {
    if diff < MinuteMs then JustNow
    else if diff < HourMs then MinutesAgo(diff / MinuteMs)
    else if diff < DayMs then HoursAgo(diff / HourMs)
    else Dated
  }

  /** The order of buckets as ages in minutes. */
  function AgeRank(a: Age): nat {
    match a
    case JustNow => 0
    case MinutesAgo(m) => m
    case HoursAgo(h) => 60 * h
    case Dated => 1440
  }

  /** An older message never shows a smaller age. */
  lemma AgeMonotone(d1: int, d2: int)
    requires d1 <= d2
    ensures AgeRank(AgeOf(d1)) <= AgeRank(AgeOf(d2))
  {
    var a, b := AgeOf(d1), AgeOf(d2);
    if a.MinutesAgo? && b.HoursAgo? {
      assert a.minutes < 60;
    } else if a.MinutesAgo? && b.MinutesAgo? {
      assert a.minutes * MinuteMs <= d2 < (b.minutes + 1) * MinuteMs;
    } else if a.HoursAgo? && b.HoursAgo? {
      assert a.hours * HourMs <= d2 < (b.hours + 1) * HourMs;
    }
  }

  /** The text of a bucket; `dated` is the locale rendering used from a day on. */
  function AgeLabel(a: Age, dated: string): string {
    match a
    case JustNow => "Just now"
    case MinutesAgo(m) => NatToString(m) + "m ago"
    case HoursAgo(h) => NatToString(h) + "h ago"
    case Dated => dated
  }

  /** Reads a relative-time text back into its bucket. */
  function ParseAge(s: string): Option<Age> {
    if s == "Just now" then Some(JustNow)
    else if |s| > 5 && s[|s| - 4..] == " ago" && AllDigits(s[..|s| - 5]) then
      var n := ParseDigits(s[..|s| - 5]);
      if s[|s| - 5] == 'm' then Some(MinutesAgo(n))
      else if s[|s| - 5] == 'h' then Some(HoursAgo(n))
      else None
    else None
  }

  /** Where the parts of `{n}m ago` and `{n}h ago` sit. */
  lemma AgoParts(ds: string, unit: char, s: string)
    requires |ds| >= 1 && s == ds + [unit] + " ago"
    ensures |s| == |ds| + 5 && s[0] == ds[0]
    ensures s[..|s| - 5] == ds && s[|s| - 5] == unit && s[|s| - 4..] == " ago"
  {
    assert s[..|ds|] == ds;
    assert s[|ds| + 1..] == " ago";
  }

  /** A digit-led `{n}{unit} ago` reads back with its number. */
  lemma ParseAgo(n: nat, unit: char, s: string)
    requires s == NatToString(n) + [unit] + " ago"
    ensures s != "Just now" && |s| > 5 && s[|s| - 4..] == " ago" && s[|s| - 5] == unit
    ensures AllDigits(s[..|s| - 5]) && ParseDigits(s[..|s| - 5]) == n
  {
    AgoParts(NatToString(n), unit, s);
    ParseNatToString(n);
    assert "Just now"[0] == 'J';
  }

  /** A relative-time text reads back as its bucket, so distinct buckets show distinct texts. */
  lemma ParseAgeLabel(a: Age, dated: string)
    requires !a.Dated?
    ensures ParseAge(AgeLabel(a, dated)) == Some(a)
  {
    match a
    case JustNow =>
    case MinutesAgo(m) =>
      assert AgeLabel(a, dated) == NatToString(m) + ['m'] + " ago";
      ParseAgo(m, 'm', AgeLabel(a, dated));
    case HoursAgo(h) =>
      assert AgeLabel(a, dated) == NatToString(h) + ['h'] + " ago";
      ParseAgo(h, 'h', AgeLabel(a, dated));
  }

  /**
    `formatTime` on the messages page and the dashboard, for a message
    `diff` milliseconds old: under a day the text reads back as the age's
    bucket; from a day on it is the locale text `dated` (date and time on
    the messages page, date alone on the dashboard).
   */
  function FormatTime(diff: int, dated: string): (r: string)
    ensures diff < DayMs ==> ParseAge(r) == Some(AgeOf(diff))
    ensures diff >= DayMs ==> r == dated
  {
    var a := AgeOf(diff);
    assert a != Dated ==> ParseAge(AgeLabel(a, dated)) == Some(a) by {
      if a != Dated {
        ParseAgeLabel(a, dated);
      }
    }
    AgeLabel(a, dated)
  }

  // ---------------------------------------------------------------------
  // Greeting and colours
  // ---------------------------------------------------------------------

  /** `getGreeting` for the local hour `hour` (0 to 23). */
  function Greeting(hour: nat): (r: string)
    requires hour < 24
    ensures r == "Good morning" <==> hour < 12
    ensures r == "Good afternoon" <==> 12 <= hour < 18
    ensures r == "Good evening" <==> 18 <= hour
  {
    if hour < 12 then "Good morning"
    else if hour < 18 then "Good afternoon"
    else "Good evening"
  }

  /** `getMessageTypeColor`: green for otp, blue for verification, grey for anything else. */
  function MessageTypeColor(messageType: string): (r: string)
    ensures r == "bg-green-100 text-green-800" <==> messageType == "otp"
    ensures r == "bg-blue-100 text-blue-800" <==> messageType == "verification"
    ensures r == "bg-gray-100 text-gray-800" <==> messageType != "otp" && messageType != "verification"
  {
    match messageType
    case "otp" => "bg-green-100 text-green-800"
    case "verification" => "bg-blue-100 text-blue-800"
    case _ => "bg-gray-100 text-gray-800"
  }

  /** The three stored message types get three different colours, grey only for plain text. */
  lemma TypeColorsOfStoredKinds(k: PyMessage.Kind, j: PyMessage.Kind)
    ensures MessageTypeColor(PyMessage.KindName(k)) == MessageTypeColor(PyMessage.KindName(j)) ==> k == j
    ensures MessageTypeColor(PyMessage.KindName(k)) == "bg-gray-100 text-gray-800" <==> k == PyMessage.Sms
  {
  }

  // ---------------------------------------------------------------------
  // The passcode shown with a message: extractOTP
  // ---------------------------------------------------------------------

  /**
    `extractOTP`: the first run of four to eight digits between non-word
    characters (`\b\d{4,8}\b`), or nothing.
   */
  function ExtractOtp(content: string): (r: Option<string>)
    ensures r.Some? <==> exists i, k :: StandaloneAt(content, i, k)
    ensures r.Some? ==> exists i ::
      && StandaloneAt(content, i, |r.value|)
      && content[i..i + |r.value|] == r.value
      && forall j, k :: 0 <= j < i ==> !StandaloneAt(content, j, k)
  {
    StandaloneCode(content)
  }

  /**
    The page needs no keyword: a message the Flask back end stores as plain
    text is still shown with a passcode when it holds a standalone run.
   */
  lemma CodeShownWithoutKeyword(p: string, d: string, q: string)
    requires 4 <= |d| <= 8
    requires forall c :: c in d ==> IsDigit(c)
    requires forall c :: c in p ==> !IsDigit(c)
    requires |p| == 0 || !IsWordChar(p[|p| - 1])
    requires |q| == 0 || !IsWordChar(q[0])
    requires !HasKeyword(Lower(p + d + q), PyKeywords)
    ensures ExtractOtp(p + d + q) == Some(d)
    ensures PyMessage.DetectMessageType(p + d + q) == PyMessage.Sms
  {
    StandaloneInLayout(p, d, q);
  }

  /** "Gate 1234" is plain text to the back end and shows the code 1234. */
  lemma ExampleGateCode(content: string)
    requires content == "Gate " + "1234"
    ensures ExtractOtp(content) == Some("1234")
    ensures PyMessage.DetectMessageType(content) == PyMessage.Sms
  {
    NoJsKeyword(content);
    PyKeywordsAreJsKeywords(Lower(content));
    assert content == "Gate " + "1234" + "";
    CodeShownWithoutKeyword("Gate ", "1234", "");
  }

  // ---------------------------------------------------------------------
  // Local read state and request parameters of the messages page
  // ---------------------------------------------------------------------

  /** A message as the page holds it. */
  datatype ListedMessage = ListedMessage(id: nat, content: string, messageType: string, isRead: bool)

  function IsUnread(m: ListedMessage): bool { !m.isRead }

  /** The number of unread messages in the list. */
  function UnreadCount(ms: seq<ListedMessage>): nat {
    Count(ms, IsUnread)
  }

  /** The local `markAsRead(id)`: only the messages with that id become read. */
  function MarkAsRead(ms: seq<ListedMessage>, id: nat): (r: seq<ListedMessage>)
    ensures |r| == |ms|
    ensures forall i :: 0 <= i < |ms| && ms[i].id == id ==> r[i] == ms[i].(isRead := true)
    ensures forall i :: 0 <= i < |ms| && ms[i].id != id ==> r[i] == ms[i]
  {
    Map(ms, (m: ListedMessage) => if m.id == id then m.(isRead := true) else m)
  }

  /** Marking one id read lowers the unread count by the unread messages with that id. */
  lemma {:induction false} MarkAsReadUnread(ms: seq<ListedMessage>, id: nat)
    ensures UnreadCount(MarkAsRead(ms, id)) == UnreadCount(ms) - Count(ms, (m: ListedMessage) => m.id == id && !m.isRead)
    decreases |ms|
  {
    if |ms| > 0 {
      var r := MarkAsRead(ms, id);
      assert r[1..] == MarkAsRead(ms[1..], id);
      MarkAsReadUnread(ms[1..], id);
      assert ms == [ms[0]] + ms[1..];
      assert r == [r[0]] + r[1..];
    }
  }

  /** The local `markAllAsRead`: every listed message becomes read, nothing else changes. */
  function MarkAllAsRead(ms: seq<ListedMessage>): (r: seq<ListedMessage>)
    ensures |r| == |ms|
    ensures forall i :: 0 <= i < |ms| ==> r[i] == ms[i].(isRead := true)
    ensures UnreadCount(r) == 0
  {
    var r := Map(ms, (m: ListedMessage) => m.(isRead := true));
    CountSame(r, IsUnread, (m: ListedMessage) => false);
    assert Filter(r, (m: ListedMessage) => false) == [] by {
      FilterNone(r, (m: ListedMessage) => false);
    }
    r
  }

  /** Marking one message before marking all makes no difference. */
  lemma MarkAllAbsorbsMarkOne(ms: seq<ListedMessage>, id: nat)
    ensures MarkAllAsRead(MarkAsRead(ms, id)) == MarkAllAsRead(ms)
  {
  }

  /** A query parameter value. */
  datatype Param = StrParam(s: string) | BoolParam(b: bool)

  /** The messages page's fetch parameters for the selected number, type and read filter. */
  function FetchParams(selectedNumber: string, messageType: string, showRead: string): (r: map<string, Param>)
    ensures "phone_number_id" in r <==> selectedNumber != ""
    ensures "message_type" in r <==> messageType != ""
    ensures "is_read" in r <==> showRead != "all"
    ensures "is_read" in r ==> r["is_read"] == BoolParam(showRead == "read")
    ensures "phone_number_id" in r ==> r["phone_number_id"] == StrParam(selectedNumber)
    ensures "message_type" in r ==> r["message_type"] == StrParam(messageType)
    ensures r.Keys <= {"phone_number_id", "message_type", "is_read"}
  {
    var a: map<string, Param> := if selectedNumber != "" then map["phone_number_id" := StrParam(selectedNumber)] else map[];
    var b := if messageType != "" then a["message_type" := StrParam(messageType)] else a;
    if showRead != "all" then b["is_read" := BoolParam(showRead == "read")] else b
  }

  /** The parameters of `markAllAsRead`: the number and type filters only. */
  function MarkAllParams(selectedNumber: string, messageType: string): (r: map<string, Param>)
    ensures "is_read" !in r
  {
    var a: map<string, Param> := if selectedNumber != "" then map["phone_number_id" := StrParam(selectedNumber)] else map[];
    if messageType != "" then a["message_type" := StrParam(messageType)] else a
  }

  /** Marking all read uses the list's filters without its read filter. */
  lemma MarkAllParamsOmitReadFilter(selectedNumber: string, messageType: string, showRead: string)
    ensures MarkAllParams(selectedNumber, messageType) == FetchParams(selectedNumber, messageType, showRead) - {"is_read"}
  {
  }

  // ---------------------------------------------------------------------
  // Dashboard summaries
  // ---------------------------------------------------------------------

  /** A number as the dashboard lists it. */
  datatype ListedNumber = ListedNumber(id: nat, phoneNumber: string, countryCode: string, status: string, expiresAt: Option<int>)

  /** `new Set(myNumbers.map(n => n.country_code))`. */
  function Countries(ns: seq<ListedNumber>): (r: set<string>)
    ensures forall c :: c in r <==> exists i :: 0 <= i < |ns| && ns[i].countryCode == c
    ensures |r| <= |ns|
    ensures |ns| > 0 ==> |r| >= 1
    decreases |ns|
  {
    if |ns| == 0 then {}
    else
      var rest := Countries(ns[1..]);
      var r := {ns[0].countryCode} + rest;
      assert forall c :: c in r <==> exists i :: 0 <= i < |ns| && ns[i].countryCode == c by {
        forall c | c in rest ensures exists i :: 0 <= i < |ns| && ns[i].countryCode == c {
          var i :| 0 <= i < |ns[1..]| && ns[1..][i].countryCode == c;
          assert ns[i + 1].countryCode == c;
        }
        forall c | (exists i :: 0 <= i < |ns| && ns[i].countryCode == c) ensures c in r {
          var i :| 0 <= i < |ns| && ns[i].countryCode == c;
          if i > 0 {
            assert ns[1..][i - 1].countryCode == c;
          }
        }
      }
      r
  }

  /** The "countries" figure: the number of distinct country codes. */
  function CountryCount(ns: seq<ListedNumber>): (r: nat)
    ensures r <= |ns|
    ensures r == 0 <==> |ns| == 0
  {
    |Countries(ns)|
  }

  /** Numbers from pairwise different countries count one country each. */
  lemma {:induction false} DistinctCountriesCounted(ns: seq<ListedNumber>)
    requires forall i, j :: 0 <= i < j < |ns| ==> ns[i].countryCode != ns[j].countryCode
    ensures CountryCount(ns) == |ns|
    decreases |ns|
  {
    if |ns| > 0 {
      DistinctCountriesCounted(ns[1..]);
      assert ns[0].countryCode !in Countries(ns[1..]) by {
        forall i | 0 <= i < |ns[1..]| ensures ns[1..][i].countryCode != ns[0].countryCode {
          assert ns[1..][i] == ns[i + 1];
        }
      }
    }
  }

  /** Numbers all from one country count one country. */
  lemma {:induction false} OneCountryCountedOnce(ns: seq<ListedNumber>, code: string)
    requires |ns| > 0
    requires forall i :: 0 <= i < |ns| ==> ns[i].countryCode == code
    ensures CountryCount(ns) == 1
  {
    assert Countries(ns) == {code} by {
      assert ns[0].countryCode == code;
    }
  }

  /** The dashboard lists at most this many numbers. */
  const PreviewLimit: nat := 3

  /** `myNumbers.slice(0, 3)`: the first numbers, at most three. */
  function Preview(ns: seq<ListedNumber>): (r: seq<ListedNumber>)
    ensures |r| <= PreviewLimit && |r| <= |ns|
    ensures |r| == |ns| || |r| == PreviewLimit
    ensures ns == r + ns[|r|..]
  {
    if |ns| <= PreviewLimit then ns else ns[..PreviewLimit]
  }

  /** The "+n more numbers" note under the preview, present only when numbers are hidden. */
  function MoreNote(count: nat): (r: Option<string>)
    ensures r.Some? <==> count > PreviewLimit
    ensures r.Some? ==>
      && |r.value| > 14 && r.value[0] == '+' && r.value[|r.value| - 13..] == " more numbers"
      && AllDigits(r.value[1..|r.value| - 13])
      && ParseDigits(r.value[1..|r.value| - 13]) == count - PreviewLimit
  {
    if count > PreviewLimit then
      var n := NatToString(count - PreviewLimit);
      var s := "+" + n + " more numbers";
      assert s[1..|s| - 13] == n;
      ParseNatToString(count - PreviewLimit);
      Some(s)
    else None
  }

  /** The preview and the note together account for every number. */
  lemma PreviewAccountsForAll(ns: seq<ListedNumber>)
    ensures
      var note := MoreNote(|ns|);
      |Preview(ns)| + (if note.Some? then ParseDigits(note.value[1..|note.value| - 13]) else 0) == |ns|
  {
  }
}
