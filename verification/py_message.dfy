/**
  The Flask back end's `Message` row: an inbound text on one of the
  `PhoneNumber` rows, its type classification, and the class-level queries.

  A message has no user column; it belongs to whoever currently holds the
  number it arrived on, through the join with the phone-number table.
 */
module PyMessage {
  import opened Wrappers
  import opened Text
  import opened Time
  import opened Collections
  import opened OtpPatterns
  import Paging
  import PyPhoneNumber

  datatype Kind = Sms | Otp | Verification

  /** The value stored in the `message_type` column. */
  function KindName(k: Kind): (r: string)
    ensures r in {"sms", "otp", "verification"}
  {
    match k
    case Sms => "sms"
    case Otp => "otp"
    case Verification => "verification"
  }

  lemma KindNameInjective(a: Kind, b: Kind)
    ensures KindName(a) == KindName(b) ==> a == b
  {
  }

  datatype Message = Message(
    id: nat,
    phoneNumberId: nat,
    senderNumber: string,
    content: string,
    messageType: Kind,
    receivedAt: nat,
    providerMessageId: Option<string>,
    providerId: Option<nat>,
    isRead: bool,
    extraData: map<string, string>)

  // ---------------------------------------------------------------------
  // Classification

  /** The labels of the three labelled patterns, in the order they are tried after the bare-digit one. */
  const PyLabels: seq<string> := ["code", "verification", "otp"]

  /** Pattern `p` of the four (`p == 0` the bare four-to-eight digit run) has a match in `low`. */
  predicate PatternMatches(low: string, p: nat)
    requires p < 1 + |PyLabels|
  {
    if p == 0 then StandaloneCode(low).Some?
    else LabelledCode(low, PyLabels[p - 1], IsPySpace).Some?
  }

  /** Some pattern has a match anywhere in `low`: the regular expressions' own reading. */
  ghost predicate AnyPatternMatches(low: string) {
    || (exists i, k :: StandaloneAt(low, i, k))
    || (exists t, i :: 0 <= t < |PyLabels| && 0 <= i && LabelledAt(low, PyLabels[t], IsPySpace, i))
  }

  /** The loop over the patterns from pattern `p` on, then the keyword-only fallback. */
  function DetectFrom(low: string, p: nat): (r: Kind)
    requires p <= 1 + |PyLabels|
    ensures r == Otp <==> HasKeyword(low, PyKeywords) && exists q :: p <= q < 1 + |PyLabels| && PatternMatches(low, q)
    ensures r == Sms <==> !HasKeyword(low, PyKeywords)
    decreases 1 + |PyLabels| - p
  {
    if p == 1 + |PyLabels| then
      if HasKeyword(low, PyKeywords) then Verification else Sms
    else if PatternMatches(low, p) && HasKeyword(low, PyKeywords) then Otp
    else DetectFrom(low, p + 1)
  }

  /** One of the four patterns matches exactly when some pattern matches anywhere. */
  lemma PatternsAreAnyMatch(low: string)
    ensures (exists q :: 0 <= q < 1 + |PyLabels| && PatternMatches(low, q)) <==> AnyPatternMatches(low)
  {
    if exists q :: 0 <= q < 1 + |PyLabels| && PatternMatches(low, q) {
      var q :| 0 <= q < 1 + |PyLabels| && PatternMatches(low, q);
      if q > 0 {
        var i :| 0 <= i && LabelledAt(low, PyLabels[q - 1], IsPySpace, i);
        assert 0 <= q - 1 < |PyLabels| && 0 <= i && LabelledAt(low, PyLabels[q - 1], IsPySpace, i);
      }
    }
    if AnyPatternMatches(low) {
      if !(exists i, k :: StandaloneAt(low, i, k)) {
        var t, i :| 0 <= t < |PyLabels| && 0 <= i && LabelledAt(low, PyLabels[t], IsPySpace, i);
        assert PatternMatches(low, t + 1);
      } else {
        assert PatternMatches(low, 0);
      }
    }
  }

  /**
    `detect_message_type`: `otp` when a keyword and some pattern both occur
    in the lower-cased content, `verification` for a keyword alone, `sms`
    otherwise.
   */
  function DetectMessageType(content: string): (r: Kind)
    ensures r == Otp <==> HasKeyword(Lower(content), PyKeywords) && AnyPatternMatches(Lower(content))
    ensures r == Verification <==> HasKeyword(Lower(content), PyKeywords) && !AnyPatternMatches(Lower(content))
    ensures r == Sms <==> !HasKeyword(Lower(content), PyKeywords)
  {
    PatternsAreAnyMatch(Lower(content));
    DetectFrom(Lower(content), 0)
  }

  /** The classification ignores letter case: content and its lower-cased form get the same type. */
  lemma DetectIgnoresCase(content: string)
    ensures DetectMessageType(Lower(content)) == DetectMessageType(content)
  {
    LowerIdempotent(content);
  }

  /** The four regular expressions in their own terms, with no maximal runs. */
  ghost predicate RegexMatches(low: string) {
    || (exists i, k :: StandaloneAt(low, i, k))
    || (exists t, i, m, d :: 0 <= t < |PyLabels| && 0 <= i && RegexLabelled(low, PyLabels[t], IsPySpace, i, m, d))
  }

  /**
    The scanners agree with the regular expressions `label[:\s]*\d+`: `otp`
    exactly when a keyword occurs and some pattern matches in the
    expressions' own reading.
   */
  lemma DetectIsRegexReading(content: string)
    ensures DetectMessageType(content) == Otp <==>
      HasKeyword(Lower(content), PyKeywords) && RegexMatches(Lower(content))
  {
    var low := Lower(content);
    PySpaceIsNotWord();
    if AnyPatternMatches(low) && !(exists i, k :: StandaloneAt(low, i, k)) {
      var t, i :| 0 <= t < |PyLabels| && 0 <= i && LabelledAt(low, PyLabels[t], IsPySpace, i);
      LabelledAtIsRegexMatch(low, PyLabels[t], IsPySpace, i);
      var m, d :| RegexLabelled(low, PyLabels[t], IsPySpace, i, m, d);
      assert RegexMatches(low);
    }
    if RegexMatches(low) && !(exists i, k :: StandaloneAt(low, i, k)) {
      var t, i, m, d :| 0 <= t < |PyLabels| && 0 <= i && RegexLabelled(low, PyLabels[t], IsPySpace, i, m, d);
      LabelledAtIsRegexMatch(low, PyLabels[t], IsPySpace, i);
      assert AnyPatternMatches(low);
    }
  }

  /** A labelled code of any length counts: "code 12" is an `otp` message. */
  lemma ExampleShortLabelledCode(content: string)
    requires content == "code" + " 12"
    ensures DetectMessageType(content) == Otp
  {
    OccursInMiddle("", "code", " 12");
    assert "" + "code" + " 12" == content;
    KeywordPresent(content, PyKeywords, 4, 0);
    assert content[0..4] == "code";
    LowerOfNoUpper("code");
    assert SepRun(content, 5, IsPySpace) == 0;
    assert SepRun(content, 4, IsPySpace) == 1;
    assert LabelledAt(content, "code", IsPySpace, 0);
    PySpaceIsNotWord();
    LabelledAtLower(content, "code", IsPySpace, 0);
    assert LabelledAt(Lower(content), PyLabels[0], IsPySpace, 0);
  }

  // ---------------------------------------------------------------------
  // Row operations

  /** `mark_as_read`. */
  function MarkAsRead(m: Message): (r: Message)
    ensures r.isRead
    ensures r.(isRead := m.isRead) == m
  {
    m.(isRead := true)
  }

  lemma MarkAsReadIdempotent(m: Message)
    ensures MarkAsRead(MarkAsRead(m)) == MarkAsRead(m)
    ensures m.isRead ==> MarkAsRead(m) == m
  {
  }

  /** `create_from_webhook`: a new unread row whose type is the classifier's verdict on its content. */
  function CreateFromWebhook(table: seq<Message>, id: nat, phoneNumberId: nat, sender: string, content: string,
                             providerId: Option<nat>, providerMessageId: Option<string>, now: nat): (r: seq<Message>)
    ensures |r| == |table| + 1 && r[..|table|] == table
    ensures var m := r[|table|];
      && m.id == id && m.phoneNumberId == phoneNumberId && m.senderNumber == sender && m.content == content
      && m.messageType == DetectMessageType(content)
      && !m.isRead && m.receivedAt == now && m.extraData == map[]
      && m.providerId == providerId && m.providerMessageId == providerMessageId
  {
    table + [Message(id, phoneNumberId, sender, content, DetectMessageType(content), now,
                     providerMessageId, providerId, false, map[])]
  }

  /** A stored type is `otp` only for content with a keyword, so a message without one is never `otp`. */
  lemma CreatedTypeNeedsKeyword(table: seq<Message>, id: nat, phoneNumberId: nat, sender: string, content: string,
                                providerId: Option<nat>, providerMessageId: Option<string>, now: nat)
    requires !HasKeyword(Lower(content), PyKeywords)
    ensures CreateFromWebhook(table, id, phoneNumberId, sender, content, providerId, providerMessageId, now)[|table|].messageType == Sms
  {
  }

  // ---------------------------------------------------------------------
  // Queries

  /** The join `Message JOIN PhoneNumber WHERE PhoneNumber.user_id == user`: the number's current holder. */
  predicate HeldBy(leases: seq<PyPhoneNumber.Lease>, m: Message, user: nat) {
    var i := PyPhoneNumber.Get(leases, m.phoneNumberId);
    i.Some? && leases[i.value].userId == Some(user)
  }

  /**
    The optional filters of `get_messages_for_user`. A filter applies only
    when its value is truthy: an id of 0 or an empty type string is ignored.
   */
  datatype Query = Query(phoneNumberId: Option<nat>, messageType: Option<string>, isRead: Option<bool>, since: Option<nat>)

  predicate Selected(leases: seq<PyPhoneNumber.Lease>, m: Message, user: nat, q: Query) {
    && HeldBy(leases, m, user)
    && (q.phoneNumberId.Some? && q.phoneNumberId.value != 0 ==> m.phoneNumberId == q.phoneNumberId.value)
    && (q.messageType.Some? && q.messageType.value != [] ==> KindName(m.messageType) == q.messageType.value)
    && (q.isRead.Some? ==> m.isRead == q.isRead.value)
    && (q.since.Some? ==> m.receivedAt >= q.since.value)
  }

  predicate NewestFirst(s: seq<Message>) {
    forall i, j :: 0 <= i < j < |s| ==> s[i].receivedAt >= s[j].receivedAt
  }

  /** Ascending order of this key is newest first. */
  function ReceivedKey(m: Message): (k: int)
    ensures k <= 0
  {
    -(m.receivedAt as int)
  }

  lemma ReceivedKeyOrder(s: seq<Message>)
    requires SortedBy(s, ReceivedKey)
    ensures NewestFirst(s)
  {
    assert forall i, j :: 0 <= i < j < |s| ==> ReceivedKey(s[i]) <= ReceivedKey(s[j]);
  }

  /** The selected rows, newest first (`order_by(received_at.desc())`). */
  function SelectedNewestFirst(table: seq<Message>, leases: seq<PyPhoneNumber.Lease>, user: nat, q: Query): (r: seq<Message>)
    ensures multiset(r) == multiset(Filter(table, (m: Message) => Selected(leases, m, user, q)))
    ensures NewestFirst(r)
    ensures forall i :: 0 <= i < |r| ==> r[i] in table && Selected(leases, r[i], user, q)
    ensures forall i :: 0 <= i < |table| && Selected(leases, table[i], user, q) ==> table[i] in r
  {
    var r := SortedFilter(table, (m: Message) => Selected(leases, m, user, q), ReceivedKey);
    ReceivedKeyOrder(r);
    r
  }

  /** A window of a newest-first result is newest first, and holds only rows of the result. */
  lemma WindowNewestFirst(s: seq<Message>, offset: nat, limit: nat)
    ensures NewestFirst(s) ==> NewestFirst(Paging.Window(s, offset, limit))
    ensures forall i :: 0 <= i < |Paging.Window(s, offset, limit)| ==> Paging.Window(s, offset, limit)[i] in s
  {
    var r := Paging.Window(s, offset, limit);
    assert forall i, j :: 0 <= i < j < |r| ==> r[i] == s[offset + i] && r[j] == s[offset + j];
  }

  /** `get_messages_for_user`: one page of the rows on the user's numbers, newest first. */
  function GetMessagesForUser(table: seq<Message>, leases: seq<PyPhoneNumber.Lease>, user: nat, q: Query,
                              limit: nat, offset: nat): (r: seq<Message>)
    ensures Paging.WindowOf(r, SelectedNewestFirst(table, leases, user, q), offset, limit)
    ensures |r| <= limit
    ensures forall i :: 0 <= i < |r| ==> r[i] in table && Selected(leases, r[i], user, q)
    ensures NewestFirst(r)
  {
    Paging.Window(SelectedNewestFirst(table, leases, user, q), offset, limit)
  }

  /**
    Messages follow the number, not the person: once a number is released
    and assigned to someone else, the new holder's queries see the messages
    that reached it before.
   */
  lemma NextHolderSeesOldMessages(table: seq<Message>, leases: seq<PyPhoneNumber.Lease>, k: nat,
                                  newUser: nat, hours: nat, now: nat, m: Message)
    requires k < |leases| && PyPhoneNumber.UniqueIds(leases)
    requires m in table && m.phoneNumberId == leases[k].id
    ensures var leases' := leases[k := PyPhoneNumber.AssignToUser(PyPhoneNumber.Release(leases[k]), newUser, hours, now)];
      Selected(leases', m, newUser, Query(None, None, None, None))
  {
    var leases' := leases[k := PyPhoneNumber.AssignToUser(PyPhoneNumber.Release(leases[k]), newUser, hours, now)];
    var g := PyPhoneNumber.Get(leases', m.phoneNumberId);
    assert leases'[k].id == m.phoneNumberId;
    assert g.Some?;
    assert g.value == k;
  }

  /** `cleanup_old_messages`: deletes the rows received before `now - hours` and reports how many. */
  function CleanupOldMessages(table: seq<Message>, now: nat, hours: int): (r: (seq<Message>, nat))
    ensures forall i :: 0 <= i < |r.0| ==> r.0[i] in table && r.0[i].receivedAt >= now - hours * HourMs
    ensures forall i :: 0 <= i < |table| && table[i].receivedAt >= now - hours * HourMs ==> table[i] in r.0
    ensures r.1 == Count(table, (m: Message) => m.receivedAt < now - hours * HourMs)
    ensures |r.0| + r.1 == |table|
  {
    var cutoff := now - hours * HourMs;
    var kept := Filter(table, (m: Message) => m.receivedAt >= cutoff);
    FilterPartition(table, (m: Message) => m.receivedAt < cutoff, (m: Message) => m.receivedAt >= cutoff);
    (kept, Count(table, (m: Message) => m.receivedAt < cutoff))
  }

  /** The default retention is 24 hours. */
  const DefaultCleanupHours: nat := 24
}
