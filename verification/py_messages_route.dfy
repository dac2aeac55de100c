/**
  The Flask `/messages` routes: the filtered list with its total, one
  message, marking one or all as read, the counters, and the content
  search.

  A message belongs to a user through the number it arrived on: the join
  with the number table keeps the rows whose number the user currently
  holds. A parameter that `int()` cannot read raises inside the handler and
  the handler's catch-all answers 500.
 */
module PyMessagesRoute {
  import opened Wrappers
  import opened Text
  import opened Time
  import opened Collections
  import opened Http
  import opened PyMessage
  import PyPhoneNumber
  import Paging

  const MaxLimit: int := 100
  const DefaultLimit: int := 50

  /** The `since` parameter: missing or empty, not an ISO date, or an instant. */
  datatype SinceArg = NoSince | BadSince | Since(t: nat)

  /** `min(int(limit or 50), 100)`; `None` when `int()` raises. */
  function EffectiveLimit(arg: IntArg): (r: Option<int>)
    ensures arg.Unreadable? <==> r.None?
    ensures r.Some? ==> r.value <= MaxLimit
    ensures arg.Missing? ==> r == Some(DefaultLimit)
    ensures arg.Int? ==> r.value == (if arg.value <= MaxLimit then arg.value else MaxLimit)
  {
    match arg
    case Missing => Some(DefaultLimit)
    case Unreadable => None
    case Int(v) => Some(if v < MaxLimit then v else MaxLimit)
  }

  function EffectiveOffset(arg: IntArg): (r: Option<int>)
    ensures arg.Unreadable? <==> r.None?
    ensures arg.Missing? ==> r == Some(0)
    ensures arg.Int? ==> r == Some(arg.value)
  {
    match arg
    case Missing => Some(0)
    case Unreadable => None
    case Int(v) => Some(v)
  }

  /** The words `is_read` accepts as true once lower-cased. */
  const TrueWords: set<string> := {"true", "1", "yes"}

  /** `is_read.lower() in ('true', '1', 'yes')`; any other given value means false. */
  function ParseIsRead(arg: Option<string>): (r: Option<bool>)
    ensures arg.None? <==> r.None?
    ensures arg.Some? ==> (r.value <==> Lower(arg.value) in TrueWords)
  {
    match arg
    case None => None
    case Some(v) => Some(Lower(v) in TrueWords)
  }

  /** Upper-case spellings are read as true too, and so is the bare digit. */
  lemma IsReadSpellings()
    ensures ParseIsRead(Some("TRUE")) == Some(true)
    ensures ParseIsRead(Some("Yes")) == Some(true)
    ensures ParseIsRead(Some("1")) == Some(true)
    ensures ParseIsRead(Some("on")) == Some(false)
  {
    assert Lower("TRUE") == "true";
    assert Lower("Yes") == "yes";
    assert Lower("1") == "1";
    assert Lower("on") == "on";
  }

  /** The caller holds the number with this id (`filter_by(id=..., user_id=...).first()`). */
  predicate Owns(leases: seq<PyPhoneNumber.Lease>, phoneNumberId: int, user: nat) {
    exists k :: 0 <= k < |leases| && leases[k].id == phoneNumberId && leases[k].userId == Some(user)
  }

  /** The number filter when it is truthy and the caller holds it; `None` when access is refused. */
  function CheckedNumber(leases: seq<PyPhoneNumber.Lease>, phoneNumberId: Option<int>, user: nat): (r: Option<Option<nat>>)
    ensures phoneNumberId.None? || phoneNumberId.value == 0 ==> r == Some(None)
    ensures phoneNumberId.Some? && phoneNumberId.value != 0 ==>
      (r.Some? <==> Owns(leases, phoneNumberId.value, user))
    ensures r.Some? && r.value.Some? ==> phoneNumberId == Some(r.value.value as int) && r.value.value != 0
  {
    if phoneNumberId.None? || phoneNumberId.value == 0 then Some(None)
    else
      var pid := phoneNumberId.value;
      match FirstIndex(leases, (l: PyPhoneNumber.Lease) => l.id == pid && l.userId == Some(user))
      case None => None
      case Some(k) => Some(Some(leases[k].id))
  }

  // ---------------------------------------------------------------------
  // GET /messages

  datatype ListParams = ListParams(
    phoneNumberId: Option<int>,
    messageType: Option<string>,
    isRead: Option<string>,
    since: SinceArg,
    limit: IntArg,
    offset: IntArg)

  datatype Page = Page(messages: seq<Message>, total: nat, limit: int, offset: int)

  /** A negative limit or offset reads as zero here. */
  function Clamp(n: int): (r: nat)
    ensures n >= 0 ==> r == n
  {
    if n < 0 then 0 else n
  }

  /**
    GET /messages: the caller's messages under the optional filters, one
    page newest first, and the total under the very same filters.
   */
  function GetMessages(table: seq<Message>, leases: seq<PyPhoneNumber.Lease>, user: nat, p: ListParams): (r: Reply<Page>)
    ensures p.limit.Unreadable? || p.offset.Unreadable? ==> r == Fail(500, "FETCH_ERROR")
    ensures !p.limit.Unreadable? && !p.offset.Unreadable? && p.since.BadSince? ==> r == Fail(400, "INVALID_DATE_FORMAT")
    ensures !p.limit.Unreadable? && !p.offset.Unreadable? && !p.since.BadSince? ==>
      (r == Fail(403, "ACCESS_DENIED") <==> CheckedNumber(leases, p.phoneNumberId, user).None?)
    ensures r.Ok? <==> (!p.limit.Unreadable? && !p.offset.Unreadable? && !p.since.BadSince?
      && CheckedNumber(leases, p.phoneNumberId, user).Some?)
    ensures r.Ok? ==> r.value.limit == EffectiveLimit(p.limit).value && r.value.offset == EffectiveOffset(p.offset).value
    ensures r.Ok? ==> (
      var q := Query(CheckedNumber(leases, p.phoneNumberId, user).value, p.messageType, ParseIsRead(p.isRead),
                     if p.since.Since? then Some(p.since.t) else None);
      r.value.limit <= MaxLimit && Listed(table, leases, user, q, r.value))
  {
    var limit := EffectiveLimit(p.limit);
    var offset := EffectiveOffset(p.offset);
    if limit.None? || offset.None? then Fail(500, "FETCH_ERROR")
    else if p.since.BadSince? then Fail(400, "INVALID_DATE_FORMAT")
    else match CheckedNumber(leases, p.phoneNumberId, user)
      case None => Fail(403, "ACCESS_DENIED")
      case Some(pid) =>
        var q := Query(pid, p.messageType, ParseIsRead(p.isRead), if p.since.Since? then Some(p.since.t) else None);
        Ok(200, ListedPage(table, leases, user, q, limit.value, offset.value))
  }

  /**
    A listing page: the window of the selected rows, newest first, at the
    clamped offset and limit, with `total` counting every selected row; and
    when the window starts at the top and the total fits, every selected row.
   */
  predicate Listed(table: seq<Message>, leases: seq<PyPhoneNumber.Lease>, user: nat, q: Query, page: Page) {
    Paged(table, (m: Message) => Selected(leases, m, user, q), SelectedNewestFirst(table, leases, user, q), page)
  }

  /** `query.order_by(...).offset(offset).limit(limit)` next to `query.count()`. */
  function ListedPage(table: seq<Message>, leases: seq<PyPhoneNumber.Lease>, user: nat, q: Query, limit: int, offset: int): (page: Page)
    ensures page.limit == limit && page.offset == offset
    ensures Listed(table, leases, user, q, page)
  {
    var selected := (m: Message) => Selected(leases, m, user, q);
    var sorted := SelectedNewestFirst(table, leases, user, q);
    PermutedFilter(table, selected, sorted);
    PageFrom(table, selected, sorted, limit, offset)
  }

  /**
    One page of a newest-first result `sorted` holding exactly the rows of
    `table` that meet `p`: the window at the clamped offset and limit, with
    `total` counting every such row; when the window starts at the top and
    the total fits, it holds every such row.
   */
  predicate Paged(table: seq<Message>, p: Message -> bool, sorted: seq<Message>, page: Page) {
    && |page.messages| <= Clamp(page.limit)
    && page.total == Count(table, p)
    && Paging.WindowOf(page.messages, sorted, Clamp(page.offset), Clamp(page.limit))
    && NewestFirst(page.messages)
    && (forall i :: 0 <= i < |page.messages| ==> page.messages[i] in table && p(page.messages[i]))
    && (page.offset <= 0 && page.total <= page.limit ==>
          forall i :: 0 <= i < |table| && p(table[i]) ==> table[i] in page.messages)
  }

  function PageFrom(table: seq<Message>, p: Message -> bool, sorted: seq<Message>, limit: int, offset: int): (page: Page)
    requires |sorted| == Count(table, p) && NewestFirst(sorted)
    requires forall i :: 0 <= i < |sorted| ==> sorted[i] in table && p(sorted[i])
    requires forall i :: 0 <= i < |table| && p(table[i]) ==> table[i] in sorted
    ensures page.limit == limit && page.offset == offset
    ensures Paged(table, p, sorted, page)
  {
    var window := Paging.Window(sorted, Clamp(offset), Clamp(limit));
    WindowNewestFirst(sorted, Clamp(offset), Clamp(limit));
    WindowMeets(table, p, sorted, Clamp(offset), Clamp(limit));
    WindowComplete(table, p, sorted, offset, limit);
    Page(window, |sorted|, limit, offset)
  }

  /** Every row of a window of `sorted` is a row of `table` meeting `p`. */
  lemma WindowMeets(table: seq<Message>, p: Message -> bool, sorted: seq<Message>, offset: nat, limit: nat)
    requires forall i :: 0 <= i < |sorted| ==> sorted[i] in table && p(sorted[i])
    ensures var w := Paging.Window(sorted, offset, limit);
      forall i :: 0 <= i < |w| ==> w[i] in table && p(w[i])
  {
    var w := Paging.Window(sorted, offset, limit);
    forall i | 0 <= i < |w| ensures w[i] in table && p(w[i]) {
      assert w[i] == sorted[offset + i];
    }
  }

  /** A window from the top that fits the whole result holds every row of `table` meeting `p`. */
  lemma WindowComplete(table: seq<Message>, p: Message -> bool, sorted: seq<Message>, offset: int, limit: int)
    requires |sorted| == Count(table, p)
    requires forall i :: 0 <= i < |table| && p(table[i]) ==> table[i] in sorted
    ensures offset <= 0 && |sorted| <= limit ==>
      forall i :: 0 <= i < |table| && p(table[i]) ==> table[i] in Paging.Window(sorted, Clamp(offset), Clamp(limit))
  {
    if offset <= 0 && |sorted| <= limit {
      Paging.WholeWindow(sorted, Clamp(limit));
    }
  }

  // ---------------------------------------------------------------------
  // GET /messages/<id> and PATCH /messages/<id>/read

  /** The message with this id, when it arrived on a number the caller holds. */
  predicate Visible(leases: seq<PyPhoneNumber.Lease>, m: Message, id: nat, user: nat) {
    m.id == id && HeldBy(leases, m, user)
  }

  function GetMessage(table: seq<Message>, leases: seq<PyPhoneNumber.Lease>, user: nat, id: nat): (r: Reply<Message>)
    ensures r.Ok? <==> exists i :: 0 <= i < |table| && Visible(leases, table[i], id, user)
    ensures r.Fail? ==> r == Fail(404, "MESSAGE_NOT_FOUND")
    ensures r.Ok? ==> r.status == 200 && r.value in table && r.value.id == id && HeldBy(leases, r.value, user)
  {
    match FirstIndex(table, (m: Message) => Visible(leases, m, id, user))
    case None => Fail(404, "MESSAGE_NOT_FOUND")
    case Some(i) => Ok(200, table[i])
  }

  /** PATCH /messages/<id>/read: the visible message becomes read; nothing else changes. */
  function MarkMessageRead(table: seq<Message>, leases: seq<PyPhoneNumber.Lease>, user: nat, id: nat): (r: Reply<seq<Message>>)
    ensures r.Ok? <==> exists i :: 0 <= i < |table| && Visible(leases, table[i], id, user)
    ensures r.Fail? ==> r == Fail(404, "MESSAGE_NOT_FOUND")
    ensures r.Ok? ==> |r.value| == |table|
    ensures r.Ok? ==>
      exists i :: 0 <= i < |table| && Visible(leases, table[i], id, user) && r.value == table[i := MarkAsRead(table[i])]
  {
    match FirstIndex(table, (m: Message) => Visible(leases, m, id, user))
    case None => Fail(404, "MESSAGE_NOT_FOUND")
    case Some(i) => Ok(200, table[i := MarkAsRead(table[i])])
  }

  /** Marking a message read a second time leaves the table as the first call left it. */
  lemma MarkMessageReadTwice(table: seq<Message>, leases: seq<PyPhoneNumber.Lease>, user: nat, id: nat)
    requires MarkMessageRead(table, leases, user, id).Ok?
    ensures var once := MarkMessageRead(table, leases, user, id).value;
      MarkMessageRead(once, leases, user, id) == Ok(200, once)
  {
    var p := (m: Message) => Visible(leases, m, id, user);
    var i := FirstIndex(table, p).value;
    var once := table[i := MarkAsRead(table[i])];
    assert p(once[i]);
    forall k | 0 <= k < i ensures !p(once[k]) {
      assert once[k] == table[k];
    }
    assert FirstIndex(once, p) == Some(i);
    assert once[i := MarkAsRead(once[i])] == once;
  }

  // ---------------------------------------------------------------------
  // PATCH /messages/mark-all-read

  /** The rows mark-all-read targets: the caller's unread messages under the two optional filters. */
  predicate Unread(leases: seq<PyPhoneNumber.Lease>, m: Message, user: nat, q: Query) {
    !m.isRead && Selected(leases, m, user, q)
  }

  function MarkAllRead(table: seq<Message>, leases: seq<PyPhoneNumber.Lease>, user: nat,
                       phoneNumberId: Option<int>, messageType: Option<string>): (r: Reply<(seq<Message>, nat)>)
    ensures r.Fail? <==> CheckedNumber(leases, phoneNumberId, user).None?
    ensures r.Fail? ==> r == Fail(403, "ACCESS_DENIED")
    ensures r.Ok? ==> (
      var q := Query(CheckedNumber(leases, phoneNumberId, user).value, messageType, None, None);
      var (after, updated) := r.value;
      && updated == Count(table, (m: Message) => Unread(leases, m, user, q))
      && |after| == |table|
      && (forall i :: 0 <= i < |table| ==>
            after[i] == if Unread(leases, table[i], user, q) then MarkAsRead(table[i]) else table[i])
      && Count(after, (m: Message) => Unread(leases, m, user, q)) == 0)
  {
    match CheckedNumber(leases, phoneNumberId, user)
    case None => Fail(403, "ACCESS_DENIED")
    case Some(pid) =>
      var q := Query(pid, messageType, None, None);
      var after := Map(table, (m: Message) => if Unread(leases, m, user, q) then MarkAsRead(m) else m);
      FilterNone(after, (m: Message) => Unread(leases, m, user, q));
      Ok(200, (after, Count(table, (m: Message) => Unread(leases, m, user, q))))
  }

  /**
    `mark_all_messages_read` as written: the query is built with `join()`,
    and a bulk `Query.update()` refuses a joined query, so the handler's
    `except` answers 500 `UPDATE_ERROR` for every request the ownership
    check lets through. Nothing is committed.
   */
  function MarkAllReadAsWritten(table: seq<Message>, leases: seq<PyPhoneNumber.Lease>, user: nat,
                                phoneNumberId: Option<int>, messageType: Option<string>): (r: Reply<(seq<Message>, nat)>)
    ensures r == Fail(403, "ACCESS_DENIED") <==> CheckedNumber(leases, phoneNumberId, user).None?
    ensures r == Fail(500, "UPDATE_ERROR") <==> CheckedNumber(leases, phoneNumberId, user).Some?
  {
    match CheckedNumber(leases, phoneNumberId, user)
    case None => Fail(403, "ACCESS_DENIED")
    case Some(_) => Fail(500, "UPDATE_ERROR")
  }

  /**
    Where the two differ: a permitted request with unread rows under its
    filters is answered 500 as written, while the intended update marks
    those rows and reports how many there were.
   */
  lemma MarkAllAsWrittenMarksNothing(table: seq<Message>, leases: seq<PyPhoneNumber.Lease>, user: nat,
                                     phoneNumberId: Option<int>, messageType: Option<string>)
    requires CheckedNumber(leases, phoneNumberId, user).Some?
    ensures MarkAllReadAsWritten(table, leases, user, phoneNumberId, messageType) == Fail(500, "UPDATE_ERROR")
    ensures var q := Query(CheckedNumber(leases, phoneNumberId, user).value, messageType, None, None);
      var r := MarkAllRead(table, leases, user, phoneNumberId, messageType);
      && r.Ok?
      && r.value.1 == Count(table, (m: Message) => Unread(leases, m, user, q))
      && (r.value.1 > 0 ==> r.value.0 != table)
  {
    var q := Query(CheckedNumber(leases, phoneNumberId, user).value, messageType, None, None);
    var r := MarkAllRead(table, leases, user, phoneNumberId, messageType);
    var p := (m: Message) => Unread(leases, m, user, q);
    if r.value.1 > 0 {
      CountPositive(table, p);
      var i :| 0 <= i < |table| && p(table[i]);
      assert r.value.0[i] == MarkAsRead(table[i]);
      assert r.value.0[i].isRead && !table[i].isRead;
    }
  }

  /** Right after a mark-all-read, a second one with the same filters updates nothing. */
  lemma MarkAllReadTwice(table: seq<Message>, leases: seq<PyPhoneNumber.Lease>, user: nat,
                         phoneNumberId: Option<int>, messageType: Option<string>)
    requires MarkAllRead(table, leases, user, phoneNumberId, messageType).Ok?
    ensures var after := MarkAllRead(table, leases, user, phoneNumberId, messageType).value.0;
      MarkAllRead(after, leases, user, phoneNumberId, messageType) == Ok(200, (after, 0))
  {
    var after := MarkAllRead(table, leases, user, phoneNumberId, messageType).value.0;
    var again := MarkAllRead(after, leases, user, phoneNumberId, messageType).value.0;
    assert again == after;
  }

  // ---------------------------------------------------------------------
  // GET /messages/stats

  datatype Stats = Stats(total: nat, unread: nat, otp: nat, verification: nat, sms: nat, recent: nat)

  /** All counters are filters of one base query: the caller's messages. */
  predicate Mine(leases: seq<PyPhoneNumber.Lease>, m: Message, user: nat) {
    HeldBy(leases, m, user)
  }

  /** GET /messages/stats; `recent` counts messages received in the last 24 hours. */
  function MessageStats(table: seq<Message>, leases: seq<PyPhoneNumber.Lease>, user: nat, now: nat): (r: Stats)
    ensures r.unread <= r.total && r.recent <= r.total
    ensures r.otp + r.verification + r.sms == r.total
    ensures r.total == Count(table, (m: Message) => Mine(leases, m, user))
    ensures r.unread == Count(table, (m: Message) => Mine(leases, m, user) && !m.isRead)
    ensures r.otp == Count(table, (m: Message) => Mine(leases, m, user) && m.messageType == Otp)
    ensures r.verification == Count(table, (m: Message) => Mine(leases, m, user) && m.messageType == Verification)
    ensures r.sms == Count(table, (m: Message) => Mine(leases, m, user) && m.messageType == Sms)
    ensures r.recent == Count(table, (m: Message) => Mine(leases, m, user) && m.receivedAt + 24 * HourMs >= now)
  {
    var mine := (m: Message) => Mine(leases, m, user);
    var total := Count(table, mine);
    var unread := Count(table, (m: Message) => Mine(leases, m, user) && !m.isRead);
    var otp := Count(table, (m: Message) => Mine(leases, m, user) && m.messageType == Otp);
    var verification := Count(table, (m: Message) => Mine(leases, m, user) && m.messageType == Verification);
    var sms := Count(table, (m: Message) => Mine(leases, m, user) && m.messageType == Sms);
    var recent := Count(table, (m: Message) => Mine(leases, m, user) && m.receivedAt + 24 * HourMs >= now);
    CountMonotone(table, (m: Message) => Mine(leases, m, user) && !m.isRead, mine);
    CountMonotone(table, (m: Message) => Mine(leases, m, user) && m.receivedAt + 24 * HourMs >= now, mine);
    KindsAddUp(table, leases, user);
    Stats(total, unread, otp, verification, sms, recent)
  }

  /** Every message is of exactly one of the three types, so the per-type counts add up to the total. */
  lemma {:induction false} KindsAddUp(table: seq<Message>, leases: seq<PyPhoneNumber.Lease>, user: nat)
    ensures Count(table, (m: Message) => Mine(leases, m, user) && m.messageType == Otp)
          + Count(table, (m: Message) => Mine(leases, m, user) && m.messageType == Verification)
          + Count(table, (m: Message) => Mine(leases, m, user) && m.messageType == Sms)
         == Count(table, (m: Message) => Mine(leases, m, user))
    decreases |table|
  {
    if |table| > 0 {
      KindsAddUp(table[1..], leases, user);
    }
  }

  /** One entry of `phone_number_stats`. */
  datatype NumberCount = NumberCount(phoneNumber: string, phoneNumberId: nat, messageCount: nat)

  /** The messages filed under the number with id `id`. */
  function MessagesOn(table: seq<Message>, id: nat): nat {
    Count(table, (m: Message) => m.phoneNumberId == id)
  }

  /** A number of the caller's that the inner join with the messages keeps: it has at least one. */
  predicate Busy(l: PyPhoneNumber.Lease, table: seq<Message>, user: nat) {
    l.userId == Some(user) && MessagesOn(table, l.id) > 0
  }

  /** `e` reports the number `l` with its message count. */
  predicate EntryOf(e: NumberCount, l: PyPhoneNumber.Lease, table: seq<Message>) {
    e.phoneNumber == l.phoneNumber && e.phoneNumberId == l.id && e.messageCount == MessagesOn(table, l.id)
  }

  /** The entry of each listed number, in order. */
  function Entries(table: seq<Message>, numbers: seq<PyPhoneNumber.Lease>): (r: seq<NumberCount>)
    ensures |r| == |numbers|
    ensures forall i :: 0 <= i < |r| ==> EntryOf(r[i], numbers[i], table)
  {
    Map(numbers, (l: PyPhoneNumber.Lease) => NumberCount(l.phoneNumber, l.id, MessagesOn(table, l.id)))
  }

  /**
    `phone_number_stats` of GET /messages/stats: the caller's numbers joined
    with their messages and grouped by number, in table order. A number with
    no message drops out of the inner join.
   */
  function NumberBreakdown(table: seq<Message>, leases: seq<PyPhoneNumber.Lease>, user: nat): (r: seq<NumberCount>)
    ensures |r| == Count(leases, (l: PyPhoneNumber.Lease) => Busy(l, table, user))
    ensures forall i :: 0 <= i < |r| ==> r[i].messageCount > 0
    ensures forall i :: 0 <= i < |r| ==> FromHeldNumber(r[i], leases, table, user)
    ensures forall k :: 0 <= k < |leases| && Busy(leases[k], table, user) ==> Reported(r, leases[k], table)
  {
    var busy := Filter(leases, (l: PyPhoneNumber.Lease) => Busy(l, table, user));
    BusyEntries(table, leases, user);
    Entries(table, busy)
  }

  /** `e` is the entry of some number the caller holds. */
  predicate FromHeldNumber(e: NumberCount, leases: seq<PyPhoneNumber.Lease>, table: seq<Message>, user: nat) {
    exists k :: 0 <= k < |leases| && leases[k].userId == Some(user) && EntryOf(e, leases[k], table)
  }

  /** `r` holds the entry of `l`. */
  predicate Reported(r: seq<NumberCount>, l: PyPhoneNumber.Lease, table: seq<Message>) {
    exists i :: 0 <= i < |r| && EntryOf(r[i], l, table)
  }

  /** The entries of the busy numbers: positive counts, from held numbers, and every busy number reported. */
  lemma BusyEntries(table: seq<Message>, leases: seq<PyPhoneNumber.Lease>, user: nat)
    ensures var r := Entries(table, Filter(leases, (l: PyPhoneNumber.Lease) => Busy(l, table, user)));
      && (forall i :: 0 <= i < |r| ==> r[i].messageCount > 0)
      && (forall i :: 0 <= i < |r| ==> FromHeldNumber(r[i], leases, table, user))
      && (forall k :: 0 <= k < |leases| && Busy(leases[k], table, user) ==> Reported(r, leases[k], table))
  {
    var busy := Filter(leases, (l: PyPhoneNumber.Lease) => Busy(l, table, user));
    var r := Entries(table, busy);
    forall i | 0 <= i < |r|
      ensures r[i].messageCount > 0 && FromHeldNumber(r[i], leases, table, user)
    {
      assert Busy(busy[i], table, user) && busy[i] in leases;
      var k :| 0 <= k < |leases| && leases[k] == busy[i];
      assert leases[k].userId == Some(user) && EntryOf(r[i], leases[k], table);
    }
    forall k | 0 <= k < |leases| && Busy(leases[k], table, user)
      ensures Reported(r, leases[k], table)
    {
      assert leases[k] in busy;
      var i :| 0 <= i < |busy| && busy[i] == leases[k];
      assert EntryOf(r[i], leases[k], table);
    }
  }

  // ---------------------------------------------------------------------
  // GET /messages/search

  datatype SearchParams = SearchParams(
    q: Option<string>,
    phoneNumberId: Option<int>,
    messageType: Option<string>,
    limit: IntArg,
    offset: IntArg)

  /** `message_content.ilike('%text%')` with the phone and type filters. */
  predicate SearchHit(leases: seq<PyPhoneNumber.Lease>, m: Message, user: nat, q: Query, text: string) {
    Selected(leases, m, user, q) && ContainsIgnoreCase(m.content, text)
  }

  /**
    GET /messages/search: a stripped, non-empty `q` is required first; then
    the number filter is checked for ownership; the hits come newest first.
   */
  function Search(table: seq<Message>, leases: seq<PyPhoneNumber.Lease>, user: nat, p: SearchParams): (r: Reply<Page>)
    ensures p.limit.Unreadable? || p.offset.Unreadable? ==> r == Fail(500, "SEARCH_ERROR")
    ensures !p.limit.Unreadable? && !p.offset.Unreadable? && PyStrip(p.q.GetOr("")) == [] ==> r == Fail(400, "MISSING_QUERY")
    ensures !p.limit.Unreadable? && !p.offset.Unreadable? && PyStrip(p.q.GetOr("")) != [] ==>
      (r == Fail(403, "ACCESS_DENIED") <==> CheckedNumber(leases, p.phoneNumberId, user).None?)
    ensures r.Ok? <==> (!p.limit.Unreadable? && !p.offset.Unreadable? && PyStrip(p.q.GetOr("")) != []
      && CheckedNumber(leases, p.phoneNumberId, user).Some?)
    ensures r.Ok? ==> r.value.limit == EffectiveLimit(p.limit).value && r.value.offset == EffectiveOffset(p.offset).value
    ensures r.Ok? ==> (
      var text := PyStrip(p.q.GetOr(""));
      var q := Query(CheckedNumber(leases, p.phoneNumberId, user).value, p.messageType, None, None);
      && text != []
      && r.value.limit <= MaxLimit
      && Found(table, leases, user, q, text, r.value))
  {
    var limit := EffectiveLimit(p.limit);
    var offset := EffectiveOffset(p.offset);
    var text := PyStrip(p.q.GetOr(""));
    if limit.None? || offset.None? then Fail(500, "SEARCH_ERROR")
    else if text == [] then Fail(400, "MISSING_QUERY")
    else match CheckedNumber(leases, p.phoneNumberId, user)
      case None => Fail(403, "ACCESS_DENIED")
      case Some(pid) =>
        var q := Query(pid, p.messageType, None, None);
        Ok(200, FoundPage(table, leases, user, q, text, limit.value, offset.value))
  }

  /**
    A search page: the window of all hits, newest first, at the clamped
    offset and limit, with `total` counting every hit.
   */
  predicate Found(table: seq<Message>, leases: seq<PyPhoneNumber.Lease>, user: nat, q: Query, text: string, page: Page) {
    Paged(table, (m: Message) => SearchHit(leases, m, user, q, text), Hits(table, leases, user, q, text), page)
  }

  function FoundPage(table: seq<Message>, leases: seq<PyPhoneNumber.Lease>, user: nat, q: Query, text: string,
                     limit: int, offset: int): (page: Page)
    ensures page.limit == limit && page.offset == offset
    ensures Found(table, leases, user, q, text, page)
  {
    PageFrom(table, (m: Message) => SearchHit(leases, m, user, q, text), Hits(table, leases, user, q, text), limit, offset)
  }

  /** Every hit, newest first. */
  function Hits(table: seq<Message>, leases: seq<PyPhoneNumber.Lease>, user: nat, q: Query, text: string): (r: seq<Message>)
    ensures |r| == Count(table, (m: Message) => SearchHit(leases, m, user, q, text))
    ensures multiset(r) == multiset(Filter(table, (m: Message) => SearchHit(leases, m, user, q, text)))
    ensures NewestFirst(r)
    ensures forall i :: 0 <= i < |r| ==> r[i] in table && SearchHit(leases, r[i], user, q, text)
    ensures forall i :: 0 <= i < |table| && SearchHit(leases, table[i], user, q, text) ==> table[i] in r
  {
    var r := SortedFilter(table, (m: Message) => SearchHit(leases, m, user, q, text), ReceivedKey);
    ReceivedKeyOrder(r);
    r
  }

  /** Surrounding white space in `q` is ignored, and so is letter case. */
  lemma SearchIgnoresCase(m: Message, leases: seq<PyPhoneNumber.Lease>, user: nat, q: Query, text: string)
    ensures SearchHit(leases, m, user, q, text) <==> SearchHit(leases, m, user, q, Lower(text))
  {
    LowerIdempotent(text);
  }
}
