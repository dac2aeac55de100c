/**
  The Node `/api/numbers` routes: the public list of free numbers,
  assignment with a per-user cap, the caller's own assignments with the
  status filter and pagination, extension, release, the counters, and the
  administrator's creation of a number.

  A handler is a function from the collection, the caller and the current
  time to a reply; a reply that changes the collection carries the new
  collection. A refused request changes nothing.
 */
module JsNumbersRoute {
  import opened Wrappers
  import opened Text
  import opened Collections
  import opened Http
  import opened Joi
  import opened JsPhoneNumber
  import opened Time
  import Paging
  import JsMessagesRoute

  // ---------------------------------------------------------------------
  // GET /available

  datatype AvailableQuery = AvailableQuery(countryCode: Option<string>, limit: NumArg, provider: Option<string>)

  datatype AvailableList = AvailableList(numbers: seq<Lease>, total: nat, limit: nat)

  /** The filter of the free-number list once the query is accepted. */
  predicate OfferedIn(l: Lease, countryCode: Option<string>, provider: Option<string>) {
    && l.status == Available
    && (countryCode.Some? ==> l.countryCode == countryCode.value)
    && (provider.Some? ==> l.provider == provider.value)
  }

  predicate NewestCreatedFirst(s: seq<Lease>) {
    forall i, j :: 0 <= i < j < |s| ==> s[i].createdAt >= s[j].createdAt
  }

  /**
    GET /available: a two-letter country (upper-cased), a limit of 1 to 50
    (default 10) and a known provider; at most `limit` free numbers, newest
    first, and the number of all that match.
   */
  function ListAvailable(store: seq<Lease>, q: AvailableQuery): (r: Reply<AvailableList>)
    ensures r.Fail? <==>
      || OptionalCode(q.countryCode, 2).None?
      || NumberIn(q.limit, 10, 1, 50).None?
      || !OptionalOneOf(q.provider, {"twilio", "nexmo", "vonage", "other"})
    ensures r.Fail? ==> r == Fail(400, "VALIDATION_ERROR")
    ensures r.Ok? ==> (
      var cc := OptionalCode(q.countryCode, 2).value;
      && 1 <= r.value.limit <= 50 && |r.value.numbers| <= r.value.limit
      && r.value.total == Count(store, (l: Lease) => OfferedIn(l, cc, q.provider))
      && Paging.WindowOf(r.value.numbers, OfferedNewestFirst(store, cc, q.provider), 0, r.value.limit)
      && NewestCreatedFirst(r.value.numbers)
      && (forall i :: 0 <= i < |r.value.numbers| ==> r.value.numbers[i] in store && OfferedIn(r.value.numbers[i], cc, q.provider))
      && (r.value.total <= r.value.limit ==>
            forall i :: 0 <= i < |store| && OfferedIn(store[i], cc, q.provider) ==> store[i] in r.value.numbers))
  {
    var cc := OptionalCode(q.countryCode, 2);
    var lim := NumberIn(q.limit, 10, 1, 50);
    if cc.None? || lim.None? || !OptionalOneOf(q.provider, {"twilio", "nexmo", "vonage", "other"}) then
      Fail(400, "VALIDATION_ERROR")
    else
      Ok(200, NewestOffered(store, cc.value, q.provider, lim.value))
  }

  /** Every free number a query selects, newest first: the query before its limit. */
  function OfferedNewestFirst(store: seq<Lease>, cc: Option<string>, provider: Option<string>): (r: seq<Lease>)
    ensures NewestCreatedFirst(r)
    ensures multiset(r) == multiset(Filter(store, (l: Lease) => OfferedIn(l, cc, provider)))
    ensures forall i :: 0 <= i < |r| ==> r[i] in store && OfferedIn(r[i], cc, provider)
    ensures forall i :: 0 <= i < |store| && OfferedIn(store[i], cc, provider) ==> store[i] in r
  {
    var sorted := SortedFilter(store, (l: Lease) => OfferedIn(l, cc, provider), NewestKey);
    assert NewestCreatedFirst(sorted) by {
      forall i, j | 0 <= i < j < |sorted| ensures sorted[i].createdAt >= sorted[j].createdAt {
        assert NewestKey(sorted[i]) <= NewestKey(sorted[j]);
      }
    }
    sorted
  }

  /** The free numbers a query selects, newest first, cut to `limit`, with the count of all of them. */
  function NewestOffered(store: seq<Lease>, cc: Option<string>, provider: Option<string>, limit: nat): (r: AvailableList)
    ensures Paging.WindowOf(r.numbers, OfferedNewestFirst(store, cc, provider), 0, limit)
    ensures r.limit == limit && |r.numbers| <= limit
    ensures r.total == Count(store, (l: Lease) => OfferedIn(l, cc, provider))
    ensures NewestCreatedFirst(r.numbers)
    ensures forall i :: 0 <= i < |r.numbers| ==> r.numbers[i] in store && OfferedIn(r.numbers[i], cc, provider)
    ensures r.total <= limit ==> forall i :: 0 <= i < |store| && OfferedIn(store[i], cc, provider) ==> store[i] in r.numbers
  {
    var sorted := OfferedNewestFirst(store, cc, provider);
    var page := Paging.Window(sorted, 0, limit);
    assert NewestCreatedFirst(page) by {
      forall i, j | 0 <= i < j < |page| ensures page[i].createdAt >= page[j].createdAt {
        assert page[i] == sorted[i] && page[j] == sorted[j];
      }
    }
    PermutedFilter(store, (l: Lease) => OfferedIn(l, cc, provider), sorted);
    Paging.WholeWindow(sorted, limit);
    AvailableList(page, |sorted|, limit)
  }

  /** The sort key of `sort({ createdAt: -1 })`. */
  function NewestKey(l: Lease): int { -(l.createdAt as int) }

  // ---------------------------------------------------------------------
  // POST /assign

  /** The body of an assignment request; `unknownKeys` stands for any field the schema does not name. */
  datatype AssignBody = AssignBody(phoneNumber: Option<string>, countryCode: Option<string>, duration: Option<int>, unknownKeys: bool)

  /** The accepted body: a number in the international shape, a country, and 1 to 24 hours (default 1). */
  datatype AssignRequest = AssignRequest(phoneNumber: Option<string>, countryCode: Option<string>, hours: nat)

  function ValidateAssign(body: AssignBody): (r: Option<AssignRequest>)
    ensures r.Some? <==>
      && !body.unknownKeys
      && (body.phoneNumber.Some? ==> IsE164(body.phoneNumber.value))
      && OptionalCode(body.countryCode, 2).Some?
      && (body.duration.Some? ==> 1 <= body.duration.value <= 24)
    ensures r.Some? ==> r.value.phoneNumber == body.phoneNumber && 1 <= r.value.hours <= 24
    ensures r.Some? && body.duration.None? ==> r.value.hours == 1
  {
    var cc := OptionalCode(body.countryCode, 2);
    var hours := body.duration.GetOr(1);
    if body.unknownKeys || (body.phoneNumber.Some? && !IsE164(body.phoneNumber.value)) || cc.None? || !(1 <= hours <= 24) then None
    else Some(AssignRequest(body.phoneNumber, cc.value, hours as nat))
  }

  /** The cap on assigned numbers: 50 for an administrator, 5 for anyone else. */
  function Cap(isAdmin: bool): (n: nat)
    ensures n == 5 || n == 50
  {
    if isAdmin then 50 else 5
  }

  predicate AssignedTo(l: Lease, user: nat) {
    l.user == Some(user) && l.status == Assigned
  }

  /** The number the request asks for: that exact free number, or any free one of the country. */
  predicate Wanted(l: Lease, req: AssignRequest) {
    && l.status == Available
    && (req.phoneNumber.Some? ==> l.phoneNumber == req.phoneNumber.value)
    && (req.phoneNumber.None? && req.countryCode.Some? ==> l.countryCode == req.countryCode.value)
  }

  /**
    POST /assign: refuses a caller who already holds `Cap` assigned numbers,
    then assigns the first free number that fits the request.
   */
  function Assign(store: seq<Lease>, user: nat, isAdmin: bool, body: AssignBody, now: nat): (r: Reply<seq<Lease>>)
    ensures ValidateAssign(body).None? ==> r == Fail(400, "VALIDATION_ERROR")
    ensures ValidateAssign(body).Some? && Count(store, (l: Lease) => AssignedTo(l, user)) >= Cap(isAdmin) ==>
      r == Fail(400, "LIMIT_EXCEEDED")
    ensures r.Ok? ==> ValidateAssign(body).Some? && FirstIndex(store, (l: Lease) => Wanted(l, ValidateAssign(body).value)).Some?
    ensures r.Ok? ==> (
      var req := ValidateAssign(body).value;
      var i := FirstIndex(store, (l: Lease) => Wanted(l, req)).value;
      && Count(store, (l: Lease) => AssignedTo(l, user)) < Cap(isAdmin)
      && Wanted(store[i], req)
      && r.value == store[i := AssignToUser(store[i], user, req.hours, now)])
    ensures ValidateAssign(body).Some? && Count(store, (l: Lease) => AssignedTo(l, user)) < Cap(isAdmin) ==> (
      var req := ValidateAssign(body).value;
      && (r.Ok? <==> exists i :: 0 <= i < |store| && Wanted(store[i], req))
      && (r.Fail? && req.phoneNumber.Some? ==> r == Fail(404, "NUMBER_NOT_AVAILABLE"))
      && (r.Fail? && req.phoneNumber.None? ==> r == Fail(404, "NO_NUMBERS_AVAILABLE")))
  {
    match ValidateAssign(body)
    case None => Fail(400, "VALIDATION_ERROR")
    case Some(req) =>
      if Count(store, (l: Lease) => AssignedTo(l, user)) >= Cap(isAdmin) then Fail(400, "LIMIT_EXCEEDED")
      else match FirstIndex(store, (l: Lease) => Wanted(l, req))
        case None => if req.phoneNumber.Some? then Fail(404, "NUMBER_NOT_AVAILABLE") else Fail(404, "NO_NUMBERS_AVAILABLE")
        case Some(i) => Ok(200, store[i := AssignToUser(store[i], user, req.hours, now)])
  }

  /** The cap holds after every successful assignment. */
  lemma AssignRespectsCap(store: seq<Lease>, user: nat, isAdmin: bool, body: AssignBody, now: nat)
    requires Assign(store, user, isAdmin, body, now).Ok?
    ensures Count(Assign(store, user, isAdmin, body, now).value, (l: Lease) => AssignedTo(l, user)) <= Cap(isAdmin)
  {
    var req := ValidateAssign(body).value;
    var i := FirstIndex(store, (l: Lease) => Wanted(l, req)).value;
    CountUpdate(store, i, AssignToUser(store[i], user, req.hours, now), (l: Lease) => AssignedTo(l, user));
  }

  /** Any other number and any other user's count are left alone by an assignment. */
  lemma AssignTouchesOneNumber(store: seq<Lease>, user: nat, isAdmin: bool, body: AssignBody, now: nat, k: nat)
    requires Assign(store, user, isAdmin, body, now).Ok? && k < |store|
    ensures var r := Assign(store, user, isAdmin, body, now).value;
      r[k] == store[k] || (store[k].status == Available && AssignedTo(r[k], user))
  {
  }

  // ---------------------------------------------------------------------
  // GET /my

  datatype MyQuery = MyQuery(status: Option<string>, page: NumArg, limit: NumArg)

  datatype MyPage = MyPage(assignments: seq<Lease>, total: nat, page: nat, limit: nat, pages: nat)

  /**
    The filter of the caller's list. `expired` does not mean the stored
    status: it selects numbers still assigned whose expiry has passed.
   */
  predicate MyFilter(l: Lease, user: nat, status: Option<string>, now: nat) {
    && l.user == Some(user)
    && (status == Some("expired") ==> OverdueAt(l, now))
    && (status == Some("assigned") ==> l.status == Assigned)
    && (status == Some("released") ==> l.status == Released)
  }

  /** The `expired` filter is exactly the document's own `isExpired` on an assigned number. */
  lemma ExpiredFilterIsExpired(l: Lease, user: nat, now: nat)
    ensures MyFilter(l, user, Some("expired"), now) <==> l.user == Some(user) && l.status == Assigned && IsExpired(l, now)
    ensures MyFilter(l, user, Some("expired"), now) ==> MyFilter(l, user, Some("assigned"), now)
  {
  }

  /** Sort key for "most recently assigned first"; a missing assignment time sorts last. */
  function AssignedAtKey(l: Lease): (k: int)
    ensures l.assignedAt.None? ==> k > 0
    ensures l.assignedAt.Some? ==> k <= 0
  {
    match l.assignedAt
    case None => 1
    case Some(t) => -(t as int)
  }

  /** Most recently assigned first, with never-assigned numbers at the end. */
  predicate RecentFirst(s: seq<Lease>) {
    forall i, j :: 0 <= i < j < |s| ==>
      && (s[i].assignedAt.None? ==> s[j].assignedAt.None?)
      && (s[i].assignedAt.Some? && s[j].assignedAt.Some? ==> s[i].assignedAt.value >= s[j].assignedAt.value)
  }

  /** Every number of the caller under the status filter, most recently assigned first. */
  function MineRecentFirst(store: seq<Lease>, user: nat, status: Option<string>, now: nat): (r: seq<Lease>)
    ensures RecentFirst(r)
    ensures multiset(r) == multiset(Filter(store, (l: Lease) => MyFilter(l, user, status, now)))
    ensures forall i :: 0 <= i < |r| ==> r[i] in store && MyFilter(r[i], user, status, now)
    ensures forall i :: 0 <= i < |store| && MyFilter(store[i], user, status, now) ==> store[i] in r
  {
    var sorted := SortedFilter(store, (l: Lease) => MyFilter(l, user, status, now), AssignedAtKey);
    KeyOrderIsRecentFirst(sorted);
    sorted
  }

  /** GET /my: one page of the caller's numbers under the status filter, with the page count. */
  function MyNumbers(store: seq<Lease>, user: nat, q: MyQuery, now: nat): (r: Reply<MyPage>)
    ensures r.Fail? <==>
      || !OptionalOneOf(q.status, {"assigned", "expired", "released"})
      || NumberAtLeast(q.page, 1, 1).None?
      || NumberIn(q.limit, 20, 1, 100).None?
    ensures r.Fail? ==> r == Fail(400, "VALIDATION_ERROR")
    ensures r.Ok? ==> (
      && r.value.page >= 1 && 1 <= r.value.limit <= 100
      && |r.value.assignments| <= r.value.limit
      && r.value.total == Count(store, (l: Lease) => MyFilter(l, user, q.status, now))
      && r.value.pages == Paging.Pages(r.value.total, r.value.limit)
      && Paging.WindowOf(r.value.assignments, MineRecentFirst(store, user, q.status, now),
                         Paging.Skip(r.value.page, r.value.limit), r.value.limit)
      && RecentFirst(r.value.assignments)
      && forall i :: 0 <= i < |r.value.assignments| ==>
           r.value.assignments[i] in store && MyFilter(r.value.assignments[i], user, q.status, now))
  {
    var page := NumberAtLeast(q.page, 1, 1);
    var limit := NumberIn(q.limit, 20, 1, 100);
    if !OptionalOneOf(q.status, {"assigned", "expired", "released"}) || page.None? || limit.None? then
      Fail(400, "VALIDATION_ERROR")
    else
      var p: nat := page.value;
      var lim: nat := limit.value;
      var sorted := MineRecentFirst(store, user, q.status, now);
      PermutedFilter(store, (l: Lease) => MyFilter(l, user, q.status, now), sorted);
      var window := Paging.Window(sorted, Paging.Skip(p, lim), lim);
      WindowRecentFirst(sorted, Paging.Skip(p, lim), lim);
      Ok(200, MyPage(window, |sorted|, p, lim, Paging.Pages(|sorted|, lim)))
  }

  lemma KeyOrderIsRecentFirst(s: seq<Lease>)
    requires SortedBy(s, AssignedAtKey)
    ensures RecentFirst(s)
  {
    forall i, j | 0 <= i < j < |s| ensures AssignedAtKey(s[i]) <= AssignedAtKey(s[j]) {
    }
  }

  lemma WindowRecentFirst(s: seq<Lease>, offset: nat, limit: nat)
    requires RecentFirst(s)
    ensures RecentFirst(Paging.Window(s, offset, limit))
  {
    var w := Paging.Window(s, offset, limit);
    assert forall i, j :: 0 <= i < j < |w| ==> w[i] == s[offset + i] && w[j] == s[offset + j];
  }

  // ---------------------------------------------------------------------
  // POST /:id/extend and DELETE /:id

  datatype ExtendBody = ExtendBody(duration: Option<int>, unknownKeys: bool)

  predicate HeldAssigned(l: Lease, id: nat, user: nat) {
    l.id == id && l.user == Some(user) && l.status == Assigned
  }

  /**
    POST /:id/extend: a required duration of 1 to 24 hours, and only on a
    number the caller holds in status `assigned`.
   */
  function Extend(store: seq<Lease>, user: nat, idText: string, body: ExtendBody, now: nat): (r: Reply<seq<Lease>>)
    ensures body.unknownKeys || body.duration.None? || !(1 <= body.duration.value <= 24) ==> r == Fail(400, "VALIDATION_ERROR")
    ensures !body.unknownKeys && body.duration.Some? && 1 <= body.duration.value <= 24 && JsMessagesRoute.CastId(idText).None? ==>
      r == Fail(404, "RESOURCE_NOT_FOUND")
    ensures !body.unknownKeys && body.duration.Some? && 1 <= body.duration.value <= 24 && JsMessagesRoute.CastId(idText).Some? ==> (
      var id := JsMessagesRoute.CastId(idText).value;
      && (r.Ok? <==> exists k :: 0 <= k < |store| && HeldAssigned(store[k], id, user))
      && (r.Fail? ==> r == Fail(404, "NUMBER_NOT_FOUND")))
    ensures r.Ok? ==> (
      && body.duration.Some? && JsMessagesRoute.CastId(idText).Some?
      && FirstIndex(store, (l: Lease) => HeldAssigned(l, JsMessagesRoute.CastId(idText).value, user)).Some?)
    ensures r.Ok? ==> (
      var i := FirstIndex(store, (l: Lease) => HeldAssigned(l, JsMessagesRoute.CastId(idText).value, user)).value;
      var base := if store[i].expiresAt.Some? then store[i].expiresAt.value else now;
      r.value == store[i := store[i].(expiresAt := Some(base + body.duration.value * HourMs))])
  {
    if body.unknownKeys || body.duration.None? || !(1 <= body.duration.value <= 24) then Fail(400, "VALIDATION_ERROR")
    else match JsMessagesRoute.CastId(idText)
      case None => JsMessagesRoute.CastFailure()
      case Some(id) =>
        match FirstIndex(store, (l: Lease) => HeldAssigned(l, id, user))
        case None => Fail(404, "NUMBER_NOT_FOUND")
        case Some(i) => Ok(200, store[i := ExtendAssignment(store[i], body.duration.value as nat, now).value])
  }

  predicate HeldBy(l: Lease, id: nat, user: nat) {
    l.id == id && l.user == Some(user)
  }

  /** DELETE /:id: the caller's number returns to the pool; its status is not looked at. */
  function ReleaseNumber(store: seq<Lease>, user: nat, idText: string, now: nat): (r: Reply<seq<Lease>>)
    ensures JsMessagesRoute.CastId(idText).None? ==> r == Fail(404, "RESOURCE_NOT_FOUND")
    ensures r.Ok? <==> (
      && JsMessagesRoute.CastId(idText).Some?
      && exists k :: 0 <= k < |store| && HeldBy(store[k], JsMessagesRoute.CastId(idText).value, user))
    ensures r.Fail? && JsMessagesRoute.CastId(idText).Some? ==> r == Fail(404, "NUMBER_NOT_FOUND")
    ensures r.Ok? ==> FirstIndex(store, (l: Lease) => HeldBy(l, JsMessagesRoute.CastId(idText).value, user)).Some?
    ensures r.Ok? ==> (
      var i := FirstIndex(store, (l: Lease) => HeldBy(l, JsMessagesRoute.CastId(idText).value, user)).value;
      && r.value == store[i := Release(store[i], now)]
      && r.value[i].status == Available && r.value[i].user.None?)
  {
    match JsMessagesRoute.CastId(idText)
    case None => JsMessagesRoute.CastFailure()
    case Some(id) =>
      match FirstIndex(store, (l: Lease) => HeldBy(l, id, user))
      case None => Fail(404, "NUMBER_NOT_FOUND")
      case Some(i) => Ok(200, store[i := Release(store[i], now)])
  }

  /** A suspended number still held by a user goes back to the pool when that user releases it. */
  lemma ReleaseIgnoresStatus(store: seq<Lease>, user: nat, k: nat, idText: string, now: nat)
    requires k < |store| && store[k].user == Some(user) && store[k].status == Suspended
    requires UniqueIds(store) && JsMessagesRoute.CastId(idText) == Some(store[k].id)
    ensures ReleaseNumber(store, user, idText, now).Ok?
    ensures ReleaseNumber(store, user, idText, now).value[k].status == Available
  {
    var id := store[k].id;
    var i := FirstIndex(store, (l: Lease) => HeldBy(l, id, user)).value;
    assert i == k;
  }

  // ---------------------------------------------------------------------
  // GET /stats

  datatype Stats = Stats(totalNumbers: nat, activeNumbers: nat, expiredNumbers: nat, availableNumbers: nat)

  /** GET /stats: the caller's numbers, those assigned, those overdue, and all free numbers. */
  function NumberStats(store: seq<Lease>, user: nat, now: nat): (r: Stats)
    ensures r.expiredNumbers <= r.activeNumbers <= r.totalNumbers <= |store|
    ensures r.availableNumbers <= |store|
    ensures r.totalNumbers == Count(store, (l: Lease) => l.user == Some(user))
    ensures r.activeNumbers == Count(store, (l: Lease) => AssignedTo(l, user))
    ensures r.expiredNumbers == Count(store, (l: Lease) => AssignedTo(l, user) && OverdueAt(l, now))
    ensures r.availableNumbers == Count(store, (l: Lease) => l.status == Available)
  {
    var total := Count(store, (l: Lease) => l.user == Some(user));
    var active := Count(store, (l: Lease) => AssignedTo(l, user));
    var expired := Count(store, (l: Lease) => AssignedTo(l, user) && OverdueAt(l, now));
    CountMonotone(store, (l: Lease) => AssignedTo(l, user) && OverdueAt(l, now), (l: Lease) => AssignedTo(l, user));
    CountMonotone(store, (l: Lease) => AssignedTo(l, user), (l: Lease) => l.user == Some(user));
    Stats(total, active, expired, Count(store, (l: Lease) => l.status == Available))
  }

  // ---------------------------------------------------------------------
  // POST / (administrators)

  /** The body of a new number; cost, currency and capabilities are not part of this model. */
  /**
    The body of POST /: the three stored fields, the optional provider id,
    cost, currency and capabilities, and whether any other key is present.
   */
  datatype CreateBody = CreateBody(
    phoneNumber: Option<string>, countryCode: Option<string>, provider: Option<string>,
    providerId: Option<string>, cost: Option<int>, currency: Option<string>, capabilities: Option<seq<string>>,
    unknownKeys: bool)

  /** A capability the schema's `capabilities` items accept. */
  predicate IsCapability(c: string) {
    c in {"sms", "voice", "mms"}
  }

  /** The Joi schema of POST /; a string rule refuses the empty string, as Joi does by default. */
  predicate CreateValid(body: CreateBody) {
    && !body.unknownKeys
    && body.phoneNumber.Some? && IsE164(body.phoneNumber.value)
    && body.countryCode.Some? && body.countryCode.value != [] && |body.countryCode.value| == 2
    && body.provider.Some? && IsProvider(body.provider.value)
    && (body.providerId.Some? ==> body.providerId.value != [])
    && (body.cost.Some? ==> body.cost.value >= 0)
    && (body.currency.Some? ==> |body.currency.value| == 3)
    && (body.capabilities.Some? ==> forall k :: 0 <= k < |body.capabilities.value| ==> IsCapability(body.capabilities.value[k]))
  }

  predicate UniqueNumbers(store: seq<Lease>) {
    forall i, j :: 0 <= i < j < |store| ==> store[i].phoneNumber != store[j].phoneNumber
  }

  /**
    POST /: after the request check, the unique index on `phoneNumber`
    refuses a number already in the collection; the error handler turns that
    into 409 `DUPLICATE_RESOURCE`.
   */
  function CreateNumber(store: seq<Lease>, id: nat, body: CreateBody, now: nat): (r: Reply<seq<Lease>>)
    ensures !CreateValid(body) ==> r == Fail(400, "VALIDATION_ERROR")
    ensures CreateValid(body) ==> (
      && (r.Ok? <==> forall k :: 0 <= k < |store| ==> store[k].phoneNumber != body.phoneNumber.value)
      && (r.Fail? ==> r == Fail(409, "DUPLICATE_RESOURCE")))
    ensures r.Ok? ==> (
      && |r.value| == |store| + 1 && r.value[..|store|] == store
      && var l := r.value[|store|];
         && l.id == id && l.phoneNumber == body.phoneNumber.value && l.countryCode == Upper(body.countryCode.value)
         && l.status == Available && Consistent(l) && l.createdAt == now
         && l.provider == body.provider.value && l.messages == []
         && l.user.None? && l.assignedAt.None? && l.expiresAt.None? && l.releasedAt.None?
         && SchemaErrors(Some(l.phoneNumber), Some(l.countryCode), l.provider) == [])
    ensures r.Ok? && UniqueNumbers(store) ==> UniqueNumbers(r.value)
  {
    if !CreateValid(body) then Fail(400, "VALIDATION_ERROR")
    else if exists k :: 0 <= k < |store| && store[k].phoneNumber == body.phoneNumber.value then Fail(409, "DUPLICATE_RESOURCE")
    else
      var number := body.phoneNumber.value;
      TrimE164(number);
      var l := Lease(id, number, Upper(body.countryCode.value), body.provider.value, Available,
                     None, None, None, None, now, []);
      Ok(201, store + [l])
  }

  /** A number in the international shape has no surrounding white space, so the schema's trim keeps it. */
  lemma TrimE164(s: string)
    requires IsE164(s)
    ensures JsTrim(s) == s
  {
    assert !IsJsSpace(s[0]) && !IsJsSpace(s[|s| - 1]);
    assert LeadingCount(s, IsJsSpace) == 0;
    TrailingNone(s);
  }

  lemma TrailingNone(s: string)
    requires |s| > 0 && !IsJsSpace(s[|s| - 1])
    ensures TrailingCount(s, IsJsSpace) == 0
  {
  }
}
