/**
  The Node `/api/messages` routes: the filtered, paged list; one message;
  marking one or all as read; the counters; deletion; and the search. It
  also models the order in which the routes are declared, because the
  router tries them in that order and the first pattern that fits the path
  takes the request.

  Document ids are 24 hexadecimal characters in a request; the model reads
  them as the number those digits spell. A path parameter that is not such
  an id makes the database driver throw a cast error, which the error
  middleware answers.
 */
module JsMessagesRoute {
  import opened Wrappers
  import opened Text
  import opened Collections
  import opened Time
  import opened Http
  import opened Joi
  import opened JsMessage
  import JsPhoneNumber
  import ErrorHandler
  import Paging

  // ---------------------------------------------------------------------
  // Ids

  predicate IsHexDigit(c: char) {
    IsDigit(c) || ('a' <= c <= 'f') || ('A' <= c <= 'F')
  }

  function HexDigitValue(c: char): (v: nat)
    requires IsHexDigit(c)
    ensures v < 16
  {
    if IsDigit(c) then DigitValue(c)
    else if 'a' <= c <= 'f' then (c - 'a') as nat + 10
    else (c - 'A') as nat + 10
  }

  function HexValue(s: string): (v: nat)
    requires forall i :: 0 <= i < |s| ==> IsHexDigit(s[i])
    decreases |s|
  {
    if s == [] then 0 else HexValue(s[..|s| - 1]) * 16 + HexDigitValue(s[|s| - 1])
  }

  /** The shape of an id in a request: exactly 24 hexadecimal characters. */
  predicate IsIdText(s: string) {
    |s| == 24 && forall i :: 0 <= i < |s| ==> IsHexDigit(s[i])
  }

  /** The driver's cast of a path or body value to an id; `None` is a cast error. */
  function CastId(s: string): (r: Option<nat>)
    ensures r.Some? <==> IsIdText(s)
  {
    if IsIdText(s) then Some(HexValue(s)) else None
  }

  /** What the error middleware answers for a cast error. */
  function CastFailure<T>(): (r: Reply<T>)
    ensures r == Fail(404, "RESOURCE_NOT_FOUND")
  {
    var err := ErrorHandler.Err("CastError", ErrorHandler.NoCode, None, "Cast to ObjectId failed", None, None, None, "");
    ErrorHandler.CastErrorIsNotFound(err, false);
    var out := ErrorHandler.Handle(err, false);
    Fail(out.response.statusCode as nat, out.response.code.s)
  }

  /** A word of the path, as in the two shadowed routes, is never an id. */
  lemma ShortWordIsNoId(s: string)
    requires |s| < 24
    ensures CastId(s).None?
  {
  }

  // ---------------------------------------------------------------------
  // The route table

  datatype Verb = Get | Patch | Delete

  /** One path segment of a route pattern: a fixed word or a parameter such as `:id`. */
  datatype Seg = Word(text: string) | Param

  datatype Endpoint = ListMessages | OneMessage | MarkOneRead | MarkAllRead | MessageStats | DeleteMessage | SearchMessages

  datatype Route = Route(verb: Verb, pattern: seq<Seg>, endpoint: Endpoint)

  /** The routes in the order the router file declares them. */
  const DeclaredRoutes: seq<Route> := [
    Route(Get, [], ListMessages),
    Route(Get, [Param], OneMessage),
    Route(Patch, [Param, Word("read")], MarkOneRead),
    Route(Patch, [Word("read-all")], MarkAllRead),
    Route(Get, [Word("stats")], MessageStats),
    Route(Delete, [Param], DeleteMessage),
    Route(Get, [Word("search")], SearchMessages)]

  /** The same routes with the two fixed GET paths declared before the parameterised one. */
  const IntendedRoutes: seq<Route> := [
    Route(Get, [], ListMessages),
    Route(Get, [Word("stats")], MessageStats),
    Route(Get, [Word("search")], SearchMessages),
    Route(Get, [Param], OneMessage),
    Route(Patch, [Param, Word("read")], MarkOneRead),
    Route(Patch, [Word("read-all")], MarkAllRead),
    Route(Delete, [Param], DeleteMessage)]

  /** A parameter takes any one non-empty segment; a word only itself. */
  predicate SegFits(p: Seg, s: string) {
    if p.Param? then s != [] else p.text == s
  }

  predicate Fits(r: Route, verb: Verb, path: seq<string>) {
    r.verb == verb && |r.pattern| == |path| && forall i :: 0 <= i < |path| ==> SegFits(r.pattern[i], path[i])
  }

  /** The router: the first declared route that fits the request takes it. */
  function Dispatch(routes: seq<Route>, verb: Verb, path: seq<string>): (r: Option<Endpoint>)
    ensures r.None? <==> forall k :: 0 <= k < |routes| ==> !Fits(routes[k], verb, path)
    ensures r.Some? ==>
      exists k :: 0 <= k < |routes| && Fits(routes[k], verb, path) && routes[k].endpoint == r.value && forall j :: 0 <= j < k ==> !Fits(routes[j], verb, path)
  {
    match FirstIndex(routes, (rt: Route) => Fits(rt, verb, path))
    case None => None
    case Some(k) => Some(routes[k].endpoint)
  }

  /**
    As declared, `GET /stats` and `GET /search` are taken by `GET /:id`,
    whose id cast then fails: both answer 404 `RESOURCE_NOT_FOUND`.
   */
  lemma StatsAndSearchShadowed(store: seq<Message>, user: nat)
    ensures Dispatch(DeclaredRoutes, Get, ["stats"]) == Some(OneMessage)
    ensures Dispatch(DeclaredRoutes, Get, ["search"]) == Some(OneMessage)
    ensures GetMessage(store, user, "stats") == Fail(404, "RESOURCE_NOT_FOUND")
    ensures GetMessage(store, user, "search") == Fail(404, "RESOURCE_NOT_FOUND")
  {
    assert Fits(DeclaredRoutes[1], Get, ["stats"]);
    assert !Fits(DeclaredRoutes[0], Get, ["stats"]);
    assert Fits(DeclaredRoutes[1], Get, ["search"]);
    assert !Fits(DeclaredRoutes[0], Get, ["search"]);
  }

  /** The first route that fits decides: naming it and showing that no earlier one fits is enough. */
  lemma DispatchIs(routes: seq<Route>, verb: Verb, path: seq<string>, k: nat)
    requires k < |routes| && Fits(routes[k], verb, path)
    requires forall j :: 0 <= j < k ==> !Fits(routes[j], verb, path)
    ensures Dispatch(routes, verb, path) == Some(routes[k].endpoint)
  {
    var r := Dispatch(routes, verb, path);
    var w :| 0 <= w < |routes| && Fits(routes[w], verb, path) && routes[w].endpoint == r.value &&
      forall j :: 0 <= j < w ==> !Fits(routes[j], verb, path);
    assert w == k;
  }

  /** When no route fits, the router has no handler for the request. */
  lemma DispatchNone(routes: seq<Route>, verb: Verb, path: seq<string>)
    requires forall k :: 0 <= k < |routes| ==> !Fits(routes[k], verb, path)
    ensures Dispatch(routes, verb, path).None?
  {
  }

  /** Each of the seven routes, named by position, in the declared and in the intended order. */
  lemma RouteShapes()
    ensures |DeclaredRoutes| == 7 && |IntendedRoutes| == 7
    ensures DeclaredRoutes[0] == IntendedRoutes[0] == Route(Get, [], ListMessages)
    ensures DeclaredRoutes[1] == IntendedRoutes[3] == Route(Get, [Param], OneMessage)
    ensures DeclaredRoutes[2] == IntendedRoutes[4] == Route(Patch, [Param, Word("read")], MarkOneRead)
    ensures DeclaredRoutes[3] == IntendedRoutes[5] == Route(Patch, [Word("read-all")], MarkAllRead)
    ensures DeclaredRoutes[4] == IntendedRoutes[1] == Route(Get, [Word("stats")], MessageStats)
    ensures DeclaredRoutes[5] == IntendedRoutes[6] == Route(Delete, [Param], DeleteMessage)
    ensures DeclaredRoutes[6] == IntendedRoutes[2] == Route(Get, [Word("search")], SearchMessages)
  {
  }

  /** When each declared route fits a request, stated without the pattern machinery. */
  lemma FitsDeclared(verb: Verb, path: seq<string>)
    ensures |DeclaredRoutes| == 7
    ensures Fits(DeclaredRoutes[0], verb, path) <==> verb == Get && path == []
    ensures Fits(DeclaredRoutes[1], verb, path) <==> verb == Get && |path| == 1 && path[0] != []
    ensures Fits(DeclaredRoutes[2], verb, path) <==> verb == Patch && |path| == 2 && path[0] != [] && path[1] == "read"
    ensures Fits(DeclaredRoutes[3], verb, path) <==> verb == Patch && path == ["read-all"]
    ensures Fits(DeclaredRoutes[4], verb, path) <==> verb == Get && path == ["stats"]
    ensures Fits(DeclaredRoutes[5], verb, path) <==> verb == Delete && |path| == 1 && path[0] != []
    ensures Fits(DeclaredRoutes[6], verb, path) <==> verb == Get && path == ["search"]
  {
    RouteShapes();
    if |path| == 1 {
      assert path == [path[0]];
    }
    if |path| == 2 {
      assert path == [path[0], path[1]];
    }
  }

  lemma FitsIntended(verb: Verb, path: seq<string>)
    ensures |IntendedRoutes| == 7
    ensures Fits(IntendedRoutes[0], verb, path) <==> Fits(DeclaredRoutes[0], verb, path)
    ensures Fits(IntendedRoutes[1], verb, path) <==> Fits(DeclaredRoutes[4], verb, path)
    ensures Fits(IntendedRoutes[2], verb, path) <==> Fits(DeclaredRoutes[6], verb, path)
    ensures Fits(IntendedRoutes[3], verb, path) <==> Fits(DeclaredRoutes[1], verb, path)
    ensures Fits(IntendedRoutes[4], verb, path) <==> Fits(DeclaredRoutes[2], verb, path)
    ensures Fits(IntendedRoutes[5], verb, path) <==> Fits(DeclaredRoutes[3], verb, path)
    ensures Fits(IntendedRoutes[6], verb, path) <==> Fits(DeclaredRoutes[5], verb, path)
    ensures IntendedRoutes[0].endpoint == DeclaredRoutes[0].endpoint && IntendedRoutes[3].endpoint == DeclaredRoutes[1].endpoint
    ensures IntendedRoutes[4].endpoint == DeclaredRoutes[2].endpoint && IntendedRoutes[5].endpoint == DeclaredRoutes[3].endpoint
    ensures IntendedRoutes[6].endpoint == DeclaredRoutes[5].endpoint
  {
    RouteShapes();
  }

  /** The two fixed GET paths reach their handlers once they are declared first. */
  lemma IntendedStatsAndSearch()
    ensures Dispatch(IntendedRoutes, Get, ["stats"]) == Some(MessageStats)
    ensures Dispatch(IntendedRoutes, Get, ["search"]) == Some(SearchMessages)
  {
    RouteShapes();
    DispatchIs(IntendedRoutes, Get, ["stats"], 1);
    assert "search"[1] != "stats"[1];
    assert !Fits(IntendedRoutes[1], Get, ["search"]);
    DispatchIs(IntendedRoutes, Get, ["search"], 2);
  }

  /** Moving the two fixed GET paths forward changes the routing of no other request. */
  lemma IntendedRoutesAgreeElsewhere(verb: Verb, path: seq<string>)
    requires !(verb == Get && (path == ["stats"] || path == ["search"]))
    ensures Dispatch(IntendedRoutes, verb, path) == Dispatch(DeclaredRoutes, verb, path)
  {
    FitsDeclared(verb, path);
    FitsIntended(verb, path);
    SameOrderOfFitting(DeclaredRoutes, IntendedRoutes, verb, path);
  }

  /**
    Two route tables of seven where the second lists the first's routes 0,
    4, 6, 1, 2, 3, 5 route alike every request that routes 4 and 6 do not fit.
   */
  lemma SameOrderOfFitting(d: seq<Route>, n: seq<Route>, verb: Verb, path: seq<string>)
    requires |d| == 7 && |n| == 7
    requires Fits(n[0], verb, path) <==> Fits(d[0], verb, path)
    requires Fits(n[1], verb, path) <==> Fits(d[4], verb, path)
    requires Fits(n[2], verb, path) <==> Fits(d[6], verb, path)
    requires Fits(n[3], verb, path) <==> Fits(d[1], verb, path)
    requires Fits(n[4], verb, path) <==> Fits(d[2], verb, path)
    requires Fits(n[5], verb, path) <==> Fits(d[3], verb, path)
    requires Fits(n[6], verb, path) <==> Fits(d[5], verb, path)
    requires n[0].endpoint == d[0].endpoint && n[3].endpoint == d[1].endpoint && n[4].endpoint == d[2].endpoint
    requires n[5].endpoint == d[3].endpoint && n[6].endpoint == d[5].endpoint
    requires !Fits(d[4], verb, path) && !Fits(d[6], verb, path)
    ensures Dispatch(n, verb, path) == Dispatch(d, verb, path)
  {
    if Fits(d[0], verb, path) {
      DispatchIs(n, verb, path, 0);
      DispatchIs(d, verb, path, 0);
    } else if Fits(d[1], verb, path) {
      DispatchIs(n, verb, path, 3);
      DispatchIs(d, verb, path, 1);
    } else if Fits(d[2], verb, path) {
      DispatchIs(n, verb, path, 4);
      DispatchIs(d, verb, path, 2);
    } else if Fits(d[3], verb, path) {
      DispatchIs(n, verb, path, 5);
      DispatchIs(d, verb, path, 3);
    } else if Fits(d[5], verb, path) {
      DispatchIs(n, verb, path, 6);
      DispatchIs(d, verb, path, 5);
    } else {
      DispatchNone(n, verb, path);
      DispatchNone(d, verb, path);
    }
  }

  // ---------------------------------------------------------------------
  // GET /

  /** The `since` parameter: missing, not an ISO date, or an instant. */
  datatype SinceArg = NoSince | BadSince | Since(t: nat)

  datatype ListQuery = ListQuery(
    phoneNumberId: Option<string>,
    messageType: Option<string>,
    isRead: Option<string>,
    since: SinceArg,
    page: NumArg,
    limit: NumArg,
    sort: Option<string>)

  datatype ListPage = ListPage(messages: seq<Message>, total: nat, page: nat, limit: nat, pages: nat)

  const TypeNames: set<string> := {"sms", "mms", "otp", "verification", "notification", "other"}

  /** The query schema: an id-shaped number, one of six types, an ISO date, page >= 1, limit 1 to 100, a known order. */
  predicate ListQueryValid(q: ListQuery) {
    && (q.phoneNumberId.Some? ==> IsIdText(q.phoneNumberId.value))
    && OptionalOneOf(q.messageType, TypeNames)
    && !q.since.BadSince?
    && NumberAtLeast(q.page, 1, 1).Some?
    && NumberIn(q.limit, 50, 1, 100).Some?
    && OptionalOneOf(q.sort, {"newest", "oldest"})
  }

  /** The filters the list and its count share, once the query is accepted. */
  function Options(q: ListQuery): (o: FindOptions)
    requires ListQueryValid(q)
    ensures 1 <= o.limit <= 100
    ensures o.offset + o.limit == NumberAtLeast(q.page, 1, 1).value * o.limit
    ensures o.newestFirst <==> q.sort != Some("oldest")
    ensures o.isRead.Some? <==> q.isRead.Some?
    ensures q.isRead.Some? ==> (o.isRead.value <==> q.isRead.value == "true")
  {
    var page: nat := NumberAtLeast(q.page, 1, 1).value;
    var limit: nat := NumberIn(q.limit, 50, 1, 100).value;
    FindOptions(
      if q.phoneNumberId.Some? then CastId(q.phoneNumberId.value) else None,
      if q.messageType.Some? then ParseType(q.messageType.value) else None,
      if q.isRead.Some? then Some(q.isRead.value == "true") else None,
      if q.since.Since? then Some(q.since.t) else None,
      limit,
      Paging.Skip(page, limit),
      q.sort != Some("oldest"))
  }

  /** The number document with this id held by the caller (`findOne({_id, user})`). */
  predicate HeldBy(l: JsPhoneNumber.Lease, id: nat, user: nat) {
    l.id == id && l.user == Some(user)
  }

  predicate Holds(leases: seq<JsPhoneNumber.Lease>, id: nat, user: nat) {
    exists k :: 0 <= k < |leases| && HeldBy(leases[k], id, user)
  }

  /**
    GET /: one page of the caller's messages under the filters, and a total
    counted with exactly the same filters.
   */
  function ListMessagesPage(store: seq<Message>, leases: seq<JsPhoneNumber.Lease>, user: nat, q: ListQuery): (r: Reply<ListPage>)
    ensures !ListQueryValid(q) ==> r == Fail(400, "VALIDATION_ERROR")
    ensures ListQueryValid(q) ==> (
      var o := Options(q);
      && (r == Fail(404, "PHONE_NUMBER_NOT_FOUND") <==> o.phoneNumber.Some? && !Holds(leases, o.phoneNumber.value, user))
      && (r.Ok? <==> o.phoneNumber.None? || Holds(leases, o.phoneNumber.value, user))
      && (r.Ok? ==>
            && r.value.limit == o.limit && |r.value.messages| <= o.limit
            && Paging.WindowOf(r.value.messages, SelectedSorted(store, user, o), o.offset, o.limit)
            && r.value.total == Count(store, (m: Message) => Selected(m, user, o))
            && r.value.pages == Paging.Pages(r.value.total, r.value.limit)
            && (o.newestFirst ==> NewestFirst(r.value.messages))
            && (!o.newestFirst ==> OldestFirst(r.value.messages))
            && forall i :: 0 <= i < |r.value.messages| ==>
                 r.value.messages[i] in store && Selected(r.value.messages[i], user, o)))
  {
    if !ListQueryValid(q) then Fail(400, "VALIDATION_ERROR")
    else
      var o := Options(q);
      if o.phoneNumber.Some? && FirstIndex(leases, (l: JsPhoneNumber.Lease) => HeldBy(l, o.phoneNumber.value, user)).None? then
        Fail(404, "PHONE_NUMBER_NOT_FOUND")
      else
        var total := Count(store, (m: Message) => Selected(m, user, o));
        Ok(200, ListPage(FindByUser(store, user, o), total, NumberAtLeast(q.page, 1, 1).value, o.limit, Paging.Pages(total, o.limit)))
  }

  /** The `isRead` parameter is true only for the exact word `true`. */
  lemma IsReadOnlyExactTrue(q: ListQuery)
    requires ListQueryValid(q) && q.isRead == Some("True")
    ensures Options(q).isRead == Some(false)
  {
  }

  // ---------------------------------------------------------------------
  // GET /:id and PATCH /:id/read

  predicate OwnMessage(m: Message, id: nat, user: nat) {
    m.id == id && m.user == user
  }

  function GetMessage(store: seq<Message>, user: nat, idText: string): (r: Reply<Message>)
    ensures CastId(idText).None? ==> r == Fail(404, "RESOURCE_NOT_FOUND")
    ensures CastId(idText).Some? ==> (
      && (r.Ok? <==> exists i :: 0 <= i < |store| && OwnMessage(store[i], CastId(idText).value, user))
      && (r.Fail? ==> r == Fail(404, "MESSAGE_NOT_FOUND")))
    ensures r.Ok? ==> r.value in store && r.value.user == user
  {
    match CastId(idText)
    case None => CastFailure()
    case Some(id) =>
      match FirstIndex(store, (m: Message) => OwnMessage(m, id, user))
      case None => Fail(404, "MESSAGE_NOT_FOUND")
      case Some(i) => Ok(200, store[i])
  }

  /** PATCH /:id/read: marks the caller's message read, unless it already is. */
  function MarkRead(store: seq<Message>, user: nat, idText: string, now: nat): (r: Reply<seq<Message>>)
    ensures r.Ok? <==> CastId(idText).Some? && exists i :: 0 <= i < |store| && OwnMessage(store[i], CastId(idText).value, user)
    ensures r.Ok? ==> |r.value| == |store|
    ensures r.Ok? ==>
      exists i :: 0 <= i < |store| && OwnMessage(store[i], CastId(idText).value, user) && r.value == store[i := if store[i].isRead then store[i] else MarkAsRead(store[i], now)]
  {
    match CastId(idText)
    case None => CastFailure()
    case Some(id) =>
      match FirstIndex(store, (m: Message) => OwnMessage(m, id, user))
      case None => Fail(404, "MESSAGE_NOT_FOUND")
      case Some(i) => Ok(200, store[i := if store[i].isRead then store[i] else MarkAsRead(store[i], now)])
  }

  /** A repeated mark-read changes nothing: the first read time is kept. */
  lemma MarkReadKeepsFirstReadTime(store: seq<Message>, user: nat, idText: string, t1: nat, t2: nat)
    requires MarkRead(store, user, idText, t1).Ok?
    ensures var once := MarkRead(store, user, idText, t1).value;
      MarkRead(once, user, idText, t2) == Ok(200, once)
  {
    var id := CastId(idText).value;
    var p := (m: Message) => OwnMessage(m, id, user);
    var i := FirstIndex(store, p).value;
    var once := MarkRead(store, user, idText, t1).value;
    assert once == store[i := if store[i].isRead then store[i] else MarkAsRead(store[i], t1)];
    assert p(once[i]) && once[i].isRead;
    forall k | 0 <= k < i ensures !p(once[k]) {
      assert once[k] == store[k];
    }
    assert FirstIndex(once, p) == Some(i);
    assert once[i := once[i]] == once;
  }

  // ---------------------------------------------------------------------
  // PATCH /read-all

  /**
    PATCH /read-all: with a number in the body, the caller must hold it;
    then the caller's unread messages (on that number, when given) are read.
   */
  function ReadAll(store: seq<Message>, leases: seq<JsPhoneNumber.Lease>, user: nat, phoneNumberId: Option<string>, now: nat)
    : (r: Reply<(seq<Message>, nat)>)
    ensures Truthy(phoneNumberId) && CastId(phoneNumberId.value).None? ==> r == Fail(404, "RESOURCE_NOT_FOUND")
    ensures Truthy(phoneNumberId) && CastId(phoneNumberId.value).Some? ==>
      (r == Fail(404, "PHONE_NUMBER_NOT_FOUND") <==> !Holds(leases, CastId(phoneNumberId.value).value, user))
    ensures r.Ok? <==> (!Truthy(phoneNumberId)
      || (CastId(phoneNumberId.value).Some? && Holds(leases, CastId(phoneNumberId.value).value, user)))
    ensures r.Ok? ==> (
      var scope := if Truthy(phoneNumberId) then CastId(phoneNumberId.value) else None;
      && |r.value.0| == |store|
      && r.value.1 == Count(store, (m: Message) => UnreadOf(m, user, scope))
      && (forall i :: 0 <= i < |store| ==> (store[i].user != user ==> r.value.0[i] == store[i]))
      && (forall i :: 0 <= i < |store| && UnreadOf(store[i], user, scope) ==>
            r.value.0[i] == store[i].(isRead := true, readAt := Some(now)))
      && (forall i :: 0 <= i < |store| && !UnreadOf(store[i], user, scope) ==> r.value.0[i] == store[i])
      && Count(r.value.0, (m: Message) => UnreadOf(m, user, scope)) == 0)
  {
    if !Truthy(phoneNumberId) then Ok(200, MarkAllAsReadForUser(store, user, None, now))
    else match CastId(phoneNumberId.value)
      case None => CastFailure()
      case Some(id) =>
        if FirstIndex(leases, (l: JsPhoneNumber.Lease) => HeldBy(l, id, user)).None? then Fail(404, "PHONE_NUMBER_NOT_FOUND")
        else Ok(200, MarkAllAsReadForUser(store, user, Some(id), now))
  }

  // ---------------------------------------------------------------------
  // GET /stats

  datatype Stats = Stats(total: nat, unread: nat, otp: nat, verification: nat, today: nat)

  /** GET /stats, counted from the start of the server's current day. */
  function MessageCounts(store: seq<Message>, user: nat, startOfDay: nat): (r: Stats)
    ensures r.unread <= r.total && r.today <= r.total
    ensures r.otp + r.verification <= r.total
    ensures r.total == Count(store, (m: Message) => m.user == user)
    ensures r.unread == Count(store, (m: Message) => m.user == user && !m.isRead)
    ensures r.otp == Count(store, (m: Message) => m.user == user && m.messageType == Otp)
    ensures r.verification == Count(store, (m: Message) => m.user == user && m.messageType == Verification)
    ensures r.today == Count(store, (m: Message) => m.user == user && m.receivedAt >= startOfDay)
  {
    var mine := (m: Message) => m.user == user;
    CountMonotone(store, (m: Message) => m.user == user && !m.isRead, mine);
    CountMonotone(store, (m: Message) => m.user == user && m.receivedAt >= startOfDay, mine);
    PasscodeTypesWithinTotal(store, user);
    Stats(Count(store, mine),
          Count(store, (m: Message) => m.user == user && !m.isRead),
          Count(store, (m: Message) => m.user == user && m.messageType == Otp),
          Count(store, (m: Message) => m.user == user && m.messageType == Verification),
          Count(store, (m: Message) => m.user == user && m.receivedAt >= startOfDay))
  }

  /** A message has one type, so the two passcode counters together stay within the total. */
  lemma {:induction false} PasscodeTypesWithinTotal(store: seq<Message>, user: nat)
    ensures Count(store, (m: Message) => m.user == user && m.messageType == Otp)
          + Count(store, (m: Message) => m.user == user && m.messageType == Verification)
         <= Count(store, (m: Message) => m.user == user)
    decreases |store|
  {
    if |store| > 0 {
      PasscodeTypesWithinTotal(store[1..], user);
    }
  }

  /** The caller's messages of type `t`. */
  function TypeCount(store: seq<Message>, user: nat, t: MessageType): nat {
    Count(store, (m: Message) => m.user == user && m.messageType == t)
  }

  const AllTypes: seq<MessageType> := [Sms, Mms, Otp, Verification, Notification, Other]

  /** The position of a type in `AllTypes`. */
  function TypeRank(t: MessageType): (k: nat)
    ensures k < |AllTypes| && AllTypes[k] == t
  {
    match t
    case Sms => 0
    case Mms => 1
    case Otp => 2
    case Verification => 3
    case Notification => 4
    case Other => 5
  }

  /** Every type is listed in `AllTypes` once. */
  lemma AllTypesDistinct()
    ensures Distinct(AllTypes)
  {
    forall i, j | 0 <= i < j < |AllTypes| ensures AllTypes[i] != AllTypes[j] {
      assert TypeRank(AllTypes[i]) == i && TypeRank(AllTypes[j]) == j;
    }
  }

  /** The types the caller has messages of, each once with its count, in the order of `AllTypes`. */
  function PresentTypes(store: seq<Message>, user: nat): (p: seq<(MessageType, nat)>)
    ensures Distinct(p)
    ensures forall i :: 0 <= i < |p| ==> p[i].1 == TypeCount(store, user, p[i].0) && p[i].1 > 0
    ensures forall t: MessageType :: TypeCount(store, user, t) > 0 ==> (t, TypeCount(store, user, t)) in p
  {
    var counted := Map(AllTypes, (t: MessageType) => (t, TypeCount(store, user, t)));
    AllTypesDistinct();
    forall i, j | 0 <= i < j < |counted| ensures counted[i] != counted[j] {
      assert counted[i].0 == AllTypes[i] && counted[j].0 == AllTypes[j];
    }
    FilterDistinct(counted, (e: (MessageType, nat)) => e.1 > 0);
    forall t: MessageType | TypeCount(store, user, t) > 0
      ensures (t, TypeCount(store, user, t)) in Filter(counted, (e: (MessageType, nat)) => e.1 > 0)
    {
      assert counted[TypeRank(t)] == (t, TypeCount(store, user, t));
    }
    Filter(counted, (e: (MessageType, nat)) => e.1 > 0)
  }

  /**
    The `messageTypeStats` aggregation of GET /stats: `$group` by type, then
    `$sort` by count, largest first. A type appears exactly when the caller
    has a message of it, once, with its count.
   */
  function TypeDistribution(store: seq<Message>, user: nat): (r: seq<(MessageType, nat)>)
    ensures forall i :: 0 <= i < |r| ==> r[i].1 == TypeCount(store, user, r[i].0) && r[i].1 > 0
    ensures forall t: MessageType :: TypeCount(store, user, t) > 0 ==> exists i :: 0 <= i < |r| && r[i].0 == t
    ensures forall i, j :: 0 <= i < j < |r| ==> r[i].0 != r[j].0
    ensures forall i, j :: 0 <= i < j < |r| ==> r[i].1 >= r[j].1
  {
    var r := SortBy<(MessageType, nat)>(PresentTypes(store, user), (e: (MessageType, nat)) => -(e.1 as int));
    RearrangedTypes(store, user, r);
    r
  }

  /** Any rearrangement of `PresentTypes` lists each type the caller has messages of once, with its count. */
  lemma RearrangedTypes(store: seq<Message>, user: nat, r: seq<(MessageType, nat)>)
    requires multiset(r) == multiset(PresentTypes(store, user))
    ensures forall i :: 0 <= i < |r| ==> r[i].1 == TypeCount(store, user, r[i].0) && r[i].1 > 0
    ensures forall t: MessageType :: TypeCount(store, user, t) > 0 ==> exists i :: 0 <= i < |r| && r[i].0 == t
    ensures forall i, j :: 0 <= i < j < |r| ==> r[i].0 != r[j].0
  {
    var present := PresentTypes(store, user);
    DistinctPermutation(present, r);
    forall i | 0 <= i < |r| ensures r[i].1 == TypeCount(store, user, r[i].0) && r[i].1 > 0 {
      assert r[i] in multiset(present);
    }
    forall t: MessageType | TypeCount(store, user, t) > 0 ensures exists i :: 0 <= i < |r| && r[i].0 == t {
      assert (t, TypeCount(store, user, t)) in multiset(r);
    }
  }

  /** A message of the caller received at or after `since`. */
  predicate ReceivedBy(m: Message, user: nat, since: int) {
    m.user == user && m.receivedAt >= since
  }

  /** The start of the seven-day window of GET /stats. */
  function WeekBefore(now: nat): int {
    now - 7 * DayMs
  }

  /** The caller's messages since `since` received on day `d`, counting days from the epoch in UTC. */
  function DayCount(store: seq<Message>, user: nat, since: int, d: nat): nat {
    Count(store, (m: Message) => ReceivedBy(m, user, since) && m.receivedAt / DayMs == d)
  }

  /** The UTC days on which the caller received a message since `since`. */
  function ActiveDays(store: seq<Message>, user: nat, since: int): set<nat> {
    set m | m in store && ReceivedBy(m, user, since) :: m.receivedAt / DayMs
  }

  /** A day has messages exactly when it is one of the active days. */
  lemma ActiveDay(store: seq<Message>, user: nat, since: int, d: nat)
    ensures DayCount(store, user, since, d) > 0 <==> d in ActiveDays(store, user, since)
  {
    CountPositive(store, (m: Message) => ReceivedBy(m, user, since) && m.receivedAt / DayMs == d);
    if d in ActiveDays(store, user, since) {
      var m :| m in store && ReceivedBy(m, user, since) && m.receivedAt / DayMs == d;
      var k :| 0 <= k < |store| && store[k] == m;
    }
  }

  /** Each active day in ascending order, with its count. */
  function DayCounts(store: seq<Message>, user: nat, since: int): seq<(nat, nat)> {
    Map(SortedIds(ActiveDays(store, user, since)), (d: nat) => (d, DayCount(store, user, since, d)))
  }

  /** The days listed are ascending and are exactly the days with messages, each with its count. */
  lemma DayCountsListed(store: seq<Message>, user: nat, since: int)
    ensures var r := DayCounts(store, user, since);
      && (forall i, j :: 0 <= i < j < |r| ==> r[i].0 < r[j].0)
      && (forall i :: 0 <= i < |r| ==> r[i].1 == DayCount(store, user, since, r[i].0) && r[i].1 > 0)
      && (forall d: nat :: DayCount(store, user, since, d) > 0 ==> exists i :: 0 <= i < |r| && r[i].0 == d)
  {
    var days := ActiveDays(store, user, since);
    var sorted := SortedIds(days);
    var r := DayCounts(store, user, since);
    assert forall i :: 0 <= i < |r| ==> r[i].0 == sorted[i];
    forall i | 0 <= i < |r| ensures r[i].1 == DayCount(store, user, since, r[i].0) && r[i].1 > 0 {
      ActiveDay(store, user, since, sorted[i]);
    }
    forall d: nat | DayCount(store, user, since, d) > 0 ensures exists i :: 0 <= i < |r| && r[i].0 == d {
      ActiveDay(store, user, since, d);
      var i :| 0 <= i < |sorted| && sorted[i] == d;
      assert r[i].0 == d;
    }
  }

  /**
    The `recentActivity` aggregation of GET /stats: the caller's messages of
    the last seven days grouped by their UTC day, days in ascending order.
    A day appears exactly when it has such a message, with their count.
   */
  function RecentActivity(store: seq<Message>, user: nat, now: nat): (r: seq<(nat, nat)>)
    ensures forall i, j :: 0 <= i < j < |r| ==> r[i].0 < r[j].0
    ensures forall i :: 0 <= i < |r| ==> r[i].1 == DayCount(store, user, WeekBefore(now), r[i].0) && r[i].1 > 0
    ensures forall d: nat :: DayCount(store, user, WeekBefore(now), d) > 0 ==> exists i :: 0 <= i < |r| && r[i].0 == d
  {
    DayCountsListed(store, user, WeekBefore(now));
    DayCounts(store, user, WeekBefore(now))
  }


  // ---------------------------------------------------------------------
  // DELETE /:id

  /** `$pull`: every occurrence of `x` removed. */
  function Pull(s: seq<nat>, x: nat): (r: seq<nat>)
    ensures x !in r
    ensures forall y :: y in s && y != x ==> y in r
    ensures forall y :: y in r ==> y in s
  {
    Filter(s, (y: nat) => y != x)
  }

  /** `k` is the first number document with id `pid`: the one `findByIdAndUpdate` reaches. */
  predicate FirstWithId(leases: seq<JsPhoneNumber.Lease>, k: nat, pid: nat) {
    k < |leases| && leases[k].id == pid && forall j :: 0 <= j < k ==> leases[j].id != pid
  }

  /** `findByIdAndUpdate(pid, {$pull: {messages: id}})`: only number `pid` loses the message id. */
  function Unlink(leases: seq<JsPhoneNumber.Lease>, pid: nat, id: nat): (r: seq<JsPhoneNumber.Lease>)
    ensures |r| == |leases|
    ensures forall k :: 0 <= k < |leases| ==>
      r[k] == (if FirstWithId(leases, k, pid) then leases[k].(messages := Pull(leases[k].messages, id)) else leases[k])
  {
    match FirstIndex(leases, (l: JsPhoneNumber.Lease) => l.id == pid)
    case None => leases
    case Some(k) => leases[k := leases[k].(messages := Pull(leases[k].messages, id))]
  }

  /**
    DELETE /:id: removes the caller's message and takes its id out of the
    message list of the number it arrived on.
   */
  function DeleteOwnMessage(store: seq<Message>, leases: seq<JsPhoneNumber.Lease>, user: nat, idText: string)
    : (r: Reply<(seq<Message>, seq<JsPhoneNumber.Lease>)>)
    ensures CastId(idText).None? ==> r == Fail(404, "RESOURCE_NOT_FOUND")
    ensures CastId(idText).Some? ==> (
      var id := CastId(idText).value;
      && (r.Ok? <==> exists i :: 0 <= i < |store| && OwnMessage(store[i], id, user))
      && (r.Fail? ==> r == Fail(404, "MESSAGE_NOT_FOUND"))
      && (r.Ok? ==>
            && r.value.0 == Filter(store, (m: Message) => m.id != id)
            && (forall i :: 0 <= i < |r.value.0| ==> r.value.0[i].id != id && r.value.0[i] in store)
            && (forall i :: 0 <= i < |store| && store[i].id != id ==> store[i] in r.value.0)
            && |r.value.1| == |leases|
            && (forall k :: 0 <= k < |leases| ==> id !in r.value.1[k].messages || r.value.1[k] == leases[k])
            && exists i :: 0 <= i < |store| && OwnMessage(store[i], id, user)
                 && (forall j :: 0 <= j < i ==> !OwnMessage(store[j], id, user))
                 && r.value.1 == Unlink(leases, store[i].phoneNumber, id)))
  {
    match CastId(idText)
    case None => CastFailure()
    case Some(id) =>
      match FirstIndex(store, (m: Message) => OwnMessage(m, id, user))
      case None => Fail(404, "MESSAGE_NOT_FOUND")
      case Some(i) =>
        Ok(200, (Filter(store, (m: Message) => m.id != id), Unlink(leases, store[i].phoneNumber, id)))
  }

  /** The number the deleted message arrived on no longer lists it. */
  lemma DeleteUnlinksMessage(store: seq<Message>, leases: seq<JsPhoneNumber.Lease>, user: nat, idText: string, k: nat)
    requires DeleteOwnMessage(store, leases, user, idText).Ok?
    requires JsPhoneNumber.UniqueIds(leases) && k < |leases|
    requires exists i :: 0 <= i < |store| && OwnMessage(store[i], CastId(idText).value, user) && store[i].phoneNumber == leases[k].id
    requires forall i, j :: 0 <= i < j < |store| ==> store[i].id != store[j].id
    ensures CastId(idText).value !in DeleteOwnMessage(store, leases, user, idText).value.1[k].messages
  {
    var id := CastId(idText).value;
    var i := FirstIndex(store, (m: Message) => OwnMessage(m, id, user)).value;
    var w :| 0 <= w < |store| && OwnMessage(store[w], id, user) && store[w].phoneNumber == leases[k].id;
    assert w == i;
    var f := FirstIndex(leases, (l: JsPhoneNumber.Lease) => l.id == store[i].phoneNumber);
    assert f.Some? && f.value == k;
  }

  // ---------------------------------------------------------------------
  // GET /search

  datatype SearchQuery = SearchQuery(q: Option<string>, phoneNumberId: Option<string>, messageType: Option<string>, limit: Option<int>)

  /** Matching as a case-insensitive pattern on content, sender or detected code. */
  predicate Hit(m: Message, text: string) {
    || ContainsIgnoreCase(m.content, text)
    || ContainsIgnoreCase(m.fromNumber, text)
    || (m.detectedOtp.Some? && ContainsIgnoreCase(m.detectedOtp.value, text))
  }

  predicate Searched(m: Message, user: nat, text: string, phone: Option<nat>, messageType: Option<string>) {
    && m.user == user && Hit(m, text)
    && (phone.Some? ==> m.phoneNumber == phone.value)
    && (messageType.Some? ==> TypeName(m.messageType) == messageType.value)
  }

  /** The database's reading of a result limit: 0 means none, a negative one counts as its magnitude. */
  function ResultCap(limit: Option<int>): (r: Option<nat>)
    ensures limit.None? ==> r == Some(20)
    ensures limit.Some? ==> (r.None? <==> limit.value == 0)
    ensures r.Some? ==> r.value > 0
  {
    if limit.None? then Some(20)
    else if limit.value == 0 then None
    else if limit.value < 0 then Some(-limit.value)
    else Some(limit.value)
  }

  /** A search query is present and at least two UTF-16 units long once trimmed. */
  predicate LongEnough(q: Option<string>) {
    q.Some? && Utf16Length(JsTrim(q.value)) >= 2
  }

  function ReceivedKey(m: Message): int { -(m.receivedAt as int) }

  /**
    GET /search: the trimmed `q` must have at least two characters; the hits
    among the caller's messages come newest first, and the reported total
    is the number returned.
   */
  function Search(store: seq<Message>, user: nat, s: SearchQuery): (r: Reply<(seq<Message>, nat)>)
    ensures !LongEnough(s.q) ==> r == Fail(400, "INVALID_SEARCH_QUERY")
    ensures LongEnough(s.q) && Truthy(s.phoneNumberId) && CastId(s.phoneNumberId.value).None? ==>
      r == Fail(404, "RESOURCE_NOT_FOUND")
    ensures r.Ok? <==> (LongEnough(s.q) && (!Truthy(s.phoneNumberId) || CastId(s.phoneNumberId.value).Some?))
    ensures r.Ok? ==> (
      var text := JsTrim(s.q.value);
      var phone := if Truthy(s.phoneNumberId) then CastId(s.phoneNumberId.value) else None;
      var kind := if Truthy(s.messageType) then s.messageType else None;
      && r.value.1 == |r.value.0|
      && SearchAnswer(store, user, text, phone, kind, ResultCap(s.limit), r.value.0))
  {
    if !LongEnough(s.q) then Fail(400, "INVALID_SEARCH_QUERY")
    else if Truthy(s.phoneNumberId) && CastId(s.phoneNumberId.value).None? then CastFailure()
    else
      var text := JsTrim(s.q.value);
      var phone := if Truthy(s.phoneNumberId) then CastId(s.phoneNumberId.value) else None;
      var kind := if Truthy(s.messageType) then s.messageType else None;
      var found := Hits(store, user, text, phone, kind, ResultCap(s.limit));
      Ok(200, (found, |found|))
  }

  /** Every hit among the caller's messages, sorted newest first: the query before its limit. */
  function SortedHits(store: seq<Message>, user: nat, text: string, phone: Option<nat>, kind: Option<string>): (r: seq<Message>)
    ensures NewestFirst(r)
    ensures multiset(r) == multiset(Filter(store, (m: Message) => Searched(m, user, text, phone, kind)))
    ensures forall i :: 0 <= i < |r| ==> r[i] in store && Searched(r[i], user, text, phone, kind)
    ensures forall i :: 0 <= i < |store| && Searched(store[i], user, text, phone, kind) ==> store[i] in r
  {
    var sorted := SortedFilter(store, (m: Message) => Searched(m, user, text, phone, kind), ReceivedKey);
    NewestByKey(sorted);
    sorted
  }

  /**
    What a search must answer: the first `cap` hits (all of them without a
    cap) in newest-first order, every one a caller's message matching the
    filters, and every hit present when the cap does not bite.
   */
  predicate SearchAnswer(store: seq<Message>, user: nat, text: string, phone: Option<nat>, kind: Option<string>,
                         cap: Option<nat>, found: seq<Message>)
  {
    var sorted := SortedHits(store, user, text, phone, kind);
    && Paging.WindowOf(found, sorted, 0, if cap.Some? then cap.value else |sorted|)
    && NewestFirst(found)
    && (forall i :: 0 <= i < |found| ==> found[i] in store && Searched(found[i], user, text, phone, kind))
    && (cap.Some? ==> |found| <= cap.value)
    && ((cap.None? || Count(store, (m: Message) => Searched(m, user, text, phone, kind)) <= cap.value) ==>
          forall i :: 0 <= i < |store| && Searched(store[i], user, text, phone, kind) ==> store[i] in found)
  }

  /** The caller's messages a search selects, newest first, cut to `cap` when there is one. */
  function Hits(store: seq<Message>, user: nat, text: string, phone: Option<nat>, kind: Option<string>,
                cap: Option<nat>): (found: seq<Message>)
    ensures SearchAnswer(store, user, text, phone, kind, cap, found)
  {
    var sorted := SortedHits(store, user, text, phone, kind);
    var found := match cap
      case None => sorted
      case Some(n) => Paging.Window(sorted, 0, n);
    assert cap.Some? && |sorted| <= cap.value ==> found == sorted;
    found
  }

  /**
    Under a limit the search returns the newest hits: a hit it leaves out
    is no newer than any it returns.
   */
  lemma HitsAreNewest(store: seq<Message>, user: nat, text: string, phone: Option<nat>, kind: Option<string>, cap: Option<nat>, k: nat)
    requires k < |store| && Searched(store[k], user, text, phone, kind)
    requires store[k] !in Hits(store, user, text, phone, kind, cap)
    ensures forall i :: 0 <= i < |Hits(store, user, text, phone, kind, cap)| ==>
      Hits(store, user, text, phone, kind, cap)[i].receivedAt >= store[k].receivedAt
  {
    var sorted := SortedHits(store, user, text, phone, kind);
    var found := Hits(store, user, text, phone, kind, cap);
    var j :| 0 <= j < |sorted| && sorted[j] == store[k];
    assert j >= |found|;
    forall i | 0 <= i < |found| ensures found[i].receivedAt >= store[k].receivedAt {
      assert found[i] == sorted[i];
    }
  }

  lemma NewestByKey(s: seq<Message>)
    requires SortedBy(s, ReceivedKey)
    ensures NewestFirst(s)
    ensures forall n: nat :: NewestFirst(Paging.Window(s, 0, n))
  {
    assert forall i, j :: 0 <= i < j < |s| ==> ReceivedKey(s[i]) <= ReceivedKey(s[j]);
  }
}
