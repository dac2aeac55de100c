/**
  The Flask `/numbers` routes: the public listing, assignment, details,
  release, the caller's own numbers with lazy expiry, and extension.

  Every handler is a function from the table (and the caller's id and the
  current time) to a reply; a reply that changes the table carries the new
  table as its payload. A handler that fails leaves the table as it was.
 */
module PyNumbersRoute {
  import opened Wrappers
  import opened Text
  import opened Time
  import opened Collections
  import opened Http
  import opened PyPhoneNumber
  import Paging

  const MaxListLimit: nat := 100
  const DefaultListLimit: nat := 20

  // ---------------------------------------------------------------------
  // GET /numbers

  /** The filter of the public listing: a non-empty status, and the upper-cased country when one is given. */
  predicate Listed(l: Lease, status: string, countryCode: Option<string>) {
    && (status != [] ==> l.status == status)
    && (countryCode.Some? && countryCode.value != [] ==> l.countryCode == Upper(countryCode.value))
  }

  datatype Listing = Listing(numbers: seq<Lease>, total: nat, limit: int, offset: int)

  /** `min(int(limit), 100)` with 20 for a missing `limit`; `None` when `int()` raises. */
  function ListLimit(arg: IntArg): (r: Option<int>)
    ensures arg.Unreadable? <==> r.None?
    ensures arg.Missing? ==> r == Some(DefaultListLimit)
    ensures arg.Int? ==> r == Some(Min(arg.value, MaxListLimit))
    ensures r.Some? ==> r.value <= MaxListLimit
  {
    match arg
    case Missing => Some(DefaultListLimit)
    case Unreadable => None
    case Int(v) => Some(Min(v, MaxListLimit))
  }

  /** `int(offset)` with 0 for a missing `offset`; `None` when `int()` raises. */
  function ListOffset(arg: IntArg): (r: Option<int>)
    ensures arg.Unreadable? <==> r.None?
    ensures arg.Missing? ==> r == Some(0)
    ensures arg.Int? ==> r == Some(arg.value)
  {
    match arg
    case Missing => Some(0)
    case Unreadable => None
    case Int(v) => Some(v)
  }

  /**
    `get_numbers`: the status defaults to `available`, the country code is
    upper-cased, and the limit (default 20) is capped at 100. A `limit` or
    `offset` that `int()` cannot read raises inside the `try`, which answers
    500 `FETCH_ERROR`. The reply echoes the limit and offset as read; a
    negative one selects as zero.
   */
  function GetNumbers(table: seq<Lease>, countryCode: Option<string>, status: Option<string>,
                      limit: IntArg, offset: IntArg): (r: Reply<Listing>)
    ensures r.Fail? <==> limit.Unreadable? || offset.Unreadable?
    ensures r.Fail? ==> r == Fail(500, "FETCH_ERROR")
    ensures r.Ok? ==> (
      var matching := Filter(table, (l: Lease) => Listed(l, status.GetOr(AvailableStatus), countryCode));
      && r.status == 200
      && r.value.limit == ListLimit(limit).value && r.value.offset == ListOffset(offset).value
      && r.value.limit <= MaxListLimit
      && Paging.WindowOf(r.value.numbers, matching, Clamp(r.value.offset), Clamp(r.value.limit))
      && r.value.total == Count(table, (l: Lease) => Listed(l, status.GetOr(AvailableStatus), countryCode))
      && |r.value.numbers| <= Clamp(r.value.limit))
    ensures r.Ok? ==> forall i :: 0 <= i < |r.value.numbers| ==>
      r.value.numbers[i] in table && Listed(r.value.numbers[i], status.GetOr(AvailableStatus), countryCode)
    ensures r.Ok? && status.None? ==> forall i :: 0 <= i < |r.value.numbers| ==> r.value.numbers[i].status == AvailableStatus
  {
    match (ListLimit(limit), ListOffset(offset))
    case (Some(lim), Some(off)) =>
      var st := status.GetOr(AvailableStatus);
      var matching := Filter(table, (l: Lease) => Listed(l, st, countryCode));
      var page := Paging.Window(matching, Clamp(off), Clamp(lim));
      Paging.WindowWithin(matching, Clamp(off), Clamp(lim), (l: Lease) => l in table && Listed(l, st, countryCode));
      Ok(200, Listing(page, |matching|, lim, off))
    case _ => Fail(500, "FETCH_ERROR")
  }

  function Min(a: int, b: int): (r: int)
    ensures r <= a && r <= b && (r == a || r == b)
  {
    if a <= b then a else b
  }

  /** A negative limit or offset selects as zero. */
  function Clamp(n: int): (r: nat)
    ensures n >= 0 ==> r == n
    ensures n < 0 ==> r == 0
  {
    if n < 0 then 0 else n
  }

  // ---------------------------------------------------------------------
  // POST /numbers

  /** A lease that counts as the user's active number: assigned to them and not past its expiry. */
  predicate ActiveFor(l: Lease, user: nat, now: nat) {
    l.userId == Some(user) && l.status == AssignedStatus && !IsExpired(l, now)
  }

  /** No user holds two active leases at `now`. */
  predicate AtMostOneActive(table: seq<Lease>, now: nat) {
    forall i, j :: 0 <= i < j < |table| && table[i].userId.Some? && ActiveFor(table[i], table[i].userId.value, now)
      ==> !ActiveFor(table[j], table[i].userId.value, now)
  }

  /** `not data.get('phone_number_id')`: the id is absent or zero. */
  predicate MissingId(phoneNumberId: Option<int>) {
    phoneNumberId.None? || phoneNumberId.value == 0
  }

  /** A requested duration (default one hour) between 1 and 24 hours. */
  predicate HoursInRange(hours: Option<int>) {
    1 <= hours.GetOr(1) <= 24
  }

  /** The row `query.get` finds for a requested id; no row has a negative or zero id. */
  function RowOf(table: seq<Lease>, phoneNumberId: Option<int>): (r: Option<nat>)
    ensures r.Some? <==> (phoneNumberId.Some? && phoneNumberId.value > 0 && exists i :: 0 <= i < |table| && table[i].id == phoneNumberId.value)
    ensures r.Some? ==> r.value < |table| && table[r.value].id == phoneNumberId.value
    ensures r.Some? ==> forall i :: 0 <= i < r.value ==> table[i].id != phoneNumberId.value
  {
    if phoneNumberId.None? || phoneNumberId.value <= 0 then None else Get(table, phoneNumberId.value)
  }

  /** The checks `assign_number` makes before it looks for an existing assignment, in its order. */
  function AssignPrecheck(table: seq<Lease>, phoneNumberId: Option<int>, durationHours: Option<int>): (r: Reply<(nat, nat)>)
    ensures r == Fail(400, "MISSING_FIELD") <==> MissingId(phoneNumberId)
    ensures r == Fail(400, "INVALID_DURATION") <==> !MissingId(phoneNumberId) && !HoursInRange(durationHours)
    ensures r == Fail(404, "NUMBER_NOT_FOUND") <==> (!MissingId(phoneNumberId) && HoursInRange(durationHours)
      && RowOf(table, phoneNumberId).None?)
    ensures r == Fail(409, "NUMBER_NOT_AVAILABLE") <==> (!MissingId(phoneNumberId) && HoursInRange(durationHours)
      && RowOf(table, phoneNumberId).Some? && table[RowOf(table, phoneNumberId).value].status != AvailableStatus)
    ensures r.Ok? <==> (!MissingId(phoneNumberId) && HoursInRange(durationHours)
      && RowOf(table, phoneNumberId).Some? && table[RowOf(table, phoneNumberId).value].status == AvailableStatus)
    ensures r.Ok? ==> r == Ok(201, (RowOf(table, phoneNumberId).value, durationHours.GetOr(1)))
  {
    if phoneNumberId.None? || phoneNumberId.value == 0 then Fail(400, "MISSING_FIELD")
    else
      var hours := durationHours.GetOr(1);
      if hours < 1 || hours > 24 then Fail(400, "INVALID_DURATION")
      else if phoneNumberId.value < 0 then Fail(404, "NUMBER_NOT_FOUND")
      else match Get(table, phoneNumberId.value)
        case None => Fail(404, "NUMBER_NOT_FOUND")
        case Some(i) =>
          if table[i].status != AvailableStatus then Fail(409, "NUMBER_NOT_AVAILABLE")
          else Ok(201, (i, hours as nat))
  }

  /**
    `assign_number` as written: only the FIRST assigned lease of the user is
    looked at, and an expired one lets the request through.
   */
  function AssignNumberAsWritten(table: seq<Lease>, user: nat, phoneNumberId: Option<int>, durationHours: Option<int>,
                                 now: nat): (r: Reply<seq<Lease>>)
    ensures r.Ok? ==> r.status == 201 && |r.value| == |table|
  {
    match AssignPrecheck(table, phoneNumberId, durationHours)
    case Fail(s, c) => Fail(s, c)
    case Ok(_, (i, hours)) =>
      var existing := FirstIndex(table, (l: Lease) => l.userId == Some(user) && l.status == AssignedStatus);
      if existing.Some? && !IsExpired(table[existing.value], now) then Fail(409, "ALREADY_ASSIGNED")
      else Ok(201, table[i := AssignToUser(table[i], user, hours, now)])
  }

  /**
    `assign_number` with the check its message describes: any active lease
    of the user refuses the request.
   */
  function AssignNumber(table: seq<Lease>, user: nat, phoneNumberId: Option<int>, durationHours: Option<int>,
                        now: nat): (r: Reply<seq<Lease>>)
    ensures r.Ok? <==> (AssignPrecheck(table, phoneNumberId, durationHours).Ok?
      && forall k :: 0 <= k < |table| ==> !ActiveFor(table[k], user, now))
    ensures r.Ok? ==> (
      var (i, hours) := AssignPrecheck(table, phoneNumberId, durationHours).value;
      && r.status == 201
      && r.value == table[i := AssignToUser(table[i], user, hours, now)])
    ensures r.Fail? && AssignPrecheck(table, phoneNumberId, durationHours).Ok? ==> r == Fail(409, "ALREADY_ASSIGNED")
  {
    match AssignPrecheck(table, phoneNumberId, durationHours)
    case Fail(s, c) => Fail(s, c)
    case Ok(_, (i, hours)) =>
      if exists k :: 0 <= k < |table| && ActiveFor(table[k], user, now) then Fail(409, "ALREADY_ASSIGNED")
      else Ok(201, table[i := AssignToUser(table[i], user, hours, now)])
  }

  /** The corrected assignment keeps every user at one active lease at most. */
  lemma AssignKeepsOneActive(table: seq<Lease>, user: nat, phoneNumberId: Option<int>, durationHours: Option<int>, now: nat)
    requires AtMostOneActive(table, now)
    ensures var r := AssignNumber(table, user, phoneNumberId, durationHours, now);
      r.Ok? ==> AtMostOneActive(r.value, now)
  {
    var r := AssignNumber(table, user, phoneNumberId, durationHours, now);
    if r.Ok? {
      var (i, hours) := AssignPrecheck(table, phoneNumberId, durationHours).value;
      var t := r.value;
      forall a, b | 0 <= a < b < |t| && t[a].userId.Some? && ActiveFor(t[a], t[a].userId.value, now)
        ensures !ActiveFor(t[b], t[a].userId.value, now)
      {
        var u := t[a].userId.value;
        if a != i && b != i {
          assert t[a] == table[a] && t[b] == table[b];
        } else if a == i {
          assert u == user;
          assert t[b] == table[b];
        } else {
          assert t[a] == table[a];
        }
      }
    }
  }

  /** Leases only run out as time passes: one active lease per user at a later instant too. */
  lemma OneActiveLater(table: seq<Lease>, now: nat, later: nat)
    requires now <= later && AtMostOneActive(table, now)
    ensures AtMostOneActive(table, later)
  {
    forall i, j | 0 <= i < j < |table| && table[i].userId.Some? && ActiveFor(table[i], table[i].userId.value, later)
      ensures !ActiveFor(table[j], table[i].userId.value, later)
    {
      assert ActiveFor(table[i], table[i].userId.value, now);
    }
  }

  /**
    The table the as-written check lets through: user 7's first assigned
    lease (row 1) has expired, their second (row 2) is still active, and row
    3 is free. Every user has at most one active lease.
   */
  function TwoLeaseTable(): (t: seq<Lease>)
    ensures |t| == 3 && AtMostOneActive(t, 10)
  {
    var l1 := Lease(1, "+15550000001", "US", None, Some(7), AssignedStatus, Some(0), Some(5), 0);
    var l2 := Lease(2, "+15550000002", "US", None, Some(7), AssignedStatus, Some(6), Some(100), 0);
    var l3 := Lease(3, "+15550000003", "US", None, None, AvailableStatus, None, None, 0);
    var t := [l1, l2, l3];
    assert !ActiveFor(l1, 7, 10) && !ActiveFor(l3, 7, 10);
    t
  }

  /**
    As written, user 7 gets row 3 although row 2 is still theirs and active:
    the result holds two active leases for one user. The corrected handler
    refuses with `ALREADY_ASSIGNED`.
   */
  lemma AsWrittenAllowsSecondActiveLease()
    ensures var r := AssignNumberAsWritten(TwoLeaseTable(), 7, Some(3), Some(1), 10);
      r.Ok? && !AtMostOneActive(r.value, 10)
    ensures AssignNumber(TwoLeaseTable(), 7, Some(3), Some(1), 10) == Fail(409, "ALREADY_ASSIGNED")
  {
    var t := TwoLeaseTable();
    assert Get(t, 3) == Some(2);
    assert FirstIndex(t, (l: Lease) => l.userId == Some(7) && l.status == AssignedStatus) == Some(0);
    var r := AssignNumberAsWritten(t, 7, Some(3), Some(1), 10);
    assert ActiveFor(r.value[1], 7, 10) && ActiveFor(r.value[2], 7, 10);
    assert ActiveFor(t[1], 7, 10);
  }

  // ---------------------------------------------------------------------
  // GET /numbers/<id> and DELETE /numbers/<id>

  /** `get_number`: a number is visible to its holder, and to anyone while it is available. */
  function GetNumber(table: seq<Lease>, user: nat, id: nat): (r: Reply<Lease>)
    ensures r == Fail(404, "NUMBER_NOT_FOUND") <==> Get(table, id).None?
    ensures r == Fail(403, "ACCESS_DENIED") <==> (Get(table, id).Some?
      && table[Get(table, id).value].userId != Some(user) && table[Get(table, id).value].status != AvailableStatus)
    ensures r.Ok? <==> (Get(table, id).Some?
      && (table[Get(table, id).value].userId == Some(user) || table[Get(table, id).value].status == AvailableStatus))
    ensures r.Ok? ==> r == Ok(200, table[Get(table, id).value]) && r.value.id == id
  {
    match Get(table, id)
    case None => Fail(404, "NUMBER_NOT_FOUND")
    case Some(i) =>
      if table[i].userId != Some(user) && table[i].status != AvailableStatus then Fail(403, "ACCESS_DENIED")
      else Ok(200, table[i])
  }

  /** `release_number`: only the holder may release, whatever the status. */
  function ReleaseNumber(table: seq<Lease>, user: nat, id: nat): (r: Reply<seq<Lease>>)
    ensures r == Fail(404, "NUMBER_NOT_FOUND") <==> Get(table, id).None?
    ensures r == Fail(403, "NOT_AUTHORIZED") <==> (Get(table, id).Some? && table[Get(table, id).value].userId != Some(user))
    ensures r.Ok? <==> (Get(table, id).Some? && table[Get(table, id).value].userId == Some(user))
    ensures r.Ok? ==> r == Ok(200, table[Get(table, id).value := Release(table[Get(table, id).value])])
  {
    match Get(table, id)
    case None => Fail(404, "NUMBER_NOT_FOUND")
    case Some(i) =>
      if table[i].userId != Some(user) then Fail(403, "NOT_AUTHORIZED")
      else Ok(200, table[i := Release(table[i])])
  }

  /** After a release the number is free and no longer the caller's. */
  lemma ReleaseFreesNumber(table: seq<Lease>, user: nat, id: nat)
    requires ReleaseNumber(table, user, id).Ok?
    ensures var i := Get(table, id).value;
      var t := ReleaseNumber(table, user, id).value;
      IsReleased(t[i]) && t[i].id == id
      && forall k :: 0 <= k < |table| && k != i ==> t[k] == table[k]
  {
  }

  // ---------------------------------------------------------------------
  // GET /numbers/my

  predicate LapsedFor(l: Lease, user: nat, now: nat) {
    l.userId == Some(user) && IsExpired(l, now) && l.status == AssignedStatus
  }

  /** A lease the caller still holds after the sweep: theirs and not lapsed. */
  predicate StillHeld(l: Lease, user: nat, now: nat) {
    l.userId == Some(user) && !LapsedFor(l, user, now)
  }

  /** The sweep of `get_my_numbers` applied to one row. */
  function Swept(l: Lease, user: nat, now: nat): Lease {
    if LapsedFor(l, user, now) then Release(l) else l
  }

  /**
    `get_my_numbers`: first releases every lapsed assignment of the caller,
    then lists what the caller still holds.
   */
  function GetMyNumbers(table: seq<Lease>, user: nat, now: nat): (r: (seq<Lease>, seq<Lease>))
    ensures |r.0| == |table|
    ensures forall i :: 0 <= i < |table| ==>
      r.0[i] == (if LapsedFor(table[i], user, now) then Release(table[i]) else table[i])
    ensures r.1 == Filter(table, (l: Lease) => StillHeld(l, user, now))
  {
    var swept := Map(table, (l: Lease) => Swept(l, user, now));
    SweepThenSelect(table, user, now);
    (swept, Filter(swept, (l: Lease) => l.userId == Some(user)))
  }

  /** Selecting the caller's rows after the sweep is selecting the rows they still hold before it. */
  lemma {:induction false} SweepThenSelect(table: seq<Lease>, user: nat, now: nat)
    ensures Filter(Map(table, (l: Lease) => Swept(l, user, now)), (l: Lease) => l.userId == Some(user))
         == Filter(table, (l: Lease) => StillHeld(l, user, now))
    decreases |table|
  {
    var f := (l: Lease) => Swept(l, user, now);
    if |table| > 0 {
      assert Map(table, f)[1..] == Map(table[1..], f);
      SweepThenSelect(table[1..], user, now);
    }
  }

  /** The sweep touches only the caller's rows: other users' leases are as they were. */
  lemma GetMyNumbersLeavesOthers(table: seq<Lease>, user: nat, now: nat, i: nat)
    requires i < |table| && table[i].userId != Some(user)
    ensures GetMyNumbers(table, user, now).0[i] == table[i]
  {
  }

  // ---------------------------------------------------------------------
  // POST /numbers/<id>/extend

  /** The checks of `extend_number`, in order; on success, the row to extend and the hours. */
  function ExtendPrecheck(table: seq<Lease>, user: nat, id: nat, additionalHours: Option<int>): (r: Reply<(nat, nat)>)
    ensures r == Fail(400, "INVALID_DURATION") <==> !HoursInRange(additionalHours)
    ensures r == Fail(404, "NUMBER_NOT_FOUND") <==> HoursInRange(additionalHours) && Get(table, id).None?
    ensures r == Fail(403, "NOT_AUTHORIZED") <==> (HoursInRange(additionalHours) && Get(table, id).Some?
      && table[Get(table, id).value].userId != Some(user))
    ensures r == Fail(409, "NOT_ASSIGNED") <==> (HoursInRange(additionalHours) && Get(table, id).Some?
      && table[Get(table, id).value].userId == Some(user) && table[Get(table, id).value].status != AssignedStatus)
    ensures r.Ok? <==> (HoursInRange(additionalHours) && Get(table, id).Some?
      && table[Get(table, id).value].userId == Some(user) && table[Get(table, id).value].status == AssignedStatus)
    ensures r.Ok? ==> r == Ok(200, (Get(table, id).value, additionalHours.GetOr(1)))
  {
    var hours := additionalHours.GetOr(1);
    if hours < 1 || hours > 24 then Fail(400, "INVALID_DURATION")
    else match Get(table, id)
      case None => Fail(404, "NUMBER_NOT_FOUND")
      case Some(i) =>
        if table[i].userId != Some(user) then Fail(403, "NOT_AUTHORIZED")
        else if table[i].status != AssignedStatus then Fail(409, "NOT_ASSIGNED")
        else Ok(200, (i, hours as nat))
  }

  /**
    `extend_number` as written: every branch that computes the new expiry
    calls `timedelta`, which the module never imports, so once the checks
    pass the handler fails with `EXTEND_ERROR` and nothing is saved.
   */
  function ExtendNumberAsWritten(table: seq<Lease>, user: nat, id: nat, additionalHours: Option<int>): (r: Reply<seq<Lease>>)
    ensures r.Fail?
  {
    match ExtendPrecheck(table, user, id, additionalHours)
    case Fail(s, c) => Fail(s, c)
    case Ok(_, _) => Fail(500, "EXTEND_ERROR")
  }

  /** As written, no request ever extends a lease. */
  lemma ExtendAsWrittenNeverSucceeds(table: seq<Lease>, user: nat, id: nat, additionalHours: Option<int>)
    requires ExtendPrecheck(table, user, id, additionalHours).Ok?
    ensures ExtendNumberAsWritten(table, user, id, additionalHours) == Fail(500, "EXTEND_ERROR")
  {
  }

  /** The new expiry the handler means to compute: from the old expiry while it lasts, else from `now`. */
  function ExtendedExpiry(l: Lease, hours: nat, now: nat): (e: nat)
    ensures l.expiresAt.Some? && l.expiresAt.value >= now ==> e == l.expiresAt.value + hours * HourMs
    ensures l.expiresAt.None? || l.expiresAt.value < now ==> e == now + hours * HourMs
  {
    match l.expiresAt
    case Some(t) => if !IsExpired(l, now) then t + hours * HourMs else now + hours * HourMs
    case None => now + hours * HourMs
  }

  /** `extend_number` with `timedelta` in scope. */
  function ExtendNumber(table: seq<Lease>, user: nat, id: nat, additionalHours: Option<int>, now: nat): (r: Reply<seq<Lease>>)
    ensures r.Ok? <==> ExtendPrecheck(table, user, id, additionalHours).Ok?
    ensures r.Ok? ==> (
      var (i, hours) := ExtendPrecheck(table, user, id, additionalHours).value;
      r.value == table[i := table[i].(expiresAt := Some(ExtendedExpiry(table[i], hours, now)))])
  {
    match ExtendPrecheck(table, user, id, additionalHours)
    case Fail(s, c) => Fail(s, c)
    case Ok(_, (i, hours)) => Ok(200, table[i := table[i].(expiresAt := Some(ExtendedExpiry(table[i], hours, now)))])
  }

  /**
    The intended rule: the new expiry is `max(expiry, now) + h`, never
    earlier than the old one, and the lease stays current for at least the
    added hours.
   */
  lemma ExtendedLeaseIsCurrent(table: seq<Lease>, user: nat, id: nat, additionalHours: Option<int>, now: nat, t: nat)
    requires ExtendNumber(table, user, id, additionalHours, now).Ok?
    ensures var (i, hours) := ExtendPrecheck(table, user, id, additionalHours).value;
      var l' := ExtendNumber(table, user, id, additionalHours, now).value[i];
      && l'.expiresAt.value >= now + hours * HourMs
      && (table[i].expiresAt.Some? ==> l'.expiresAt.value >= table[i].expiresAt.value + hours * HourMs
                                       || l'.expiresAt.value == now + hours * HourMs)
      && (t <= now + hours * HourMs ==> !IsExpired(l', t))
  {
  }
}
