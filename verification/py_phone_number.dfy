/**
  The Flask back end's `PhoneNumber` row: a rentable number with its
  current holder and lease times, the row's own methods and the class-level
  queries.

  The status column is free text in that back end; the two values its code
  writes are `"available"` and `"assigned"`. Times are milliseconds since the
  epoch. A table is a sequence of rows in primary-key order.
 */
module PyPhoneNumber {
  import opened Wrappers
  import opened Collections
  import opened Time
  import Paging

  const AvailableStatus: string := "available"
  const AssignedStatus: string := "assigned"

  datatype Lease = Lease(
    id: nat,
    phoneNumber: string,
    countryCode: string,
    providerId: Option<nat>,
    userId: Option<nat>,
    status: string,
    assignedAt: Option<nat>,
    expiresAt: Option<nat>,
    createdAt: nat)

  predicate UniqueIds(table: seq<Lease>) {
    forall i, j :: 0 <= i < j < |table| ==> table[i].id != table[j].id
  }

  /** `assign_to_user`: the number goes to `user` for `hours` hours from `now`. */
  function AssignToUser(l: Lease, user: nat, hours: nat, now: nat): (r: Lease)
    ensures r.userId == Some(user) && r.status == AssignedStatus
    ensures r.assignedAt == Some(now) && r.expiresAt == Some(now + hours * HourMs)
    ensures r.(userId := l.userId, status := l.status, assignedAt := l.assignedAt, expiresAt := l.expiresAt) == l
  {
    l.(userId := Some(user), status := AssignedStatus, assignedAt := Some(now), expiresAt := Some(now + hours * HourMs))
  }

  /** A row in the state `release` leaves behind. */
  predicate IsReleased(l: Lease) {
    l.userId.None? && l.status == AvailableStatus && l.assignedAt.None? && l.expiresAt.None?
  }

  /** `release`: back to the pool, lease fields cleared; no release time is recorded. */
  function Release(l: Lease): (r: Lease)
    ensures IsReleased(r)
    ensures r.id == l.id && r.phoneNumber == l.phoneNumber && r.countryCode == l.countryCode
    ensures r.providerId == l.providerId && r.createdAt == l.createdAt
  {
    l.(userId := None, status := AvailableStatus, assignedAt := None, expiresAt := None)
  }

  /** Releasing a released row changes nothing, so `release` is idempotent. */
  lemma ReleaseIdempotent(l: Lease)
    ensures IsReleased(l) ==> Release(l) == l
    ensures Release(Release(l)) == Release(l)
  {
  }

  /** `is_expired`: there is an expiry and `now` is strictly later. */
  predicate IsExpired(l: Lease, now: nat) {
    l.expiresAt.Some? && now > l.expiresAt.value
  }

  /** An assignment is current up to and including its expiry instant. */
  lemma AssignedLeaseLasts(l: Lease, user: nat, hours: nat, now: nat, t: nat)
    ensures !IsExpired(AssignToUser(l, user, hours, now), t) <==> t <= now + hours * HourMs
    ensures !IsExpired(Release(l), t)
  {
  }

  /** The filter of `get_available_numbers`: available, of one country when a non-empty code is given. */
  predicate AvailableIn(l: Lease, countryCode: Option<string>) {
    l.status == AvailableStatus && (countryCode.Some? && countryCode.value != [] ==> l.countryCode == countryCode.value)
  }

  /** `get_available_numbers`: one window of the available numbers, in table order. */
  function GetAvailableNumbers(table: seq<Lease>, countryCode: Option<string>, limit: nat, offset: nat): (r: seq<Lease>)
    ensures Paging.WindowOf(r, Filter(table, (l: Lease) => AvailableIn(l, countryCode)), offset, limit)
    ensures |r| <= limit
    ensures forall i :: 0 <= i < |r| ==> r[i] in table && AvailableIn(r[i], countryCode)
    ensures offset == 0 && Count(table, (l: Lease) => AvailableIn(l, countryCode)) <= limit ==>
      forall i :: 0 <= i < |table| && AvailableIn(table[i], countryCode) ==> table[i] in r
  {
    var matching := Filter(table, (l: Lease) => AvailableIn(l, countryCode));
    var r := Paging.Window(matching, offset, limit);
    assert offset == 0 && |matching| <= limit ==> r == matching;
    r
  }

  /** The condition of `cleanup_expired`: assigned, with an expiry strictly before `now`. */
  predicate OverdueAt(l: Lease, now: nat) {
    l.status == AssignedStatus && l.expiresAt.Some? && l.expiresAt.value < now
  }

  /** `cleanup_expired`: releases every overdue row and reports how many there were. */
  function CleanupExpired(table: seq<Lease>, now: nat): (r: (seq<Lease>, nat))
    ensures |r.0| == |table|
    ensures r.1 == Count(table, (l: Lease) => OverdueAt(l, now))
    ensures forall i :: 0 <= i < |table| ==>
      r.0[i] == (if OverdueAt(table[i], now) then Release(table[i]) else table[i])
    ensures Count(r.0, (l: Lease) => OverdueAt(l, now)) == 0
  {
    var updated := Map(table, (l: Lease) => if OverdueAt(l, now) then Release(l) else l);
    FilterNone(updated, (l: Lease) => OverdueAt(l, now));
    (updated, Count(table, (l: Lease) => OverdueAt(l, now)))
  }

  /** An overdue row is one that `is_expired` reports and that is still assigned. */
  lemma OverdueIsExpired(l: Lease, now: nat)
    ensures OverdueAt(l, now) <==> l.status == AssignedStatus && IsExpired(l, now)
  {
  }

  /** A second cleanup at the same instant releases nothing and reports zero. */
  lemma CleanupExpiredTwice(table: seq<Lease>, now: nat)
    ensures var once := CleanupExpired(table, now).0;
      CleanupExpired(once, now) == (once, 0)
  {
    var once := CleanupExpired(table, now).0;
    assert CleanupExpired(once, now).0 == once;
  }

  /** The row with primary key `id`: `query.get(id)`. */
  function Get(table: seq<Lease>, id: nat): (r: Option<nat>)
    ensures r.Some? ==> r.value < |table| && table[r.value].id == id
    ensures r.None? ==> forall i :: 0 <= i < |table| ==> table[i].id != id
    ensures r.Some? ==> forall i :: 0 <= i < r.value ==> table[i].id != id
  {
    FirstIndex(table, (l: Lease) => l.id == id)
  }
}
