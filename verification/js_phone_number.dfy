/**
  The Node back end's `PhoneNumber` document: one rentable number and its
  current lease (holder, assignment time, expiry), with the document's own
  methods and the queries defined on the collection.

  Times are milliseconds since the epoch; a duration of `h` hours is
  `h * 3600000` milliseconds. A collection is a sequence of documents in
  insertion order with distinct ids.
 */
module JsPhoneNumber {
  import opened Wrappers
  import opened Text
  import opened Collections
  import opened Time
  import Paging


  datatype Status = Available | Assigned | Expired | Released | Suspended

  datatype Lease = Lease(
    id: nat,
    phoneNumber: string,
    countryCode: string,
    provider: string,
    status: Status,
    user: Option<nat>,
    assignedAt: Option<nat>,
    expiresAt: Option<nat>,
    releasedAt: Option<nat>,
    createdAt: nat,
    messages: seq<nat>)

  predicate UniqueIds(store: seq<Lease>) {
    forall i, j :: 0 <= i < j < |store| ==> store[i].id != store[j].id
  }

  /**
    The invariant the pre-save hook establishes on every saved document: an
    assigned number has a holder, and an available one carries no lease fields.
   */
  predicate Consistent(l: Lease) {
    && (l.status == Assigned ==> l.user.Some?)
    && (l.status == Available ==> l.user.None? && l.assignedAt.None? && l.expiresAt.None?)
  }

  // ---------------------------------------------------------------------
  // Schema validation

  /** `^\+[1-9]\d{1,14}$`: a '+', a non-zero digit, then 1 to 14 more digits. */
  predicate IsE164(s: string) {
    && 3 <= |s| <= 16
    && s[0] == '+'
    && '1' <= s[1] <= '9'
    && forall i :: 2 <= i < |s| ==> IsDigit(s[i])
  }

  predicate IsProvider(p: string) {
    p in {"twilio", "nexmo", "vonage", "other"}
  }

  /** Why the schema refuses a new document, in schema order (empty when it is accepted). */
  function SchemaErrors(phoneNumber: Option<string>, countryCode: Option<string>, provider: string): (errors: seq<string>)
    ensures errors == [] <==>
      && phoneNumber.Some? && JsTrim(phoneNumber.value) != [] && IsE164(JsTrim(phoneNumber.value))
      && countryCode.Some? && 2 <= |countryCode.value| <= 3
      && IsProvider(provider)
    ensures forall i :: 0 <= i < |errors| ==> errors[i] in {"phoneNumber", "countryCode", "provider"}
  {
    var numberOk := phoneNumber.Some? && JsTrim(phoneNumber.value) != [] && IsE164(JsTrim(phoneNumber.value));
    var countryOk := countryCode.Some? && 2 <= |countryCode.value| <= 3;
    (if numberOk then [] else ["phoneNumber"])
    + (if countryOk then [] else ["countryCode"])
    + (if IsProvider(provider) then [] else ["provider"])
  }

  // ---------------------------------------------------------------------
  // Document methods

  /** "+1 (AAA) BBB-CCCC", where AAA, BBB and CCCC are the eleven digits `d` after the first. */
  predicate NorthAmericanLayout(r: string, d: string) {
    && |d| == 11 && |r| == 17
    && r[..4] == "+1 (" && r[4..7] == d[1..4] && r[7..9] == ") "
    && r[9..12] == d[4..7] && r[12] == '-' && r[13..] == d[7..]
  }

  /** "+44 AAAA BBB CCC…", where the groups are the digits `d` after the first two. */
  predicate BritishLayout(r: string, d: string) {
    && |d| >= 10 && |r| == |d| + 4
    && r[..4] == "+44 " && r[4..8] == d[2..6] && r[8] == ' '
    && r[9..12] == d[6..9] && r[12] == ' ' && r[13..] == d[9..]
  }

  /** The `formattedNumber` virtual: North American and British layouts, otherwise unchanged. */
  function FormattedNumber(number: string): (r: string)
    ensures KeepDigits(r) == KeepDigits(number)
    ensures !StartsWith(number, "+1") && !StartsWith(number, "+44") ==> r == number
    ensures StartsWith(number, "+1") && |KeepDigits(number)| != 11 ==> r == number
    ensures StartsWith(number, "+44") && |KeepDigits(number)| < 10 ==> r == number
    ensures StartsWith(number, "+1") && |KeepDigits(number)| == 11 ==> NorthAmericanLayout(r, KeepDigits(number))
    ensures StartsWith(number, "+44") && |KeepDigits(number)| >= 10 ==> BritishLayout(r, KeepDigits(number))
    ensures StartsWith(number, "+1") && |KeepDigits(number)| == 11 ==> |r| == 17 && StartsWith(r, "+1 (")
    ensures StartsWith(number, "+44") && |KeepDigits(number)| >= 10 ==> |r| == |KeepDigits(number)| + 4 && StartsWith(r, "+44 ")
  {
    var cleaned := KeepDigits(number);
    if StartsWith(number, "+1") && |cleaned| == 11 then
      PrefixDigits(number, "+1");
      NorthAmerican(cleaned)
    else if !StartsWith(number, "+1") && StartsWith(number, "+44") && |cleaned| >= 10 then
      PrefixDigits(number, "+44");
      British(cleaned)
    else
      number
  }

  /** "+1 (AAA) BBB-CCCC" from the eleven digits after the country digit. */
  function NorthAmerican(cleaned: string): (r: string)
    requires |cleaned| == 11 && AllDigits(cleaned) && cleaned[0] == '1'
    ensures KeepDigits(r) == cleaned
    ensures |r| == 17 && StartsWith(r, "+1 (")
    ensures NorthAmericanLayout(r, cleaned)
  {
    NorthAmericanShape(cleaned);
    "+1 (" + cleaned[1..4] + ") " + cleaned[4..7] + "-" + cleaned[7..]
  }

  lemma NorthAmericanShape(cleaned: string)
    requires |cleaned| == 11 && AllDigits(cleaned) && cleaned[0] == '1'
    ensures var r := "+1 (" + cleaned[1..4] + ") " + cleaned[4..7] + "-" + cleaned[7..];
      KeepDigits(r) == cleaned && |r| == 17 && StartsWith(r, "+1 (") && NorthAmericanLayout(r, cleaned)
  {
    var r := "+1 (" + cleaned[1..4] + ") " + cleaned[4..7] + "-" + cleaned[7..];
    KeepDigitsLayout("+1 (", cleaned[1..4], ") ", cleaned[4..7], "-", cleaned[7..]);
    assert cleaned == [cleaned[0]] + cleaned[1..4] + cleaned[4..7] + cleaned[7..];
    assert |r| == 17;
    assert r[..4] == "+1 (";
    assert r[4..7] == cleaned[1..4];
    assert r[7..9] == ") ";
    assert r[9..12] == cleaned[4..7];
    assert r[13..] == cleaned[7..];
  }

  /** "+44 AAAA BBB CCC…" from the digits after the two country digits. */
  function British(cleaned: string): (r: string)
    requires |cleaned| >= 10 && AllDigits(cleaned) && cleaned[..2] == "44"
    ensures KeepDigits(r) == cleaned
    ensures |r| == |cleaned| + 4 && StartsWith(r, "+44 ")
    ensures BritishLayout(r, cleaned)
  {
    KeepDigitsLayout("+44 ", cleaned[2..6], " ", cleaned[6..9], " ", cleaned[9..]);
    assert cleaned == cleaned[..2] + cleaned[2..6] + cleaned[6..9] + cleaned[9..];
    "+44 " + cleaned[2..6] + " " + cleaned[6..9] + " " + cleaned[9..]
  }

  /** The digits of a string begin with the digits of any prefix of it. */
  lemma PrefixDigits(s: string, prefix: string)
    requires StartsWith(s, prefix)
    ensures KeepDigits(s) == KeepDigits(prefix) + KeepDigits(s[|prefix|..])
  {
    assert s == prefix + s[|prefix|..];
    KeepDigitsAppend(prefix, s[|prefix|..]);
  }

  /** The digits of a layout "p0 a p1 b p2 c" with digit groups a, b, c. */
  lemma KeepDigitsLayout(p0: string, a: string, p1: string, b: string, p2: string, c: string)
    requires AllDigits(a) && AllDigits(b) && AllDigits(c)
    ensures KeepDigits(p0 + a + p1 + b + p2 + c)
      == KeepDigits(p0) + a + KeepDigits(p1) + b + KeepDigits(p2) + c
  {
    KeepDigitsAppend(p0 + a + p1 + b + p2, c);
    KeepDigitsAppend(p0 + a + p1 + b, p2);
    KeepDigitsAppend(p0 + a + p1, b);
    KeepDigitsAppend(p0 + a, p1);
    KeepDigitsAppend(p0, a);
    KeepDigitsOfDigits(a);
    KeepDigitsOfDigits(b);
    KeepDigitsOfDigits(c);
  }

  /** `assignToUser`: the number goes to `user` for `hours` hours counted from `now`. */
  function AssignToUser(l: Lease, user: nat, hours: nat, now: nat): (r: Lease)
    ensures Consistent(r)
    ensures r.status == Assigned && r.user == Some(user)
    ensures r.assignedAt == Some(now) && r.expiresAt == Some(now + hours * HourMs)
    ensures r.(status := l.status, user := l.user, assignedAt := l.assignedAt, expiresAt := l.expiresAt) == l
  {
    l.(user := Some(user), status := Assigned, assignedAt := Some(now), expiresAt := Some(now + hours * HourMs))
  }

  /** `isExpired`: the lease has an expiry and `now` is strictly past it. */
  predicate IsExpired(l: Lease, now: nat) {
    l.expiresAt.Some? && now > l.expiresAt.value
  }

  /** A fresh assignment stays current for exactly its duration. */
  lemma AssignedLeaseLasts(l: Lease, user: nat, hours: nat, now: nat, t: nat)
    ensures !IsExpired(AssignToUser(l, user, hours, now), t) <==> t <= now + hours * HourMs
  {
  }

  /**
    `extendAssignment`: pushes the expiry `hours` later, counted from the old
    expiry (or from `now` when there is none). `None` is the error thrown for
    a number that is not assigned.
   */
  function ExtendAssignment(l: Lease, hours: nat, now: nat): (r: Option<Lease>)
    ensures r.Some? <==> l.status == Assigned
    ensures r.Some? ==> r.value == l.(expiresAt := r.value.expiresAt)
    ensures r.Some? && l.expiresAt.Some? ==> r.value.expiresAt == Some(l.expiresAt.value + hours * HourMs)
    ensures r.Some? && l.expiresAt.None? ==> r.value.expiresAt == Some(now + hours * HourMs)
  {
    if l.status != Assigned then None
    else
      var base := l.expiresAt.GetOr(now);
      Some(l.(expiresAt := Some(base + hours * HourMs)))
  }

  /**
    Extending counts from the old expiry even when it has passed, so an
    extension shorter than the time already overdue leaves the lease expired.
   */
  lemma ExtendCanLeaveExpired(l: Lease, hours: nat, now: nat)
    requires l.status == Assigned && l.expiresAt.Some?
    requires l.expiresAt.value + hours * HourMs < now
    ensures ExtendAssignment(l, hours, now).Some?
    ensures IsExpired(ExtendAssignment(l, hours, now).value, now)
  {
  }

  /** `release`: the number returns to the pool and the lease fields are cleared. */
  function Release(l: Lease, now: nat): (r: Lease)
    ensures Consistent(r) && r.status == Available
    ensures r.releasedAt == Some(now)
    ensures r.id == l.id && r.phoneNumber == l.phoneNumber && r.messages == l.messages
    ensures r.countryCode == l.countryCode && r.provider == l.provider && r.createdAt == l.createdAt
    ensures r.user.None? && r.assignedAt.None? && r.expiresAt.None?
    ensures !IsExpired(r, now)
  {
    l.(user := None, status := Available, releasedAt := Some(now), assignedAt := None, expiresAt := None)
  }

  /** Releasing twice is releasing once, apart from the release time. */
  lemma ReleaseTwice(l: Lease, t1: nat, t2: nat)
    ensures Release(Release(l, t1), t2) == Release(l, t2)
  {
  }

  /**
    The pre-save hook: refuses an assigned number without a holder (`None`)
    and clears the lease fields of an available one.
   */
  function PreSave(l: Lease): (r: Option<Lease>)
    ensures r.Some? <==> !(l.status == Assigned && l.user.None?)
    ensures r.Some? ==> Consistent(r.value) && r.value.status == l.status
    ensures Consistent(l) ==> r == Some(l)
  {
    if l.status == Assigned && l.user.None? then None
    else if l.status == Available then Some(l.(user := None, assignedAt := None, expiresAt := None))
    else Some(l)
  }

  /** Running the hook on what it saved changes nothing. */
  lemma PreSaveIdempotent(l: Lease)
    requires PreSave(l).Some?
    ensures PreSave(PreSave(l).value) == PreSave(l)
  {
  }

  // ---------------------------------------------------------------------
  // Collection queries

  /** The query of `findAvailable`: free, and of the upper-cased country when a non-empty code is given. */
  predicate FreeIn(l: Lease, countryCode: Option<string>) {
    l.status == Available && (countryCode.Some? && countryCode.value != [] ==> l.countryCode == Upper(countryCode.value))
  }

  /** `findAvailable`: available numbers, of one country when a code is given, at most `limit` (0: no limit). */
  function FindAvailable(store: seq<Lease>, countryCode: Option<string>, limit: nat): (r: seq<Lease>)
    ensures Paging.WindowOf(r, Filter(store, (l: Lease) => FreeIn(l, countryCode)), 0, if limit == 0 then |store| else limit)
    ensures forall i :: 0 <= i < |r| ==> r[i] in store && r[i].status == Available
    ensures countryCode.Some? && countryCode.value != [] ==>
      forall i :: 0 <= i < |r| ==> r[i].countryCode == Upper(countryCode.value)
    ensures limit > 0 ==> |r| <= limit
  {
    var matching := Filter(store, (l: Lease) => FreeIn(l, countryCode));
    if limit == 0 || |matching| <= limit then matching else matching[..limit]
  }

  /** The query of `findByUser`: held by `user`, and of the status when one is given. */
  predicate HeldWith(l: Lease, user: nat, status: Option<Status>) {
    l.user == Some(user) && (status.Some? ==> l.status == status.value)
  }

  /** `findByUser`: the numbers `user` holds, of one status when a status is given, in store order. */
  function FindByUser(store: seq<Lease>, user: nat, status: Option<Status>): (r: seq<Lease>)
    ensures r == Filter(store, (l: Lease) => HeldWith(l, user, status))
    ensures forall i :: 0 <= i < |r| ==> r[i] in store && r[i].user == Some(user)
    ensures forall i :: 0 <= i < |store| && store[i].user == Some(user) && (status.Some? ==> store[i].status == status.value) ==> store[i] in r
    ensures status.Some? ==> forall i :: 0 <= i < |r| ==> r[i].status == status.value
  {
    Filter(store, (l: Lease) => HeldWith(l, user, status))
  }

  /** The condition of `findExpired`: still assigned, with an expiry strictly before `now`. */
  predicate OverdueAt(l: Lease, now: nat) {
    l.status == Assigned && l.expiresAt.Some? && l.expiresAt.value < now
  }

  /** `findExpired`: assigned numbers whose lease has run out, in store order. */
  function FindExpired(store: seq<Lease>, now: nat): (r: seq<Lease>)
    ensures r == Filter(store, (l: Lease) => OverdueAt(l, now))
    ensures forall i :: 0 <= i < |r| ==> r[i] in store && r[i].status == Assigned && IsExpired(r[i], now)
    ensures forall i :: 0 <= i < |store| && store[i].status == Assigned && IsExpired(store[i], now) ==> store[i] in r
  {
    Filter(store, (l: Lease) => OverdueAt(l, now))
  }

  /** One step of `cleanupExpired`: an overdue number is released, any other is left alone. */
  function CleanupOne(l: Lease, now: nat): (r: Lease)
    ensures !OverdueAt(r, now)
    ensures r.id == l.id
  {
    if OverdueAt(l, now) then Release(l, now) else l
  }

  /** `cleanupExpired`: releases every overdue number and reports how many there were. */
  function CleanupExpired(store: seq<Lease>, now: nat): (r: (seq<Lease>, nat))
    ensures |r.0| == |store|
    ensures r.1 == |FindExpired(store, now)|
    ensures forall i :: 0 <= i < |store| ==>
      r.0[i] == (if OverdueAt(store[i], now) then Release(store[i], now) else store[i])
    ensures FindExpired(r.0, now) == []
  {
    var updated := Map(store, (l: Lease) => CleanupOne(l, now));
    FilterNone(updated, (l: Lease) => OverdueAt(l, now));
    (updated, |FindExpired(store, now)|)
  }

  /** A second cleanup at the same instant finds nothing to do. */
  lemma CleanupExpiredTwice(store: seq<Lease>, now: nat)
    ensures CleanupExpired(CleanupExpired(store, now).0, now) == (CleanupExpired(store, now).0, 0)
  {
    var once := CleanupExpired(store, now).0;
    var twice := CleanupExpired(once, now).0;
    assert twice == once;
  }

  /** Cleanup keeps the store's ids and the consistency of every number. */
  lemma CleanupKeepsConsistency(store: seq<Lease>, now: nat)
    requires forall i :: 0 <= i < |store| ==> Consistent(store[i])
    ensures forall i :: 0 <= i < |store| ==> Consistent(CleanupExpired(store, now).0[i])
    ensures UniqueIds(store) ==> UniqueIds(CleanupExpired(store, now).0)
  {
  }
}
