/**
  The Node back end's user routes: profile and admin updates (with the
  e-mail conflict check), account deletion by its owner and by an admin
  (with the cascade that frees the user's numbers and removes their
  messages), and the admin listing.

  The user model itself is not part of this model: `findByEmail` is taken
  as an exact match on the stored address, the schema's e-mail check
  and password comparison are parameters, and so is the library's
  e-mail rule.
 */
module JsUsersRoute {
  import opened Wrappers
  import opened Text
  import opened Collections
  import opened Http
  import opened Joi
  import Paging
  import JsPhoneNumber
  import JsMessage
  import JsMessagesRoute

  datatype User = User(
    id: nat,
    email: string,
    firstName: string,
    lastName: string,
    role: string,
    isActive: bool,
    emailVerified: bool,
    createdAt: nat)

  /** The users, numbers and messages collections. */
  datatype Stores = Stores(users: seq<User>, leases: seq<JsPhoneNumber.Lease>, messages: seq<JsMessage.Message>)

  // ---------------------------------------------------------------------
  // Updates

  const MaxName: nat := 50
  const Roles: set<string> := {"user", "admin", "moderator"}

  /** The fields of an update request; `unknownKeys` marks a body with any other field. */
  datatype UpdateBody = UpdateBody(
    firstName: Option<string>, lastName: Option<string>, email: Option<string>,
    role: Option<string>, isActive: Option<bool>, emailVerified: Option<bool>, unknownKeys: bool)

  /** The validated values an update assigns; absent fields are left alone. */
  datatype Changes = Changes(
    firstName: Option<string>, lastName: Option<string>, email: Option<string>,
    role: Option<string>, isActive: Option<bool>, emailVerified: Option<bool>)

  /** `Joi.string().trim().max(50).optional()`: the trimmed name, `None` when refused. */
  function Name(o: Option<string>): (r: Option<Option<string>>)
    ensures o.None? ==> r == Some(None)
    ensures o.Some? ==> (r.Some? <==> JsTrim(o.value) != [] && |JsTrim(o.value)| <= MaxName)
    ensures o.Some? && r.Some? ==> r.value == Some(JsTrim(o.value))
  {
    match o
    case None => Some(None)
    case Some(v) => if JsTrim(v) != [] && |JsTrim(v)| <= MaxName then Some(Some(JsTrim(v))) else None
  }

  /**
    The update schema: the profile route knows names and e-mail, the admin
    route also role, active flag and verification flag. `isEmail` is the
    library's e-mail rule.
   */
  function ValidateUpdate(b: UpdateBody, admin: bool, isEmail: string -> bool): (r: Option<Changes>)
    ensures r.Some? <==>
      && !b.unknownKeys
      && Name(b.firstName).Some? && Name(b.lastName).Some?
      && (b.email.None? || (b.email.value != [] && isEmail(b.email.value)))
      && (admin || (b.role.None? && b.isActive.None? && b.emailVerified.None?))
      && OptionalOneOf(b.role, Roles)
    ensures r.Some? ==> r.value.firstName.Some? ==> |r.value.firstName.value| <= MaxName
    ensures r.Some? ==> r.value.lastName.Some? ==> |r.value.lastName.value| <= MaxName
    ensures r.Some? ==> r.value.role.Some? ==> r.value.role.value in Roles
    ensures r.Some? ==> r.value.email == b.email
    ensures r.Some? && !admin ==> r.value.role.None? && r.value.isActive.None? && r.value.emailVerified.None?
  {
    var first := Name(b.firstName);
    var last := Name(b.lastName);
    var emailOk := b.email.None? || (b.email.value != [] && isEmail(b.email.value));
    var adminOnly := b.role.None? && b.isActive.None? && b.emailVerified.None?;
    if b.unknownKeys || first.None? || last.None? || !emailOk || !(admin || adminOnly) || !OptionalOneOf(b.role, Roles) then None
    else Some(Changes(first.value, last.value, b.email, b.role, b.isActive, b.emailVerified))
  }

  /** `Object.assign(user, value)`: each given field replaces the stored one. */
  function Apply(u: User, c: Changes): (r: User)
    ensures r.id == u.id && r.createdAt == u.createdAt
    ensures r.firstName == c.firstName.GetOr(u.firstName) && r.lastName == c.lastName.GetOr(u.lastName)
    ensures r.email == c.email.GetOr(u.email) && r.role == c.role.GetOr(u.role)
    ensures r.isActive == c.isActive.GetOr(u.isActive) && r.emailVerified == c.emailVerified.GetOr(u.emailVerified)
  {
    User(u.id, c.email.GetOr(u.email), c.firstName.GetOr(u.firstName), c.lastName.GetOr(u.lastName),
         c.role.GetOr(u.role), c.isActive.GetOr(u.isActive), c.emailVerified.GetOr(u.emailVerified), u.createdAt)
  }

  /** An update with no fields leaves the user as it was. */
  lemma ApplyNothing(u: User)
    ensures Apply(u, Changes(None, None, None, None, None, None)) == u
  {
  }

  /** `findByEmail`: the first user with that address. */
  function FindByEmail(users: seq<User>, email: string): (r: Option<nat>)
    ensures r.Some? ==> r.value < |users| && users[r.value].email == email
    ensures r.None? <==> forall j :: 0 <= j < |users| ==> users[j].email != email
  {
    FirstIndex(users, (u: User) => u.email == email)
  }

  /** The conflict check: a new address (different from the user's own) that some user already holds. */
  predicate EmailConflict(users: seq<User>, i: nat, c: Changes)
    requires i < |users|
  {
    c.email.Some? && c.email.value != users[i].email && FindByEmail(users, c.email.value).Some?
  }

  /** A conflicting address always belongs to another user. */
  lemma ConflictIsAnotherUser(users: seq<User>, i: nat, c: Changes)
    requires i < |users| && EmailConflict(users, i, c)
    ensures exists j :: 0 <= j < |users| && j != i && users[j].email == c.email.value
  {
    var j := FindByEmail(users, c.email.value).value;
    assert j != i;
  }

  /** Saves validated changes for the user at `i`, unless the new address is taken. */
  function Update(users: seq<User>, i: nat, c: Changes): (r: Reply<seq<User>>)
    requires i < |users|
    ensures r.Fail? <==> EmailConflict(users, i, c)
    ensures r.Fail? ==> r == Fail(409, "EMAIL_EXISTS")
    ensures r.Ok? ==> r.value == users[i := Apply(users[i], c)]
  {
    if EmailConflict(users, i, c) then Fail(409, "EMAIL_EXISTS")
    else Ok(200, users[i := Apply(users[i], c)])
  }

  /**
    PUT /profile: the caller (at position `i`) edits their own names and
    address; a role or status field is refused by the schema.
   */
  function UpdateProfile(users: seq<User>, i: nat, b: UpdateBody, isEmail: string -> bool): (r: Reply<seq<User>>)
    requires i < |users|
    ensures ValidateUpdate(b, false, isEmail).None? ==> r == Fail(400, "VALIDATION_ERROR")
    ensures ValidateUpdate(b, false, isEmail).Some? ==> r == Update(users, i, ValidateUpdate(b, false, isEmail).value)
    ensures r.Ok? ==>
      && |r.value| == |users|
      && (forall j :: 0 <= j < |users| && j != i ==> r.value[j] == users[j])
      && r.value[i].role == users[i].role && r.value[i].isActive == users[i].isActive
      && r.value[i].emailVerified == users[i].emailVerified
      && (|r.value[i].firstName| <= MaxName || r.value[i].firstName == users[i].firstName)
  {
    match ValidateUpdate(b, false, isEmail)
    case None => Fail(400, "VALIDATION_ERROR")
    case Some(c) => Update(users, i, c)
  }

  /** Keeping one's own address skips the conflict check, even if another user has the same one. */
  lemma UnchangedEmailSkipsCheck(users: seq<User>, i: nat, b: UpdateBody, isEmail: string -> bool)
    requires i < |users| && b.email == Some(users[i].email)
    requires ValidateUpdate(b, false, isEmail).Some?
    ensures UpdateProfile(users, i, b, isEmail).Ok?
  {
  }

  /** The admin routes' lookup of `:id`: a malformed id is a cast error, an unknown one `USER_NOT_FOUND`. */
  function UserAt(users: seq<User>, idText: string): (r: Reply<nat>)
    ensures JsMessagesRoute.CastId(idText).None? ==> r == Fail(404, "RESOURCE_NOT_FOUND")
    ensures r.Ok? <==> JsMessagesRoute.CastId(idText).Some? && exists j :: 0 <= j < |users| && users[j].id == JsMessagesRoute.CastId(idText).value
    ensures r.Ok? ==> r.value < |users| && users[r.value].id == JsMessagesRoute.CastId(idText).value
    ensures r.Fail? && JsMessagesRoute.CastId(idText).Some? ==> r == Fail(404, "USER_NOT_FOUND")
  {
    match JsMessagesRoute.CastId(idText)
    case None => JsMessagesRoute.CastFailure()
    case Some(id) =>
      match FirstIndex(users, (u: User) => u.id == id)
      case None => Fail(404, "USER_NOT_FOUND")
      case Some(j) => Ok(200, j)
  }

  /** PUT /:id (admin): validation comes first, then the lookup, then the conflict check. */
  function AdminUpdate(users: seq<User>, idText: string, b: UpdateBody, isEmail: string -> bool): (r: Reply<seq<User>>)
    ensures ValidateUpdate(b, true, isEmail).None? ==> r == Fail(400, "VALIDATION_ERROR")
    ensures ValidateUpdate(b, true, isEmail).Some? && UserAt(users, idText).Fail? ==>
      r == Fail(UserAt(users, idText).status, UserAt(users, idText).code)
    ensures ValidateUpdate(b, true, isEmail).Some? && UserAt(users, idText).Ok? ==>
      r == Update(users, UserAt(users, idText).value, ValidateUpdate(b, true, isEmail).value)
    ensures r.Ok? ==>
      && |r.value| == |users|
      && var j := UserAt(users, idText).value;
         && (forall k :: 0 <= k < |users| && k != j ==> r.value[k] == users[k])
         && r.value[j].id == users[j].id
         && (r.value[j].role == users[j].role || r.value[j].role in Roles)
  {
    match ValidateUpdate(b, true, isEmail)
    case None => Fail(400, "VALIDATION_ERROR")
    case Some(c) =>
      match UserAt(users, idText)
      case Fail(status, code) => Fail(status, code)
      case Ok(_, j) => Update(users, j, c)
  }

  // ---------------------------------------------------------------------
  // Deletion

  /** Frees a number the deleted user held; everything else is kept. */
  function FreeIfHeld(l: JsPhoneNumber.Lease, id: nat, now: nat): (r: JsPhoneNumber.Lease)
    ensures l.user == Some(id) ==> r == JsPhoneNumber.Release(l, now)
    ensures l.user != Some(id) ==> r == l
  {
    if l.user == Some(id) then JsPhoneNumber.Release(l, now) else l
  }

  /**
    The deletion cascade: every number the user holds goes back to the
    pool (holder unset, status `available`, lease times cleared, release
    time recorded), the user's messages are removed, then the user.
   */
  function Cascade(s: Stores, id: nat, now: nat): (r: Stores)
    ensures |r.leases| == |s.leases|
    ensures forall k :: 0 <= k < |s.leases| && s.leases[k].user == Some(id) ==>
      r.leases[k].status == JsPhoneNumber.Available && r.leases[k].user.None? && r.leases[k].releasedAt == Some(now)
      && r.leases[k].assignedAt.None? && r.leases[k].expiresAt.None?
    ensures forall k :: 0 <= k < |s.leases| && s.leases[k].user == Some(id) ==> r.leases[k] == JsPhoneNumber.Release(s.leases[k], now)
    ensures forall k :: 0 <= k < |s.leases| && s.leases[k].user != Some(id) ==> r.leases[k] == s.leases[k]
    ensures r.messages == Filter(s.messages, (m: JsMessage.Message) => m.user != id)
    ensures r.users == Filter(s.users, (u: User) => u.id != id)
    ensures forall k :: 0 <= k < |r.leases| ==> r.leases[k].user != Some(id)
    ensures forall m :: m in r.messages ==> m in s.messages && m.user != id
    ensures forall m :: m in s.messages && m.user != id ==> m in r.messages
    ensures forall u :: u in r.users ==> u in s.users && u.id != id
    ensures forall u :: u in s.users && u.id != id ==> u in r.users
  {
    var leases := Map(s.leases, (l: JsPhoneNumber.Lease) => FreeIfHeld(l, id, now));
    var messages := Filter(s.messages, (m: JsMessage.Message) => m.user != id);
    var users := Filter(s.users, (u: User) => u.id != id);
    Stores(users, leases, messages)
  }

  /** The cascade keeps every number document consistent, and touches only the deleted user's data. */
  lemma CascadeKeepsConsistency(s: Stores, id: nat, now: nat)
    requires forall k :: 0 <= k < |s.leases| ==> JsPhoneNumber.Consistent(s.leases[k])
    ensures forall k :: 0 <= k < |Cascade(s, id, now).leases| ==> JsPhoneNumber.Consistent(Cascade(s, id, now).leases[k])
  {
  }

  /**
    DELETE /account: the caller (at position `i`) must give a password,
    and the right one; then the cascade runs on their data.
   */
  function DeleteAccount(s: Stores, i: nat, password: Option<string>, passwordMatches: string -> bool, now: nat)
    : (r: Reply<Stores>)
    requires i < |s.users|
    ensures !JsMessage.Truthy(password) ==> r == Fail(400, "PASSWORD_REQUIRED")
    ensures JsMessage.Truthy(password) && !passwordMatches(password.value) ==> r == Fail(401, "INVALID_PASSWORD")
    ensures r.Ok? <==> JsMessage.Truthy(password) && passwordMatches(password.value)
    ensures r.Ok? ==> r.value == Cascade(s, s.users[i].id, now)
  {
    if !JsMessage.Truthy(password) then Fail(400, "PASSWORD_REQUIRED")
    else if !passwordMatches(password.value) then Fail(401, "INVALID_PASSWORD")
    else Ok(200, Cascade(s, s.users[i].id, now))
  }

  /**
    DELETE /:id (admin): the id must name a user other than the caller;
    the reply carries the deleted user's id.
   */
  function AdminDelete(s: Stores, caller: nat, idText: string, now: nat): (r: Reply<(nat, Stores)>)
    ensures UserAt(s.users, idText).Fail? ==> r == Fail(UserAt(s.users, idText).status, UserAt(s.users, idText).code)
    ensures UserAt(s.users, idText).Ok? && s.users[UserAt(s.users, idText).value].id == caller ==>
      r == Fail(400, "CANNOT_DELETE_SELF")
    ensures r.Ok? <==> UserAt(s.users, idText).Ok? && s.users[UserAt(s.users, idText).value].id != caller
    ensures r.Ok? ==> r.value.0 == s.users[UserAt(s.users, idText).value].id
    ensures r.Ok? ==> r.value.0 != caller && r.value.1 == Cascade(s, r.value.0, now)
    ensures r.Ok? ==> exists j :: 0 <= j < |s.users| && s.users[j].id == r.value.0
  {
    match UserAt(s.users, idText)
    case Fail(status, code) => Fail(status, code)
    case Ok(_, j) =>
      var id := s.users[j].id;
      if id == caller then Fail(400, "CANNOT_DELETE_SELF")
      else Ok(200, (id, Cascade(s, id, now)))
  }

  /** An admin can never delete their own account through the admin route. */
  lemma AdminKeepsOwnAccount(s: Stores, caller: nat, idText: string, now: nat)
    requires AdminDelete(s, caller, idText, now).Ok?
    ensures forall u :: u in s.users && u.id == caller ==> u in AdminDelete(s, caller, idText, now).value.1.users
  {
  }

  // ---------------------------------------------------------------------
  // Admin listing

  /** The listing query after `parseInt` and the defaults (page 1, limit 20). */
  datatype ListQuery = ListQuery(page: int, limit: int, role: Option<string>, isActive: Option<string>, search: Option<string>)

  predicate Listed(u: User, q: ListQuery) {
    && (JsMessage.Truthy(q.role) ==> u.role == q.role.value)
    && (q.isActive.Some? ==> u.isActive == (q.isActive.value == "true"))
    && (JsMessage.Truthy(q.search) ==>
          ContainsIgnoreCase(u.email, q.search.value) || ContainsIgnoreCase(u.firstName, q.search.value)
          || ContainsIgnoreCase(u.lastName, q.search.value))
  }

  /** The sort key of `sort({ createdAt: -1 })`. */
  function CreatedKey(u: User): (k: int)
    ensures k <= 0
  {
    -(u.createdAt as int)
  }

  /** The reply of the listing; `pages` is `None` where `Math.ceil` gives a non-finite number (JSON `null`). */
  datatype UsersPage = UsersPage(users: seq<User>, total: nat, page: int, limit: int, pages: Option<int>)

  /** `Math.ceil(total / limit)` on a parsed integer limit, `None` for the infinite or NaN quotient of 0. */
  function PagesShown(total: nat, limit: int): (r: Option<int>)
    ensures r.None? <==> limit == 0
    ensures limit > 0 ==> r == Some(Paging.Pages(total, limit))
    ensures limit < 0 ==> r.value * limit <= total < (r.value - 1) * limit
  {
    if limit == 0 then None
    else if limit > 0 then Some(Paging.Pages(total, limit))
    else
      var n := -limit;
      assert (total / n) * n <= total < (total / n + 1) * n;
      Some(-(total / n))
  }

  /** How many documents `limit(n)` lets through: none is no limit, a negative one counts as its magnitude. */
  function LimitOf(limit: int, available: nat): (n: nat)
    ensures limit == 0 ==> n == available
    ensures limit != 0 ==> n == (if limit < 0 then -limit else limit)
  {
    if limit == 0 then available else if limit < 0 then -limit else limit
  }

  /** Every matching user, newest account first: the listing before its page window. */
  function UsersNewestFirst(users: seq<User>, q: ListQuery): (r: seq<User>)
    ensures forall i, j :: 0 <= i < j < |r| ==> r[i].createdAt >= r[j].createdAt
    ensures multiset(r) == multiset(Filter(users, (u: User) => Listed(u, q)))
    ensures forall i :: 0 <= i < |r| ==> r[i] in users && Listed(r[i], q)
    ensures forall i :: 0 <= i < |users| && Listed(users[i], q) ==> users[i] in r
  {
    var sorted := SortedFilter(users, (u: User) => Listed(u, q), CreatedKey);
    CreatedKeyOrder(sorted);
    sorted
  }

  /**
    GET / (admin): the matching users, newest account first, one page of
    them. `skip((page - 1) * limit)` is refused by the driver when negative,
    and that error reaches the handler as a 500 with the driver's own code.
   */
  function ListUsers(users: seq<User>, q: ListQuery, driverCode: string): (r: Reply<UsersPage>)
    ensures r.Fail? <==> (q.page - 1) * q.limit < 0
    ensures r.Fail? ==> r == Fail(500, driverCode)
    ensures r.Ok? ==> (
      var sorted := UsersNewestFirst(users, q);
      var skip := (q.page - 1) * q.limit;
      && skip >= 0
      && Paging.WindowOf(r.value.users, sorted, skip, LimitOf(q.limit, |sorted|))
      && r.value.total == Count(users, (u: User) => Listed(u, q)) == |sorted|
      && r.value.page == q.page && r.value.limit == q.limit
      && r.value.pages == PagesShown(r.value.total, q.limit)
      && (q.limit != 0 ==> |r.value.users| <= LimitOf(q.limit, 0))
      && (forall i :: 0 <= i < |r.value.users| ==> r.value.users[i] in users && Listed(r.value.users[i], q))
      && (forall i, j :: 0 <= i < j < |r.value.users| ==> r.value.users[i].createdAt >= r.value.users[j].createdAt))
  {
    var skip := (q.page - 1) * q.limit;
    if skip < 0 then Fail(500, driverCode)
    else
      var matching := UsersNewestFirst(users, q);
      var window := Paging.Window(matching, skip, LimitOf(q.limit, |matching|));
      WindowNewestFirst(matching, skip, LimitOf(q.limit, |matching|));
      WindowListed(matching, users, q, skip, LimitOf(q.limit, |matching|));
      PermutedFilter(users, (u: User) => Listed(u, q), matching);
      Ok(200, UsersPage(window, |matching|, q.page, q.limit, PagesShown(|matching|, q.limit)))
  }

  /** A window of a list sorted newest first is itself newest first. */
  lemma WindowNewestFirst(s: seq<User>, offset: nat, limit: nat)
    requires forall i, j :: 0 <= i < j < |s| ==> s[i].createdAt >= s[j].createdAt
    ensures var w := Paging.Window(s, offset, limit);
      forall i, j :: 0 <= i < j < |w| ==> w[i].createdAt >= w[j].createdAt
  {
    var w := Paging.Window(s, offset, limit);
    forall i, j | 0 <= i < j < |w| ensures w[i].createdAt >= w[j].createdAt {
      assert w[i] == s[offset + i] && w[j] == s[offset + j];
    }
  }

  /** A window of listed users holds only listed users. */
  lemma WindowListed(s: seq<User>, users: seq<User>, q: ListQuery, offset: nat, limit: nat)
    requires forall i :: 0 <= i < |s| ==> s[i] in users && Listed(s[i], q)
    ensures var w := Paging.Window(s, offset, limit);
      forall i :: 0 <= i < |w| ==> w[i] in users && Listed(w[i], q)
  {
    var w := Paging.Window(s, offset, limit);
    forall i | 0 <= i < |w| ensures w[i] in users && Listed(w[i], q) {
      assert w[i] == s[offset + i];
    }
  }

  /** Ascending order of `CreatedKey` is newest account first. */
  lemma CreatedKeyOrder(s: seq<User>)
    requires SortedBy(s, CreatedKey)
    ensures forall i, j :: 0 <= i < j < |s| ==> s[i].createdAt >= s[j].createdAt
  {
    forall i, j | 0 <= i < j < |s| ensures s[i].createdAt >= s[j].createdAt {
      assert CreatedKey(s[i]) <= CreatedKey(s[j]);
    }
  }
}
