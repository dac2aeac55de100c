/**
  The Flask authentication routes: the e-mail and password rules,
  registration, login, token refresh, and reading and updating the
  caller's profile.

  A request body is a JSON object (a map from keys to `Json` values), or
  `None` when the request carries no object, in which case the first
  lookup in it raises and the route answers 500. Password hashing and
  checking are parameters, and tokens themselves are left out: a
  successful login or refresh reports the access token's lifetime. The
  user model is not part of this model: `find_by_email` is taken as the
  first row holding exactly that address, and `User.query.get` as the
  row with that id.
 */
module Auth {
  import opened Wrappers
  import opened Text
  import opened Collections
  import opened Http
  import opened Time

  // ---------------------------------------------------------------------
  // validate_email

  predicate IsLocalChar(c: char) {
    IsLetter(c) || IsDigit(c) || c == '.' || c == '_' || c == '%' || c == '+' || c == '-'
  }

  predicate IsDomainChar(c: char) {
    IsLetter(c) || IsDigit(c) || c == '.' || c == '-'
  }

  /**
    `s` matches `[A-Za-z0-9._%+-]+@[A-Za-z0-9.-]+\.[A-Za-z]{2,}` in full,
    with the `@` at `at` and the dot before the final label at `dot`.
   */
  predicate EmailSplit(s: string, at: nat, dot: nat) {
    && 1 <= at && at + 2 <= dot && dot + 3 <= |s|
    && s[at] == '@' && s[dot] == '.'
    && (forall i :: 0 <= i < at ==> IsLocalChar(s[i]))
    && (forall i :: at < i < dot ==> IsDomainChar(s[i]))
    && (forall i :: dot < i < |s| ==> IsLetter(s[i]))
  }

  /** The language of the pattern: some choice of `@` and final dot fits (the regular expression backtracks over all of them). */
  ghost predicate EmailPattern(s: string) {
    exists at: nat, dot: nat :: EmailSplit(s, at, dot)
  }

  /** The position of the last `c` in `s`. */
  function LastIndexOf(s: string, c: char): (r: Option<nat>)
    ensures r.Some? ==> r.value < |s| && s[r.value] == c
    ensures r.Some? ==> forall i :: r.value < i < |s| ==> s[i] != c
    ensures r.None? ==> forall i :: 0 <= i < |s| ==> s[i] != c
  {
    if |s| == 0 then None
    else if s[|s| - 1] == c then Some(|s| - 1)
    else LastIndexOf(s[..|s| - 1], c)
  }

  /** A matcher without backtracking: it tries only the first `@` and the last dot. */
  function EmailScan(s: string): bool {
    match FirstIndex(s, (c: char) => c == '@')
    case None => false
    case Some(at) =>
      match LastIndexOf(s, '.')
      case None => false
      case Some(dot) => EmailSplit(s, at, dot)
  }

  /**
    Trying the first `@` and the last dot loses nothing: the local part
    cannot hold an `@`, and the final label cannot hold a dot.
   */
  lemma EmailScanIsPattern(s: string)
    ensures EmailScan(s) <==> EmailPattern(s)
  {
    if EmailPattern(s) {
      var at: nat, dot: nat :| EmailSplit(s, at, dot);
      var f := FirstIndex(s, (c: char) => c == '@');
      assert f.Some? && f.value <= at;
      assert !IsLocalChar('@');
      assert f == Some(at);
      var l := LastIndexOf(s, '.');
      assert l.Some? && l.value >= dot;
      assert !IsLetter('.');
      assert l == Some(dot);
    }
  }

  /**
    `validate_email`: `re.match` anchors the pattern at the start, and `$`
    matches at the end of the string or just before a final newline.
   */
  function ValidateEmail(s: string): (b: bool)
    ensures b <==> EmailPattern(s) || (|s| > 0 && s[|s| - 1] == '\n' && EmailPattern(s[..|s| - 1]))
  {
    EmailScanIsPattern(s);
    if |s| > 0 then
      EmailScanIsPattern(s[..|s| - 1]);
      EmailScan(s) || (s[|s| - 1] == '\n' && EmailScan(s[..|s| - 1]))
    else
      EmailScan(s)
  }

  /** The address as the routes store it: lower-cased, then stripped. */
  function Normalize(s: string): (r: string)
    ensures |r| <= |s|
    ensures |r| > 0 ==> !IsPySpace(r[|r| - 1])
  {
    PyStrip(Lower(s))
  }

  /** For a normalized address the final-newline allowance never applies: the pattern alone decides. */
  lemma NormalizedEmailNeedsPattern(s: string)
    ensures ValidateEmail(Normalize(s)) <==> EmailPattern(Normalize(s))
  {
  }

  /** An address with a dotted domain passes, and one whose final label has a single letter does not. */
  lemma EmailExamples()
    ensures ValidateEmail("a@b.c.de")
    ensures !ValidateEmail("a@b.c")
  {
    assert EmailSplit("a@b.c.de", 1, 5);
    assert LastIndexOf("a@b.c", '.') == Some(3);
    EmailScanIsPattern("a@b.c");
  }

  // ---------------------------------------------------------------------
  // validate_password

  const MinPasswordLength: nat := 8
  const TooShort := "Password must be at least 8 characters long"
  const NoUpper := "Password must contain at least one uppercase letter"
  const NoLower := "Password must contain at least one lowercase letter"
  const NoDigit := "Password must contain at least one digit"
  const PasswordValid := "Password is valid"

  datatype Verdict = Verdict(valid: bool, message: string)

  predicate HasUpper(p: string) { exists i :: 0 <= i < |p| && IsUpper(p[i]) }
  predicate HasLower(p: string) { exists i :: 0 <= i < |p| && IsLower(p[i]) }
  predicate HasDigit(p: string) { exists i :: 0 <= i < |p| && IsDigit(p[i]) }

  /** The strength rule as a whole: long enough, with an upper-case letter, a lower-case letter and a digit. */
  predicate StrongPassword(p: string) {
    |p| >= MinPasswordLength && HasUpper(p) && HasLower(p) && HasDigit(p)
  }

  /** `validate_password`: the length first, then the three classes in order, reporting the first rule broken. */
  function ValidatePassword(p: string): (r: Verdict)
    ensures r.valid <==> StrongPassword(p)
    ensures r.valid <==> r.message == PasswordValid
    ensures r.message == TooShort <==> |p| < MinPasswordLength
    ensures r.message == NoUpper <==> |p| >= MinPasswordLength && !HasUpper(p)
    ensures r.message == NoLower <==> |p| >= MinPasswordLength && HasUpper(p) && !HasLower(p)
    ensures r.message == NoDigit <==> |p| >= MinPasswordLength && HasUpper(p) && HasLower(p) && !HasDigit(p)
  {
    if |p| < MinPasswordLength then Verdict(false, TooShort)
    else if FirstIndex(p, IsUpper).None? then Verdict(false, NoUpper)
    else if FirstIndex(p, IsLower).None? then Verdict(false, NoLower)
    else if FirstIndex(p, IsDigit).None? then Verdict(false, NoDigit)
    else Verdict(true, PasswordValid)
  }

  // ---------------------------------------------------------------------
  // Requests and users

  /** A JSON value as the routes see it: a string, `null`, or anything else with its Python truthiness. */
  datatype Json = JStr(s: string) | JNull | JOther(truthy: bool)

  predicate Truthy(v: Json) {
    match v
    case JStr(s) => s != []
    case JNull => false
    case JOther(t) => t
  }

  type Body = map<string, Json>

  /** `data.get(k)` is truthy. */
  predicate Given(b: Body, k: string) { k in b && Truthy(b[k]) }

  /** The string under `k`, when there is one. */
  function StrField(b: Body, k: string): (r: Option<string>)
    ensures r.Some? <==> k in b && b[k].JStr?
    ensures r.Some? ==> b[k] == JStr(r.value)
  {
    if k in b && b[k].JStr? then Some(b[k].s) else None
  }

  datatype User = User(
    id: nat,
    email: string,
    passwordHash: string,
    firstName: Option<string>,
    lastName: Option<string>,
    isActive: bool,
    emailVerified: bool,
    lastLogin: Option<nat>)

  /** Ids and addresses are unique across the table. */
  predicate Consistent(users: seq<User>) {
    forall i, j :: 0 <= i < j < |users| ==> users[i].id != users[j].id && users[i].email != users[j].email
  }

  /** `User.find_by_email`: the first row holding the address. */
  function FindByEmail(users: seq<User>, email: string): (r: Option<nat>)
    ensures r.Some? ==> r.value < |users| && users[r.value].email == email
    ensures r.Some? ==> forall i :: 0 <= i < r.value ==> users[i].email != email
    ensures r.None? <==> forall i :: 0 <= i < |users| ==> users[i].email != email
  {
    FirstIndex(users, (u: User) => u.email == email)
  }

  /** `User.query.get`: the row with the id. */
  function FindById(users: seq<User>, id: nat): (r: Option<nat>)
    ensures r.Some? ==> r.value < |users| && users[r.value].id == id
    ensures r.Some? ==> forall i :: 0 <= i < r.value ==> users[i].id != id
    ensures r.None? <==> forall i :: 0 <= i < |users| ==> users[i].id != id
  {
    FirstIndex(users, (u: User) => u.id == id)
  }

  /** In a consistent table the row of an id is the only one with it. */
  lemma FindByIdInConsistent(users: seq<User>, i: nat)
    requires Consistent(users) && i < |users|
    ensures FindById(users, users[i].id) == Some(i)
  {
  }

  const MissingField := "MISSING_FIELD"
  const InvalidEmail := "INVALID_EMAIL"
  const WeakPassword := "WEAK_PASSWORD"
  const EmailExists := "EMAIL_EXISTS"
  const RegistrationError := "REGISTRATION_ERROR"
  const MissingCredentials := "MISSING_CREDENTIALS"
  const InvalidCredentials := "INVALID_CREDENTIALS"
  const AccountDeactivated := "ACCOUNT_DEACTIVATED"
  const LoginError := "LOGIN_ERROR"
  const InvalidRefreshToken := "INVALID_REFRESH_TOKEN"
  const UserNotFound := "USER_NOT_FOUND"
  const EmailTaken := "EMAIL_TAKEN"
  const UpdateError := "UPDATE_ERROR"

  /** The lifetime of an access token in seconds, reported as `expires_in` (the token is issued for one hour). */
  const AccessTokenSeconds: nat := 3600

  /** The table after a successful change, and the affected user. */
  datatype Account = Account(users: seq<User>, user: User)

  // ---------------------------------------------------------------------
  // POST /register

  /** A name field at registration: `data.get(k, '').strip()`, kept when non-empty; `None` when `strip` raises. */
  function RegisterName(b: Body, k: string): (r: Option<Option<string>>)
    ensures r.None? <==> k in b && !b[k].JStr?
    ensures k !in b ==> r == Some(None)
    ensures r.Some? && r.value.Some? ==> StrField(b, k).Some? && r.value.value == PyStrip(StrField(b, k).value)
    ensures r.Some? && r.value.Some? ==> r.value.value != []
  {
    if k !in b then Some(None)
    else match b[k]
      case JStr(s) => Some(if PyStrip(s) == [] then None else Some(PyStrip(s)))
      case _ => None
  }

  /** The email is a string and both names strip: reading the body raises nothing before the checks. */
  predicate RegistrationReadable(b: Body) {
    StrField(b, "email").Some? && RegisterName(b, "first_name").Some? && RegisterName(b, "last_name").Some?
  }

  /** Neither field is missing and reading the body raised nothing: the email format is checked next. */
  predicate ReachesEmailCheck(b: Body) {
    Given(b, "email") && Given(b, "password") && RegistrationReadable(b)
  }

  /** The email passed its format check: the password strength is checked next. */
  ghost predicate ReachesPasswordCheck(b: Body) {
    ReachesEmailCheck(b) && EmailPattern(Normalize(StrField(b, "email").value))
  }

  /** The password is a string and strong: the address is looked up next. */
  ghost predicate ReachesDuplicateCheck(b: Body) {
    ReachesPasswordCheck(b) && StrField(b, "password").Some? && StrongPassword(StrField(b, "password").value)
  }

  /**
    `register`. `newId` is the id the database assigns and `hash` the
    password hashing.
   */
  function Register(users: seq<User>, req: Option<Body>, newId: nat, hash: string -> string): (r: Reply<Account>)
    ensures req.None? ==> r == Fail(500, RegistrationError)
    ensures req.Some? ==> (r == Fail(400, MissingField) <==> !Given(req.value, "email") || !Given(req.value, "password"))
    ensures r.Ok? ==> r.status == 201 && r.value.users == users + [r.value.user]
    ensures r.Ok? ==> req.Some? && StrField(req.value, "email").Some? && StrField(req.value, "password").Some?
    ensures r.Ok? ==> r.value.user.email == Normalize(StrField(req.value, "email").value)
    ensures r.Ok? ==> EmailPattern(r.value.user.email)
    ensures r.Ok? ==> StrongPassword(StrField(req.value, "password").value)
    ensures r.Ok? ==> r.value.user.passwordHash == hash(StrField(req.value, "password").value)
    ensures r.Ok? ==> forall i :: 0 <= i < |users| ==> users[i].email != r.value.user.email
    ensures r.Ok? ==> r.value.user.id == newId && r.value.user.isActive && !r.value.user.emailVerified
    ensures req.Some? && ReachesEmailCheck(req.value) ==>
      (r == Fail(400, InvalidEmail) <==> !EmailPattern(Normalize(StrField(req.value, "email").value)))
    ensures req.Some? && ReachesPasswordCheck(req.value) ==>
      (r == Fail(400, WeakPassword) <==>
        StrField(req.value, "password").Some? && !StrongPassword(StrField(req.value, "password").value))
    ensures req.Some? && ReachesDuplicateCheck(req.value) ==>
      (r == Fail(409, EmailExists) <==> FindByEmail(users, Normalize(StrField(req.value, "email").value)).Some?)
    ensures r == Fail(400, InvalidEmail) ==> req.Some? && ReachesEmailCheck(req.value)
    ensures r == Fail(400, WeakPassword) ==> req.Some? && ReachesPasswordCheck(req.value)
    ensures r == Fail(409, EmailExists) ==> req.Some? && ReachesDuplicateCheck(req.value)
    ensures r == Fail(500, RegistrationError) <==> (req.None?
      || (Given(req.value, "email") && Given(req.value, "password") && !RegistrationReadable(req.value))
      || (ReachesPasswordCheck(req.value) && StrField(req.value, "password").None?))
    ensures r.Ok? <==> (req.Some? && ReachesDuplicateCheck(req.value)
      && FindByEmail(users, Normalize(StrField(req.value, "email").value)).None?)
  {
    if req.None? then Fail(500, RegistrationError)
    else
      var b := req.value;
      if !Given(b, "email") || !Given(b, "password") then Fail(400, MissingField)
      else if !b["email"].JStr? then Fail(500, RegistrationError)
      else
        var email := Normalize(b["email"].s);
        var first := RegisterName(b, "first_name");
        var last := RegisterName(b, "last_name");
        NormalizedEmailNeedsPattern(b["email"].s);
        if first.None? || last.None? then Fail(500, RegistrationError)
        else if !ValidateEmail(email) then Fail(400, InvalidEmail)
        else if !b["password"].JStr? then Fail(500, RegistrationError)
        else if !ValidatePassword(b["password"].s).valid then Fail(400, WeakPassword)
        else if FindByEmail(users, email).Some? then Fail(409, EmailExists)
        else
          var u := User(newId, email, hash(b["password"].s), first.value, last.value, true, false, None);
          Ok(201, Account(users + [u], u))
  }

  /** Registration keeps ids and addresses unique when the new id is fresh. */
  lemma RegisterKeepsConsistent(users: seq<User>, req: Option<Body>, newId: nat, hash: string -> string)
    requires Consistent(users)
    requires forall i :: 0 <= i < |users| ==> users[i].id != newId
    ensures Register(users, req, newId, hash).Ok? ==> Consistent(Register(users, req, newId, hash).value.users)
  {
    var r := Register(users, req, newId, hash);
    if r.Ok? {
      AppendKeepsConsistent(users, r.value.user);
    }
  }

  /** Appending a row whose id and address no row holds keeps the table consistent. */
  lemma AppendKeepsConsistent(users: seq<User>, u: User)
    requires Consistent(users)
    requires forall i :: 0 <= i < |users| ==> users[i].id != u.id && users[i].email != u.email
    ensures Consistent(users + [u])
  {
  }

  // ---------------------------------------------------------------------
  // POST /login

  /** Both `email` and `password` are non-empty strings. */
  predicate StringCredentials(b: Body) {
    Given(b, "email") && Given(b, "password") && StrField(b, "email").Some? && StrField(b, "password").Some?
  }

  datatype Session = Session(users: seq<User>, user: User, expiresIn: nat)

  /**
    `login`. `check(hash, password)` is the password check; a successful
    login records `now` as the last login.
   */
  function Login(users: seq<User>, req: Option<Body>, now: nat, check: (string, string) -> bool): (r: Reply<Session>)
    ensures req.None? ==> r == Fail(500, LoginError)
    ensures req.Some? ==> (r == Fail(400, MissingCredentials) <==> !Given(req.value, "email") || !Given(req.value, "password"))
    ensures req.Some? && StringCredentials(req.value) ==>
      var found := FindByEmail(users, Normalize(StrField(req.value, "email").value));
      (r == Fail(401, InvalidCredentials) <==>
        found.None? || !check(users[found.value].passwordHash, StrField(req.value, "password").value))
    ensures req.Some? && StringCredentials(req.value) ==>
      var found := FindByEmail(users, Normalize(StrField(req.value, "email").value));
      && (r == Fail(401, AccountDeactivated) <==>
        found.Some? && check(users[found.value].passwordHash, StrField(req.value, "password").value)
        && !users[found.value].isActive)
      && (r.Ok? <==>
        found.Some? && check(users[found.value].passwordHash, StrField(req.value, "password").value)
        && users[found.value].isActive)
    ensures r.Ok? ==> req.Some? && StringCredentials(req.value)
    ensures r == Fail(401, AccountDeactivated) ==>
      && req.Some? && StrField(req.value, "email").Some? && StrField(req.value, "password").Some?
      && var found := FindByEmail(users, Normalize(StrField(req.value, "email").value));
      && found.Some? && check(users[found.value].passwordHash, StrField(req.value, "password").value)
      && !users[found.value].isActive
    ensures r.Ok? ==>
      && r.status == 200 && r.value.expiresIn == AccessTokenSeconds
      && req.Some? && StrField(req.value, "email").Some? && StrField(req.value, "password").Some?
      && var found := FindByEmail(users, Normalize(StrField(req.value, "email").value));
      && found.Some? && check(users[found.value].passwordHash, StrField(req.value, "password").value)
      && users[found.value].isActive
      && r.value.user == users[found.value].(lastLogin := Some(now))
      && r.value.users == users[found.value := r.value.user]
  {
    if req.None? then Fail(500, LoginError)
    else
      var b := req.value;
      if !Given(b, "email") || !Given(b, "password") then Fail(400, MissingCredentials)
      else if !b["email"].JStr? then Fail(500, LoginError)
      else match FindByEmail(users, Normalize(b["email"].s))
        case None => Fail(401, InvalidCredentials)
        case Some(i) =>
          if !b["password"].JStr? then Fail(500, LoginError)
          else if !check(users[i].passwordHash, b["password"].s) then Fail(401, InvalidCredentials)
          else if !users[i].isActive then Fail(401, AccountDeactivated)
          else
            var u := users[i].(lastLogin := Some(now));
            Ok(200, Session(users[i := u], u, AccessTokenSeconds))
  }

  /** The login body with an address and a password. */
  function Credentials(email: string, password: string): (b: Body)
    ensures StrField(b, "email") == Some(email) && StrField(b, "password") == Some(password)
  {
    map["email" := JStr(email), "password" := JStr(password)]
  }

  /** An unknown address and a wrong password get the same answer, so the answer does not tell whether an account exists. */
  lemma LoginHidesUnknownAccounts(users: seq<User>, now: nat, check: (string, string) -> bool,
                                  unknown: string, known: string, password: string)
    requires unknown != [] && known != [] && password != []
    requires FindByEmail(users, Normalize(unknown)).None?
    requires FindByEmail(users, Normalize(known)).Some?
    requires !check(users[FindByEmail(users, Normalize(known)).value].passwordHash, password)
    ensures Login(users, Some(Credentials(unknown, password)), now, check)
         == Login(users, Some(Credentials(known, password)), now, check)
         == Fail(401, InvalidCredentials)
  {
    var bu := Credentials(unknown, password);
    var bk := Credentials(known, password);
    assert Given(bu, "email") && Given(bu, "password");
    assert Given(bk, "email") && Given(bk, "password");
  }

  /** A fresh registration can log in with the same body, given a password check that accepts the hash of the password. */
  lemma RegisterThenLogin(users: seq<User>, req: Option<Body>, newId: nat, hash: string -> string,
                          now: nat, check: (string, string) -> bool)
    requires forall p :: check(hash(p), p)
    requires Register(users, req, newId, hash).Ok?
    ensures Login(Register(users, req, newId, hash).value.users, req, now, check).Ok?
    ensures Login(Register(users, req, newId, hash).value.users, req, now, check).value.user.id == newId
  {
    var acc := Register(users, req, newId, hash).value;
    var b := req.value;
    var e := Normalize(StrField(b, "email").value);
    assert acc.users[|users|] == acc.user;
    assert FindByEmail(acc.users, e) == Some(|users|);
  }

  // ---------------------------------------------------------------------
  // POST /refresh, GET /profile

  /** `refresh`: a new access token while the user exists and is active. */
  function Refresh(users: seq<User>, uid: nat): (r: Reply<nat>)
    ensures r.Ok? <==> exists i :: 0 <= i < |users| && users[i].id == uid && FindById(users, uid) == Some(i) && users[i].isActive
    ensures r.Ok? ==> r == Ok(200, AccessTokenSeconds)
    ensures r.Fail? ==> r == Fail(401, InvalidRefreshToken)
  {
    match FindById(users, uid)
    case None => Fail(401, InvalidRefreshToken)
    case Some(i) => if users[i].isActive then Ok(200, AccessTokenSeconds) else Fail(401, InvalidRefreshToken)
  }

  /** The token a login issues and the one a refresh issues both last one hour. */
  lemma TokensLastOneHour(users: seq<User>, req: Option<Body>, now: nat, check: (string, string) -> bool, uid: nat)
    ensures Login(users, req, now, check).Ok? ==> Login(users, req, now, check).value.expiresIn * SecondMs == HourMs
    ensures Refresh(users, uid).Ok? ==> Refresh(users, uid).value * SecondMs == HourMs
  {
  }

  /** After a login the session's user can refresh its token. */
  lemma LoginThenRefresh(users: seq<User>, req: Option<Body>, now: nat, check: (string, string) -> bool)
    requires Consistent(users)
    requires Login(users, req, now, check).Ok?
    ensures Refresh(Login(users, req, now, check).value.users, Login(users, req, now, check).value.user.id).Ok?
  {
    var s := Login(users, req, now, check).value;
    var i := FindByEmail(users, Normalize(StrField(req.value, "email").value)).value;
    assert Consistent(s.users) by {
      forall a, c | 0 <= a < c < |s.users| ensures s.users[a].id != s.users[c].id {
        assert s.users[a].id == users[a].id && s.users[c].id == users[c].id;
      }
    }
    FindByIdInConsistent(s.users, i);
  }

  /** `get_profile`: the caller's row, or 404. */
  function GetProfile(users: seq<User>, uid: nat): (r: Reply<User>)
    ensures r.Ok? <==> exists i :: 0 <= i < |users| && users[i].id == uid
    ensures r.Ok? ==> r.status == 200 && r.value in users && r.value.id == uid
    ensures r.Fail? ==> r == Fail(404, UserNotFound)
  {
    match FindById(users, uid)
    case None => Fail(404, UserNotFound)
    case Some(i) => Ok(200, users[i])
  }

  // ---------------------------------------------------------------------
  // PUT /profile

  /** A name update: the stripped value when truthy, else `None`; `None` overall when `strip` raises. */
  function ProfileName(v: Json): (r: Option<Option<string>>)
    ensures r.None? <==> Truthy(v) && !v.JStr?
    ensures r == Some(None) <==> !Truthy(v)
    ensures r.Some? && r.value.Some? ==> v.JStr? && r.value.value == PyStrip(v.s)
  {
    if !Truthy(v) then Some(None)
    else match v
      case JStr(s) => Some(Some(PyStrip(s)))
      case _ => None
  }

  /** The name a profile update leaves: the update when the key is present, else the stored one. */
  function NameAfter(b: Body, k: string, stored: Option<string>): Option<Option<string>> {
    if k in b then ProfileName(b[k]) else Some(stored)
  }

  /**
    `update_profile`. Nothing is committed unless the route answers 200:
    a name change made before a failed e-mail check is dropped with the
    session.
   */
  function UpdateProfile(users: seq<User>, uid: nat, req: Option<Body>): (r: Reply<Account>)
    ensures FindById(users, uid).None? ==> r == Fail(404, UserNotFound)
    ensures FindById(users, uid).Some? && req.None? ==> r == Fail(500, UpdateError)
    ensures r.Ok? <==>
      && FindById(users, uid).Some? && req.Some?
      && NameAfter(req.value, "first_name", None).Some? && NameAfter(req.value, "last_name", None).Some?
      && ("email" in req.value ==>
            && StrField(req.value, "email").Some?
            && var e := Normalize(StrField(req.value, "email").value);
            && EmailPattern(e)
            && (FindByEmail(users, e).None? || users[FindByEmail(users, e).value].id == uid))
    ensures r.Ok? ==>
      && r.status == 200 && req.Some? && FindById(users, uid).Some?
      && var i := FindById(users, uid).value;
      && r.value.users == users[i := r.value.user]
      && r.value.user.id == uid
      && r.value.user.passwordHash == users[i].passwordHash
      && r.value.user.isActive == users[i].isActive
      && r.value.user.lastLogin == users[i].lastLogin
      && Some(r.value.user.firstName) == NameAfter(req.value, "first_name", users[i].firstName)
      && Some(r.value.user.lastName) == NameAfter(req.value, "last_name", users[i].lastName)
    ensures r.Ok? && "email" !in req.value ==>
      var i := FindById(users, uid).value;
      r.value.user.email == users[i].email && r.value.user.emailVerified == users[i].emailVerified
    ensures r.Ok? && "email" in req.value ==>
      && StrField(req.value, "email").Some?
      && r.value.user.email == Normalize(StrField(req.value, "email").value)
      && EmailPattern(r.value.user.email)
      && !r.value.user.emailVerified
      && var holder := FindByEmail(users, r.value.user.email);
      && (holder.None? || users[holder.value].id == uid)
    ensures r == Fail(400, InvalidEmail) ==>
      req.Some? && StrField(req.value, "email").Some? && !EmailPattern(Normalize(StrField(req.value, "email").value))
    ensures r == Fail(409, EmailTaken) <==>
      && FindById(users, uid).Some? && req.Some?
      && NameAfter(req.value, "first_name", None).Some? && NameAfter(req.value, "last_name", None).Some?
      && StrField(req.value, "email").Some?
      && var e := Normalize(StrField(req.value, "email").value);
      && EmailPattern(e)
      && FindByEmail(users, e).Some? && users[FindByEmail(users, e).value].id != uid
  {
    match FindById(users, uid)
    case None => Fail(404, UserNotFound)
    case Some(i) =>
      if req.None? then Fail(500, UpdateError)
      else
        var b := req.value;
        var first := NameAfter(b, "first_name", users[i].firstName);
        var last := NameAfter(b, "last_name", users[i].lastName);
        if first.None? || last.None? then Fail(500, UpdateError)
        else
          var named := users[i].(firstName := first.value, lastName := last.value);
          if "email" !in b then Ok(200, Account(users[i := named], named))
          else if !b["email"].JStr? then Fail(500, UpdateError)
          else
            var e := Normalize(b["email"].s);
            NormalizedEmailNeedsPattern(b["email"].s);
            if !ValidateEmail(e) then Fail(400, InvalidEmail)
            else
              var holder := FindByEmail(users, e);
              if holder.Some? && users[holder.value].id != users[i].id then Fail(409, EmailTaken)
              else
                var u := named.(email := e, emailVerified := false);
                Ok(200, Account(users[i := u], u))
  }

  /** In a consistent table the address is refused exactly when some other row holds it. */
  lemma EmailTakenByAnotherRow(users: seq<User>, uid: nat, req: Option<Body>)
    requires Consistent(users)
    requires FindById(users, uid).Some? && req.Some?
    requires NameAfter(req.value, "first_name", None).Some? && NameAfter(req.value, "last_name", None).Some?
    requires StrField(req.value, "email").Some? && EmailPattern(Normalize(StrField(req.value, "email").value))
    ensures UpdateProfile(users, uid, req) == Fail(409, EmailTaken) <==>
      exists j :: 0 <= j < |users| && users[j].email == Normalize(StrField(req.value, "email").value) && users[j].id != uid
  {
    var e := Normalize(StrField(req.value, "email").value);
    var i := FindById(users, uid).value;
    if exists j :: 0 <= j < |users| && users[j].email == e && users[j].id != uid {
      var j :| 0 <= j < |users| && users[j].email == e && users[j].id != uid;
      var h := FindByEmail(users, e).value;
      assert h == j by {
        assert h <= j;
        assert users[h].email == users[j].email;
      }
    }
  }

  /** Replacing a row by one with the same id and an address no other row holds keeps the table consistent. */
  lemma ReplaceKeepsConsistent(users: seq<User>, i: nat, u: User)
    requires Consistent(users) && i < |users|
    requires u.id == users[i].id
    requires forall j :: 0 <= j < |users| && j != i ==> users[j].email != u.email
    ensures Consistent(users[i := u])
  {
  }

  /** A successful profile update keeps ids and addresses unique. */
  lemma UpdateProfileKeepsConsistent(users: seq<User>, uid: nat, req: Option<Body>)
    requires Consistent(users)
    requires UpdateProfile(users, uid, req).Ok?
    ensures Consistent(UpdateProfile(users, uid, req).value.users)
  {
    var acc := UpdateProfile(users, uid, req).value;
    var i := FindById(users, uid).value;
    forall j | 0 <= j < |users| && j != i
      ensures users[j].email != acc.user.email
    {
      if "email" in req.value {
        var h := FindByEmail(users, acc.user.email);
        if h.Some? {
          assert h.value == i by {
            assert users[h.value].id == users[i].id;
          }
        }
      }
    }
    ReplaceKeepsConsistent(users, i, acc.user);
  }

  /** The profile update that keeps the address: the route accepts it and clears the verification flag. */
  lemma AcceptsOwnEmail(users: seq<User>, i: nat, b: Body)
    requires i < |users| && FindById(users, users[i].id) == Some(i)
    requires b == map["email" := JStr(users[i].email)]
    requires Normalize(users[i].email) == users[i].email && ValidateEmail(users[i].email)
    requires FindByEmail(users, users[i].email) == Some(i)
    ensures var r := UpdateProfile(users, users[i].id, Some(b));
      r.Ok? && r.value.user.email == users[i].email && !r.value.user.emailVerified
  {
    assert NameAfter(b, "first_name", users[i].firstName) == Some(users[i].firstName);
    assert NameAfter(b, "last_name", users[i].lastName) == Some(users[i].lastName);
    assert StrField(b, "email") == Some(users[i].email);
    NormalizedEmailNeedsPattern(users[i].email);
  }

  /** Re-submitting the stored address is accepted and still clears the verification flag. */
  lemma SameEmailResetsVerification(users: seq<User>, i: nat)
    requires Consistent(users) && i < |users|
    requires Normalize(users[i].email) == users[i].email && EmailPattern(users[i].email)
    ensures var r := UpdateProfile(users, users[i].id, Some(map["email" := JStr(users[i].email)]));
      r.Ok? && r.value.user.email == users[i].email && !r.value.user.emailVerified
  {
    FindByIdInConsistent(users, i);
    assert FindByEmail(users, users[i].email) == Some(i);
    NormalizedEmailNeedsPattern(users[i].email);
    AcceptsOwnEmail(users, i, map["email" := JStr(users[i].email)]);
  }
}
