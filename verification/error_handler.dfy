/**
  The Node back end's final error middleware: it turns a thrown error into
  the JSON error response. Six checks run one after the other, each
  replacing what an earlier one chose, so the last check that applies
  decides; whatever none of them sets falls back to the error's own status,
  code and message.

  An error is described by the few properties the middleware reads. Its
  own `code` may be a number (the database's error numbers) or a string.
 */
module ErrorHandler {
  import opened Wrappers
  import opened Text

  datatype Code = NoCode | Num(n: int) | Str(s: string)

  /** One entry of a validation error: the field path, its message and the offending value. */
  datatype FieldError = FieldError(path: string, message: string, value: string)

  datatype Err = Err(
    name: string,
    code: Code,
    statusCode: Option<int>,
    message: string,
    keyValueKeys: Option<seq<string>>,
    errors: Option<seq<FieldError>>,
    field: Option<string>,
    stack: string)

  /** What one check puts in place of the error. */
  datatype Override = Override(code: string, message: string, statusCode: int, field: Option<string>, errors: Option<seq<FieldError>>)

  datatype Response = Response(statusCode: int, code: Code, message: string,
                               errors: Option<seq<FieldError>>, field: Option<string>, stack: Option<string>)

  /** The middleware answers, or it throws itself (the response is then left to the framework). */
  datatype Outcome = Respond(response: Response) | Throws

  const DuplicateKey: int := 11000
  const RuleCount: nat := 6

  /** The k-th check: bad id, duplicate key, validation, bad token, expired token, rate limit. */
  predicate Matches(err: Err, k: nat) {
    if k == 0 then err.name == "CastError"
    else if k == 1 then err.code == Num(DuplicateKey)
    else if k == 2 then err.name == "ValidationError"
    else if k == 3 then err.name == "JsonWebTokenError"
    else if k == 4 then err.name == "TokenExpiredError"
    else if k == 5 then err.statusCode == Some(429)
    else false
  }

  /** The duplicate-key check reads the first key of `keyValue`, and the validation check the values of `errors`; without them it throws. */
  predicate Throwing(err: Err) {
    || (Matches(err, 1) && (err.keyValueKeys.None? || err.keyValueKeys.value == []))
    || (Matches(err, 2) && err.errors.None?)
  }

  /** `field.charAt(0).toUpperCase() + field.slice(1)`. */
  function Capitalised(field: string): (r: string)
    ensures |r| == |field|
    ensures |field| > 0 ==> r[0] == UpperChar(field[0]) && r[1..] == field[1..]
  {
    if field == [] then [] else [UpperChar(field[0])] + field[1..]
  }

  function OverrideOf(err: Err, k: nat): (o: Override)
    requires k < RuleCount && Matches(err, k) && !Throwing(err)
    ensures k == 0 ==> o.statusCode == 404 && o.code == "RESOURCE_NOT_FOUND"
    ensures k == 1 ==> o.statusCode == 409 && o.code == "DUPLICATE_RESOURCE"
    ensures k == 1 ==> o.message == Capitalised(err.keyValueKeys.value[0]) + " already exists"
    ensures k == 2 ==> o.statusCode == 400 && o.code == "VALIDATION_ERROR" && o.errors == err.errors
    ensures k == 3 ==> o.statusCode == 401 && o.code == "INVALID_TOKEN"
    ensures k == 4 ==> o.statusCode == 401 && o.code == "TOKEN_EXPIRED"
    ensures k == 5 ==> o.statusCode == 429 && o.code == "RATE_LIMIT_EXCEEDED"
    ensures k != 1 ==> o.field.None?
    ensures k != 2 ==> o.errors.None?
    ensures o.message != []
  {
    if k == 0 then Override("RESOURCE_NOT_FOUND", "Resource not found", 404, None, None)
    else if k == 1 then
      var field := err.keyValueKeys.value[0];
      Override("DUPLICATE_RESOURCE", Capitalised(field) + " already exists", 409, Some(field), None)
    else if k == 2 then Override("VALIDATION_ERROR", "Validation failed", 400, None, err.errors)
    else if k == 3 then Override("INVALID_TOKEN", "Invalid token", 401, None, None)
    else if k == 4 then Override("TOKEN_EXPIRED", "Token expired", 401, None, None)
    else Override("RATE_LIMIT_EXCEEDED", "Too many requests, please try again later", 429, None, None)
  }

  /** The checks from `k` on, run in order on what the earlier ones chose. */
  function RunFrom(err: Err, k: nat, chosen: Option<Override>): (r: Option<Override>)
    requires k <= RuleCount && !Throwing(err)
    ensures r.None? <==> chosen.None? && forall j :: k <= j < RuleCount ==> !Matches(err, j)
    ensures r.Some? && (exists j :: k <= j < RuleCount && Matches(err, j)) ==>
      exists j :: k <= j < RuleCount && Matches(err, j) && r.value == OverrideOf(err, j) &&
        forall j' :: j < j' < RuleCount ==> !Matches(err, j')
    ensures (forall j :: k <= j < RuleCount ==> !Matches(err, j)) ==> r == chosen
    ensures (chosen.None? || chosen.value.message != []) ==> (r.None? || r.value.message != [])
    decreases RuleCount - k
  {
    if k == RuleCount then chosen
    else RunFrom(err, k + 1, if Matches(err, k) then Some(OverrideOf(err, k)) else chosen)
  }

  /** The six checks in order: the last one that applies decides. */
  function Chosen(err: Err): (r: Option<Override>)
    requires !Throwing(err)
    ensures r.None? <==> forall j :: 0 <= j < RuleCount ==> !Matches(err, j)
    ensures r.Some? ==>
      exists j :: 0 <= j < RuleCount && Matches(err, j) && r.value == OverrideOf(err, j) &&
        forall j' :: j < j' < RuleCount ==> !Matches(err, j')
    ensures r.Some? ==> r.value.message != []
  {
    RunFrom(err, 0, None)
  }

  /** JavaScript truthiness of a code: a non-zero number or a non-empty string. */
  predicate CodeTruthy(c: Code) {
    (c.Num? && c.n != 0) || (c.Str? && c.s != [])
  }

  /** The middleware: the chosen override, else the error's own values, else the defaults. */
  function Handle(err: Err, development: bool): (r: Outcome)
    ensures r.Throws? <==> Throwing(err)
    ensures r.Respond? ==> (
      var resp := r.response;
      && (resp.stack.Some? <==> development)
      && (development ==> resp.stack == Some(err.stack))
      && resp.message != []
      && (Chosen(err).None? ==>
            && resp.statusCode == (if err.statusCode.Some? && err.statusCode.value != 0 then err.statusCode.value else 500)
            && resp.code == (if CodeTruthy(err.code) then err.code else Str("INTERNAL_ERROR"))
            && resp.message == (if err.message != [] then err.message else "Internal server error"))
      && (Chosen(err).Some? ==>
            && resp.statusCode == Chosen(err).value.statusCode
            && resp.code == Str(Chosen(err).value.code)
            && resp.message == Chosen(err).value.message))
  {
    if Throwing(err) then Throws
    else
      var stack := if development then Some(err.stack) else None;
      match Chosen(err)
      case None => Respond(Fallback(err, stack))
      case Some(o) => Respond(Overridden(o, stack))
  }

  /** No check applied: the error's own status, code and message, else the defaults. */
  function Fallback(err: Err, stack: Option<string>): (resp: Response)
    ensures resp.stack == stack && resp.message != []
    ensures resp.statusCode == (if err.statusCode.Some? && err.statusCode.value != 0 then err.statusCode.value else 500)
    ensures resp.code == (if CodeTruthy(err.code) then err.code else Str("INTERNAL_ERROR"))
    ensures resp.message == (if err.message != [] then err.message else "Internal server error")
  {
    var status := if err.statusCode.Some? && err.statusCode.value != 0 then err.statusCode.value else 500;
    var code := if CodeTruthy(err.code) then err.code else Str("INTERNAL_ERROR");
    var message := if err.message != [] then err.message else "Internal server error";
    var field := if err.field.Some? && err.field.value != [] then err.field else None;
    Response(status, code, message, err.errors, field, stack)
  }

  /** A check applied: its status, code and message. */
  function Overridden(o: Override, stack: Option<string>): (resp: Response)
    ensures resp.stack == stack
    ensures resp.statusCode == o.statusCode && resp.code == Str(o.code) && resp.message == o.message
  {
    var field := if o.field.Some? && o.field.value != [] then o.field else None;
    Response(o.statusCode, Str(o.code), o.message, o.errors, field, stack)
  }

  /** A bad id becomes 404 `RESOURCE_NOT_FOUND` unless a later check also applies. */
  lemma CastErrorIsNotFound(err: Err, development: bool)
    requires err.name == "CastError" && err.code != Num(DuplicateKey) && err.statusCode != Some(429)
    ensures Handle(err, development).Respond?
    ensures Handle(err, development).response.statusCode == 404
    ensures Handle(err, development).response.code == Str("RESOURCE_NOT_FOUND")
  {
    var o := Chosen(err);
    var j :| 0 <= j < RuleCount && Matches(err, j) && o.value == OverrideOf(err, j) &&
      forall j' :: j < j' < RuleCount ==> !Matches(err, j');
    assert j == 0;
  }

  /** A duplicate key names its field, capitalised, in the message. */
  lemma DuplicateKeyMessage(err: Err, development: bool)
    requires err.code == Num(DuplicateKey) && err.keyValueKeys.Some? && err.keyValueKeys.value != []
    requires err.name != "ValidationError" && err.name != "JsonWebTokenError" && err.name != "TokenExpiredError"
    requires err.statusCode != Some(429)
    ensures Handle(err, development).Respond?
    ensures var resp := Handle(err, development).response;
      && resp.statusCode == 409 && resp.code == Str("DUPLICATE_RESOURCE")
      && resp.message == Capitalised(err.keyValueKeys.value[0]) + " already exists"
  {
    var o := Chosen(err);
    var j :| 0 <= j < RuleCount && Matches(err, j) && o.value == OverrideOf(err, j) &&
      forall j' :: j < j' < RuleCount ==> !Matches(err, j');
    assert j == 1;
  }

  /** A rate-limit status overrides everything before it: the last check wins. */
  lemma RateLimitWins(err: Err, development: bool)
    requires err.statusCode == Some(429) && !Throwing(err)
    ensures Handle(err, development) == Respond(Response(429, Str("RATE_LIMIT_EXCEEDED"),
      "Too many requests, please try again later", None, None, if development then Some(err.stack) else None))
  {
    ChosenIsLast(err, 5);
    assert OverrideOf(err, 5).message == "Too many requests, please try again later";
  }

  /** The last check that applies is the one chosen. */
  lemma ChosenIsLast(err: Err, k: nat)
    requires k < RuleCount && Matches(err, k) && !Throwing(err)
    requires forall j :: k < j < RuleCount ==> !Matches(err, j)
    ensures Chosen(err) == Some(OverrideOf(err, k))
  {
    var o := Chosen(err);
    var j :| 0 <= j < RuleCount && Matches(err, j) && o.value == OverrideOf(err, j) &&
      forall j' :: j < j' < RuleCount ==> !Matches(err, j');
    assert j <= k;
    assert j == k;
  }

  /** A validation error lists one entry per field error, in order. */
  lemma ValidationEntries(err: Err, development: bool)
    requires err.name == "ValidationError" && err.errors.Some?
    requires err.code != Num(DuplicateKey) || (err.keyValueKeys.Some? && err.keyValueKeys.value != [])
    requires err.statusCode != Some(429)
    ensures Handle(err, development).Respond?
    ensures var resp := Handle(err, development).response;
      && resp.statusCode == 400 && resp.code == Str("VALIDATION_ERROR") && resp.errors == err.errors
  {
    var o := Chosen(err);
    var j :| 0 <= j < RuleCount && Matches(err, j) && o.value == OverrideOf(err, j) &&
      forall j' :: j < j' < RuleCount ==> !Matches(err, j');
    assert j == 2;
  }

  /** An error none of the checks recognises, with no status and no code of its own, is a 500 `INTERNAL_ERROR`. */
  lemma PlainErrorIsInternal(err: Err, development: bool)
    requires err.name !in {"CastError", "ValidationError", "JsonWebTokenError", "TokenExpiredError"}
    requires err.code == NoCode && err.statusCode.None?
    ensures Handle(err, development).Respond?
    ensures Handle(err, development).response.statusCode == 500
    ensures Handle(err, development).response.code == Str("INTERNAL_ERROR")
  {
    forall j | 0 <= j < RuleCount ensures !Matches(err, j) {
    }
  }
}
