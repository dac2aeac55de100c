/**
  The few request-validation rules the Node routes build with their schema
  library, in its default mode: values are converted before they are
  checked (a string is upper-cased by `uppercase()`, a numeric string
  becomes a number), an empty string is not a valid string, and a default
  replaces only a missing value.
 */
module Joi {
  import opened Wrappers
  import opened Text

  /** A numeric query parameter after `parseInt`: missing, not a number, or an integer. */
  datatype NumArg = Absent | NotANumber | Num(value: int)

  /** `Joi.number().min(lo).max(hi).default(d)`: the checked value, `None` when it is refused. */
  function NumberIn(arg: NumArg, default: int, lo: int, hi: int): (r: Option<int>)
    ensures arg.Absent? ==> r == Some(default)
    ensures arg.NotANumber? ==> r.None?
    ensures arg.Num? ==> (r.Some? <==> lo <= arg.value <= hi)
    ensures arg.Num? && r.Some? ==> r.value == arg.value
  {
    match arg
    case Absent => Some(default)
    case NotANumber => None
    case Num(v) => if lo <= v <= hi then Some(v) else None
  }

  /** `Joi.number().min(lo).default(d)`, with no upper bound. */
  function NumberAtLeast(arg: NumArg, default: int, lo: int): (r: Option<int>)
    ensures arg.Absent? ==> r == Some(default)
    ensures arg.NotANumber? ==> r.None?
    ensures arg.Num? ==> (r.Some? <==> lo <= arg.value)
    ensures arg.Num? && r.Some? ==> r.value == arg.value
  {
    match arg
    case Absent => Some(default)
    case NotANumber => None
    case Num(v) => if lo <= v then Some(v) else None
  }

  /**
    `Joi.string().length(n).uppercase().optional()`: `Some(None)` for a
    missing value, `Some(Some(v))` with `v` upper-cased for an accepted one,
    `None` when it is refused.
   */
  function OptionalCode(s: Option<string>, n: nat): (r: Option<Option<string>>)
    ensures s.None? ==> r == Some(None)
    ensures s.Some? ==> (r.Some? <==> s.value != [] && |s.value| == n)
    ensures s.Some? && r.Some? ==> r.value == Some(Upper(s.value))
  {
    match s
    case None => Some(None)
    case Some(v) => if v != [] && |v| == n then Some(Some(Upper(v))) else None
  }

  /** `Joi.string().valid(...)`: one of the listed values (never the empty string unless listed). */
  predicate OptionalOneOf(s: Option<string>, allowed: set<string>) {
    s.None? || s.value in allowed
  }
}
