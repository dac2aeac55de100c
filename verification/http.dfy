/**
  Query arguments and the outcome of a route handler: a success status with a payload, or an
  error status with the machine-readable `code` string of the response body.
 */
module Http {
  datatype Reply<T> = Ok(status: nat, value: T) | Fail(status: nat, code: string)

  /** An integer query argument: absent, text `int()` cannot read, or a whole number. */
  datatype IntArg = Missing | Unreadable | Int(value: int)
}
