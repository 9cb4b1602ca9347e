/** Values a request handler works with: optional values, fallible results,
    and the JSON reply an Express handler sends back. */
module Http {

  /** `null`/`undefined` versus a present value */
  datatype Option<+T> = None | Some(value: T)

  /** The outcome of a library call that throws on failure */
  datatype Result<+T, +E> = Success(value: T) | Failure(error: E)

  const OK: int := 200
  const BadRequest: int := 400
  const Unauthorized: int := 401
  const Forbidden: int := 403
  const NotFound: int := 404
  const InternalError: int := 500

  /** A reply: `res.json(body)` with status 200, or `res.status(code).json({ error })`
      (the auth controller names the text `message`; the key is not modelled). */
  datatype Response<+T> = Ok(body: T) | Fail(status: int, message: string) {

    /** The HTTP status code the client sees */
    function Status(): int {
      if Ok? then OK else status
    }
  }

  /** JavaScript truthiness of an optional string: `null`, `undefined` and `""` are falsy */
  predicate Truthy(s: Option<string>) {
    s.Some? && s.value != ""
  }
}
