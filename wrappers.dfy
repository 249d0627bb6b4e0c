/** Result types shared by the whole model: optional values, HTTP replies and
    what an async Express handler can end in. */
module Wrappers {

  /** A value that may be absent: a missing JSON field, `undefined`, SQL NULL. */
  datatype Option<+T> = None | Some(value: T)

  /** A reply written by a handler: a status code with the success body, or a
      status code with the `{ error: ... }` body every failure of this
      backend uses. */
  datatype Reply<+T> = Ok(code: nat, body: T) | Fail(code: nat, error: string)

  /** Why a database call threw. `UniqueViolation` is PostgreSQL's error code
      23505; `Rejected` is a statement PostgreSQL refuses (a negative LIMIT or
      OFFSET, an id that is not an integer); `Unavailable` is any other failure
      of the connection. */
  datatype DbError = UniqueViolation | Rejected | Unavailable

  /** A failure of the database that no statement of a handler causes by
      itself: the connection drops, the server refuses work. A unique
      violation only comes from a duplicate the table actually holds, so it
      is not one of these. */
  type StoreFault = e: DbError | e != UniqueViolation witness Unavailable

  /** The end of an async route handler: it wrote a reply, or its promise
      rejected and the error went on to the next error middleware. */
  datatype Outcome<+T> = Replied(reply: Reply<T>) | Threw(cause: DbError)
}
