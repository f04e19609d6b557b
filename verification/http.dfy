/** The API's reply conventions. Most routes answer `{success: true, data}`
    with status 200, and every route wraps its body in a try/catch that
    answers `{success: false, error: error.message}` with status 500. The
    document store is opaque: whether a store call throws, and with which
    message, is a `fault` the caller passes in. */
module Http {
  import opened Common

  const StatusOk: int := 200
  const StatusUnauthorized: int := 401
  const StatusServerError: int := 500

  /** `{success: true, data}` or `{success: false, error}`. */
  datatype Envelope<+T> = Succeeded(data: T) | Failed(error: string)

  datatype Reply<+T> = Reply(status: int, body: Envelope<T>)

  /** A route's effect on its collection together with its reply. */
  datatype Outcome<S, +T> = Outcome(store: S, reply: Reply<T>)

  function Ok<T>(data: T): Reply<T>
  {
    Reply(StatusOk, Succeeded(data))
  }

  function ServerError<T>(message: string): Reply<T>
  {
    Reply(StatusServerError, Failed(message))
  }

  /** The catch block shared by the routes: a store call that throws leaves
      the collection as it was and answers 500 with the thrown message;
      otherwise the route's own outcome stands. */
  function Guard<S, T>(store: S, fault: Option<string>, done: Outcome<S, T>): (o: Outcome<S, T>)
    ensures fault.Some? ==> o.store == store && o.reply == ServerError(fault.value)
    ensures fault.None? ==> o == done
  {
    match fault
    case Some(message) => Outcome(store, ServerError(message))
    case None => done
  }
}
