/** The token gate in front of the protected routes (authentication.js).
    Its two failure answers are not followed by a `return`, so after
    writing one it carries on: it still calls `jwt.verify`, still reads
    `.id` from the result, and may still call `next()`. The model records
    every response write, in order, in a log, and says whether `next()` was
    reached. The log is append-only: the later write that Express refuses
    once headers have gone out is recorded like any other.

    `jwt.verify` is a parameter: given the header's value (None when the
    header is absent) it returns a decoded payload, a falsy value, or
    throws. */
module Auth {
  import opened Common
  import opened Http

  /** Request headers by lower-case name. */
  type Headers = map<string, string>

  const TokenHeader: string := "auth-token"

  const NoTokenMessage: string := "No authentication token was found"
  const InvalidTokenMessage: string := "Invalid authentication token"

  /** The falsy values JavaScript has that a verifier could hand back. */
  datatype FalsyValue = Null | Undefined | False | Zero | EmptyString

  /** What `jwt.verify` does with a token. A decoded payload may lack `id`. */
  datatype Verified = Decoded(id: Option<nat>) | Falsy(value: FalsyValue) | Threw(message: string)

  /** A response the gate writes: `{success: false, error}` with a status. */
  datatype Write = Write(status: int, error: string)

  /** The writes made, whether `next()` was called, and `req.user` then. */
  datatype Gate = Gate(log: seq<Write>, next: bool, user: Option<nat>)

  /** `req.header("auth-token")`; no other header is read. */
  function TokenOf(headers: Headers): (t: Option<string>)
    ensures t.Some? <==> TokenHeader in headers
    ensures t.Some? ==> t.value == headers[TokenHeader]
  {
    if TokenHeader in headers then Some(headers[TokenHeader]) else None
  }

  /** `!JWT`: a header value is falsy when absent or empty. */
  predicate Missing(token: Option<string>)
  {
    token.None? || token.value == ""
  }

  /** The TypeError reading `.id` of `null` or `undefined` raises. */
  function ReadIdMessage(value: FalsyValue): string
    requires value == Null || value == Undefined
  {
    if value == Null then "Cannot read properties of null (reading 'id')"
    else "Cannot read properties of undefined (reading 'id')"
  }

  /** Whether the gate goes on to `next()` once the verifier has answered. */
  predicate Passes(v: Verified)
  {
    match v
    case Decoded(_) => true
    case Falsy(value) => value != Null && value != Undefined
    case Threw(_) => false
  }

  /** What the gate writes from the `jwt.verify` call on: a throw is caught
      and answered 500; a falsy payload is answered 401 and then read for
      `.id`, which throws for `null` and `undefined`. */
  function AfterVerify(v: Verified): (g: Gate)
    ensures g.next <==> Passes(v)
    ensures g.next ==> g.user == (if v.Decoded? then v.id else None)
    ensures v.Threw? ==> g.log == [Write(StatusServerError, v.message)]
    ensures v.Decoded? ==> g.log == []
    ensures v.Falsy? ==> |g.log| > 0 && g.log[0] == Write(StatusUnauthorized, InvalidTokenMessage)
    ensures v.Falsy? && Passes(v) ==> g.log == [Write(StatusUnauthorized, InvalidTokenMessage)]
    ensures v.Falsy? && !Passes(v) ==>
      g.log == [Write(StatusUnauthorized, InvalidTokenMessage), Write(StatusServerError, ReadIdMessage(v.value))]
    ensures |g.log| > 0 ==> g.log[0] != Write(StatusUnauthorized, NoTokenMessage)
    ensures forall k :: 0 <= k < |g.log| ==>
      g.log[k].status == StatusUnauthorized || g.log[k].status == StatusServerError
  {
    match v
    case Threw(message) => Gate([Write(StatusServerError, message)], false, None)
    case Decoded(id) => Gate([], true, id)
    case Falsy(value) =>
      if value == Null || value == Undefined
      then Gate([Write(StatusUnauthorized, InvalidTokenMessage),
                 Write(StatusServerError, ReadIdMessage(value))], false, None)
      else Gate([Write(StatusUnauthorized, InvalidTokenMessage)], true, None)
  }

  /** `authentication(req, res, next)`: the 401 for a missing token, then
      whatever the verifier's answer leads to. */
  function Authenticate(headers: Headers, verify: Option<string> -> Verified): (g: Gate)
    ensures Missing(TokenOf(headers)) <==> |g.log| > 0 && g.log[0] == Write(StatusUnauthorized, NoTokenMessage)
    ensures g.next <==> Passes(verify(TokenOf(headers)))
    ensures g.next ==> g.user == (match verify(TokenOf(headers)) case Decoded(id) => id case _ => None)
    ensures verify(TokenOf(headers)).Threw? ==>
      |g.log| > 0 && g.log[|g.log| - 1] == Write(StatusServerError, verify(TokenOf(headers)).message)
    ensures forall k :: 0 <= k < |g.log| ==>
      g.log[k].status == StatusUnauthorized || g.log[k].status == StatusServerError
  {
    var token := TokenOf(headers);
    var first := if Missing(token) then [Write(StatusUnauthorized, NoTokenMessage)] else [];
    var rest := AfterVerify(verify(token));
    rest.(log := first + rest.log)
  }

  // ---------------------------------------------------------------------
  // Properties

  /** Only the `auth-token` header matters. */
  lemma OnlyTokenHeaderRead(h1: Headers, h2: Headers, verify: Option<string> -> Verified)
    requires TokenHeader in h1 <==> TokenHeader in h2
    requires TokenHeader in h1 ==> h1[TokenHeader] == h2[TokenHeader]
    ensures Authenticate(h1, verify) == Authenticate(h2, verify)
  {
    assert TokenOf(h1) == TokenOf(h2);
  }

  /** A valid token passes silently with its subject as `req.user`. */
  lemma ValidTokenPasses(headers: Headers, verify: Option<string> -> Verified, id: nat)
    requires TokenHeader in headers && headers[TokenHeader] != ""
    requires verify(Some(headers[TokenHeader])) == Decoded(Some(id))
    ensures Authenticate(headers, verify) == Gate([], true, Some(id))
  {
  }

  /** With no token the gate writes its 401 and carries on to the verifier;
      the usual verifier throws on a missing token, which adds a 500 after
      the 401 and stops there. */
  lemma NoTokenFallsThrough(headers: Headers, verify: Option<string> -> Verified, message: string)
    requires TokenHeader !in headers
    requires verify(None) == Threw(message)
    ensures Authenticate(headers, verify) ==
      Gate([Write(StatusUnauthorized, NoTokenMessage), Write(StatusServerError, message)], false, None)
  {
  }

  /** Nothing after the 401 stops the request: a verifier that accepted a
      missing token would see the route run with the 401 already written. */
  lemma NoTokenCanStillReachRoute(headers: Headers, verify: Option<string> -> Verified, id: nat)
    requires TokenHeader !in headers
    requires verify(None) == Decoded(Some(id))
    ensures var g := Authenticate(headers, verify);
      g.next && g.user == Some(id) && g.log == [Write(StatusUnauthorized, NoTokenMessage)]
  {
  }

  /** A falsy payload is answered 401 and then, unless it is `null` or
      `undefined`, let through with no user. */
  lemma FalsyPayloadLetThrough(headers: Headers, verify: Option<string> -> Verified)
    requires !Missing(TokenOf(headers))
    requires verify(TokenOf(headers)) == Falsy(False) || verify(TokenOf(headers)) == Falsy(Zero)
      || verify(TokenOf(headers)) == Falsy(EmptyString)
    ensures Authenticate(headers, verify) == Gate([Write(StatusUnauthorized, InvalidTokenMessage)], true, None)
  {
  }

  /** A `null` or `undefined` payload is answered 401, and reading its `.id`
      then throws: the catch block adds a 500 and `next()` is not called. */
  lemma NullishPayloadStops(headers: Headers, verify: Option<string> -> Verified, value: FalsyValue)
    requires !Missing(TokenOf(headers))
    requires value == Null || value == Undefined
    requires verify(TokenOf(headers)) == Falsy(value)
    ensures Authenticate(headers, verify) ==
      Gate([Write(StatusUnauthorized, InvalidTokenMessage), Write(StatusServerError, ReadIdMessage(value))],
           false, None)
  {
  }

  /** Whenever `next()` runs, no 500 has been written. */
  lemma NextOnlyWithoutServerError(headers: Headers, verify: Option<string> -> Verified)
    ensures var g := Authenticate(headers, verify);
      g.next ==> forall k :: 0 <= k < |g.log| ==> g.log[k].status == StatusUnauthorized
  {
  }
}
