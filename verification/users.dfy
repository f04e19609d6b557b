/** The account routes (routes/users.js) over a sequence of stored users
    (models/user-model.js, where the username is a unique index). Like the
    token gate, `/login` and `/verifyJWT` write a response without a
    `return` after it, so each route is modelled as the log of the writes it
    makes, in order. Password hashing, password comparison and token
    signing and verification are parameters. A `fault` stands for the
    document store, or the hashing, throwing with that message. */
module Users {
  import opened Common
  import opened Http
  import Auth

  datatype User = User(id: nat, username: string, password: string)

  type Store = seq<User>

  /** The bodies the routes send. */
  datatype Body =
    | Fail(error: string)                                  // {success: false, error}
    | Registered(message: string, user: User)              // {success: true, message, data}
    | LoggedIn(token: string, id: nat, username: string)   // {token, id, username}
    | Deleted(removed: Option<User>)                       // {success: true, data}
    | Found(users: seq<User>)                              // {success: true, data}
    | TokenStatus(status: bool)                            // {status}
    | TokenStatusError(error: string)                      // {status: false, error}

  datatype Write = Write(status: int, body: Body)

  /** A route's effect on the users and the writes it made. */
  datatype Handled = Handled(store: Store, log: seq<Write>)

  const InvalidPasswordMessage: string := "Invalid password"
  const NoSuchUserMessage: string := "User with that name does not exist. "

  function Named(username: string): User -> bool
  {
    (user: User) => user.username == username
  }

  function WithId(id: nat): User -> bool
  {
    (user: User) => user.id == id
  }

  predicate Taken(store: Store, username: string)
  {
    exists k :: 0 <= k < |store| && store[k].username == username
  }

  /** What the unique index and fresh ids keep true of the collection. */
  predicate Wellformed(store: Store)
  {
    forall i, j :: 0 <= i < j < |store| ==>
      store[i].username != store[j].username && store[i].id != store[j].id
  }

  function CreatedMessage(username: string): string
  {
    "User " + username + " has been created"
  }

  // ---------------------------------------------------------------------
  // POST /users/register

  /** Stores the user with the hash of the password under a fresh id. A
      username already taken breaks the unique index: the store's
      duplicate-key error, whose text is `duplicateMessage`, comes back as a
      500. */
  function RegisterRoute(store: Store, username: string, password: string, hash: string -> string,
                         fault: Option<string>, duplicateMessage: string): (h: Handled)
    ensures |h.log| == 1
    ensures fault.Some? ==> h == Handled(store, [Write(StatusServerError, Fail(fault.value))])
    ensures fault.None? && Taken(store, username) ==>
      h == Handled(store, [Write(StatusServerError, Fail(duplicateMessage))])
    ensures fault.None? && !Taken(store, username) ==>
      |h.store| == |store| + 1 && h.store[..|store|] == store
      && var user := h.store[|store|];
        user.username == username && user.password == hash(password)
        && (forall k :: 0 <= k < |store| ==> store[k].id != user.id)
        && h.log == [Write(StatusOk, Registered(CreatedMessage(username), user))]
  {
    match fault
    case Some(message) => Handled(store, [Write(StatusServerError, Fail(message))])
    case None =>
      if Taken(store, username) then Handled(store, [Write(StatusServerError, Fail(duplicateMessage))])
      else
        var user := User(FreshId(IdsOf(store, (x: User) => x.id)), username, hash(password));
        assert (store + [user])[..|store|] == store;
        Handled(store + [user], [Write(StatusOk, Registered(CreatedMessage(username), user))])
  }

  /** Registration keeps usernames and ids unique. */
  lemma RegisterKeepsWellformed(store: Store, username: string, password: string, hash: string -> string,
                                fault: Option<string>, duplicateMessage: string)
    requires Wellformed(store)
    ensures Wellformed(RegisterRoute(store, username, password, hash, fault, duplicateMessage).store)
  {
    var h := RegisterRoute(store, username, password, hash, fault, duplicateMessage);
    if fault.None? && !Taken(store, username) {
      forall i, j | 0 <= i < j < |h.store|
        ensures h.store[i].username != h.store[j].username && h.store[i].id != h.store[j].id
      {
        if j == |store| {
          assert h.store[i] == store[i];
          assert store[i].username != username;
        } else {
          assert h.store[i] == store[i] && h.store[j] == store[j];
        }
      }
    }
  }

  /** The plaintext password is never what is stored, as long as the hash
      never returns its input. */
  lemma RegisterStoresOnlyHash(store: Store, username: string, password: string, hash: string -> string,
                               duplicateMessage: string)
    requires forall p :: hash(p) != p
    ensures var h := RegisterRoute(store, username, password, hash, None, duplicateMessage);
      forall k :: |store| <= k < |h.store| ==> h.store[k].password != password
  {
  }

  // ---------------------------------------------------------------------
  // POST /users/login

  /** Looks the user up by name and compares the password. A missing user
      makes the lookup of `dbUser[0].password` throw; that, like any other
      error, is answered with the fixed "does not exist" message. A wrong
      password is answered 500, and the route then goes on to sign a token
      and write it as well. */
  function LoginRoute(store: Store, username: string, password: string,
                      compare: (string, string) -> bool, sign: nat -> string,
                      fault: Option<string>): (h: Handled)
    ensures h.store == store
    ensures fault.Some? || !Taken(store, username) ==>
      h.log == [Write(StatusServerError, Fail(NoSuchUserMessage))]
    ensures fault.None? && Taken(store, username) ==>
      |Filter(store, Named(username))| > 0 && |h.log| > 0
      && var user := Filter(store, Named(username))[0];
      user.username == username
      && h.log[|h.log| - 1] == Write(StatusOk, LoggedIn(sign(user.id), user.id, username))
      && (compare(password, user.password) ==> |h.log| == 1)
      && (!compare(password, user.password) ==>
            |h.log| == 2 && h.log[0] == Write(StatusServerError, Fail(InvalidPasswordMessage)))
  {
    FoundExactlyWhenTaken(store, username);
    var found := Filter(store, Named(username));
    if fault.Some? || |found| == 0 then
      Handled(store, [Write(StatusServerError, Fail(NoSuchUserMessage))])
    else
      var user := found[0];
      var issued := Write(StatusOk, LoggedIn(sign(user.id), user.id, username));
      if compare(password, user.password) then Handled(store, [issued])
      else Handled(store, [Write(StatusServerError, Fail(InvalidPasswordMessage)), issued])
  }

  /** The lookup by name finds someone exactly when the name is taken. */
  lemma FoundExactlyWhenTaken(store: Store, username: string)
    ensures |Filter(store, Named(username))| > 0 <==> Taken(store, username)
  {
    var found := Filter(store, Named(username));
    FilterMultiset(store, Named(username));
    if Taken(store, username) {
      var k :| 0 <= k < |store| && store[k].username == username;
      assert multiset(found)[store[k]] > 0;
    }
    if |found| > 0 {
      assert multiset(found)[found[0]] > 0;
      assert found[0] in multiset(store);
    }
  }

  /** Whether a token write is attempted depends only on the username
      existing: after the 500 for a wrong password the route still tries to
      write a token. */
  lemma TokenIssuedRegardlessOfPassword(store: Store, username: string, p1: string, p2: string,
                                        compare: (string, string) -> bool, sign: nat -> string)
    ensures var l1 := LoginRoute(store, username, p1, compare, sign, None).log;
      var l2 := LoginRoute(store, username, p2, compare, sign, None).log;
      l1[|l1| - 1] == l2[|l2| - 1]
  {
  }

  /** Registering and then logging in with the same password writes one
      token for the new user. */
  lemma RegisterThenLogin(store: Store, username: string, password: string, hash: string -> string,
                          compare: (string, string) -> bool, sign: nat -> string, duplicateMessage: string)
    requires !Taken(store, username)
    requires compare(password, hash(password))
    ensures var registered := RegisterRoute(store, username, password, hash, None, duplicateMessage);
      var user := registered.store[|store|];
      LoginRoute(registered.store, username, password, compare, sign, None).log
        == [Write(StatusOk, LoggedIn(sign(user.id), user.id, username))]
  {
    var registered := RegisterRoute(store, username, password, hash, None, duplicateMessage);
    var user := registered.store[|store|];
    assert registered.store == store + [user];
    FilterAppend(store, [user], Named(username));
    FilterNone(store, Named(username));
    assert Filter([user], Named(username)) == [user] by {
      assert [user][1..] == [];
    }
  }

  // ---------------------------------------------------------------------
  // POST /users/verifyJWT

  /** Answers `{status: false}` when the header is missing and goes on; then
      answers `{status: false}` for a falsy payload and goes on; then
      answers `{status: true}`. A verifier that throws is answered 500. */
  function VerifyTokenRoute(headers: Auth.Headers, verify: Option<string> -> Auth.Verified): (log: seq<Write>)
    ensures |log| > 0
    ensures Auth.Missing(Auth.TokenOf(headers)) ==> log[0] == Write(StatusOk, TokenStatus(false))
    ensures !Auth.Missing(Auth.TokenOf(headers)) && !verify(Auth.TokenOf(headers)).Falsy? ==> |log| == 1
    ensures log[|log| - 1] == Write(StatusOk, TokenStatus(true)) <==> !verify(Auth.TokenOf(headers)).Threw?
    ensures verify(Auth.TokenOf(headers)).Threw? ==>
      log[|log| - 1] == Write(StatusServerError, TokenStatusError(verify(Auth.TokenOf(headers)).message))
  {
    var token := Auth.TokenOf(headers);
    var first := if Auth.Missing(token) then [Write(StatusOk, TokenStatus(false))] else [];
    match verify(token)
    case Threw(message) => first + [Write(StatusServerError, TokenStatusError(message))]
    case Decoded(_) => first + [Write(StatusOk, TokenStatus(true))]
    case Falsy(_) => first + [Write(StatusOk, TokenStatus(false)), Write(StatusOk, TokenStatus(true))]
  }

  /** A present, valid token gets a single `{status: true}`. */
  lemma ValidTokenConfirmed(headers: Auth.Headers, verify: Option<string> -> Auth.Verified, id: Option<nat>)
    requires !Auth.Missing(Auth.TokenOf(headers))
    requires verify(Auth.TokenOf(headers)) == Auth.Decoded(id)
    ensures VerifyTokenRoute(headers, verify) == [Write(StatusOk, TokenStatus(true))]
  {
  }

  /** This route and the gate read the same header and call the verifier
      the same way: the route ends in `{status: true}` exactly when the gate
      reaches `next()` or stops on reading `.id` of a nullish payload. */
  lemma RouteAgreesWithGate(headers: Auth.Headers, verify: Option<string> -> Auth.Verified)
    ensures var log := VerifyTokenRoute(headers, verify);
      var g := Auth.Authenticate(headers, verify);
      (log[|log| - 1] == Write(StatusOk, TokenStatus(true)))
      <==> (g.next || verify(Auth.TokenOf(headers)).Falsy?)
  {
  }

  // ---------------------------------------------------------------------
  // DELETE /users/delete and GET /users/getUserInfo, behind the gate

  /** Removes the user whose id is the token's subject, answering with it
      (or with nothing when there is none). */
  function DeleteRoute(store: Store, id: nat, fault: Option<string>): (h: Handled)
    ensures |h.log| == 1
    ensures fault.Some? ==> h == Handled(store, [Write(StatusServerError, Fail(fault.value))])
    ensures fault.None? && (forall k :: 0 <= k < |store| ==> store[k].id != id) ==>
      h == Handled(store, [Write(StatusOk, Deleted(None))])
    ensures fault.None? && (exists k :: 0 <= k < |store| && store[k].id == id) ==>
      |h.store| == |store| - 1 && h.log[0].status == StatusOk
      && h.log[0].body.Deleted? && h.log[0].body.removed.Some? && h.log[0].body.removed.value.id == id
      && multiset(h.store) == multiset(store) - multiset{h.log[0].body.removed.value}
  {
    match fault
    case Some(message) => Handled(store, [Write(StatusServerError, Fail(message))])
    case None =>
      match FirstIndex(store, WithId(id))
      case None => Handled(store, [Write(StatusOk, Deleted(None))])
      case Some(i) => Handled(RemoveAt(store, i), [Write(StatusOk, Deleted(Some(store[i])))])
  }

  /** The users whose id is the token's subject. */
  function UserInfoRoute(store: Store, id: nat, fault: Option<string>): (h: Handled)
    ensures h.store == store && |h.log| == 1
    ensures fault.Some? ==> h.log == [Write(StatusServerError, Fail(fault.value))]
    ensures fault.None? ==> h.log == [Write(StatusOk, Found(Filter(store, WithId(id))))]
  {
    match fault
    case Some(message) => Handled(store, [Write(StatusServerError, Fail(message))])
    case None => Handled(store, [Write(StatusOk, Found(Filter(store, WithId(id))))])
  }

  /** With unique ids the lookup finds at most one user, and exactly the
      one that is there. */
  lemma {:induction false} UserInfoAtMostOne(store: Store, id: nat)
    requires Wellformed(store)
    ensures |Filter(store, WithId(id))| <= 1
    ensures forall k :: 0 <= k < |store| && store[k].id == id ==> Filter(store, WithId(id)) == [store[k]]
    decreases |store|
  {
    if |store| > 0 {
      UserInfoAtMostOne(store[1..], id);
      if store[0].id == id {
        assert forall k :: 0 <= k < |store[1..]| ==> store[1..][k].id != id by {
          forall k | 0 <= k < |store[1..]|
            ensures store[1..][k].id != id
          {
            assert store[1..][k] == store[k + 1];
          }
        }
        FilterNone(store[1..], WithId(id));
      }
      forall k | 0 <= k < |store| && store[k].id == id
        ensures Filter(store, WithId(id)) == [store[k]]
      {
        if k > 0 {
          assert store[1..][k - 1] == store[k];
        }
      }
    }
  }

  /** After deleting their account, a user's info lookup comes back empty. */
  lemma DeleteThenUserInfo(store: Store, id: nat)
    requires Wellformed(store)
    ensures var after := DeleteRoute(store, id, None).store;
      UserInfoRoute(after, id, None).log == [Write(StatusOk, Found([]))]
  {
    match FirstIndex(store, WithId(id)) {
      case None =>
        FilterNone(store, WithId(id));
      case Some(i) =>
        var after := RemoveAt(store, i);
        forall k | 0 <= k < |after|
          ensures after[k].id != id
        {
          if k < i {
            assert after[k] == store[k];
          } else {
            assert after[k] == store[k + 1];
          }
        }
        FilterNone(after, WithId(id));
    }
  }
}
