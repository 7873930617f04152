/** Sign-in: the user is looked up by username, the submitted password is checked against the
    stored hash, and a session token is signed for seven days. The password comparison and the
    token signing belong to libraries and are parameters here: `matches(password, hashed)` is the
    hash library's comparison, `sign(claims)` the signed token. */
module Login {
  import opened Schema
  import opened Registration
  import opened Gateway

  const MSG_BAD_CREDENTIALS: string := "用户名或密码错误"
  const MSG_LOGGED_IN: string := "登录成功"

  /** `expiresIn: '7d'`, in seconds. */
  const TOKEN_LIFETIME: int := 7 * 24 * 60 * 60

  /** `user: { id, username, is_admin }`: the user as returned, without the password. */
  datatype UserInfo = UserInfo(id: int, username: string, isAdmin: int)

  /** `data: { token, user }`. */
  datatype Session = Session(token: string, user: UserInfo)

  /** `SELECT ... FROM users WHERE username = ?` with `.first()`: the first such row. */
  function FindByUsername(users: seq<User>, username: string): (r: Option<User>)
    ensures r.Some? ==> r.value in users && r.value.username == username
    ensures r.None? <==> !UsernameTaken(users, username)
  {
    if users == [] then None
    else if users[0].username == username then Some(users[0])
    else
      var r := FindByUsername(users[1..], username);
      assert r.None? ==> !UsernameTaken(users, username) by {
        if r.None? {
          forall i | 0 <= i < |users| ensures users[i].username != username {
            if i > 0 { assert users[i] == users[1..][i - 1]; }
          }
        }
      }
      assert UsernameTaken(users[1..], username) ==> UsernameTaken(users, username) by {
        if UsernameTaken(users[1..], username) {
          var k :| 0 <= k < |users[1..]| && users[1..][k].username == username;
          assert users[k + 1].username == username;
        }
      }
      r
  }

  /** The claim set signed into the token: identity, admin flag, issue time and expiry. */
  function ClaimsFor(u: User, now: int): (c: Claims)
    ensures c.id == u.id && c.username == u.username && c.isAdmin == u.isAdmin
    ensures c.iat == now && c.exp - c.iat == TOKEN_LIFETIME
  {
    Claims(u.id, u.username, u.isAdmin, now, now + TOKEN_LIFETIME)
  }

  /** The sign-in handler. Both an unknown username and a wrong password get the same 400
      reply, so the reply does not reveal which usernames exist. */
  function Authenticate(users: seq<User>, username: Option<string>, password: Option<string>,
                        matches: (string, string) -> bool, sign: Claims -> string, now: int)
    : (r: Reply<Session>)
    ensures !(Present(username) && Present(password)) ==> r == Failure(400, MSG_MISSING)
    ensures Present(username) && Present(password) ==>
      (r.Success? <==>
        FindByUsername(users, username.value).Some?
        && matches(password.value, FindByUsername(users, username.value).value.password))
    ensures Present(username) && Present(password) && r.Failure? ==> r == Failure(400, MSG_BAD_CREDENTIALS)
    ensures r.Success? ==>
      var u := FindByUsername(users, username.value).value;
      && r.message == MSG_LOGGED_IN
      && r.data.user == UserInfo(u.id, u.username, u.isAdmin)
      && r.data.token == sign(ClaimsFor(u, now))
  {
    if !Present(username) || !Present(password) then Failure(400, MSG_MISSING)
    else
      match FindByUsername(users, username.value)
      case None => Failure(400, MSG_BAD_CREDENTIALS)
      case Some(u) =>
        if !matches(password.value, u.password) then Failure(400, MSG_BAD_CREDENTIALS)
        else Success(MSG_LOGGED_IN, Session(sign(ClaimsFor(u, now)), UserInfo(u.id, u.username, u.isAdmin)))
  }

  /** With unique usernames the lookup finds the one user holding the name. */
  lemma {:induction false} FindsTheHolder(users: seq<User>, nextId: int, i: int)
    requires UsersValid(users, nextId)
    requires 0 <= i < |users|
    ensures FindByUsername(users, users[i].username) == Some(users[i])
  {
    var r := FindByUsername(users, users[i].username);
    var k :| 0 <= k < |users| && users[k] == r.value;
    assert k == i;
  }

  /** An account just created by registration can sign in with the password it was registered
      with, provided the comparison accepts a password against its own hash; the session names
      the new user and is not an admin session. */
  lemma RegisteredUserCanSignIn(users: seq<User>, nextId: int, username: string, password: string,
                                hash: string -> string, matches: (string, string) -> bool,
                                sign: Claims -> string, registeredAt: int, now: int)
    requires UsersValid(users, nextId)
    requires Rejection(users, Some(username), Some(password)).None?
    requires matches(password, hash(password))
    ensures var r := Authenticate(users + [NewUser(nextId, username, hash(password), registeredAt)],
                                  Some(username), Some(password), matches, sign, now);
            r.Success? && r.data.user == UserInfo(nextId, username, 0)
  {
    var u := NewUser(nextId, username, hash(password), registeredAt);
    AddedUserKeepsValid(users, nextId, u);
    FindsTheHolder(users + [u], nextId + 1, |users|);
  }

  /** A password that the comparison rejects against the stored hash never signs in, whether
      or not the name exists: the reply is the same 400 either way. */
  lemma WrongPasswordLooksLikeUnknownUser(users: seq<User>, username: string, password: string,
                                          matches: (string, string) -> bool, sign: Claims -> string, now: int)
    requires username != "" && password != ""
    requires forall u :: u in users && u.username == username ==> !matches(password, u.password)
    ensures Authenticate(users, Some(username), Some(password), matches, sign, now)
              == Authenticate([], Some(username), Some(password), matches, sign, now)
              == Failure(400, MSG_BAD_CREDENTIALS)
  {
  }

  /** A token issued at sign-in opens the gateway: when the signing library verifies its own
      token back to the signed claims and the token holds no space, a request carrying it as a
      bearer header on a guarded path is dispatched with those claims, except that a non-admin
      session is refused in the admin namespace. */
  lemma {:induction false} SessionPassesGateway(users: seq<User>, username: string, password: string,
                                                matches: (string, string) -> bool, sign: Claims -> string,
                                                verify: string -> Option<Claims>, now: int, req: Request)
    requires Authenticate(users, Some(username), Some(password), matches, sign, now).Success?
    requires var token := Authenticate(users, Some(username), Some(password), matches, sign, now).data.token;
             && ' ' !in token
             && verify(token) == Some(ClaimsFor(FindByUsername(users, username).value, now))
             && req.authorization == Some(BEARER_PREFIX + token)
    requires Guarded(req)
    ensures var c := ClaimsFor(FindByUsername(users, username).value, now);
            Decide(req, verify) == (if StartsWith(req.path, ADMIN_PREFIX) && c.isAdmin == 0 then NotAdmin(c) else Dispatch(c))
  {
    var token := Authenticate(users, Some(username), Some(password), matches, sign, now).data.token;
    var header := BEARER_PREFIX + token;
    assert header[..|BEARER_PREFIX|] == BEARER_PREFIX;
    BearerTokenIsSecondField(header);
  }
}
