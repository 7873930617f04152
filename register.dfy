/** Account registration: the field checks in the order the handler runs them, then the insert
    of a non-admin user whose stored password is the hash of the submitted one. Hashing belongs
    to a password-hashing library and is a parameter here. */
module Registration {
  import opened Schema

  const MSG_MISSING: string := "用户名和密码不能为空"
  const MSG_USERNAME_LENGTH: string := "用户名长度需3-20位"
  const MSG_PASSWORD_LENGTH: string := "密码长度至少6位"
  const MSG_USERNAME_TAKEN: string := "用户名已存在"
  const MSG_REGISTERED: string := "注册成功，请登录"

  const MIN_USERNAME: int := 3
  const MAX_USERNAME: int := 20
  const MIN_PASSWORD: int := 6

  /** `SELECT id FROM users WHERE username = ?` finds a row. */
  predicate UsernameTaken(users: seq<User>, username: string)
  {
    exists i :: 0 <= i < |users| && users[i].username == username
  }

  predicate UsernameLengthOk(username: string)
  {
    MIN_USERNAME <= |username| <= MAX_USERNAME
  }

  predicate PasswordLengthOk(password: string)
  {
    |password| >= MIN_PASSWORD
  }

  /** The message of the first check that fails, or None when the account can be created. */
  function Rejection(users: seq<User>, username: Option<string>, password: Option<string>): (r: Option<string>)
    ensures r.None? <==>
      && Present(username) && Present(password)
      && UsernameLengthOk(username.value) && PasswordLengthOk(password.value)
      && !UsernameTaken(users, username.value)
    ensures !(Present(username) && Present(password)) ==> r == Some(MSG_MISSING)
    ensures Present(username) && Present(password) && !UsernameLengthOk(username.value) ==>
      r == Some(MSG_USERNAME_LENGTH)
    ensures Present(username) && Present(password) && UsernameLengthOk(username.value)
            && !PasswordLengthOk(password.value) ==>
      r == Some(MSG_PASSWORD_LENGTH)
    ensures Present(username) && Present(password) && UsernameLengthOk(username.value)
            && PasswordLengthOk(password.value) && UsernameTaken(users, username.value) ==>
      r == Some(MSG_USERNAME_TAKEN)
  {
    if !Present(username) || !Present(password) then Some(MSG_MISSING)
    else if |username.value| < MIN_USERNAME || |username.value| > MAX_USERNAME then Some(MSG_USERNAME_LENGTH)
    else if |password.value| < MIN_PASSWORD then Some(MSG_PASSWORD_LENGTH)
    else if UsernameTaken(users, username.value) then Some(MSG_USERNAME_TAKEN)
    else None
  }

  /** The inserted row: `is_admin` takes the column default 0 and `created_at` the insert time. */
  function NewUser(id: int, username: string, hashed: string, now: int): (u: User)
    ensures u.id == id && u.username == username && u.password == hashed
    ensures u.isAdmin == 0 && u.createdAt == now
  {
    User(id, username, hashed, 0, now)
  }

  /** The registration handler. `hash` is the password-hashing function and `now` the insert
      time. */
  method Register(db: Database, username: Option<string>, password: Option<string>,
                  hash: string -> string, now: int)
    returns (reply: Reply<()>)
    requires db.Valid()
    modifies db`users, db`nextUserId
    ensures db.Valid()
    ensures Rejection(old(db.users), username, password).Some? ==>
      && reply == Failure(400, Rejection(old(db.users), username, password).value)
      && unchanged(db`users, db`nextUserId)
    ensures Rejection(old(db.users), username, password).None? ==>
      && reply == Success(MSG_REGISTERED, ())
      && db.users == old(db.users) + [NewUser(old(db.nextUserId), username.value, hash(password.value), now)]
      && db.nextUserId == old(db.nextUserId) + 1
  {
    var rejection := Rejection(db.users, username, password);
    if rejection.Some? {
      return Failure(400, rejection.value);
    }
    var u := NewUser(db.nextUserId, username.value, hash(password.value), now);
    AddedUserKeepsValid(db.users, db.nextUserId, u);
    db.users := db.users + [u];
    db.nextUserId := db.nextUserId + 1;
    reply := Success(MSG_REGISTERED, ());
  }

  /** Inserting a user under a fresh id and a free username keeps ids and usernames unique. */
  lemma AddedUserKeepsValid(users: seq<User>, nextId: int, u: User)
    requires UsersValid(users, nextId)
    requires u.id == nextId && !UsernameTaken(users, u.username)
    ensures UsersValid(users + [u], nextId + 1)
  {
    var s := users + [u];
    forall i, j | 0 <= i < j < |s| ensures s[i].username != s[j].username {
      if j == |users| {
        assert s[i] == users[i];
      }
    }
  }

  /** A successful registration makes the username taken, so registering it again is refused
      whatever the password. */
  lemma {:induction false} RegisteredNameIsTaken(users: seq<User>, id: int, username: string, hashed: string,
                                                 now: int, password: Option<string>)
    requires Present(password) && PasswordLengthOk(password.value) && UsernameLengthOk(username)
    ensures Rejection(users + [NewUser(id, username, hashed, now)], Some(username), password)
              == Some(MSG_USERNAME_TAKEN)
  {
    var s := users + [NewUser(id, username, hashed, now)];
    assert s[|users|].username == username;
  }
}
