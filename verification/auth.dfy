/**
 * Registration and login (src/utils/auth.py) over an abstract user table.
 * The password hash is a parameter, a deterministic function of the
 * password; the login time is a parameter too.
 */
module Auth {
  import opened Wrappers

  /** A row of the users table. */
  datatype User = User(id: nat, username: string, passwordHash: string, lastLogin: Option<int>)

  /** The users table: rows keyed by username, and the next auto-increment id. */
  datatype Users = Users(byName: map<string, User>, nextId: nat)

  /** Every row sits under its own username, and ids are distinct and below the next id. */
  predicate Valid(db: Users) {
    && (forall name :: name in db.byName ==> db.byName[name].username == name && db.byName[name].id < db.nextId)
    && (forall a, b :: a in db.byName && b in db.byName && a != b ==> db.byName[a].id != db.byName[b].id)
  }

  datatype AuthError =
    | BadUsernameLength   // not 3 to 50 characters
    | PasswordTooShort    // fewer than 6 characters
    | UsernameTaken
    | BadCredentials      // unknown user or wrong password, indistinguishably

  datatype RegisterResult = Registered(userId: nat, username: string) | RegisterFailed(error: AuthError)

  const MinUsernameLength: nat := 3
  const MaxUsernameLength: nat := 50
  const MinPasswordLength: nat := 6

  /**
   * `register`: username length first, then password length, then
   * uniqueness; a refusal leaves the table unchanged, a success inserts one
   * row holding the hash of the password under the next id.
   */
  function Register(db: Users, username: string, password: string, hash: string -> string)
    : (r: (RegisterResult, Users))
    ensures Valid(db) ==> Valid(r.1)
    ensures r.0.RegisterFailed? ==> r.1 == db
    ensures (|username| < MinUsernameLength || |username| > MaxUsernameLength) ==> r.0 == RegisterFailed(BadUsernameLength)
    ensures MinUsernameLength <= |username| <= MaxUsernameLength && |password| < MinPasswordLength ==>
      r.0 == RegisterFailed(PasswordTooShort)
    ensures username in db.byName ==> r.0.RegisterFailed?
    ensures MinUsernameLength <= |username| <= MaxUsernameLength && |password| >= MinPasswordLength && username in db.byName ==>
      r.0 == RegisterFailed(UsernameTaken)
    ensures r.0.Registered? <==>
      MinUsernameLength <= |username| <= MaxUsernameLength && |password| >= MinPasswordLength && username !in db.byName
    ensures r.0.Registered? ==>
      && r.0 == Registered(db.nextId, username)
      && r.1.byName == db.byName[username := User(db.nextId, username, hash(password), None)]
      && r.1.nextId == db.nextId + 1
  {
    if |username| < MinUsernameLength || |username| > MaxUsernameLength then (RegisterFailed(BadUsernameLength), db)
    else if |password| < MinPasswordLength then (RegisterFailed(PasswordTooShort), db)
    else if username in db.byName then (RegisterFailed(UsernameTaken), db)
    else
      var id := db.nextId;
      (Registered(id, username), Users(db.byName[username := User(id, username, hash(password), None)], id + 1))
  }

  datatype LoginResult = LoggedIn(userId: nat, username: string) | LoginFailed(error: AuthError)

  /** `update_last_login(id)`: stamps every row with that id. */
  function TouchLastLogin(db: Users, id: nat, now: int): (db': Users)
    ensures db'.byName.Keys == db.byName.Keys && db'.nextId == db.nextId
    ensures forall name :: name in db.byName ==>
      && db'.byName[name].(lastLogin := db.byName[name].lastLogin) == db.byName[name]
      && db'.byName[name].lastLogin == if db.byName[name].id == id then Some(now) else db.byName[name].lastLogin
  {
    Users(map name | name in db.byName :: if db.byName[name].id == id then db.byName[name].(lastLogin := Some(now)) else db.byName[name],
          db.nextId)
  }

  /**
   * `login`: the stored hash must equal the hash of the given password.
   * Unknown users and wrong passwords get the same error and change
   * nothing; a success returns the stored id and name and stamps the
   * login time.
   */
  function Login(db: Users, username: string, password: string, hash: string -> string, now: int)
    : (r: (LoginResult, Users))
    ensures r.0.LoginFailed? ==> r.0.error == BadCredentials && r.1 == db
    ensures r.0.LoggedIn? <==> username in db.byName && db.byName[username].passwordHash == hash(password)
    ensures r.0.LoggedIn? ==>
      && r.0 == LoggedIn(db.byName[username].id, db.byName[username].username)
      && r.1 == TouchLastLogin(db, db.byName[username].id, now)
  {
    if username !in db.byName then (LoginFailed(BadCredentials), db)
    else
      var user := db.byName[username];
      if user.passwordHash != hash(password) then (LoginFailed(BadCredentials), db)
      else (LoggedIn(user.id, user.username), TouchLastLogin(db, user.id, now))
  }

  /**
   * In a valid table a successful login changes only the logged-in user's
   * last login time: every other row, the set of users and the next id
   * stay as they were, and validity is kept.
   */
  lemma LoginTouchesOnlyThatUser(db: Users, username: string, password: string, hash: string -> string, now: int)
    requires Valid(db)
    requires Login(db, username, password, hash, now).0.LoggedIn?
    ensures var db' := Login(db, username, password, hash, now).1;
      && db'.byName.Keys == db.byName.Keys
      && db'.nextId == db.nextId
      && db'.byName[username] == db.byName[username].(lastLogin := Some(now))
      && (forall name :: name in db.byName && name != username ==> db'.byName[name] == db.byName[name])
      && Valid(db')
  {
  }

  /** Registering and then logging in with the same password succeeds, as the hash is deterministic. */
  lemma RegisterThenLogin(db: Users, username: string, password: string, hash: string -> string, now: int)
    requires Valid(db)
    requires Register(db, username, password, hash).0.Registered?
    ensures var (reg, db') := Register(db, username, password, hash);
      Login(db', username, password, hash, now).0 == LoggedIn(reg.userId, username)
  {
  }
}
