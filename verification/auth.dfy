/**
 * The decisions of registration, login and authentication. Password hashing and comparison are
 * parameters (`hash`, `check`); a session is represented by the user id it stores, and a
 * response by the location it redirects to.
 */
module Auth {
  import opened Results
  import opened Records
  import opened UserRepo

  /** A failed registration or login, with the message shown to the user. */
  datatype AuthError = AuthError(message: string)

  /** A redirect response that commits a session holding `userId`. */
  datatype SignedIn = SignedIn(location: string, userId: string)

  const EmailTaken := "User with this email already exists"
  const InvalidCredentials := "Invalid email or passwords"

  /** The user table after registration, and the response. */
  datatype Registration = Registration(users: seq<User>, result: Result<SignedIn, AuthError>)

  /**
   * `register({ username, email, password })`: fails when a user with that email exists;
   * otherwise creates the user and signs them in, redirecting to `/`.
   */
  function Register(users: seq<User>, defaults: User, username: string, email: string,
                    password: string, hash: string -> string): (r: Registration)
    ensures r.result.Err? <==> exists i | 0 <= i < |users| :: users[i].email == email
    ensures r.result.Err? ==> r.result.error.message == EmailTaken && r.users == users
    ensures r.result.Ok? ==>
      |r.users| == |users| + 1 && r.users[..|users|] == users &&
      var u := r.users[|users|];
      u.email == email && u.username == username && u.passwordHash == hash(password) &&
      r.result.data == SignedIn("/", u.id)
  {
    if GetUserByEmail(users, email).Some? then
      Registration(users, Err(AuthError(EmailTaken)))
    else
      var (table, u) := CreateUser(users, defaults, username, email, password, hash);
      Registration(table, Ok(SignedIn("/", u.id)))
  }

  /**
   * `login({ email, password })`: signs in the first user with that email when `check` accepts
   * the password against the stored hash; otherwise fails with one message for both causes.
   */
  function Login(users: seq<User>, email: string, password: string,
                 check: (string, string) -> bool): (r: Result<SignedIn, AuthError>)
    ensures r.Ok? <==> GetUserByEmail(users, email).Some? && check(password, GetUserByEmail(users, email).value.passwordHash)
    ensures r.Ok? ==> r.data == SignedIn("/", GetUserByEmail(users, email).value.id)
    ensures r.Err? ==> r.error.message == InvalidCredentials
  {
    match GetUserByEmail(users, email)
    case None => Err(AuthError(InvalidCredentials))
    case Some(u) =>
      if !check(password, u.passwordHash) then Err(AuthError(InvalidCredentials))
      else Ok(SignedIn("/", u.id))
  }

  /** The redirect `authenticate` throws. */
  datatype Redirect = Redirect(location: string)

  /**
   * `authenticate(request, getUser)`: the user `getUser` finds for the session's user id; a
   * redirect to `/login` when the session has none or the lookup finds nothing.
   */
  function Authenticate<T>(session: SessionValue, getUser: string -> Option<T>): (r: Result<T, Redirect>)
    ensures r.Ok? <==> GetUserId(session).Some? && getUser(GetUserId(session).value).Some?
    ensures r.Ok? ==> r.data == getUser(GetUserId(session).value).value
    ensures r.Err? ==> r.error == Redirect("/login")
  {
    var user := match GetUserId(session) case None => None case Some(id) => getUser(id);
    match user
    case None => Err(Redirect("/login"))
    case Some(u) => Ok(u)
  }

  /** `authenticate(request, userId => getUserById(userId))`, as the profile routes call it. */
  function CurrentUser(users: seq<User>, session: SessionValue): (r: Result<UserInfo, Redirect>)
    ensures r.Ok? <==> GetUserId(session).Some? && exists i | 0 <= i < |users| :: users[i].id == GetUserId(session).value
    ensures r.Ok? ==> GetUserId(session) == Some(r.data.id) && exists i | 0 <= i < |users| :: users[i].id == r.data.id && Info(users[i]) == r.data
    ensures r.Err? ==> r.error == Redirect("/login")
  {
    Authenticate(session, (id: string) => GetUserById(users, id))
  }

  /** The session a sign-in commits: `session.set("userId", userId)`. */
  function SessionOf(s: SignedIn): SessionValue {
    Text(s.userId)
  }

  // ---------------------------------------------------------------------------------------------
  // Properties

  /** A session holding a user's id authenticates as that user, when ids are unique and non-empty. */
  lemma SignInThenCurrentUser(users: seq<User>, k: int)
    requires UniqueUserIds(users)
    requires 0 <= k < |users| && users[k].id != ""
    ensures CurrentUser(users, Text(users[k].id)) == Ok(Info(users[k]))
  {
    var r := CurrentUser(users, Text(users[k].id));
    assert r.Ok?;
    var i :| 0 <= i < |users| && users[i].id == r.data.id && Info(users[i]) == r.data;
    assert i == k;
  }

  /** The session a registration commits authenticates as the new user. */
  lemma RegisterThenCurrentUser(users: seq<User>, defaults: User, username: string, email: string,
                                password: string, hash: string -> string)
    requires UniqueUserIds(users)
    requires forall i | 0 <= i < |users| :: users[i].email != email
    ensures var r := Register(users, defaults, username, email, password, hash);
      r.result.Ok? && CurrentUser(r.users, SessionOf(r.result.data)) == Ok(Info(r.users[|users|]))
  {
    var r := Register(users, defaults, username, email, password, hash);
    assert GetUserByEmail(users, email).None?;
    var (table, u) := CreateUser(users, defaults, username, email, password, hash);
    assert r.users == table && r.result.data.userId == u.id && table[|users|] == u;
    SignInThenCurrentUser(table, |users|);
  }

  /** The session a login commits authenticates as the user who logged in. */
  lemma LoginThenCurrentUser(users: seq<User>, email: string, password: string,
                             check: (string, string) -> bool)
    requires UniqueUserIds(users)
    requires forall i | 0 <= i < |users| :: users[i].id != ""
    requires Login(users, email, password, check).Ok?
    ensures CurrentUser(users, SessionOf(Login(users, email, password, check).data))
      == Ok(Info(GetUserByEmail(users, email).value))
  {
    var u := GetUserByEmail(users, email).value;
    var k :| 0 <= k < |users| && users[k] == u;
    SignInThenCurrentUser(users, k);
  }

  /** An unknown email and a wrong password produce the identical failure. */
  lemma LoginFailuresIdentical(users: seq<User>, unknown: string, known: string,
                               password: string, check: (string, string) -> bool)
    requires forall i | 0 <= i < |users| :: users[i].email != unknown
    requires GetUserByEmail(users, known).Some?
    requires !check(password, GetUserByEmail(users, known).value.passwordHash)
    ensures Login(users, unknown, password, check) == Login(users, known, password, check)
  {
  }

  /** Registration checks only the email, so a second user can take an existing username. */
  lemma RegisterAllowsDuplicateUsername(users: seq<User>, defaults: User, k: int, email: string,
                                        password: string, hash: string -> string)
    requires 0 <= k < |users|
    requires forall i | 0 <= i < |users| :: users[i].email != email
    ensures var r := Register(users, defaults, users[k].username, email, password, hash);
      r.result.Ok? && r.users[k].username == r.users[|users|].username && k != |users|
  {
  }

  /**
   * Registering and then logging in with the same email and password signs in the new user,
   * provided `check` accepts a password against its own hash.
   */
  lemma RegisterThenLogin(users: seq<User>, defaults: User, username: string, email: string,
                          password: string, hash: string -> string, check: (string, string) -> bool)
    requires forall i | 0 <= i < |users| :: users[i].email != email
    requires check(password, hash(password))
    ensures var r := Register(users, defaults, username, email, password, hash);
      r.result.Ok? && Login(r.users, email, password, check) == Ok(r.result.data)
  {
    var r := Register(users, defaults, username, email, password, hash);
    var u := r.users[|users|];
    assert forall i | 0 <= i < |users| :: r.users[i] == users[i];
    var found := GetUserByEmail(r.users, email);
    assert found.Some?;
    var j :| 0 <= j < |r.users| && r.users[j] == found.value;
    assert j == |users|;
  }
}
