/**
 * The user queries and commands over an in-memory user table: the lookups by email and id, the
 * "username/email already taken" checks used at registration and on the profile page, user
 * creation with an abstract password hash, the session's user id, and the profile update's
 * field mapping.
 *
 * The table enforces no uniqueness other than the id: nothing in the modelled code relies on the
 * database rejecting a repeated username or email.
 */
module UserRepo {
  import opened Results
  import opened Records

  /** The first user satisfying `p` (`findFirst` in table order). */
  function FirstWhere(users: seq<User>, p: User -> bool): (r: Option<User>)
    ensures r == None <==> forall i | 0 <= i < |users| :: !p(users[i])
    ensures r.Some? ==> exists i | 0 <= i < |users| ::
      users[i] == r.value && p(users[i]) && forall j | 0 <= j < i :: !p(users[j])
  {
    if users == [] then None
    else if p(users[0]) then Some(users[0])
    else
      var r := FirstWhere(users[1..], p);
      assert forall i | 1 <= i < |users| :: users[i] == users[1..][i - 1];
      assert r.Some? ==> exists i | 0 <= i < |users| ::
        users[i] == r.value && p(users[i]) && forall j | 0 <= j < i :: !p(users[j]) by {
        if r.Some? {
          var k :| 0 <= k < |users[1..]| && users[1..][k] == r.value && p(users[1..][k]) &&
            forall j | 0 <= j < k :: !p(users[1..][j]);
          assert users[k + 1] == users[1..][k];
          forall j | 0 <= j < k + 1 ensures !p(users[j]) {
            if j > 0 { assert users[j] == users[1..][j - 1]; }
          }
        }
      }
      r
  }

  /** `where: { email }` */
  function EmailIs(email: string): User -> bool { (u: User) => u.email == email }

  /** `where: { username }` */
  function UsernameIs(username: string): User -> bool { (u: User) => u.username == username }

  /** `where: { id }` */
  function IdIs(id: string): User -> bool { (u: User) => u.id == id }

  /** `where: { id: { not: userId }, username }` */
  function OtherWithUsername(userId: string, username: string): User -> bool {
    (u: User) => u.id != userId && u.username == username
  }

  /** `where: { id: { not: userId }, email }` */
  function OtherWithEmail(userId: string, email: string): User -> bool {
    (u: User) => u.id != userId && u.email == email
  }

  /** `getUserByEmail(email)`, also `getUserForAuthentication(email)`: the first user with that email. */
  function GetUserByEmail(users: seq<User>, email: string): (r: Option<User>)
    ensures r == None <==> forall i | 0 <= i < |users| :: users[i].email != email
    ensures r.Some? ==> r.value in users && r.value.email == email
  {
    FirstWhere(users, EmailIs(email))
  }

  /** A user row without its password hash: what `getUserById` selects. */
  datatype UserInfo = UserInfo(
    id: string,
    email: string,
    username: string,
    note: string,
    fbLink: string,
    gitHubLink: string,
    linkedInLink: string,
    redditLink: string,
    teleLink: string,
    profileImage: string,
    role: string,
    lastLoginIp: string)

  /** The selected fields of a row. */
  function Info(u: User): UserInfo {
    UserInfo(u.id, u.email, u.username, u.note, u.fbLink, u.gitHubLink, u.linkedInLink,
             u.redditLink, u.teleLink, u.profileImage, u.role, u.lastLoginIp)
  }

  /** `getUserById(id)`: the selected fields of the user with that id. */
  function GetUserById(users: seq<User>, id: string): (r: Option<UserInfo>)
    ensures r == None <==> forall i | 0 <= i < |users| :: users[i].id != id
    ensures r.Some? ==> r.value.id == id && exists i | 0 <= i < |users| :: users[i].id == id && Info(users[i]) == r.value
  {
    match FirstWhere(users, IdIs(id))
    case None => None
    case Some(u) => Some(Info(u))
  }

  /** `isUsernameAlreadyExistForRegister(username)`: some user has that username. */
  function IsUsernameAlreadyExistForRegister(users: seq<User>, username: string): (b: bool)
    ensures b <==> exists i | 0 <= i < |users| :: users[i].username == username
  {
    FirstWhere(users, UsernameIs(username)) != None
  }

  /** `isEmailAlreadyExistForRegister(email)`: some user has that email. */
  function IsEmailAlreadyExistForRegister(users: seq<User>, email: string): (b: bool)
    ensures b <==> exists i | 0 <= i < |users| :: users[i].email == email
  {
    FirstWhere(users, EmailIs(email)) != None
  }

  /** `isUsernameAlreadyExist(userId, username)`: some user other than `userId` has that username. */
  function IsUsernameAlreadyExist(users: seq<User>, userId: string, username: string): (b: bool)
    ensures b <==> exists i | 0 <= i < |users| :: users[i].id != userId && users[i].username == username
  {
    FirstWhere(users, OtherWithUsername(userId, username)) != None
  }

  /** `isEmailAlreadyExist(userId, email)`: some user other than `userId` has that email. */
  function IsEmailAlreadyExist(users: seq<User>, userId: string, email: string): (b: bool)
    ensures b <==> exists i | 0 <= i < |users| :: users[i].id != userId && users[i].email == email
  {
    FirstWhere(users, OtherWithEmail(userId, email)) != None
  }

  /** The length of the longest id in the table. */
  function MaxIdLength(users: seq<User>): (n: nat)
    ensures forall i | 0 <= i < |users| :: |users[i].id| <= n
  {
    if users == [] then 0
    else
      var rest := MaxIdLength(users[1..]);
      if |users[0].id| <= rest then rest else |users[0].id|
  }

  /** A database-generated id: non-empty and longer than, hence different from, every existing id. */
  function FreshUserId(users: seq<User>): (id: string)
    ensures id != ""
    ensures forall i | 0 <= i < |users| :: users[i].id != id
  {
    seq(MaxIdLength(users) + 1, _ => 'u')
  }

  /**
   * `createUser({ username, email, password })`: one row is appended and returned. It has a fresh
   * id, the given email and username, and `hash(password)` as its password hash; every other
   * column takes the database default, given as `defaults`.
   */
  function CreateUser(users: seq<User>, defaults: User, username: string, email: string,
                      password: string, hash: string -> string): (r: (seq<User>, User))
    ensures |r.0| == |users| + 1 && r.0[..|users|] == users && r.0[|users|] == r.1
    ensures r.1.email == email && r.1.username == username && r.1.passwordHash == hash(password)
    ensures r.1.id != "" && forall i | 0 <= i < |users| :: users[i].id != r.1.id
    ensures UniqueUserIds(users) ==> UniqueUserIds(r.0)
  {
    var u := defaults.(id := FreshUserId(users), email := email, username := username, passwordHash := hash(password));
    (users + [u], u)
  }

  /** What the session holds under `"userId"`. */
  datatype SessionValue = Absent | Text(s: string) | NotText

  /** `getUserId(request)`: the session's user id when it is a non-empty string. */
  function GetUserId(session: SessionValue): (r: Option<string>)
    ensures r.Some? <==> session.Text? && session.s != ""
    ensures r.Some? ==> r.value == session.s
  {
    match session
    case Text(s) => if s == "" then None else Some(s)
    case _ => None
  }

  /** The validated profile form passed to `updateUserData`. */
  datatype ProfilePayload = ProfilePayload(
    username: string,
    email: string,
    note: string,
    facebook: string,
    telegram: string,
    reddit: string,
    linkedin: string,
    github: string)

  /** The profile columns of a user row, read back as the form that would write them. */
  function ProfileOf(u: User): ProfilePayload {
    ProfilePayload(username := u.username, email := u.email, note := u.note, facebook := u.fbLink,
                   telegram := u.teleLink, reddit := u.redditLink, linkedin := u.linkedInLink,
                   github := u.gitHubLink)
  }

  /**
   * The columns written by `updateUserData`: reading the profile back gives the payload, and the
   * id, the hash, the image, the role and the last login address keep their values.
   */
  function WriteProfile(u: User, p: ProfilePayload): (r: User)
    ensures ProfileOf(r) == p
    ensures r.id == u.id && r.passwordHash == u.passwordHash && r.profileImage == u.profileImage
    ensures r.role == u.role && r.lastLoginIp == u.lastLoginIp
  {
    u.(email := p.email, username := p.username, note := p.note, fbLink := p.facebook,
       redditLink := p.reddit, teleLink := p.telegram, linkedInLink := p.linkedin, gitHubLink := p.github)
  }

  /** Writing a user's own profile back leaves the row unchanged. */
  lemma WriteOwnProfile(u: User)
    ensures WriteProfile(u, ProfileOf(u)) == u
  {
  }

  /** Writing the old profile back undoes a write. */
  lemma WriteProfileUndo(u: User, p: ProfilePayload)
    ensures WriteProfile(WriteProfile(u, p), ProfileOf(u)) == u
  {
  }

  /** The update fails (no row has the id) and reports `ok: false`. */
  datatype UserUpdateError = UserNotFound

  /** Every row with id `id` written, every other row unchanged. */
  function WriteWhere(users: seq<User>, id: string, p: ProfilePayload): (r: seq<User>)
    ensures |r| == |users|
    ensures forall i | 0 <= i < |users| :: r[i] == if users[i].id == id then WriteProfile(users[i], p) else users[i]
  {
    if users == [] then []
    else [if users[0].id == id then WriteProfile(users[0], p) else users[0]] + WriteWhere(users[1..], id, p)
  }

  /** `updateUserData(id, payload)`: the profile columns of that user written, or an error. */
  function UpdateUserData(users: seq<User>, id: string, p: ProfilePayload): (r: Result<seq<User>, UserUpdateError>)
    ensures r.Ok? <==> exists i | 0 <= i < |users| :: users[i].id == id
    ensures r.Ok? ==> |r.data| == |users|
    ensures r.Ok? ==> forall i | 0 <= i < |users| ::
      r.data[i] == if users[i].id == id then WriteProfile(users[i], p) else users[i]
  {
    match FirstWhere(users, IdIs(id))
    case None => Err(UserNotFound)
    case Some(_) => Ok(WriteWhere(users, id, p))
  }

  // ---------------------------------------------------------------------------------------------
  // Properties

  /** A conflict with another user is also a conflict at registration, for usernames and emails. */
  lemma ConflictImpliesRegisterConflict(users: seq<User>, userId: string, username: string, email: string)
    ensures IsUsernameAlreadyExist(users, userId, username) ==> IsUsernameAlreadyExistForRegister(users, username)
    ensures IsEmailAlreadyExist(users, userId, email) ==> IsEmailAlreadyExistForRegister(users, email)
  {
    if IsUsernameAlreadyExist(users, userId, username) {
      var i :| 0 <= i < |users| && users[i].id != userId && users[i].username == username;
    }
    if IsEmailAlreadyExist(users, userId, email) {
      var i :| 0 <= i < |users| && users[i].id != userId && users[i].email == email;
    }
  }

  /** A user keeping their own username and email meets no conflict, whatever the table holds about them. */
  lemma OwnValuesNoConflict(users: seq<User>, k: int)
    requires UniqueUserIds(users)
    requires 0 <= k < |users|
    requires forall i | 0 <= i < |users| && i != k :: users[i].username != users[k].username && users[i].email != users[k].email
    ensures !IsUsernameAlreadyExist(users, users[k].id, users[k].username)
    ensures !IsEmailAlreadyExist(users, users[k].id, users[k].email)
  {
  }

  /** The register checks see the user's own values, which the per-user checks ignore. */
  lemma RegisterCheckSeesOwnValues(users: seq<User>, k: int)
    requires 0 <= k < |users|
    ensures IsUsernameAlreadyExistForRegister(users, users[k].username)
    ensures IsEmailAlreadyExistForRegister(users, users[k].email)
  {
  }

  /**
   * `updateUserData` writes exactly the mapped columns of that user: email, username, note and the
   * five links under their column names. Id, password hash, role, profile image and last login IP
   * keep their values, and every other user is unchanged.
   */
  lemma UpdateUserDataMapping(users: seq<User>, id: string, p: ProfilePayload, k: int)
    requires 0 <= k < |users| && users[k].id == id
    ensures var r := UpdateUserData(users, id, p);
      r.Ok? &&
      var u := r.data[k];
      u.email == p.email && u.username == p.username && u.note == p.note &&
      u.fbLink == p.facebook && u.teleLink == p.telegram && u.redditLink == p.reddit &&
      u.linkedInLink == p.linkedin && u.gitHubLink == p.github &&
      u.id == users[k].id && u.passwordHash == users[k].passwordHash && u.role == users[k].role &&
      u.profileImage == users[k].profileImage && u.lastLoginIp == users[k].lastLoginIp
  {
  }

  /** After `updateUserData`, the user is found under the new email and the register check sees the new username. */
  lemma UpdateThenFound(users: seq<User>, id: string, p: ProfilePayload, k: int)
    requires 0 <= k < |users| && users[k].id == id
    ensures var r := UpdateUserData(users, id, p);
      r.Ok? && GetUserByEmail(r.data, p.email).Some? && IsUsernameAlreadyExistForRegister(r.data, p.username)
  {
    var r := UpdateUserData(users, id, p).data;
    assert r[k].email == p.email && r[k].username == p.username;
  }

  /** The profile update keeps every id, so the table keeps unique ids. */
  lemma UpdateKeepsUserIds(users: seq<User>, id: string, p: ProfilePayload)
    requires UniqueUserIds(users)
    ensures UpdateUserData(users, id, p).Ok? ==> UniqueUserIds(UpdateUserData(users, id, p).data)
  {
  }
}
