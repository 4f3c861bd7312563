/**
 * The profile page's `UpdateProfile` schema and its action: authenticate, validate the form, reject
 * a username or email another user holds, then write the profile columns.
 */
module ProfileForm {
  import opened Results
  import opened Text
  import opened Forms
  import opened SocialLinks
  import opened Records
  import opened UserRepo
  import opened Auth

  /** `[a-zA-Z0-9_]+` with 4 to 10 characters. */
  predicate UsernameOk(s: string) {
    LengthBetween(s, 4, 10) && forall i | 0 <= i < |s| :: IsWordChar(s[i])
  }

  /** At most 100 characters; the empty note is allowed. */
  predicate NoteOk(s: string) {
    |s| <= 100
  }

  /** The submitted entries of the profile form. */
  datatype ProfileFields = ProfileFields(
    email: Option<string>,
    username: Option<string>,
    note: Option<string>,
    facebook: Option<string>,
    telegram: Option<string>,
    reddit: Option<string>,
    linkedin: Option<string>,
    github: Option<string>)

  /** Every entry other than the email is present. */
  predicate OthersPresent(f: ProfileFields) {
    && f.username.Some? && f.note.Some? && f.facebook.Some? && f.telegram.Some?
    && f.reddit.Some? && f.linkedin.Some? && f.github.Some?
  }

  /** Every entry other than the email is present and satisfies its rule. */
  predicate OtherFieldsOk(f: ProfileFields) {
    && OthersPresent(f)
    && UsernameOk(f.username.value)
    && NoteOk(f.note.value)
    && AllLinksOk(LinkEntries(f))
  }

  /** The five link entries, each with its pattern. */
  function LinkEntries(f: ProfileFields): seq<(string, LinkPattern)>
    requires OthersPresent(f)
  {
    [(f.facebook.value, Facebook), (f.telegram.value, Telegram), (f.reddit.value, Reddit),
     (f.linkedin.value, LinkedIn), (f.github.value, GitHub)]
  }

  /** Every link entry is empty or matches its pattern. */
  predicate AllLinksOk(links: seq<(string, LinkPattern)>) {
    links == [] || (LinkFieldOk(links[0].0, links[0].1) && AllLinksOk(links[1..]))
  }

  /** The entries that submit a payload unchanged. */
  function FieldsOf(p: ProfilePayload): ProfileFields {
    ProfileFields(Some(p.email), Some(p.username), Some(p.note), Some(p.facebook),
                  Some(p.telegram), Some(p.reddit), Some(p.linkedin), Some(p.github))
  }

  /**
   * `UpdateProfile.safeParse(fields)`: the payload when every entry passes, with the email
   * trimmed and every other entry as submitted.
   */
  function ParseProfile(f: ProfileFields, isEmail: string -> bool): (r: Option<ProfilePayload>)
    ensures r.Some? <==> Email(f.email, isEmail).Some? && OtherFieldsOk(f)
    ensures r.Some? ==> FieldsOf(r.value) == f.(email := Some(Trim(f.email.value)))
  {
    match Email(f.email, isEmail)
    case None => None
    case Some(email) =>
      if !OthersPresent(f) || !OtherFieldsOk(f) then None
      else
        PayloadFields(f, email);
        Some(PayloadOf(f, email))
  }

  /** The payload of present entries, with the given email. */
  function PayloadOf(f: ProfileFields, email: string): ProfilePayload
    requires OthersPresent(f)
  {
    ProfilePayload(username := f.username.value, email := email, note := f.note.value,
                   facebook := f.facebook.value, telegram := f.telegram.value, reddit := f.reddit.value,
                   linkedin := f.linkedin.value, github := f.github.value)
  }

  /** The payload's entries are the form's, with the email replaced. */
  lemma PayloadFields(f: ProfileFields, email: string)
    requires OthersPresent(f)
    ensures FieldsOf(PayloadOf(f, email)) == f.(email := Some(email))
  {
  }

  const UsernameTaken := "Username already exist."
  const EmailInUse := "Email already exist."
  const CannotUpdate := "Cannot update user data."

  /** The action's response. */
  datatype ProfileResponse =
    | ToLogin                 // `authenticate` throws the redirect to `/login`
    | FieldErrors             // the schema failed: the entries and zod's per-field errors
    | Message(text: string)   // `ok: false` with a message
    | Saved                   // `ok: true`

  /** The user table after the action, and its response. */
  datatype ProfileAction = ProfileAction(users: seq<User>, response: ProfileResponse)

  /**
   * The profile page's `action`. Nothing is written unless the response is `Saved`; the checks
   * run in the order authentication, schema, username, email.
   */
  function UpdateProfile(users: seq<User>, session: SessionValue, f: ProfileFields,
                         isEmail: string -> bool): (r: ProfileAction)
    ensures r.response != Saved ==> r.users == users
    ensures r.response == ToLogin <==> CurrentUser(users, session).Err?
    ensures r.response == FieldErrors <==> CurrentUser(users, session).Ok? && ParseProfile(f, isEmail).None?
    ensures r.response == Message(UsernameTaken) <==>
      && CurrentUser(users, session).Ok? && ParseProfile(f, isEmail).Some?
      && IsUsernameAlreadyExist(users, CurrentUser(users, session).data.id, ParseProfile(f, isEmail).value.username)
    ensures r.response == Message(EmailInUse) <==>
      && CurrentUser(users, session).Ok? && ParseProfile(f, isEmail).Some?
      && !IsUsernameAlreadyExist(users, CurrentUser(users, session).data.id, ParseProfile(f, isEmail).value.username)
      && IsEmailAlreadyExist(users, CurrentUser(users, session).data.id, ParseProfile(f, isEmail).value.email)
    ensures r.response == Saved <==>
      && CurrentUser(users, session).Ok? && ParseProfile(f, isEmail).Some?
      && !IsUsernameAlreadyExist(users, CurrentUser(users, session).data.id, ParseProfile(f, isEmail).value.username)
      && !IsEmailAlreadyExist(users, CurrentUser(users, session).data.id, ParseProfile(f, isEmail).value.email)
    ensures r.response == Saved ==>
      var id := CurrentUser(users, session).data.id;
      |r.users| == |users| &&
      forall i | 0 <= i < |users| ::
        r.users[i] == if users[i].id == id then WriteProfile(users[i], ParseProfile(f, isEmail).value) else users[i]
  {
    match CurrentUser(users, session)
    case Err(_) => ProfileAction(users, ToLogin)
    case Ok(user) =>
      match ParseProfile(f, isEmail)
      case None => ProfileAction(users, FieldErrors)
      case Some(payload) =>
        if IsUsernameAlreadyExist(users, user.id, payload.username) then ProfileAction(users, Message(UsernameTaken))
        else if IsEmailAlreadyExist(users, user.id, payload.email) then ProfileAction(users, Message(EmailInUse))
        else
          match UpdateUserData(users, user.id, payload)
          case Err(_) => ProfileAction(users, Message(CannotUpdate))
          case Ok(table) => ProfileAction(table, Saved)
  }

  // ---------------------------------------------------------------------------------------------
  // Properties

  /** A payload the schema produced passes the schema again, unchanged. */
  lemma ParseProfileStable(f: ProfileFields, isEmail: string -> bool)
    requires ParseProfile(f, isEmail).Some?
    ensures ParseProfile(FieldsOf(ParseProfile(f, isEmail).value), isEmail) == ParseProfile(f, isEmail)
  {
    var email := Trim(f.email.value);
    var g := FieldsOf(ParseProfile(f, isEmail).value);
    assert g == f.(email := Some(email));
    EmailStable(f.email, isEmail);
    assert Email(g.email, isEmail) == Some(email);
    PayloadIgnoresEmail(f, g, email);
  }

  /** Two forms that differ only in the email entry have the same payload for a given email. */
  lemma PayloadIgnoresEmail(f: ProfileFields, g: ProfileFields, email: string)
    requires OthersPresent(f) && g == f.(email := g.email)
    ensures OthersPresent(g) && OtherFieldsOk(g) == OtherFieldsOk(f)
    ensures PayloadOf(g, email) == PayloadOf(f, email)
  {
  }

  /** When both the username and the email are taken, the username message wins. */
  lemma UsernameCheckedFirst(users: seq<User>, session: SessionValue, f: ProfileFields,
                             isEmail: string -> bool)
    requires CurrentUser(users, session).Ok? && ParseProfile(f, isEmail).Some?
    requires IsUsernameAlreadyExist(users, CurrentUser(users, session).data.id, ParseProfile(f, isEmail).value.username)
    requires IsEmailAlreadyExist(users, CurrentUser(users, session).data.id, ParseProfile(f, isEmail).value.email)
    ensures UpdateProfile(users, session, f, isEmail) == ProfileAction(users, Message(UsernameTaken))
  {
  }

  /** With a free username, a taken email gives the email message. */
  lemma EmailCheckedSecond(users: seq<User>, session: SessionValue, f: ProfileFields,
                           isEmail: string -> bool)
    requires CurrentUser(users, session).Ok? && ParseProfile(f, isEmail).Some?
    requires !IsUsernameAlreadyExist(users, CurrentUser(users, session).data.id, ParseProfile(f, isEmail).value.username)
    requires IsEmailAlreadyExist(users, CurrentUser(users, session).data.id, ParseProfile(f, isEmail).value.email)
    ensures UpdateProfile(users, session, f, isEmail) == ProfileAction(users, Message(EmailInUse))
  {
  }

  /**
   * The update cannot fail once the user is authenticated: `getUserById` found the row that
   * `updateUserData` then writes, so "Cannot update user data." never appears in this model.
   */
  lemma UpdateNeverFails(users: seq<User>, session: SessionValue, f: ProfileFields,
                         isEmail: string -> bool)
    ensures UpdateProfile(users, session, f, isEmail).response != Message(CannotUpdate)
  {
  }

  /** Submitting one's own current username and email keeps them, when nobody else holds them. */
  lemma ResubmitOwnValues(users: seq<User>, session: SessionValue, k: int, f: ProfileFields,
                          isEmail: string -> bool)
    requires UniqueUserIds(users)
    requires 0 <= k < |users| && CurrentUser(users, session).Ok? && CurrentUser(users, session).data.id == users[k].id
    requires forall i | 0 <= i < |users| && i != k :: users[i].username != users[k].username && users[i].email != users[k].email
    requires ParseProfile(f, isEmail).Some?
    requires ParseProfile(f, isEmail).value.username == users[k].username
    requires ParseProfile(f, isEmail).value.email == users[k].email
    ensures UpdateProfile(users, session, f, isEmail).response == Saved
  {
    OwnValuesNoConflict(users, k);
  }
}
