/**
 * The registration page's schema and action: validate the form, then `register`. The schema's
 * username rule counts characters only; the profile page's rule also restricts them.
 */
module RegisterForm {
  import opened Results
  import opened Text
  import opened Forms
  import opened Records
  import opened Auth
  import ProfileForm

  /** The submitted entries of the registration form. */
  datatype RegisterFields = RegisterFields(email: Option<string>, password: Option<string>, username: Option<string>)

  /** The validated form passed to `register`. */
  datatype RegisterPayload = RegisterPayload(email: string, password: string, username: string)

  /** At least 8 characters. */
  predicate PasswordOk(s: string) {
    |s| >= 8
  }

  /** 4 to 10 characters of any kind. */
  predicate UsernameOk(s: string) {
    LengthBetween(s, 4, 10)
  }

  /** `LoginSchema.safeParse(fields)`: the payload when every entry passes, with the email trimmed. */
  function ParseRegister(f: RegisterFields, isEmail: string -> bool): (r: Option<RegisterPayload>)
    ensures r.Some? <==>
      && Email(f.email, isEmail).Some?
      && f.password.Some? && PasswordOk(f.password.value)
      && f.username.Some? && UsernameOk(f.username.value)
    ensures r.Some? ==>
      && r.value.email == Trim(f.email.value)
      && Some(r.value.password) == f.password
      && Some(r.value.username) == f.username
  {
    match Email(f.email, isEmail)
    case None => None
    case Some(email) =>
      if f.password.Some? && PasswordOk(f.password.value) && f.username.Some? && UsernameOk(f.username.value)
      then Some(RegisterPayload(email, f.password.value, f.username.value))
      else None
  }

  /** The action's response. */
  datatype RegisterResponse =
    | FieldErrors            // the entries and zod's per-field errors
    | Message(text: string)  // the message `register` failed with
    | Redirected(s: SignedIn)

  /** The user table after the action, and its response. */
  datatype RegisterAction = RegisterAction(users: seq<User>, response: RegisterResponse)

  /** The registration page's `action`: `register` runs only on a form the schema accepts. */
  function RegisterUser(users: seq<User>, defaults: User, f: RegisterFields, isEmail: string -> bool,
                        hash: string -> string): (r: RegisterAction)
    ensures r.response == FieldErrors <==> ParseRegister(f, isEmail).None?
    ensures r.response == FieldErrors ==> r.users == users
    ensures r.response.Message? ==> r.users == users && r.response.text == EmailTaken
    ensures r.response.Redirected? ==>
      var p := ParseRegister(f, isEmail).value;
      |r.users| == |users| + 1 && r.users[..|users|] == users &&
      r.users[|users|].email == p.email && r.users[|users|].username == p.username &&
      r.users[|users|].passwordHash == hash(p.password) &&
      r.response.s == SignedIn("/", r.users[|users|].id)
  {
    match ParseRegister(f, isEmail)
    case None => RegisterAction(users, FieldErrors)
    case Some(p) =>
      var reg := Register(users, defaults, p.username, p.email, p.password, hash);
      match reg.result
      case Err(e) => RegisterAction(reg.users, Message(e.message))
      case Ok(s) => RegisterAction(reg.users, Redirected(s))
  }

  // ---------------------------------------------------------------------------------------------
  // Properties

  /** A registration succeeds exactly when the form passes and nobody has the trimmed email. */
  lemma RegisterSucceedsIff(users: seq<User>, defaults: User, f: RegisterFields, isEmail: string -> bool,
                            hash: string -> string)
    ensures RegisterUser(users, defaults, f, isEmail, hash).response.Redirected? <==>
      ParseRegister(f, isEmail).Some? &&
      forall i | 0 <= i < |users| :: users[i].email != ParseRegister(f, isEmail).value.email
  {
  }

  /**
   * The two username rules differ: a name with a `-` passes at registration and fails on the
   * profile page.
   */
  lemma UsernameRulesDiffer(a: char, b: char, c: char, d: char)
    requires IsLetter(a) && IsLetter(b) && IsLetter(c) && IsLetter(d)
    ensures UsernameOk([a, b, '-', c, d])
    ensures !ProfileForm.UsernameOk([a, b, '-', c, d])
  {
    assert [a, b, '-', c, d][2] == '-';
  }

  /** Every username the profile page accepts is accepted at registration. */
  lemma ProfileUsernameRegisters(s: string)
    requires ProfileForm.UsernameOk(s)
    ensures UsernameOk(s)
  {
  }

  /** "ab-cd" in particular. */
  lemma AbCd()
    ensures UsernameOk("ab-cd") && !ProfileForm.UsernameOk("ab-cd")
  {
    UsernameRulesDiffer('a', 'b', 'c', 'd');
    assert "ab-cd" == ['a', 'b', '-', 'c', 'd'];
  }
}
