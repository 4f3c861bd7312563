/**
 * The create-challenge page's `CreateChallenge` schema and its action: authenticate, read the
 * selected methods as JSON, validate, then create one ongoing challenge owned by the user.
 * `JSON.parse`, `parseFloat`, zod's URL check and the WHATWG URL parser are parameters.
 */
module CreateChallengeForm {
  import opened Results
  import opened Text
  import opened HackingMethods
  import opened MethodKeys
  import opened Records
  import opened UserRepo
  import opened Auth
  import ChallengeRepo

  /** `[a-zA-Z0-9_,.! ]` */
  predicate IsPlainChar(c: char) {
    IsAlnum(c) || c == '_' || c == ',' || c == '.' || c == '!' || c == ' '
  }

  /** `^[a-zA-Z0-9_,.! ]+$`: one or more whitelisted characters. */
  predicate IsPlainText(s: string) {
    s != [] && forall i | 0 <= i < |s| :: IsPlainChar(s[i])
  }

  /** The name: plain text, of any length. */
  predicate NameOk(s: string) { IsPlainText(s) }

  /** The note: plain text of at most 300 characters; so never empty. */
  predicate NoteOk(s: string) { |s| <= 300 && IsPlainText(s) }

  const MaxPrize := 1000000

  /** `z.number().min(0).max(1000000)`, both bounds inclusive. */
  predicate PrizeOk(p: int) { 0 <= p <= MaxPrize }

  /** The parts of a parsed URL the refinement reads. */
  datatype Url = Url(search: string, hash: string)

  /**
   * `z.string().url()` and the refinement: `isUrl` accepts the text, the URL parser does not
   * throw, and both the query and the fragment are empty.
   */
  predicate TargetOk(t: string, isUrl: string -> bool, parseUrl: string -> Option<Url>) {
    isUrl(t) && parseUrl(t).Some? && parseUrl(t).value.search == "" && parseUrl(t).value.hash == ""
  }

  /** The values `JSON.parse` produces that the schema tells apart. */
  datatype Json = JArray(items: seq<Json>) | JString(s: string) | JOther

  /** The method of every item, when every item is a string that is a method key. */
  function ParseMethods(items: seq<Json>): (r: Option<seq<Method>>)
    ensures r.Some? <==> forall i | 0 <= i < |items| :: items[i].JString? && IsKey(items[i].s)
    ensures r.Some? ==> |r.value| == |items| && forall i | 0 <= i < |items| :: Key(r.value[i]) == items[i].s
  {
    if items == [] then Some([])
    else if !items[0].JString? || ParseKey(items[0].s).None? then None
    else
      match ParseMethods(items[1..])
      case None => None
      case Some(rest) => Some([ParseKey(items[0].s).value] + rest)
  }

  /** `z.array(z.enum(keys)).nonempty()`: a non-empty array of method keys; repeats are allowed. */
  function SelectedMethods(j: Json): (r: Option<seq<Method>>)
    ensures r.Some? <==> j.JArray? && j.items != [] && ParseMethods(j.items).Some?
    ensures r.Some? ==> r.value != [] && |r.value| == |j.items|
  {
    if j.JArray? && j.items != [] then ParseMethods(j.items) else None
  }

  /** The submitted entries of the form. */
  datatype ChallengeFields = ChallengeFields(
    name: Option<string>,
    target: Option<string>,
    prize: Option<string>,
    note: Option<string>,
    selectedMethods: Option<string>)

  /**
   * `JSON.parse(fields.selectedMethods || "[]")`: an absent or empty entry reads as the empty
   * array; otherwise `decode`, where `None` is a syntax error (thrown, not caught).
   */
  function DecodeSelected(f: ChallengeFields, decode: string -> Option<Json>): (r: Option<Json>)
    ensures f.selectedMethods.None? || f.selectedMethods == Some("") ==> r == Some(JArray([]))
    ensures f.selectedMethods.Some? && f.selectedMethods.value != "" ==> r == decode(f.selectedMethods.value)
  {
    match f.selectedMethods
    case None => Some(JArray([]))
    case Some(raw) => if raw == "" then Some(JArray([])) else decode(raw)
  }

  /** The validated form. */
  datatype ChallengeInput = ChallengeInput(name: string, target: string, prize: int, note: string, methods: seq<Method>)

  /**
   * `CreateChallenge.safeParse(parsedFields)`, with the prize already read by `parseFloat`
   * (`None` for `NaN`) and the methods by `JSON.parse`.
   */
  function ParseChallenge(f: ChallengeFields, prize: Option<int>, selected: Json,
                          isUrl: string -> bool, parseUrl: string -> Option<Url>): (r: Option<ChallengeInput>)
    ensures r.Some? <==>
      && f.name.Some? && NameOk(f.name.value)
      && f.target.Some? && TargetOk(f.target.value, isUrl, parseUrl)
      && prize.Some? && PrizeOk(prize.value)
      && f.note.Some? && NoteOk(f.note.value)
      && SelectedMethods(selected).Some?
    ensures r.Some? ==>
      && Some(r.value.name) == f.name && Some(r.value.target) == f.target && Some(r.value.note) == f.note
      && Some(r.value.prize) == prize && Some(r.value.methods) == SelectedMethods(selected)
  {
    if && f.name.Some? && NameOk(f.name.value)
       && f.target.Some? && TargetOk(f.target.value, isUrl, parseUrl)
       && prize.Some? && PrizeOk(prize.value)
       && f.note.Some? && NoteOk(f.note.value)
       && SelectedMethods(selected).Some?
    then Some(ChallengeInput(f.name.value, f.target.value, prize.value, f.note.value, SelectedMethods(selected).value))
    else None
  }

  const CreateFailed := "Something went wrong while creating challenge. Try again later :)"

  /** The action's response. */
  datatype CreateResponse =
    | ToLogin                // `authenticate` throws the redirect to `/login`
    | BadJson                // `JSON.parse` throws
    | FieldErrors            // the schema failed
    | Message(text: string)  // `createChallenge` failed
    | Created                // `ok: true`

  /** The challenge table after the action, and its response. */
  datatype CreateAction = CreateAction(challenges: seq<Challenge>, response: CreateResponse)

  /** The create-challenge page's `action`; `now` is the database clock. */
  function CreateChallengeAction(challenges: seq<Challenge>, users: seq<User>, session: SessionValue,
                                 f: ChallengeFields, decode: string -> Option<Json>,
                                 parseFloat: string -> Option<int>, isUrl: string -> bool,
                                 parseUrl: string -> Option<Url>, now: int): (r: CreateAction)
    ensures r.response != Created ==> r.challenges == challenges
    ensures UniqueChallengeIds(challenges) ==> UniqueChallengeIds(r.challenges)
    ensures r.response == ToLogin <==> CurrentUser(users, session).Err?
    ensures r.response == BadJson <==> CurrentUser(users, session).Ok? && DecodeSelected(f, decode).None?
    ensures r.response == FieldErrors <==>
      && CurrentUser(users, session).Ok?
      && DecodeSelected(f, decode).Some?
      && ParseChallenge(f, PrizeOf(f, parseFloat), DecodeSelected(f, decode).value, isUrl, parseUrl).None?
    ensures r.response == Created <==>
      && CurrentUser(users, session).Ok?
      && DecodeSelected(f, decode).Some?
      && ParseChallenge(f, PrizeOf(f, parseFloat), DecodeSelected(f, decode).value, isUrl, parseUrl).Some?
    ensures r.response == Created ==>
      var input := ParseChallenge(f, PrizeOf(f, parseFloat), DecodeSelected(f, decode).value, isUrl, parseUrl).value;
      |r.challenges| == |challenges| + 1 && r.challenges[..|challenges|] == challenges &&
      var c := r.challenges[|challenges|];
      && c.status == OnGoing && c.creatorId == CurrentUser(users, session).data.id
      && c.name == input.name && c.targetLink == input.target && c.prize == input.prize
      && c.note == input.note && c.methods == input.methods && c.winnerId == None
  {
    match CurrentUser(users, session)
    case Err(_) => CreateAction(challenges, ToLogin)
    case Ok(user) =>
      match DecodeSelected(f, decode)
      case None => CreateAction(challenges, BadJson)
      case Some(selected) =>
        match ParseChallenge(f, PrizeOf(f, parseFloat), selected, isUrl, parseUrl)
        case None => CreateAction(challenges, FieldErrors)
        case Some(input) =>
          var (table, result) := ChallengeRepo.CreateChallenge(challenges, users, user.id, input.name, input.target,
                                                               input.prize, input.methods, OnGoing, input.note, now);
          if result.Ok? then CreateAction(table, Created) else CreateAction(challenges, Message(CreateFailed))
  }

  /** `parseFloat(fields.prize)`; an absent entry gives `NaN`. */
  function PrizeOf(f: ChallengeFields, parseFloat: string -> Option<int>): Option<int> {
    match f.prize
    case None => None
    case Some(raw) => parseFloat(raw)
  }

  // ---------------------------------------------------------------------------------------------
  // Properties

  /** An absent or empty method entry reads as `[]`, which the schema rejects. */
  lemma NoMethodsRejected(f: ChallengeFields, decode: string -> Option<Json>, prize: Option<int>,
                          isUrl: string -> bool, parseUrl: string -> Option<Url>)
    requires f.selectedMethods.None? || f.selectedMethods == Some("")
    ensures DecodeSelected(f, decode) == Some(JArray([]))
    ensures ParseChallenge(f, prize, DecodeSelected(f, decode).value, isUrl, parseUrl).None?
  {
  }

  /** A method selected twice is accepted, and kept twice. */
  lemma RepeatsAccepted(m: Method)
    ensures SelectedMethods(JArray([JString(Key(m)), JString(Key(m))])) == Some([m, m])
  {
    ParseKeyRoundTrip(m, Key(m));
    var one := [JString(Key(m))];
    assert one[1..] == [];
    assert one[0].JString? && one[0].s == Key(m);
    assert ParseKey(one[0].s) == Some(m);
    assert ParseMethods(one[1..]) == Some([]);
    assert [m] + [] == [m];
    assert ParseMethods(one) == Some([m]);
    var items := [JString(Key(m))] + one;
    assert items[1..] == one;
    assert items[0].JString? && ParseKey(items[0].s) == Some(m);
    assert ParseMethods(items) == Some([m] + [m]);
    assert [m] + [m] == [m, m];
    assert items == [JString(Key(m)), JString(Key(m))];
  }

  /** The selected methods read back are exactly the submitted keys, in order. */
  lemma SelectedKeys(j: Json)
    requires SelectedMethods(j).Some?
    ensures forall i | 0 <= i < |j.items| :: j.items[i] == JString(Key(SelectedMethods(j).value[i]))
  {
  }

  /** A key-shaped string that is no method, such as a lower-case key, is rejected. */
  lemma NonKeyRejected(s: string)
    requires !IsKey(s)
    ensures SelectedMethods(JArray([JString(s)])).None?
  {
  }
}
