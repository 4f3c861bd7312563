# challenger.io core, modelled in Dafny

challenger.io is a Remix web application. Creators post hacking challenges with a prize, a target
link and a list of web-hacking methods. Other users submit proofs of exploit. The creator accepts
one submission, which marks every other submission of that challenge as failed.

This project models the application's sequential logic:

- **String utilities.** `formatHackingMethod` (defined twice, with the same body),
  `formatChallengeStatusToString` and `getFileExtension`; the 40 method keys of
  `WebHackingMethods`; and the object-key naming of the upload handler.
- **Data layer.** The Prisma queries over in-memory tables (`seq`s of records):
  - `createChallenge`, `getChallenges` (filter, newest first, pages of 8), `getTotalChallengeCount`,
    `getChallengeById`, `getChallengesByUserId` and `updateChallengeById`;
  - the submission queries and the single and bulk status updates;
  - the user lookups, the "already exists" checks, `createUser` and `updateUserData`.
- **Authentication.** The decisions of `register`, `login` and `authenticate`. The password hash and
  the password check are function parameters.
- **Page logic.**
  - The challenge list's page-index parsing, with `parseInt` as in section 19.2.5 of ECMA-262.
  - The number of page links.
  - The zod schemas and the actions of the profile, registration and create-challenge pages. The
    profile page's five social-link rules are regular expressions; a hand-written matcher stands
    in for each and is proved equal to the regular language.
  - The method picker's two list-transfer handlers.

Records are immutable datatypes and every operation is a pure function. A query returns a result
value. An update returns the new table, or an error when the source's update would throw.

The following are parameters of the model:

- bcrypt (`hash`, `check`);
- zod's `.email()` and `.url()`;
- the WHATWG `URL` parser, `JSON.parse` and `parseFloat`;
- the storage client and `getImageUrl`;
- the database clock;
- the submission status order, which is fixed by a database schema that is not part of this model.

Modules, in dependency order:

| module | models |
|---|---|
| `Results`, `Seqs`, `Sorting`, `Text`, `Js` | `Option`/`Result`; `Array.prototype.filter`; `orderBy ... desc`; the string built-ins; JavaScript truthiness |
| `HackingMethods`, `MethodKeys` | `app/utils/constant.ts` |
| `Records` | the Prisma records |
| `Format` | `app/utils/format.ts`, `app/utils/challenge.ts` |
| `Upload` | `app/utils/supabase.server.ts` |
| `ChallengeRepo`, `SubmissionRepo`, `UserRepo`, `Auth` | `app/model/*.server.ts` |
| `ParseInt`, `ChallengeList` | `app/routes/_landing/challenges/_index/index.tsx` |
| `Forms`, `SocialLinks`, `ProfileForm` | `app/routes/_landing/profile/_index/index.tsx` |
| `RegisterForm` | `app/routes/_landing/register/_layout.tsx` |
| `CreateChallengeForm`, `MethodPicker` | `app/routes/_landing/profile/challenges/create/index.tsx`, `app/routes/_landing/profile/challenges/index.tsx` |

Facts about the code that the model keeps, although a reader might expect otherwise:

- A challenge's methods are a list, and repeats are accepted: `z.array(z.enum(...))` has no
  uniqueness rule.
- The note of a new challenge is required: the whitelist pattern needs at least one character.
- `getChallenges` orders by `createdAt` only, within one status.
- `addChallengeSubmission` performs no duplicate check. The "one pending submission per user"
  check lives in a route that is not part of this model.

## Model

| member | source | states |
|---|---|---|
| MethodKeys.AllKeysDistinct | app/utils/constant.ts:1-72 | there are exactly 40 keys, pairwise distinct, and every method's key is among them |
| MethodKeys.KeyShapedAll | app/utils/constant.ts:2-71 | every key is upper-case words joined by single underscores, with no underscore at either end |
| MethodKeys.ParseKeyRoundTrip | app/utils/constant.ts:74 | a key reads back as its own method, and only that key reads back as that method |
| MethodKeys.IsKeyIffListed | app/utils/constant.ts:74 | a string is accepted as a method iff it is one of the object's keys |
| MethodKeys.KeyInjective | app/utils/constant.ts:2-71 | different methods have different keys |
| Format.CapitalizeWords | app/utils/format.ts:14 | the output has the input's length; only the case changes; a word's first character is never lower-case; and only a lower-case letter at the start of a word changes |
| Format.TitleCase | app/utils/format.ts:11-14 | the output keeps the length, has no `_`, and each character is the input's up to case, with `_` read as a space (for ASCII input, the model's case map) |
| Format.TitleCaseNoAdjacentUpper | app/utils/format.ts:11-14 | title-cased text never has two adjacent capitals |
| Format.NoAcronymAt | app/utils/format.ts:21-24 | with no two adjacent capitals, no alternative of the acronym pattern matches anywhere |
| Format.ReplaceAcronymsInert | app/utils/format.ts:21-24 | where no acronym matches, the global replacement returns the text unchanged |
| Format.FormatText | app/utils/format.ts:9-28 | the acronym branch never changes the result: the output is the plain title-cased text |
| Format.TitleCaseAt | app/utils/format.ts:11-14 | per index: a character that starts an `[A-Za-z0-9]` run is folded and upper-cased, any other is folded only |
| Format.TitleCaseShape | app/utils/format.ts:11-14 | for ASCII input (the model's case map): the output keeps the length and has no `_`; each character is the input's up to case, with `_` read as a space; it is alphanumeric iff the input's is; a run's first alphanumeric is not lower-case and the rest are not upper-case |
| Format.FormatTextShape | app/utils/challenge.ts:1-20 | for ASCII input (the model's case map), the same shape, except the alphanumeric clause, holds for the whole formatter, acronym branch included |
| Format.TitleCaseIdempotent | app/utils/format.ts:37-44 | for ASCII input (the model's case map), title-casing twice is title-casing once |
| Format.FormatTextIdempotent | app/utils/format.ts:9-28 | for ASCII input (the model's case map), formatting an already formatted string returns it unchanged |
| Format.FormatShapedChars | app/utils/format.ts:9-28 | formatting a key keeps its length, turns each underscore into a space, and leaves each letter as it is or lower-cased |
| Format.UnformatFormatText | app/utils/format.ts:9-28 | a well-shaped key, formatted and read back, is itself |
| Format.FormatHackingMethod | app/utils/format.ts:9-28 | a formatted method key reads back as the key, and consists of letters and single spaces with no space at either end |
| Format.FormatHackingMethodInjective | app/utils/format.ts:9-28 | different methods are displayed differently |
| Format.FormatTextSpaced | app/utils/format.ts:11-14 | a well-shaped key formats to letters and single spaces, with no space at either end |
| Format.FormatSqlInjection | app/utils/format.ts:6-7 | `SQL_INJECTION` formats to "Sql Injection" |
| Format.FormatDomBasedXss | app/utils/format.ts:9-28 | `DOM_BASED_XSS` formats to "Dom Based Xss" |
| Format.FormatStatuses | app/utils/format.ts:35-43 | `ON_GOING` formats to "On Going" and `DONE` to "Done" |
| Format.FormatChallengeStatusToString | app/utils/format.ts:37-44 | the status text keeps the key's length and has no `_` |
| Format.GetFileExtension | app/utils/format.ts:50-53 | the result is `""` iff the name has no `.`; otherwise it starts with `.`, contains no other `.`, and the name ends with it |
| Format.ExtensionUnique | app/utils/format.ts:47-53 | any split of the name whose suffix has exactly one `.`, at its start, has that suffix as the extension |
| Format.ImageJpg | app/utils/format.ts:48 | "image.jpg" gives ".jpg" |
| Upload.StripDisallowed | app/utils/supabase.server.ts:33 | every character kept is in `[A-Za-z0-9_-]`, and every such character of the name is kept |
| Upload.StripSplit | app/utils/supabase.server.ts:33 | stripping a concatenation is stripping each part and concatenating, so the kept characters stay in order |
| Upload.StripOne | app/utils/supabase.server.ts:33 | a single character is kept iff it is in `[A-Za-z0-9_-]` |
| Upload.StripKeepsOrder | app/utils/supabase.server.ts:33 | "a.b" is stripped to "ab", not "ba" |
| Upload.StripCounts | app/utils/supabase.server.ts:33 | each allowed character keeps its count and each other character is dropped |
| Upload.HandlePart | app/utils/supabase.server.ts:17-48 | nothing is uploaded iff the part has no filename or an empty one, and then the decoded text is returned; otherwise exactly the object key is uploaded, and the result is the stored path or the storage error |
| Upload.BaseNameIsStripped | app/utils/supabase.server.ts:31-34 | `.replace(ext, "")` never removes anything: the base name is the stripped filename |
| Upload.BaseNameAllowed | app/utils/supabase.server.ts:32-33 | the base name contains only `[A-Za-z0-9_-]` |
| Upload.ObjectKeyShape | app/utils/supabase.server.ts:31-38 | the key is `path + "_" + baseName + ext`, ends with the extension, and has that extension itself |
| Upload.SimpleNameKey | app/utils/supabase.server.ts:31-38 | for a name `a.b` with plain `a` and `b`, the base name is `ab` and the key is `path_ab.b` |
| Upload.PhotoJpg | app/utils/supabase.server.ts:31-34 | "photo.jpg" gives base name "photojpg" and key `path_photojpg.jpg` |
| Upload.ExtensionNotSanitised | app/utils/supabase.server.ts:31-38 | a disallowed character after the last dot is removed from the base name but kept in the stored key's extension |
| ChallengeRepo.CreateChallenge | app/model/challenge.server.ts:20-59 | ok iff the creator is a user, and otherwise the table is unchanged; when ok, exactly one row is appended, carrying the given fields, no winner and a fresh id; existing rows and unique ids are kept |
| ChallengeRepo.GetChallenges | app/model/challenge.server.ts:65-82 | fails iff the tab is negative; otherwise `min(8, n-8*tab)` rows (none past the end), each from the table with the requested status (default `ON_GOING`), newest first, row `i` being row `8*tab+i` of the listing |
| ChallengeRepo.Listing | app/model/challenge.server.ts:73-80 | the rows with the status, newest first, as a permutation of the filtered table |
| ChallengeRepo.PagesDisjoint | app/model/challenge.server.ts:76-77 | different tabs share no row |
| ChallengeRepo.PagesCover | app/model/challenge.server.ts:76-77 | row `k` of the listing is at index `k mod 8` of page `k div 8` |
| ChallengeRepo.PageNonEmptyIff | app/model/challenge.server.ts:65-93 | a default-status page is non-empty iff `8*tab` is below the total count |
| ChallengeRepo.GetTotalChallengeCount | app/model/challenge.server.ts:87-93 | the count of `ON_GOING` rows, equal to the length of their listing |
| ChallengeRepo.GetChallengeById | app/model/challenge.server.ts:99-134 | none iff no row has the id; otherwise that row, with its creator's username, and a winner name only when a winner is set, which is then the winner's username |
| ChallengeRepo.DetailNames | app/model/challenge.server.ts:99-134 | with unique ids, a challenge whose creator and winner are in the table is returned with both usernames |
| ChallengeRepo.GetChallengesByUserId | app/model/challenge.server.ts:139-153 | one entry per challenge of the creator, newest first, each with the table's submissions of that challenge |
| ChallengeRepo.ByUserExactly | app/model/challenge.server.ts:142-152 | a row is returned iff it is in the table and its `creatorId` is the user |
| ChallengeRepo.ByUserSubmissions | app/model/challenge.server.ts:146-150 | each returned challenge carries exactly the submissions that belong to it |
| ChallengeRepo.ApplyPatch | app/model/challenge.server.ts:179-190 | the patch never changes `id`, `creatorId` or `createdAt` |
| ChallengeRepo.PatchFields | app/model/challenge.server.ts:181-187 | name, target link, prize, note and winner are written iff given and truthy; methods and status are written whenever given |
| ChallengeRepo.EmptyMethodsApplied | app/model/challenge.server.ts:184 | a given empty method list clears the methods |
| ChallengeRepo.FalsyPatchNoOp | app/model/challenge.server.ts:181-187 | a patch of absent values, empty strings and a zero prize leaves the row unchanged |
| ChallengeRepo.UpdateChallengeById | app/model/challenge.server.ts:159-196 | ok iff a row has the id and a written winner is a user; "record not found" iff no row has the id; when ok, the row with that id is patched and every other row is unchanged |
| ChallengeRepo.UpdateKeepsIds | app/model/challenge.server.ts:179-190 | the update keeps every id and creator, and unique ids stay unique |
| ChallengeRepo.PatchWhereIdempotent | app/model/challenge.server.ts:179-190 | patching the table twice is patching it once |
| ChallengeRepo.UpdateIdempotent | app/model/challenge.server.ts:159-196 | updating twice with the same patch is updating once |
| SubmissionRepo.AddChallengeSubmission | app/model/challenge-submission.server.ts:14-38 | ok iff the challenge and the user exist, and otherwise an empty error with the table unchanged; when ok, exactly one `PENDING` row is appended, with the given challenge, user, description and proof and a fresh id |
| SubmissionRepo.AddDoesNotDeduplicate | app/model/challenge-submission.server.ts:25-33 | adding for an existing challenge and user that already have a pending submission yields two such rows |
| SubmissionRepo.AddThenSubmitted | app/model/challenge-submission.server.ts:14-61 | after adding, the pair counts as submitted iff the add went through or it counted before |
| SubmissionRepo.IsChallengeSubmitted | app/model/challenge-submission.server.ts:43-61 | true iff some row has that challenge, user and status; the status defaults to `PENDING` |
| SubmissionRepo.ByStatusRank | app/model/challenge-submission.server.ts:101-103 | the challenge's submissions, in ascending status rank, as a permutation of the filtered table |
| SubmissionRepo.GetChallengeSubmissionsByChallengeId | app/model/challenge-submission.server.ts:66-111 | no rows unless the challenge with the id is the user's; every row belongs to the challenge, in ascending status rank; for the creator, one row per submission of the challenge in rank order, with its proof replaced by the public URL and its author's name |
| SubmissionRepo.OwnerSeesEverySubmission | app/model/challenge-submission.server.ts:79-108 | the creator is shown every submission of the challenge, with its public proof URL |
| SubmissionRepo.OthersSeeNothing | app/model/challenge-submission.server.ts:79-85 | with unique challenge ids, a user who did not create the challenge gets no rows |
| SubmissionRepo.UpdateChallengeSubmissionStatus | app/model/challenge-submission.server.ts:138-153 | fails iff no row has the id; otherwise only that row's status changes |
| SubmissionRepo.UpdateChallengeSubmissionsStatus | app/model/challenge-submission.server.ts:158-173 | every submission of the challenge gets the status; others are unchanged |
| SubmissionRepo.BulkIdempotent | app/model/challenge-submission.server.ts:165-172 | the bulk update is idempotent |
| SubmissionRepo.UpdatesKeepIds | app/model/challenge-submission.server.ts:145-172 | both updates keep unique ids unique |
| SubmissionRepo.RejectAllThenAcceptOne | app/model/challenge-submission.server.ts:145-172 | failing the whole challenge and then accepting one of its submissions leaves that one the only `SUCCESS`, its siblings `FAIL`, and other challenges untouched |
| UserRepo.FirstWhere | app/model/user.server.ts:31-35 | none iff no row satisfies the filter; otherwise the first row that does |
| UserRepo.GetUserByEmail | app/model/user.server.ts:31-35 | none iff no user has the email; otherwise a user with it |
| UserRepo.GetUserById | app/model/user.server.ts:37-58 | none iff no user has the id; otherwise that user's public fields, without the password hash |
| UserRepo.IsUsernameAlreadyExistForRegister | app/model/user.server.ts:65-75 | true iff any user has the username |
| UserRepo.IsEmailAlreadyExistForRegister | app/model/user.server.ts:82-92 | true iff any user has the email |
| UserRepo.IsUsernameAlreadyExist | app/model/user.server.ts:94-108 | true iff a user other than the given one has the username |
| UserRepo.IsEmailAlreadyExist | app/model/user.server.ts:110-124 | true iff a user other than the given one has the email |
| UserRepo.ConflictImpliesRegisterConflict | app/model/user.server.ts:65-124 | each per-user check implies its registration counterpart |
| UserRepo.OwnValuesNoConflict | app/model/user.server.ts:94-124 | a user's own username and email are no conflict for that user when nobody else holds them |
| UserRepo.RegisterCheckSeesOwnValues | app/model/user.server.ts:65-92 | the registration checks count a user's own values |
| UserRepo.FreshUserId | app/model/user.server.ts:135-142 | the generated id is non-empty and unused |
| UserRepo.CreateUser | app/model/user.server.ts:126-143 | exactly one user is appended, with the email, the username, the hash of the password and a fresh id |
| UserRepo.GetUserId | app/model/user.server.ts:145-153 | a user id iff the session holds a non-empty string, and then that string |
| UserRepo.WriteProfile | app/model/user.server.ts:184-193 | the row's profile reads back as the payload; id, hash, image, role and last login address are kept |
| UserRepo.WriteOwnProfile | app/model/user.server.ts:184-193 | writing a user's own profile leaves the row unchanged |
| UserRepo.WriteProfileUndo | app/model/user.server.ts:184-193 | writing the old profile back undoes a profile write |
| UserRepo.UpdateUserData | app/model/user.server.ts:165-199 | fails iff no user has the id; otherwise only that user's profile columns are written |
| UserRepo.UpdateUserDataMapping | app/model/user.server.ts:184-193 | email, username and note are written, facebook goes to `fbLink`, telegram to `teleLink`, reddit to `redditLink`, linkedin to `linkedInLink` and github to `gitHubLink`; id, hash, role, image and last login address are kept |
| UserRepo.UpdateThenFound | app/model/user.server.ts:165-199 | after the update, the new email is found by lookup and the new username counts as taken |
| UserRepo.UpdateKeepsUserIds | app/model/user.server.ts:180-194 | the update keeps unique ids unique |
| Auth.Register | app/model/auth.server.ts:24-61 | fails with "User with this email already exists" iff a user has the email, and then the table is unchanged; otherwise exactly one user is added and the redirect to `/` signs that user in |
| Auth.RegisterAllowsDuplicateUsername | app/model/auth.server.ts:33-48 | registration can create a second user with an existing username |
| Auth.Login | app/model/auth.server.ts:63-103 | succeeds iff a user has the email and the check accepts the password, then signs that user in; every failure has the message "Invalid email or passwords" |
| Auth.LoginFailuresIdentical | app/model/auth.server.ts:72-90 | an unknown email and a wrong password give the identical failure |
| Auth.RegisterThenLogin | app/model/auth.server.ts:24-103 | registering and then logging in with the same credentials signs in the new user |
| Auth.Authenticate | app/model/auth.server.ts:105-118 | the user iff the session has a user id and the lookup finds one; otherwise a redirect to `/login` |
| Auth.CurrentUser | app/model/auth.server.ts:105-118 | a user iff the session holds a user id that some row has, and then that row's public fields; otherwise a redirect to `/login` |
| Auth.SignInThenCurrentUser | app/model/auth.server.ts:105-118 | with unique ids, a session holding a user's non-empty id authenticates as exactly that user |
| Auth.RegisterThenCurrentUser | app/model/auth.server.ts:24-118 | the session a registration commits authenticates as the new user |
| Auth.LoginThenCurrentUser | app/model/auth.server.ts:63-118 | the session a login commits authenticates as the user found by the email |
| ParseInt.LeadingDigits | app/routes/_landing/challenges/_index/index.tsx:31-33 | the longest prefix of decimal digits |
| ParseInt.ParseInt10 | app/routes/_landing/challenges/_index/index.tsx:31-33 | `NaN` iff no digit follows the leading whitespace and the optional sign |
| ParseInt.Decimal | app/routes/_landing/challenges/_index/index.tsx:134-137 | a non-empty digit string without a leading zero, whose value is the number |
| ParseInt.ParseDigitsThenTail | app/routes/_landing/challenges/_index/index.tsx:31-33 | a digit run followed by a non-digit parses as the run's value, negated after a `-` |
| ParseInt.TrimStartAfterWhitespace | app/routes/_landing/challenges/_index/index.tsx:31-33 | the whitespace trim skips any all-whitespace prefix, whatever follows it |
| ParseInt.ParseAfterWhitespace | app/routes/_landing/challenges/_index/index.tsx:31-33 | an all-whitespace prefix never changes what `parseInt` reads |
| ParseInt.ParseDecimal | app/routes/_landing/challenges/_index/index.tsx:31-33 | parsing the decimal rendering of a number gives it back |
| ParseInt.ParseNoDigits | app/routes/_landing/challenges/_index/index.tsx:31-33 | text that starts with a non-digit, a non-sign and a non-space parses as `NaN` |
| ChallengeList.TabFromIndex | app/routes/_landing/challenges/_index/index.tsx:31-33 | a missing index reads as "1"; the tab is one less than the parsed index, and 0 when the index does not parse |
| ChallengeList.MissingIndexIsFirstTab | app/routes/_landing/challenges/_index/index.tsx:31-33 | a missing index gives tab 0 |
| ChallengeList.IndexWithTail | app/routes/_landing/challenges/_index/index.tsx:31-33 | only the leading digits count: "3abc" gives tab 2 |
| ChallengeList.IndexWithoutDigits | app/routes/_landing/challenges/_index/index.tsx:31-33 | "" and "abc" give tab 0 |
| ChallengeList.IndexNotClamped | app/routes/_landing/challenges/_index/index.tsx:31-33 | there is no lower clamp: "0" gives -1 and "-3" gives -4 |
| ChallengeList.NonPositiveIndexFails | app/routes/_landing/challenges/_index/index.tsx:31-33 | an index that parses to zero or less makes the page query fail |
| ChallengeList.PageLinkCount | app/routes/_landing/challenges/_index/index.tsx:128-133 | at least one link, exactly one for no challenges, and otherwise `(pages-1)*8 < count <= pages*8` |
| ChallengeList.LinkRoundTrip | app/routes/_landing/challenges/_index/index.tsx:128-137 | the link `?index=k+1`, read back by the loader, selects tab `k` |
| ChallengeList.LinkedTabsNonEmpty | app/routes/_landing/challenges/_index/index.tsx:128-137 | every linked page of a non-empty listing shows at least one challenge |
| SocialLinks.StripPrefix | app/routes/_landing/profile/_index/index.tsx:33 | the text after the prefix when there is one, and the text unchanged otherwise |
| SocialLinks.LanguageMatched | app/routes/_landing/profile/_index/index.tsx:30-64 | every string of the pattern's language is accepted by the matcher |
| SocialLinks.MatchedInLanguage | app/routes/_landing/profile/_index/index.tsx:30-64 | every string the matcher accepts splits into optional scheme, optional `www.`, host, one or more segment characters and an optional `/` |
| SocialLinks.MatchesIffInLanguage | app/routes/_landing/profile/_index/index.tsx:30-64 | matcher and regular language agree on every string, for every pattern whose host starts with neither `h` nor `w` and whose segment excludes `/` |
| SocialLinks.RulesWellFormed | app/routes/_landing/profile/_index/index.tsx:30-64 | the five rules (`facebook.com/` then `[a-zA-Z0-9.]`; `t.me/`, `reddit.com/u/`, `linkedin.com/in/` and `github.com/` then `[a-zA-Z0-9_-]`) have hosts starting with neither `h` nor `w` and segments without `/` |
| SocialLinks.LinkFieldsAreLanguages | app/routes/_landing/profile/_index/index.tsx:30-64 | each link field accepts exactly the empty string and the strings of its rule's regular language |
| SocialLinks.NestedPathRejected | app/routes/_landing/profile/_index/index.tsx:30-64 | a link with two path segments after the host is rejected |
| SocialLinks.GitHubExample | app/routes/_landing/profile/_index/index.tsx:58-64 | `https://github.com/octocat` is accepted |
| Forms.Email | app/routes/_landing/profile/_index/index.tsx:20 | accepted iff present and the email check accepts the trimmed text, which is the value |
| Forms.EmailStable | app/routes/_landing/register/_layout.tsx:14 | an accepted email is accepted again unchanged |
| ProfileForm.ParseProfile | app/routes/_landing/profile/_index/index.tsx:19-65 | the payload exists iff the email passes and every other entry is present and passes its rule: 4-10 `[A-Za-z0-9_]` for the username, at most 100 for the note, empty or matching for each link; it is the form with the email trimmed |
| ProfileForm.ParseProfileStable | app/routes/_landing/profile/_index/index.tsx:19-65 | a parsed payload, submitted again, parses to itself |
| ProfileForm.UpdateProfile | app/routes/_landing/profile/_index/index.tsx:67-127 | redirect iff unauthenticated; field errors iff the schema fails; the username message iff the username is held by another user; the email message iff the username is free but the email is held by another user; saved iff it passes and neither value is held by another user, and then only the user's row is written with the payload; otherwise the table is unchanged |
| ProfileForm.UsernameCheckedFirst | app/routes/_landing/profile/_index/index.tsx:89-108 | when both username and email conflict, the message is "Username already exist." |
| ProfileForm.EmailCheckedSecond | app/routes/_landing/profile/_index/index.tsx:100-108 | with a free username, a taken email gives "Email already exist." |
| ProfileForm.UpdateNeverFails | app/routes/_landing/profile/_index/index.tsx:111-121 | after authentication found the user, the update cannot fail |
| ProfileForm.ResubmitOwnValues | app/routes/_landing/profile/_index/index.tsx:89-111 | resubmitting one's own username and email, held by nobody else, is saved |
| RegisterForm.ParseRegister | app/routes/_landing/register/_layout.tsx:13-20 | the payload exists iff the email passes, the password has at least 8 characters and the username 4 to 10 of any kind; the email is trimmed |
| RegisterForm.RegisterUser | app/routes/_landing/register/_layout.tsx:22-46 | field errors iff the schema fails, and then no user is created; a failure carries `register`'s message and leaves the table; a success adds exactly the submitted user and signs them in |
| RegisterForm.RegisterSucceedsIff | app/routes/_landing/register/_layout.tsx:27-45 | registration succeeds iff the form passes and nobody has the trimmed email |
| RegisterForm.UsernameRulesDiffer | app/routes/_landing/register/_layout.tsx:16-19 | a name of letters with a `-` passes registration and fails the profile rule |
| RegisterForm.AbCd | app/routes/_landing/profile/_index/index.tsx:25-28 | "ab-cd" is accepted at registration and rejected on the profile page |
| CreateChallengeForm.ParseMethods | app/routes/_landing/profile/challenges/create/index.tsx:43-49 | succeeds iff every item is a string that is a method key, giving one method per item with that key |
| CreateChallengeForm.SelectedMethods | app/routes/_landing/profile/challenges/create/index.tsx:42-50 | accepted iff a non-empty array of method keys; one method per item |
| CreateChallengeForm.DecodeSelected | app/routes/_landing/profile/challenges/create/index.tsx:63-65 | an absent or empty entry reads as the empty array; a non-empty entry is the result of `JSON.parse` on it |
| CreateChallengeForm.ParseChallenge | app/routes/_landing/profile/challenges/create/index.tsx:16-51 | accepted iff the name is one or more `[a-zA-Z0-9_,.! ]`, the target is a URL with no query and no fragment, the prize lies in 0..1,000,000 inclusive, the note is whitelisted with at most 300 characters and the methods pass; the values are the submitted ones |
| CreateChallengeForm.CreateChallengeAction | app/routes/_landing/profile/challenges/create/index.tsx:53-117 | nothing is created unless the response is a success; redirect iff unauthenticated; the bad-JSON response iff authenticated and the `selected` JSON does not parse; field errors iff it parses and the schema fails; success iff the user is authenticated, the JSON parses and the schema passes; then exactly one `ON_GOING` challenge owned by the user is added with the validated values |
| CreateChallengeForm.NoMethodsRejected | app/routes/_landing/profile/challenges/create/index.tsx:63-65 | an absent or empty method entry is rejected |
| CreateChallengeForm.RepeatsAccepted | app/routes/_landing/profile/challenges/create/index.tsx:42-50 | a method selected twice is accepted and kept twice |
| CreateChallengeForm.SelectedKeys | app/routes/_landing/profile/challenges/create/index.tsx:42-50 | the read methods are exactly the submitted keys, in order |
| CreateChallengeForm.NonKeyRejected | app/routes/_landing/profile/challenges/create/index.tsx:44-48 | a string that is not a key is rejected |
| MethodPicker.Click | app/routes/_landing/profile/challenges/index.tsx:18-21 | the method leaves "available", every other method there stays, and the method is appended to "selected" |
| MethodPicker.Remove | app/routes/_landing/profile/challenges/index.tsx:24-27 | the method leaves "selected", every other method there stays, and the method is appended to "available" |
| MethodPicker.InitialPartitioned | app/routes/_landing/profile/challenges/index.tsx:12-15 | the first render partitions the 40 methods |
| MethodPicker.ClickPreserves | app/routes/_landing/profile/challenges/index.tsx:18-21 | clicking an available method keeps the partition |
| MethodPicker.RemovePreserves | app/routes/_landing/profile/challenges/index.tsx:24-27 | removing a selected method keeps the partition |
| MethodPicker.PartitionedSize | app/routes/_landing/profile/challenges/index.tsx:12-27 | in a partition the two lists hold 40 methods together |
| MethodPicker.RunPreserves | app/routes/_landing/profile/challenges/index.tsx:12-27 | every run of legal moves keeps the lists duplicate-free, disjoint, covering all methods and 40 long together |
| MethodPicker.Reachable | app/routes/_landing/profile/challenges/index.tsx:12-27 | every state reachable from the first render is such a partition |
| MethodPicker.ClickThenRemove | app/routes/_landing/profile/challenges/index.tsx:17-27 | click then remove restores "selected" exactly and "available" as a set, with the method moved to the end |
| MethodPicker.ClickShortens | app/routes/_landing/profile/challenges/index.tsx:18-21 | a legal click shortens "available" by one |
| MethodPicker.DoubleClickBreaks | app/routes/_landing/profile/challenges/index.tsx:18-21 | clicking the same method twice always breaks the partition, so a click must be on an available method |

## Left out

- Database, storage and network failures are not modelled. A Prisma call throws only when the
  modelled tables make it throw:
  - an update or lookup by id finds no row;
  - a written foreign key names no row. The relations the queries select or filter on are taken
    as foreign keys: a challenge's `creator` and `winner`, and a submission's `challenge` and
    `user`.
  An authenticated creator always exists, so the create page's "Something went wrong" branch
  cannot be reached. Nor can "Cannot update user data.", because that update writes no foreign key.
- Unique constraints of the database schema beyond the id are not modelled, because the schema is not
  part of this model. For the same reason the relation mode and the referential actions are
  assumed to be Prisma's defaults.
- The schema-maintained `updatedAt` column is not modelled. It is selected at
  `app/model/challenge.server.ts:121` and `app/model/user.server.ts:55`, and the database sets it
  on every write; no modelled decision reads it.
- Prisma rejects a negative `skip`, as happens for a page index of "0". The model represents that
  rejection as an error result of `GetChallenges`.
- Ties in `createdAt` are ordered by a fixed stable sort; the database leaves their order
  unspecified. Listing's contract uses only sortedness and the permutation. Three things rely on
  one tie order shared by every query:
  - GetChallenges' clause that row `i` is row `8*tab+i` of the listing;
  - PagesCover;
  - PagesDisjoint.
- Ties in the submission status rank are ordered the same way, so submissions of equal status
  keep table order. `orderBy: { status: "asc" }` leaves that order unspecified.
  GetChallengeSubmissionsByChallengeId's row-by-row clause relies on it; ByStatusRank's contract
  and OwnerSeesEverySubmission use only the rank order and the permutation.
- The default status of a new submission (`PENDING`) comes from the schema; it is written into
  `AddChallengeSubmission`.
- The order of the submissions `getChallengesByUserId` embeds is left at table order.
- `getUserByEmail` calls `findFirst` without `orderBy` (app/model/user.server.ts:31-35), so when
  several rows share an email the database may return any of them. The model returns the first in
  table order (UserRepo.FirstWhere). GetUserByEmail's own contract only says the row has the email;
  LoginThenCurrentUser relies on the fixed choice, since it names the row the login found.
- `toLowerCase` and `toUpperCase` map ASCII letters only. Non-ASCII case mapping is not modelled.
- String lengths count code points, where JavaScript counts UTF-16 code units. This matters for
  zod's `min`/`max` rules on text outside the Basic Multilingual Plane.
- Numbers are mathematical integers. The model leaves out `parseFloat` precision, fractional prizes,
  `NaN` beyond "not a number", negative zero, and the rounding of huge `parseInt` results.
- Library code is a parameter of the model and is not itself modelled:
  - zod's email and URL checks;
  - the WHATWG URL parser and `JSON.parse`;
  - `parseFloat`;
  - bcrypt;
  - `TextDecoder`;
  - the storage client and `getImageUrl`;
  - the cookie session.
- A form entry that is a file rather than text is not modelled.
- `getUserForAuthentication` has the same query as `getUserByEmail` and is modelled by it.
- `getChallengeSubmissionById` and `logout` are outside the modelled core.
- The accept/reject route is not part of this model. Only its primitives are modelled, plus one
  lemma about composing them.
- `getLeaderboard` and `getWonChallengesByUserId` are not defined in the sources this model covers.
- The check-then-insert race between `isChallengeSubmitted` and `addChallengeSubmission` is a
  concurrency concern and is not modelled. So is the lack of transactions around multi-step updates.
- JSX markup, the icons, the menu, the header, the theme toggle, the popover, the layouts and the
  thin loaders are user interface.
- `app/routes/_landing/login/_layout.tsx` is not modelled: its only own rule, a password of at least 8 characters, repeats the registration rule, and the rest is the email check and the session.
