/**
 * The challenge queries and commands over an in-memory challenge table: creation, the paged
 * listing of the landing page, the count that sizes its pagination, lookup by id, a creator's own
 * challenges with their submissions, and the partial update that follows JavaScript truthiness.
 *
 * The table is a sequence of rows in insertion order. Database-generated values are explicit:
 * a new row's id exceeds every existing id (an auto-increment key) and its creation time is the
 * `now` parameter.
 */
module ChallengeRepo {
  import opened Results
  import opened Seqs
  import opened Sorting
  import opened HackingMethods
  import opened Records
  import opened Js

  /** Rows per page of the landing page's listing. */
  const PageSize := 8

  /** The sort key of `orderBy: { createdAt: "desc" }`. */
  function CreatedAt(c: Challenge): int { c.createdAt }

  /** The `where: { status }` filter. */
  function StatusIs(st: ChallengeStatus): Challenge -> bool {
    (c: Challenge) => c.status == st
  }

  /** The `where: { creatorId }` filter. */
  function CreatorIs(userId: string): Challenge -> bool {
    (c: Challenge) => c.creatorId == userId
  }

  /** The `where: { challengeId }` filter on submissions. */
  function OfChallenge(challengeId: nat): Submission -> bool {
    (s: Submission) => s.challengeId == challengeId
  }

  /** The id column, the key of the auto-increment. */
  function ChallengeId(c: Challenge): nat { c.id }

  /**
   * `createChallenge`: the create succeeds, and the result is ok, exactly when the creator is a
   * user (the `creator` relation is a foreign key); otherwise the caught error gives `ok: false`
   * and the table is unchanged. The new row carries the given fields, no winner, a fresh id and
   * the current time; the existing rows are untouched.
   */
  function CreateChallenge(t: seq<Challenge>, users: seq<User>, creatorId: string, name: string,
                           targetLink: string, prize: int, methods: seq<Method>,
                           status: ChallengeStatus, note: string, now: int): (r: (seq<Challenge>, Result<(), ()>))
    ensures r.1.Ok? <==> UserExists(users, creatorId)
    ensures r.1.Err? ==> r.0 == t
    ensures r.1.Ok? ==> |r.0| == |t| + 1 && r.0[..|t|] == t
    ensures r.1.Ok? ==> var c := r.0[|t|];
      c.creatorId == creatorId && c.name == name && c.targetLink == targetLink && c.prize == prize &&
      c.methods == methods && c.status == status && c.note == note && c.winnerId == None &&
      c.createdAt == now
    ensures r.1.Ok? ==> forall i | 0 <= i < |t| :: t[i].id != r.0[|t|].id
    ensures UniqueChallengeIds(t) ==> UniqueChallengeIds(r.0)
  {
    if !UserExists(users, creatorId) then (t, Err(()))
    else
      var c := Challenge(NextKey(t, ChallengeId), creatorId, None, name, targetLink, prize, methods, status, note, now);
      (t + [c], Ok(()))
  }

  /** The rows with status `st`, newest first. */
  function Listing(t: seq<Challenge>, st: ChallengeStatus): (r: seq<Challenge>)
    ensures SortedDesc(r, CreatedAt)
    ensures multiset(r) == multiset(Filter(t, StatusIs(st)))
  {
    SortDesc(Filter(t, StatusIs(st)), CreatedAt)
  }

  /** The smaller of two integers. */
  function Min(a: int, b: int): int { if a <= b then a else b }

  /** The query engine's `skip`/`take` on an ordered result. */
  function Window<T>(s: seq<T>, skip: nat, take: nat): (r: seq<T>)
    ensures |r| == if skip >= |s| then 0 else Min(take, |s| - skip)
    ensures forall i | 0 <= i < |r| :: skip + i < |s| && r[i] == s[skip + i]
  {
    if skip >= |s| then [] else s[skip..Min(skip + take, |s|)]
  }

  /** The query engine rejects a negative `skip`. */
  datatype QueryError = NegativeSkip

  /**
   * `getChallenges({ status, tab })`: page `tab` of the rows with the requested status (default
   * `ON_GOING`), newest first, at most eight rows. A negative tab is a negative skip.
   */
  function GetChallenges(t: seq<Challenge>, status: Option<ChallengeStatus>, tab: int): (r: Result<seq<Challenge>, QueryError>)
    ensures r.Ok? <==> tab >= 0
    ensures r.Ok? ==> |r.data| <= PageSize
    ensures r.Ok? ==> var n := |Listing(t, status.GetOr(OnGoing))|;
      |r.data| == if PageSize * tab >= n then 0 else Min(PageSize, n - PageSize * tab)
    ensures r.Ok? ==> forall c | c in r.data :: c in t && c.status == status.GetOr(OnGoing)
    ensures r.Ok? ==> SortedDesc(r.data, CreatedAt)
    ensures r.Ok? ==> forall i | 0 <= i < |r.data| ::
      PageSize * tab + i < |Listing(t, status.GetOr(OnGoing))| &&
      r.data[i] == Listing(t, status.GetOr(OnGoing))[PageSize * tab + i]
  {
    if tab < 0 then Err(NegativeSkip)
    else
      var l := Listing(t, status.GetOr(OnGoing));
      var page := Window(l, PageSize * tab, PageSize);
      assert forall c | c in page :: c in multiset(l);
      Ok(page)
  }

  /** `db.challenge.count({ where: { status } })`, one row at a time. */
  function CountStatus(t: seq<Challenge>, st: ChallengeStatus): (n: nat)
    ensures n == |Filter(t, StatusIs(st))|
  {
    if t == [] then 0
    else (if t[0].status == st then 1 else 0) + CountStatus(t[1..], st)
  }

  /** `getTotalChallengeCount()`: the number of running challenges. */
  function GetTotalChallengeCount(t: seq<Challenge>): (n: nat)
    ensures n == |Listing(t, OnGoing)|
  {
    var l := Listing(t, OnGoing);
    assert |l| == |multiset(l)|;
    CountStatus(t, OnGoing)
  }

  /** A challenge row together with the usernames the lookup joins in. */
  datatype ChallengeDetail = ChallengeDetail(challenge: Challenge, creatorName: Option<string>, winnerName: Option<string>)

  /** The first row with id `id` (`findUnique` on the primary key). */
  function FindChallenge(t: seq<Challenge>, id: nat): (r: Option<Challenge>)
    ensures r == None <==> forall i | 0 <= i < |t| :: t[i].id != id
    ensures r.Some? ==> r.value in t && r.value.id == id
    ensures r.Some? && UniqueChallengeIds(t) ==> forall i | 0 <= i < |t| && t[i].id == id :: t[i] == r.value
  {
    if t == [] then None
    else if t[0].id == id then Some(t[0])
    else
      var r := FindChallenge(t[1..], id);
      assert forall i | 1 <= i < |t| :: t[i] == t[1..][i - 1];
      r
  }

  /** The username of the user with id `userId`, if there is one. */
  function UsernameOf(users: seq<User>, userId: string): (r: Option<string>)
    ensures r == None <==> forall i | 0 <= i < |users| :: users[i].id != userId
    ensures r.Some? ==> exists i | 0 <= i < |users| :: users[i].id == userId && users[i].username == r.value
  {
    if users == [] then None
    else if users[0].id == userId then Some(users[0].username)
    else
      var r := UsernameOf(users[1..], userId);
      assert forall i | 1 <= i < |users| :: users[i] == users[1..][i - 1];
      assert r.Some? ==> exists i | 1 <= i < |users| :: users[i].id == userId && users[i].username == r.value by {
        if r.Some? {
          var k :| 0 <= k < |users[1..]| && users[1..][k].id == userId && users[1..][k].username == r.value;
          assert users[k + 1] == users[1..][k];
        }
      }
      r
  }

  /**
   * `getChallengeById(id)`: the row with that id, with its creator's username and its winner's
   * username when it has a winner; `None` when no row has that id.
   */
  function GetChallengeById(t: seq<Challenge>, users: seq<User>, id: nat): (r: Option<ChallengeDetail>)
    ensures r == None <==> forall i | 0 <= i < |t| :: t[i].id != id
    ensures r.Some? ==> r.value.challenge in t && r.value.challenge.id == id
    ensures r.Some? ==> r.value.creatorName == UsernameOf(users, r.value.challenge.creatorId)
    ensures r.Some? ==> r.value.winnerName.Some? ==> r.value.challenge.winnerId.Some?
    ensures r.Some? && r.value.challenge.winnerId.Some? ==>
      r.value.winnerName == UsernameOf(users, r.value.challenge.winnerId.value)
  {
    match FindChallenge(t, id)
    case None => None
    case Some(c) =>
      var winner := match c.winnerId case None => None case Some(w) => UsernameOf(users, w);
      Some(ChallengeDetail(c, UsernameOf(users, c.creatorId), winner))
  }

  /**
   * With unique ids, the detail names the creator and the winner by their usernames in the user
   * table.
   */
  lemma DetailNames(t: seq<Challenge>, users: seq<User>, k: int, c: int, w: int)
    requires UniqueChallengeIds(t) && UniqueUserIds(users)
    requires 0 <= k < |t| && 0 <= c < |users| && 0 <= w < |users|
    requires t[k].creatorId == users[c].id && t[k].winnerId == Some(users[w].id)
    ensures var r := GetChallengeById(t, users, t[k].id);
      r == Some(ChallengeDetail(t[k], Some(users[c].username), Some(users[w].username)))
  {
    var r := GetChallengeById(t, users, t[k].id);
    assert FindChallenge(t, t[k].id).value == t[k];
    UsernameOfUnique(users, c);
    UsernameOfUnique(users, w);
  }

  /** With unique ids, a user's id looks up that user's name. */
  lemma UsernameOfUnique(users: seq<User>, k: int)
    requires UniqueUserIds(users) && 0 <= k < |users|
    ensures UsernameOf(users, users[k].id) == Some(users[k].username)
  {
    var r := UsernameOf(users, users[k].id);
    var i :| 0 <= i < |users| && users[i].id == users[k].id && users[i].username == r.value;
    assert i == k;
  }

  /** A challenge row with the submissions made to it (`include: { submissions: true }`). */
  datatype ChallengeWithSubmissions = WithSubmissions(challenge: Challenge, submissions: seq<Submission>)

  /** The rows created by `userId`, newest first. */
  function CreatedBy(t: seq<Challenge>, userId: string): (r: seq<Challenge>)
    ensures SortedDesc(r, CreatedAt)
    ensures multiset(r) == multiset(Filter(t, CreatorIs(userId)))
  {
    SortDesc(Filter(t, CreatorIs(userId)), CreatedAt)
  }

  /** `getChallengesByUserId(userId)`: the user's own challenges, newest first, each with its submissions. */
  function GetChallengesByUserId(t: seq<Challenge>, subs: seq<Submission>, userId: string): (r: seq<ChallengeWithSubmissions>)
    ensures |r| == |CreatedBy(t, userId)|
    ensures forall i | 0 <= i < |r| :: r[i].challenge == CreatedBy(t, userId)[i]
    ensures forall i | 0 <= i < |r| :: r[i].submissions == Filter(subs, OfChallenge(r[i].challenge.id))
  {
    var cs := CreatedBy(t, userId);
    seq(|cs|, i requires 0 <= i < |cs| => WithSubmissions(cs[i], Filter(subs, OfChallenge(cs[i].id))))
  }

  /**
   * The optional fields of `updateChallengeById`. A field is written only when it is given and
   * truthy: an empty string or a zero prize keeps the old value, while a given method list is
   * always written, even when empty, because an array is truthy. A status is always truthy.
   */
  datatype ChallengePatch = ChallengePatch(
    name: Option<string>,
    targetLink: Option<string>,
    prize: Option<int>,
    methods: Option<seq<Method>>,
    status: Option<ChallengeStatus>,
    note: Option<string>,
    winnerId: Option<string>)

  /** `...(x && { x })` for a string field. */
  function SpreadString(given: Option<string>, current: string): string {
    if GivenString(given) then given.value else current
  }

  /** The object spread of the update's `data` applied to one row. */
  function ApplyPatch(c: Challenge, p: ChallengePatch): (r: Challenge)
    ensures r.id == c.id && r.creatorId == c.creatorId && r.createdAt == c.createdAt
  {
    c.(name := SpreadString(p.name, c.name),
       targetLink := SpreadString(p.targetLink, c.targetLink),
       prize := if GivenNumber(p.prize) then p.prize.value else c.prize,
       methods := if p.methods.Some? then p.methods.value else c.methods,
       status := if p.status.Some? then p.status.value else c.status,
       note := SpreadString(p.note, c.note),
       winnerId := if GivenString(p.winnerId) then p.winnerId else c.winnerId)
  }

  /** Every row with id `id` patched, every other row unchanged. */
  function PatchWhere(t: seq<Challenge>, id: nat, p: ChallengePatch): (r: seq<Challenge>)
    ensures |r| == |t|
    ensures forall i | 0 <= i < |t| :: r[i] == if t[i].id == id then ApplyPatch(t[i], p) else t[i]
  {
    if t == [] then []
    else
      var rest := PatchWhere(t[1..], id, p);
      [if t[0].id == id then ApplyPatch(t[0], p) else t[0]] + rest
  }

  /**
   * Why the update throws; the source catches both and reports `ok: false`. `WinnerNotFound` is
   * the foreign key of the `winner` relation rejecting a written `winnerId` that names no user.
   */
  datatype UpdateError = RecordNotFound | WinnerNotFound

  /**
   * `updateChallengeById({ id, ... })`: the table with that row patched, or an error when no row
   * has that id or when the winner it writes is not a user.
   */
  function UpdateChallengeById(t: seq<Challenge>, users: seq<User>, id: nat, p: ChallengePatch): (r: Result<seq<Challenge>, UpdateError>)
    ensures r.Ok? <==> (exists i | 0 <= i < |t| :: t[i].id == id) && (GivenString(p.winnerId) ==> UserExists(users, p.winnerId.value))
    ensures r == Err(RecordNotFound) <==> forall i | 0 <= i < |t| :: t[i].id != id
    ensures r.Ok? ==> |r.data| == |t|
    ensures r.Ok? ==> forall i | 0 <= i < |t| :: r.data[i] == if t[i].id == id then ApplyPatch(t[i], p) else t[i]
  {
    match FindChallenge(t, id)
    case None => Err(RecordNotFound)
    case Some(_) =>
      if GivenString(p.winnerId) && !UserExists(users, p.winnerId.value) then Err(WinnerNotFound)
      else Ok(PatchWhere(t, id, p))
  }

  // ---------------------------------------------------------------------------------------------
  // Pagination

  /** Unique ids make the rows of a listing pairwise distinct. */
  lemma ListingDistinct(t: seq<Challenge>, st: ChallengeStatus)
    requires UniqueChallengeIds(t)
    ensures Distinct(Listing(t, st))
  {
    assert Distinct(t);
    FilterDistinct(t, StatusIs(st));
    SortDistinct(Filter(t, StatusIs(st)), CreatedAt);
  }

  /** Two different non-negative tabs show no row in common. */
  lemma PagesDisjoint(t: seq<Challenge>, st: ChallengeStatus, i: int, j: int)
    requires UniqueChallengeIds(t)
    requires 0 <= i && 0 <= j && i != j
    ensures forall c | c in GetChallenges(t, Some(st), i).data :: c !in GetChallenges(t, Some(st), j).data
  {
    var l := Listing(t, st);
    ListingDistinct(t, st);
    var a, b := GetChallenges(t, Some(st), i).data, GetChallenges(t, Some(st), j).data;
    forall c | c in a ensures c !in b {
      var x :| 0 <= x < |a| && a[x] == c;
      forall y | 0 <= y < |b| ensures b[y] != c {
        assert PageSize * i + x != PageSize * j + y;
        assert b[y] == l[PageSize * j + y] && c == l[PageSize * i + x];
      }
    }
  }

  /** Row `k` of the listing is row `k % 8` of page `k / 8`: the pages together cover the listing. */
  lemma PagesCover(t: seq<Challenge>, st: ChallengeStatus, k: int)
    requires 0 <= k < |Listing(t, st)|
    ensures var page := GetChallenges(t, Some(st), k / PageSize).data;
      k % PageSize < |page| && page[k % PageSize] == Listing(t, st)[k]
  {
    var l := Listing(t, st);
    WindowCovers(l, k);
    assert GetChallenges(t, Some(st), k / PageSize).data == Window(l, PageSize * (k / PageSize), PageSize);
  }

  /** Element `k` of a sequence is at offset `k % 8` of the window that starts at `8 * (k / 8)`. */
  lemma WindowCovers<T>(l: seq<T>, k: nat)
    requires k < |l|
    ensures var w := Window(l, PageSize * (k / PageSize), PageSize);
      k % PageSize < |w| && w[k % PageSize] == l[k]
  {
    var q, i := k / PageSize, k % PageSize;
    assert PageSize * q + i == k && 0 <= i < PageSize;
  }

  /** Page `tab` of the running challenges has rows iff `8 * tab` is below the total count. */
  lemma PageNonEmptyIff(t: seq<Challenge>, tab: int)
    requires tab >= 0
    ensures |GetChallenges(t, None, tab).data| > 0 <==> PageSize * tab < GetTotalChallengeCount(t)
  {
  }

  // ---------------------------------------------------------------------------------------------
  // Lookups

  /** `getChallengesByUserId` returns a row exactly when it was created by that user. */
  lemma ByUserExactly(t: seq<Challenge>, subs: seq<Submission>, userId: string, c: Challenge)
    ensures (exists i | 0 <= i < |GetChallengesByUserId(t, subs, userId)| :: GetChallengesByUserId(t, subs, userId)[i].challenge == c)
      <==> c in t && c.creatorId == userId
  {
    var r, cs := GetChallengesByUserId(t, subs, userId), CreatedBy(t, userId);
    var f := Filter(t, CreatorIs(userId));
    if c in t && c.creatorId == userId {
      var k :| 0 <= k < |t| && t[k] == c;
      assert c in f;
      assert c in multiset(cs);
      var i :| 0 <= i < |cs| && cs[i] == c;
      assert r[i].challenge == c;
    }
    if i :| 0 <= i < |r| && r[i].challenge == c {
      assert cs[i] == c;
      assert c in multiset(f);
    }
  }

  /** Each listed submission belongs to its challenge, and every submission of that challenge is listed. */
  lemma ByUserSubmissions(t: seq<Challenge>, subs: seq<Submission>, userId: string, i: int)
    requires 0 <= i < |GetChallengesByUserId(t, subs, userId)|
    ensures var x := GetChallengesByUserId(t, subs, userId)[i];
      (forall s | s in x.submissions :: s in subs && s.challengeId == x.challenge.id) &&
      (forall s | s in subs && s.challengeId == x.challenge.id :: s in x.submissions)
  {
    var x := GetChallengesByUserId(t, subs, userId)[i];
    forall s | s in subs && s.challengeId == x.challenge.id ensures s in x.submissions {
      var k :| 0 <= k < |subs| && subs[k] == s;
      assert OfChallenge(x.challenge.id)(subs[k]);
    }
  }

  // ---------------------------------------------------------------------------------------------
  // The partial update

  /** Applying the same patch twice is applying it once. */
  lemma PatchIdempotent(c: Challenge, p: ChallengePatch)
    ensures ApplyPatch(ApplyPatch(c, p), p) == ApplyPatch(c, p)
  {
  }

  /** Absent fields, empty strings and a zero prize leave the row unchanged. */
  lemma FalsyPatchNoOp(c: Challenge, p: ChallengePatch)
    requires !GivenString(p.name) && !GivenString(p.targetLink) && !GivenNumber(p.prize)
    requires p.methods == None && p.status == None
    requires !GivenString(p.note) && !GivenString(p.winnerId)
    ensures ApplyPatch(c, p) == c
  {
  }

  /** Each field of the patch is written exactly when it is given and truthy; method lists always when given. */
  lemma PatchFields(c: Challenge, p: ChallengePatch)
    ensures var r := ApplyPatch(c, p);
      (r.name == if p.name.Some? && p.name.value != "" then p.name.value else c.name) &&
      (r.targetLink == if p.targetLink.Some? && p.targetLink.value != "" then p.targetLink.value else c.targetLink) &&
      (r.prize == if p.prize.Some? && p.prize.value != 0 then p.prize.value else c.prize) &&
      (r.methods == if p.methods.Some? then p.methods.value else c.methods) &&
      (r.status == if p.status.Some? then p.status.value else c.status) &&
      (r.note == if p.note.Some? && p.note.value != "" then p.note.value else c.note) &&
      (r.winnerId == if p.winnerId.Some? && p.winnerId.value != "" then p.winnerId else c.winnerId)
  {
  }

  /** A given empty method list clears the row's methods. */
  lemma EmptyMethodsApplied(c: Challenge, p: ChallengePatch)
    requires p.methods == Some([])
    ensures ApplyPatch(c, p).methods == []
  {
  }

  /** The update keeps every id, so the table keeps unique ids. */
  lemma UpdateKeepsIds(t: seq<Challenge>, users: seq<User>, id: nat, p: ChallengePatch)
    requires UniqueChallengeIds(t)
    requires UpdateChallengeById(t, users, id, p).Ok?
    ensures var u := UpdateChallengeById(t, users, id, p).data;
      UniqueChallengeIds(u) && forall i | 0 <= i < |t| :: u[i].id == t[i].id && u[i].creatorId == t[i].creatorId
  {
  }

  /** Patching the same rows twice is patching them once. */
  lemma PatchWhereIdempotent(t: seq<Challenge>, id: nat, p: ChallengePatch)
    ensures PatchWhere(PatchWhere(t, id, p), id, p) == PatchWhere(t, id, p)
  {
    var u := PatchWhere(t, id, p);
    var v := PatchWhere(u, id, p);
    forall k | 0 <= k < |t| ensures v[k] == u[k] {
      PatchIdempotent(t[k], p);
    }
  }

  /** Running the same update twice leaves the table as running it once. */
  lemma UpdateIdempotent(t: seq<Challenge>, users: seq<User>, id: nat, p: ChallengePatch)
    requires UpdateChallengeById(t, users, id, p).Ok?
    ensures UpdateChallengeById(UpdateChallengeById(t, users, id, p).data, users, id, p) == UpdateChallengeById(t, users, id, p)
  {
    var u := PatchWhere(t, id, p);
    var i :| 0 <= i < |t| && t[i].id == id;
    assert u[i].id == id;
    PatchWhereIdempotent(t, id, p);
  }
}
