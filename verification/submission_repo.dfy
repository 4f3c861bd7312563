/**
 * The challenge-submission queries and commands over an in-memory submission table: adding a
 * submission, the "already submitted" check, the listing a challenge's creator reviews, and the
 * single and bulk status updates the accept/reject decision is built from.
 */
module SubmissionRepo {
  import opened Results
  import opened Seqs
  import opened Sorting
  import opened Records
  import opened ChallengeRepo

  /** The id column of submissions. */
  function SubmissionId(s: Submission): nat { s.id }

  /** Both rows a new submission points at exist: the `challenge` and `user` foreign keys hold. */
  predicate References(challenges: seq<Challenge>, users: seq<User>, challengeId: nat, userId: string) {
    FindChallenge(challenges, challengeId).Some? && UserExists(users, userId)
  }

  /**
   * `addChallengeSubmission`: the create succeeds, and the result is ok, exactly when the
   * challenge and the user exist; otherwise the caught error gives `ok: false` with an empty
   * message and the table is unchanged. The new row carries the given challenge, user,
   * description and proof, the status `PENDING`, a fresh id and the current time. Nothing checks
   * for an earlier submission.
   */
  function AddChallengeSubmission(subs: seq<Submission>, challenges: seq<Challenge>, users: seq<User>,
                                  challengeId: nat, userId: string, proofOfExploit: string,
                                  description: string, now: int): (r: (seq<Submission>, Result<(), string>))
    ensures r.1.Ok? <==> References(challenges, users, challengeId, userId)
    ensures r.1.Err? ==> r.0 == subs && r.1.error == ""
    ensures r.1.Ok? ==> |r.0| == |subs| + 1 && r.0[..|subs|] == subs
    ensures r.1.Ok? ==> var s := r.0[|subs|];
      s.challengeId == challengeId && s.userId == userId && s.description == description &&
      s.proofOfExploit == proofOfExploit && s.status == Pending && s.createdAt == now
    ensures r.1.Ok? ==> forall i | 0 <= i < |subs| :: subs[i].id != r.0[|subs|].id
    ensures UniqueSubmissionIds(subs) ==> UniqueSubmissionIds(r.0)
  {
    if !References(challenges, users, challengeId, userId) then (subs, Err(""))
    else
      var s := Submission(NextKey(subs, SubmissionId), challengeId, userId, description, proofOfExploit, Pending, now);
      (subs + [s], Ok(()))
  }

  /** The `where: { userId, challengeId, status }` filter. */
  function Matches(challengeId: nat, userId: string, st: SubmissionStatus): Submission -> bool {
    (s: Submission) => s.challengeId == challengeId && s.userId == userId && s.status == st
  }

  /**
   * `isChallengeSubmitted(challengeId, userId, status = "PENDING")`: whether the user has a
   * submission to that challenge with that status.
   */
  function IsChallengeSubmitted(subs: seq<Submission>, challengeId: nat, userId: string,
                                status: Option<SubmissionStatus>): (b: bool)
    ensures b <==> exists i | 0 <= i < |subs| ::
      subs[i].challengeId == challengeId && subs[i].userId == userId &&
      subs[i].status == status.GetOr(Pending)
  {
    var found := Filter(subs, Matches(challengeId, userId, status.GetOr(Pending)));
    if |found| == 0 then
      assert found == [];
      false
    else
      assert found[0] in subs;
      true
  }

  /** A listed submission with the challenge fields and the username the listing joins in. */
  datatype SubmissionView = SubmissionView(
    submission: Submission,
    challengeName: string,
    challengeStatus: ChallengeStatus,
    targetLink: string,
    username: Option<string>)

  /**
   * The sort key of `orderBy: { status: "asc" }`, given the rank of each status in the database's
   * enum order; the listing sorts by descending negated rank.
   */
  function StatusKeyDesc(rank: SubmissionStatus -> int): Submission -> int {
    (s: Submission) => -rank(s.status)
  }

  /** A challenge's submissions in ascending status rank. */
  function ByStatusRank(subs: seq<Submission>, challengeId: nat, rank: SubmissionStatus -> int): (r: seq<Submission>)
    ensures forall i, j | 0 <= i < j < |r| :: rank(r[i].status) <= rank(r[j].status)
    ensures multiset(r) == multiset(Filter(subs, OfChallenge(challengeId)))
    ensures forall i | 0 <= i < |r| :: r[i].challengeId == challengeId
  {
    var f := Filter(subs, OfChallenge(challengeId));
    var r := SortDesc(f, StatusKeyDesc(rank));
    assert forall i, j | 0 <= i < j < |r| :: StatusKeyDesc(rank)(r[i]) >= StatusKeyDesc(rank)(r[j]);
    PermutedFilter(r, subs, OfChallenge(challengeId));
    r
  }

  /** The listed rows: each submission with its public proof URL, its challenge's fields and its user's name. */
  function Views(base: seq<Submission>, c: Challenge, users: seq<User>, imageUrl: string -> string): (r: seq<SubmissionView>)
    ensures |r| == |base|
    ensures forall i | 0 <= i < |r| ::
      r[i].submission == base[i].(proofOfExploit := imageUrl(base[i].proofOfExploit)) &&
      r[i].username == UsernameOf(users, base[i].userId) &&
      r[i].challengeName == c.name && r[i].challengeStatus == c.status && r[i].targetLink == c.targetLink
  {
    seq(|base|, i requires 0 <= i < |base| =>
      SubmissionView(base[i].(proofOfExploit := imageUrl(base[i].proofOfExploit)),
                     c.name, c.status, c.targetLink, UsernameOf(users, base[i].userId)))
  }

  /** The challenge with that id exists and was created by `userId` (`challenge: { creatorId: userId }`). */
  predicate OwnedBy(challenges: seq<Challenge>, challengeId: nat, userId: string) {
    FindChallenge(challenges, challengeId).Some? && FindChallenge(challenges, challengeId).value.creatorId == userId
  }

  /**
   * `getChallengeSubmissionsByChallengeId(challengeId, userId)`: the submissions to that challenge,
   * in ascending status rank, each with its proof replaced by the public image URL, and none at
   * all unless the challenge was created by `userId`.
   */
  function GetChallengeSubmissionsByChallengeId(subs: seq<Submission>, challenges: seq<Challenge>,
                                                users: seq<User>, challengeId: nat, userId: string,
                                                rank: SubmissionStatus -> int,
                                                imageUrl: string -> string): (r: seq<SubmissionView>)
    ensures r != [] ==> OwnedBy(challenges, challengeId, userId)
    ensures forall i | 0 <= i < |r| :: r[i].submission.challengeId == challengeId
    ensures forall i, j | 0 <= i < j < |r| :: rank(r[i].submission.status) <= rank(r[j].submission.status)
    ensures OwnedBy(challenges, challengeId, userId) ==> |r| == |ByStatusRank(subs, challengeId, rank)|
    ensures OwnedBy(challenges, challengeId, userId) ==>
      forall i | 0 <= i < |r| :: var s := ByStatusRank(subs, challengeId, rank)[i];
        r[i].submission == s.(proofOfExploit := imageUrl(s.proofOfExploit)) &&
        r[i].username == UsernameOf(users, s.userId)
  {
    match FindChallenge(challenges, challengeId)
    case None => []
    case Some(c) =>
      if c.creatorId != userId then []
      else
        Views(ByStatusRank(subs, challengeId, rank), c, users, imageUrl)
  }

  /** The creator of a challenge is shown every submission made to it, with its public proof URL. */
  lemma OwnerSeesEverySubmission(subs: seq<Submission>, challenges: seq<Challenge>, users: seq<User>,
                                 challengeId: nat, userId: string, rank: SubmissionStatus -> int,
                                 imageUrl: string -> string, k: int)
    requires OwnedBy(challenges, challengeId, userId)
    requires 0 <= k < |subs| && subs[k].challengeId == challengeId
    ensures var r := GetChallengeSubmissionsByChallengeId(subs, challenges, users, challengeId, userId, rank, imageUrl);
      exists i | 0 <= i < |r| :: r[i].submission == subs[k].(proofOfExploit := imageUrl(subs[k].proofOfExploit))
  {
    var r := GetChallengeSubmissionsByChallengeId(subs, challenges, users, challengeId, userId, rank, imageUrl);
    var ranked := ByStatusRank(subs, challengeId, rank);
    var f := Filter(subs, OfChallenge(challengeId));
    assert OfChallenge(challengeId)(subs[k]);
    assert subs[k] in f;
    assert subs[k] in multiset(ranked);
    var j :| 0 <= j < |ranked| && ranked[j] == subs[k];
    assert r[j].submission == subs[k].(proofOfExploit := imageUrl(subs[k].proofOfExploit));
  }

  /** Anyone but the creator is shown nothing, when challenge ids are unique. */
  lemma OthersSeeNothing(subs: seq<Submission>, challenges: seq<Challenge>, users: seq<User>,
                         challengeId: nat, userId: string, rank: SubmissionStatus -> int,
                         imageUrl: string -> string, c: int)
    requires UniqueChallengeIds(challenges)
    requires 0 <= c < |challenges| && challenges[c].id == challengeId && challenges[c].creatorId != userId
    ensures GetChallengeSubmissionsByChallengeId(subs, challenges, users, challengeId, userId, rank, imageUrl) == []
  {
    assert FindChallenge(challenges, challengeId).value == challenges[c];
  }

  /**
   * `updateChallengeSubmissionStatus({ id, status })`: the status of the submission with that id is
   * set; the update fails when there is none.
   */
  function UpdateChallengeSubmissionStatus(subs: seq<Submission>, id: nat, status: SubmissionStatus): (r: Result<seq<Submission>, UpdateError>)
    ensures r.Ok? <==> exists i | 0 <= i < |subs| :: subs[i].id == id
    ensures r.Ok? ==> |r.data| == |subs|
    ensures r.Ok? ==> forall i | 0 <= i < |subs| ::
      r.data[i] == if subs[i].id == id then subs[i].(status := status) else subs[i]
  {
    if exists i | 0 <= i < |subs| :: subs[i].id == id then
      Ok(SetStatusWhere(subs, IdIs(id), status))
    else Err(RecordNotFound)
  }

  /** The `where: { id }` filter on submissions. */
  function IdIs(id: nat): Submission -> bool {
    (s: Submission) => s.id == id
  }

  /** Every row satisfying `p` gets status `status`; the others are unchanged. */
  function SetStatusWhere(subs: seq<Submission>, p: Submission -> bool, status: SubmissionStatus): (r: seq<Submission>)
    ensures |r| == |subs|
    ensures forall i | 0 <= i < |subs| :: r[i] == if p(subs[i]) then subs[i].(status := status) else subs[i]
  {
    if subs == [] then []
    else [if p(subs[0]) then subs[0].(status := status) else subs[0]] + SetStatusWhere(subs[1..], p, status)
  }

  /**
   * `updateChallengeSubmissionsStatus({ challengeId, status })`: every submission of that challenge
   * gets the status; `updateMany` succeeds even when there are none.
   */
  function UpdateChallengeSubmissionsStatus(subs: seq<Submission>, challengeId: nat, status: SubmissionStatus): (r: seq<Submission>)
    ensures |r| == |subs|
    ensures forall i | 0 <= i < |subs| :: r[i] == if subs[i].challengeId == challengeId then subs[i].(status := status) else subs[i]
  {
    SetStatusWhere(subs, OfChallenge(challengeId), status)
  }

  // ---------------------------------------------------------------------------------------------
  // Properties

  /** Adding a submission leaves an earlier matching one in place: a second submission is stored. */
  lemma AddDoesNotDeduplicate(subs: seq<Submission>, challenges: seq<Challenge>, users: seq<User>,
                              challengeId: nat, userId: string, proof: string, description: string, now: int)
    requires References(challenges, users, challengeId, userId)
    requires IsChallengeSubmitted(subs, challengeId, userId, None)
    ensures var after := AddChallengeSubmission(subs, challenges, users, challengeId, userId, proof, description, now).0;
      exists i, j | 0 <= i < j < |after| ::
        Matches(challengeId, userId, Pending)(after[i]) && Matches(challengeId, userId, Pending)(after[j])
  {
    var after := AddChallengeSubmission(subs, challenges, users, challengeId, userId, proof, description, now).0;
    var i :| 0 <= i < |subs| && subs[i].challengeId == challengeId && subs[i].userId == userId && subs[i].status == Pending;
    assert after[i] == subs[i];
    assert Matches(challengeId, userId, Pending)(after[|subs|]);
  }

  /**
   * After adding, the user's submission to that challenge is reported as pending exactly when the
   * add went through or one was pending before.
   */
  lemma AddThenSubmitted(subs: seq<Submission>, challenges: seq<Challenge>, users: seq<User>,
                         challengeId: nat, userId: string, proof: string, description: string, now: int)
    ensures IsChallengeSubmitted(AddChallengeSubmission(subs, challenges, users, challengeId, userId, proof, description, now).0, challengeId, userId, None)
      <==> References(challenges, users, challengeId, userId) || IsChallengeSubmitted(subs, challengeId, userId, None)
  {
    var after := AddChallengeSubmission(subs, challenges, users, challengeId, userId, proof, description, now).0;
    if References(challenges, users, challengeId, userId) {
      assert after[|subs|].challengeId == challengeId && after[|subs|].userId == userId && after[|subs|].status == Pending;
      if IsChallengeSubmitted(subs, challengeId, userId, None) {
        var i :| 0 <= i < |subs| && subs[i].challengeId == challengeId && subs[i].userId == userId && subs[i].status == Pending;
        assert after[i] == subs[i];
      }
    }
  }

  /** Setting every submission of a challenge to a status twice is setting it once. */
  lemma BulkIdempotent(subs: seq<Submission>, challengeId: nat, status: SubmissionStatus)
    ensures var once := UpdateChallengeSubmissionsStatus(subs, challengeId, status);
      UpdateChallengeSubmissionsStatus(once, challengeId, status) == once
  {
    var once := UpdateChallengeSubmissionsStatus(subs, challengeId, status);
    var twice := UpdateChallengeSubmissionsStatus(once, challengeId, status);
    assert forall i | 0 <= i < |subs| :: twice[i] == once[i];
  }

  /** Neither status update changes ids, so both keep the table's ids unique. */
  lemma UpdatesKeepIds(subs: seq<Submission>, id: nat, challengeId: nat, status: SubmissionStatus)
    requires UniqueSubmissionIds(subs)
    ensures UniqueSubmissionIds(UpdateChallengeSubmissionsStatus(subs, challengeId, status))
    ensures UpdateChallengeSubmissionStatus(subs, id, status).Ok? ==>
      UniqueSubmissionIds(UpdateChallengeSubmissionStatus(subs, id, status).data)
  {
    var bulk := UpdateChallengeSubmissionsStatus(subs, challengeId, status);
    assert forall i | 0 <= i < |subs| :: bulk[i].id == subs[i].id;
    if UpdateChallengeSubmissionStatus(subs, id, status).Ok? {
      var single := UpdateChallengeSubmissionStatus(subs, id, status).data;
      assert forall i | 0 <= i < |subs| :: single[i].id == subs[i].id;
    }
  }

  /**
   * Rejecting all of a challenge's submissions and then accepting one of them, `s`: afterwards `s`
   * is the challenge's only accepted submission, all its others are rejected, and submissions to
   * other challenges are as before.
   */
  lemma RejectAllThenAcceptOne(subs: seq<Submission>, challengeId: nat, k: int)
    requires UniqueSubmissionIds(subs)
    requires 0 <= k < |subs| && subs[k].challengeId == challengeId
    ensures var rejected := UpdateChallengeSubmissionsStatus(subs, challengeId, Fail);
      var r := UpdateChallengeSubmissionStatus(rejected, subs[k].id, Success);
      r.Ok? && |r.data| == |subs| &&
      r.data[k].status == Success &&
      (forall i | 0 <= i < |subs| && i != k && subs[i].challengeId == challengeId :: r.data[i].status == Fail) &&
      (forall i | 0 <= i < |subs| && subs[i].challengeId != challengeId :: r.data[i] == subs[i])
  {
    var rejected := UpdateChallengeSubmissionsStatus(subs, challengeId, Fail);
    assert rejected[k].id == subs[k].id;
    assert forall i | 0 <= i < |subs| :: rejected[i].id == subs[i].id;
  }
}
