/**
 * The database rows the application reads and writes: challenges, challenge submissions and
 * users. A table is a sequence of rows; the database's own generated values (ids, timestamps)
 * are passed in or computed from the table.
 */
module Records {
  import opened Results
  import opened HackingMethods

  /** `ChallengeStatus`: a challenge is running until a winner is chosen. */
  datatype ChallengeStatus = OnGoing | Done

  /** The enum value of a challenge status, as stored and as passed to the formatter. */
  function StatusKey(s: ChallengeStatus): (k: string)
    ensures k != []
  {
    match s
    case OnGoing => "ON_GOING"
    case Done => "DONE"
  }

  /** `ChallengeSubmissionStatus`: a submission waits for the challenge creator's decision. */
  datatype SubmissionStatus = Pending | Success | Fail

  datatype Challenge = Challenge(
    id: nat,
    creatorId: string,
    winnerId: Option<string>,
    name: string,
    targetLink: string,
    prize: int,
    methods: seq<Method>,
    status: ChallengeStatus,
    note: string,
    createdAt: int)

  datatype Submission = Submission(
    id: nat,
    challengeId: nat,
    userId: string,
    description: string,
    proofOfExploit: string,
    status: SubmissionStatus,
    createdAt: int)

  /** A user row; `role`, `profileImage` and `lastLoginIp` are opaque to the code modelled here. */
  datatype User = User(
    id: string,
    email: string,
    username: string,
    passwordHash: string,
    note: string,
    fbLink: string,
    gitHubLink: string,
    linkedInLink: string,
    redditLink: string,
    teleLink: string,
    profileImage: string,
    role: string,
    lastLoginIp: string)

  /** No two challenges share an id (the primary key). */
  predicate UniqueChallengeIds(t: seq<Challenge>) {
    forall i, j | 0 <= i < j < |t| :: t[i].id != t[j].id
  }

  /** No two submissions share an id (the primary key). */
  predicate UniqueSubmissionIds(t: seq<Submission>) {
    forall i, j | 0 <= i < j < |t| :: t[i].id != t[j].id
  }

  /** Some user has the id: the row a foreign key to the user table must name. */
  predicate UserExists(users: seq<User>, id: string) {
    exists i | 0 <= i < |users| :: users[i].id == id
  }

  /** No two users share an id (the primary key). */
  predicate UniqueUserIds(t: seq<User>) {
    forall i, j | 0 <= i < j < |t| :: t[i].id != t[j].id
  }
}
