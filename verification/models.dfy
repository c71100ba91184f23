/**
 The three tables of the job board (jobServices/models.py) as an immutable
 store: each table maps an id to its row, and each has its own id sequence.
 The predicates below are the constraints the database enforces (primary
 keys, the unique email, the unique (candidate, job) pair, the foreign keys)
 and the role invariant that only the request handlers enforce.
 */
module Models {

  type Id = nat

  /** Value of an `auto_now_add` column; the wall clock is a parameter of the model. */
  type Timestamp = nat

  /** What `create_user` stores in place of the raw password. */
  datatype Credential = Hashed(digest: string)

  const Candidate: string := "candidate"
  const Recruiter: string := "recruiter"

  /** The fields of `User` the handlers read or write; `userType` is free text. */
  datatype User = User(
    id: Id,
    username: string,
    email: string,
    firstName: string,
    credential: Credential,
    userType: string)

  datatype Job = Job(id: Id, title: string, description: string, postedBy: Id, createdAt: Timestamp)

  datatype Application = Application(id: Id, candidate: Id, job: Id, appliedAt: Timestamp)

  /** Rows by primary key, plus the next value of each table's id sequence. */
  datatype Store = Store(
    users: map<Id, User>,
    jobs: map<Id, Job>,
    apps: map<Id, Application>,
    nextUser: Id,
    nextJob: Id,
    nextApp: Id)

  /** A freshly migrated database: no rows, every sequence starts at 1. */
  const Empty: Store := Store(map[], map[], map[], 1, 1, 1)

  /** Every row sits under its own id, and every id was issued by its sequence. */
  ghost predicate WellFormed(s: Store) {
    && (forall id :: id in s.users ==> s.users[id].id == id && id < s.nextUser)
    && (forall id :: id in s.jobs ==> s.jobs[id].id == id && id < s.nextJob)
    && (forall id :: id in s.apps ==> s.apps[id].id == id && id < s.nextApp)
  }

  /** `email = models.EmailField(unique=True)`. */
  ghost predicate UniqueEmails(s: Store) {
    forall a, b :: a in s.users && b in s.users && s.users[a].email == s.users[b].email ==> a == b
  }

  /** `unique_together = ('candidate', 'job')`. */
  ghost predicate UniquePairs(s: Store) {
    forall a, b ::
      a in s.apps && b in s.apps &&
      s.apps[a].candidate == s.apps[b].candidate && s.apps[a].job == s.apps[b].job
      ==> a == b
  }

  /** The foreign keys `Job.posted_by`, `Application.candidate` and `Application.job`. */
  ghost predicate ReferencesResolve(s: Store) {
    && (forall id :: id in s.jobs ==> s.jobs[id].postedBy in s.users)
    && (forall id :: id in s.apps ==> s.apps[id].candidate in s.users && s.apps[id].job in s.jobs)
  }

  /** `AbstractUser.username`, which is `unique=True`. */
  ghost predicate UniqueUsernames(s: Store) {
    forall a, b :: a in s.users && b in s.users && s.users[a].username == s.users[b].username ==> a == b
  }

  /** Everything the database itself guarantees of any state. */
  ghost predicate Consistent(s: Store) {
    WellFormed(s) && UniqueEmails(s) && UniqueUsernames(s) && UniquePairs(s) && ReferencesResolve(s)
  }

  /**
   What `limit_choices_to` describes but does not enforce: jobs are posted by
   recruiters and applications are made by candidates.
   */
  ghost predicate RolesRespected(s: Store) {
    && (forall id :: id in s.jobs ==>
          s.jobs[id].postedBy in s.users && s.users[s.jobs[id].postedBy].userType == Recruiter)
    && (forall id :: id in s.apps ==>
          s.apps[id].candidate in s.users && s.users[s.apps[id].candidate].userType == Candidate)
  }

  /** The invariant of every state the request handlers can reach. */
  ghost predicate Inv(s: Store) {
    Consistent(s) && RolesRespected(s)
  }

  /**
   Signup passes the submitted email as the username, which is kept as given,
   and as the email, which `create_user` stores in the form `normalize` gives.
   */
  ghost predicate EmailsNormalized(s: Store, normalize: string -> string) {
    forall id :: id in s.users ==> s.users[id].email == normalize(s.users[id].username)
  }

  /** Some application pairs `candidate` with `job`. */
  predicate HasApplied(s: Store, candidate: Id, job: Id) {
    exists id :: id in s.apps && s.apps[id].candidate == candidate && s.apps[id].job == job
  }

  /** The ids of the applications pairing `candidate` with `job`. */
  ghost function ApplicationsFor(s: Store, candidate: Id, job: Id): set<Id> {
    set id | id in s.apps && s.apps[id].candidate == candidate && s.apps[id].job == job
  }

  /** Under the unique pair constraint, an applied pair has exactly one application. */
  lemma AppliedPairIsUnique(s: Store, candidate: Id, job: Id)
    requires UniquePairs(s) && HasApplied(s, candidate, job)
    ensures |ApplicationsFor(s, candidate, job)| == 1
  {
    var id :| id in s.apps && s.apps[id].candidate == candidate && s.apps[id].job == job;
    assert ApplicationsFor(s, candidate, job) == {id};
  }

  /** `s'` is `s` with exactly one new user, under the fresh id `id`. */
  ghost predicate AddsOneUser(s: Store, s': Store, id: Id) {
    && id !in s.users
    && s'.users.Keys == s.users.Keys + {id}
    && (forall k :: k in s.users ==> s'.users[k] == s.users[k])
    && s'.jobs == s.jobs
    && s'.apps == s.apps
  }

  /** `s'` is `s` with exactly one new job, under the fresh id `id`. */
  ghost predicate AddsOneJob(s: Store, s': Store, id: Id) {
    && id !in s.jobs
    && s'.jobs.Keys == s.jobs.Keys + {id}
    && (forall k :: k in s.jobs ==> s'.jobs[k] == s.jobs[k])
    && s'.users == s.users
    && s'.apps == s.apps
  }

  /** `s'` is `s` with exactly one new application, under the fresh id `id`. */
  ghost predicate AddsOneApplication(s: Store, s': Store, id: Id) {
    && id !in s.apps
    && s'.apps.Keys == s.apps.Keys + {id}
    && (forall k :: k in s.apps ==> s'.apps[k] == s.apps[k])
    && s'.users == s.users
    && s'.jobs == s.jobs
  }

  /**
   The ids of `keys` below `n`, in ascending order: the primary-key order in
   which the model lists the rows of a query.
   */
  function Ascending(keys: set<Id>, n: nat): (r: seq<Id>)
    ensures forall i, j :: 0 <= i < j < |r| ==> r[i] < r[j]
    ensures forall x :: x in r <==> x in keys && x < n
  {
    if n == 0 then []
    else
      var below := Ascending(keys, n - 1);
      assert forall i :: 0 <= i < |below| ==> below[i] in below;
      if n - 1 in keys then below + [n - 1] else below
  }

  /**
   Deleting a job (`on_delete=CASCADE` on `Application.job`): the job goes and
   so does every application to it; no other row changes.
   */
  function DeleteJob(s: Store, job: Id): (r: Store)
    ensures r.users == s.users
    ensures r.jobs.Keys == s.jobs.Keys - {job}
    ensures forall id :: id in r.jobs ==> r.jobs[id] == s.jobs[id]
    ensures forall id :: id in r.apps <==> id in s.apps && s.apps[id].job != job
    ensures forall id :: id in r.apps ==> r.apps[id] == s.apps[id]
    ensures ReferencesResolve(s) ==> ReferencesResolve(r)
    ensures ReferencesResolve(s) ==> forall id :: id in r.apps <==> id in s.apps && s.apps[id].job in r.jobs
  {
    var apps := map id | id in s.apps && s.apps[id].job != job :: s.apps[id];
    s.(jobs := s.jobs - {job}, apps := apps)
  }

  /**
   Deleting a user (`on_delete=CASCADE` on `Job.posted_by` and on
   `Application.candidate`): the user goes, with the jobs they posted and
   every application that referred to them or to one of those jobs.
   */
  function DeleteUser(s: Store, user: Id): (r: Store)
    ensures r.users.Keys == s.users.Keys - {user}
    ensures forall id :: id in r.users ==> r.users[id] == s.users[id]
    ensures forall id :: id in r.jobs <==> id in s.jobs && s.jobs[id].postedBy != user
    ensures forall id :: id in r.jobs ==> r.jobs[id] == s.jobs[id]
    ensures forall id :: id in r.apps <==>
              && id in s.apps && s.apps[id].candidate != user
              && !(s.apps[id].job in s.jobs && s.jobs[s.apps[id].job].postedBy == user)
    ensures forall id :: id in r.apps ==> r.apps[id] == s.apps[id]
    ensures ReferencesResolve(s) ==> ReferencesResolve(r)
    ensures ReferencesResolve(s) ==>
              forall id :: id in r.apps <==>
                id in s.apps && s.apps[id].candidate in r.users && s.apps[id].job in r.jobs
  {
    var posted := set id | id in s.jobs && s.jobs[id].postedBy == user;
    var jobs := map id | id in s.jobs && s.jobs[id].postedBy != user :: s.jobs[id];
    var apps := map id | id in s.apps && s.apps[id].candidate != user && s.apps[id].job !in posted :: s.apps[id];
    s.(users := s.users - {user}, jobs := jobs, apps := apps)
  }

  /** Cascading deletes keep every constraint of a reachable state. */
  lemma DeleteJobKeepsInv(s: Store, job: Id, normalize: string -> string)
    requires Inv(s) && EmailsNormalized(s, normalize)
    ensures Inv(DeleteJob(s, job)) && EmailsNormalized(DeleteJob(s, job), normalize)
  {
  }

  lemma DeleteUserKeepsInv(s: Store, user: Id, normalize: string -> string)
    requires Inv(s) && EmailsNormalized(s, normalize)
    ensures Inv(DeleteUser(s, user)) && EmailsNormalized(DeleteUser(s, user), normalize)
  {
  }
}
