/**
 The request handlers of jobServices/views.py, each one transition
 `(store, caller, input) -> (store', response, mail)`.

 Token issuance is the bare fact of a `Created` or `LoggedIn` response; the
 authenticated caller is an existing user id; password hashing and checking
 are the parameters `hash` and `verify`; `send_mail(..., fail_silently=True)`
 is an entry in the returned mail list, which no response depends on.
 */
module Views {
  import opened Wrappers
  import opened Emails
  import opened Models
  import opened Serializers

  /** The error bodies the handlers return. */
  datatype Failure =
    | MissingFields
    | EmailInUse
    | InvalidCredentials
    | NotAuthenticated
    | OnlyRecruitersPost
    | OnlyCandidatesApply
    | OnlyCandidatesView
    | OnlyRecruitersView
    | NotFound
    | IntegrityError                         // an uncaught database error

  datatype Response =
    | Created(userId: Id)                    // signup; tokens issued
    | LoggedIn(userId: Id, name: string)     // signin; tokens issued
    | JobPosted(jobId: Id)
    | Applied
    | AlreadyApplied
    | Jobs(jobs: seq<JobOut>)
    | Applications(apps: seq<ApplicationOut>)
    | Error(failure: Failure)

  /** The HTTP status each failure is sent with. */
  function FailureStatus(f: Failure): (code: nat) {
    match f
    case MissingFields => 400
    case EmailInUse => 400
    case InvalidCredentials => 401
    case NotAuthenticated => 401
    case OnlyRecruitersPost => 403
    case OnlyCandidatesApply => 403
    case OnlyCandidatesView => 403
    case OnlyRecruitersView => 403
    case NotFound => 404
    case IntegrityError => 500
  }

  /** The HTTP status each response is sent with. */
  function Status(r: Response): (code: nat) {
    match r
    case Created(_) => 201
    case Error(f) => FailureStatus(f)
    case _ => 200
  }

  /** The two mails ApplyJob sends: a confirmation to the candidate, an alert to the poster. */
  datatype MailKind = ApplicationSubmitted | NewApplicant

  datatype Notification = Notification(recipient: string, kind: MailKind, job: Id)

  /** The result of one handler: the new store, the response, the mails sent. */
  datatype Step = Step(store: Store, response: Response, mail: seq<Notification>)

  /** A request field counts as given when it is present and not the empty string. */
  predicate Given(field: Option<string>) {
    field.Some? && field.value != ""
  }

  /** `User.objects.filter(email=email).exists()`: an exact comparison with the stored emails. */
  predicate EmailTaken(s: Store, email: string) {
    exists id :: id in s.users && s.users[id].email == email
  }

  /** Some user already has `username`, which the database keeps unique. */
  predicate UsernameTaken(s: Store, username: string) {
    exists id :: id in s.users && s.users[id].username == username
  }

  /** The first of `ids` (ascending) whose user has `email`. */
  function FirstWithEmail(s: Store, ids: seq<Id>, email: string): (r: Option<Id>)
    requires forall i :: 0 <= i < |ids| ==> ids[i] in s.users
    requires forall i, j :: 0 <= i < j < |ids| ==> ids[i] < ids[j]
    ensures r.Some? ==> r.value in ids && s.users[r.value].email == email
    ensures r.Some? ==> forall i :: 0 <= i < |ids| && s.users[ids[i]].email == email ==> r.value <= ids[i]
    ensures r.None? ==> forall i :: 0 <= i < |ids| ==> s.users[ids[i]].email != email
  {
    if ids == [] then None
    else if s.users[ids[0]].email == email then Some(ids[0])
    else FirstWithEmail(s, ids[1..], email)
  }

  /**
   `User.objects.filter(email=email).first()`: an unordered query set is
   ordered by primary key, so this is the user with the smallest id.
   */
  function UserByEmail(s: Store, email: string): (r: Option<Id>)
    requires WellFormed(s)
    ensures r.Some? ==> r.value in s.users && s.users[r.value].email == email
    ensures r.Some? ==> forall id :: id in s.users && s.users[id].email == email ==> r.value <= id
    ensures r.None? <==> !EmailTaken(s, email)
  {
    var ids := Ascending(s.users.Keys, s.nextUser);
    assert forall i :: 0 <= i < |ids| ==> ids[i] in ids;
    assert forall id :: id in s.users ==> id in ids;
    FirstWithEmail(s, ids, email)
  }

  /** All four signup fields are given. */
  predicate SignupComplete(name: Option<string>, email: Option<string>, password: Option<string>,
                           userType: Option<string>) {
    Given(name) && Given(email) && Given(password) && Given(userType)
  }

  /**
   The row `create_user(username=email, email=email, ...)` followed by
   `first_name = name` stores; `normalize` is the manager's email
   normalisation (Emails.NormalizeEmail). Under an idempotent normaliser the
   stored email is already in normal form, so normalising it again finds the
   same row.
   */
  function NewUser(id: Id, name: string, email: string, password: string, userType: string,
                   hash: string -> Credential, normalize: string -> string): (u: User)
    ensures u.id == id && u.username == email && u.email == normalize(email)
    ensures u.firstName == name && u.credential == hash(password) && u.userType == userType
    ensures Idempotent(normalize) ==> normalize(u.email) == u.email
  {
    User(id, email, normalize(email), name, hash(password), userType)
  }

  /** The store after inserting `u` under the next id of the user sequence. */
  function InsertUser(s: Store, u: User): (r: Store)
    requires WellFormed(s) && u.id == s.nextUser
    ensures AddsOneUser(s, r, u.id) && r.users[u.id] == u
    ensures WellFormed(r)
  {
    s.(users := s.users[u.id := u], nextUser := u.id + 1)
  }

  /**
   `SignupView.post` as written: the duplicate check compares the submitted
   email, but `create_user` stores the normalised email (and the submitted one
   as username), so an address that differs from a stored one only by
   surrounding whitespace or the case of its domain passes the check and the
   insert then violates a unique constraint.
   */
  function Signup(s: Store, name: Option<string>, email: Option<string>, password: Option<string>,
                  userType: Option<string>, hash: string -> Credential,
                  normalize: string -> string): (r: Step)
    requires WellFormed(s)
    ensures r.mail == []
    ensures !SignupComplete(name, email, password, userType) ==>
              r.response == Error(MissingFields) && r.store == s
    ensures SignupComplete(name, email, password, userType) && EmailTaken(s, email.value) ==>
              r.response == Error(EmailInUse) && r.store == s
    ensures SignupComplete(name, email, password, userType) && !EmailTaken(s, email.value) &&
            (EmailTaken(s, normalize(email.value)) || UsernameTaken(s, email.value)) ==>
              r.response == Error(IntegrityError) && Status(r.response) == 500 && r.store == s
    ensures r.response.Created? <==>
              && SignupComplete(name, email, password, userType)
              && !EmailTaken(s, email.value)
              && !EmailTaken(s, normalize(email.value))
              && !UsernameTaken(s, email.value)
    ensures r.response.Created? ==>
              && Status(r.response) == 201
              && AddsOneUser(s, r.store, r.response.userId)
              && r.store.users[r.response.userId] ==
                 NewUser(r.response.userId, name.value, email.value, password.value, userType.value, hash, normalize)
    ensures WellFormed(r.store)
  {
    if !SignupComplete(name, email, password, userType) then
      Step(s, Error(MissingFields), [])
    else if EmailTaken(s, email.value) then
      Step(s, Error(EmailInUse), [])
    else if EmailTaken(s, normalize(email.value)) || UsernameTaken(s, email.value) then
      Step(s, Error(IntegrityError), [])
    else
      var id := s.nextUser;
      var u := NewUser(id, name.value, email.value, password.value, userType.value, hash, normalize);
      Step(InsertUser(s, u), Created(id), [])
  }

  /**
   `SignupView.post` as evidently intended: the duplicate check looks for the
   email `create_user` would store and for the username it would store, so
   every duplicate gets the 400 answer and no signup ends in a database error.
   */
  function SignupChecked(s: Store, name: Option<string>, email: Option<string>, password: Option<string>,
                         userType: Option<string>, hash: string -> Credential,
                         normalize: string -> string): (r: Step)
    requires WellFormed(s)
    ensures r.mail == []
    ensures !SignupComplete(name, email, password, userType) ==>
              r.response == Error(MissingFields) && r.store == s
    ensures SignupComplete(name, email, password, userType) &&
            (EmailTaken(s, normalize(email.value)) || UsernameTaken(s, email.value)) ==>
              r.response == Error(EmailInUse) && r.store == s
    ensures r.response.Created? <==>
              && SignupComplete(name, email, password, userType)
              && !EmailTaken(s, normalize(email.value))
              && !UsernameTaken(s, email.value)
    ensures r.response.Error? ==> Status(r.response) == 400
    ensures r.response.Created? ==>
              && Status(r.response) == 201
              && AddsOneUser(s, r.store, r.response.userId)
              && r.store.users[r.response.userId] ==
                 NewUser(r.response.userId, name.value, email.value, password.value, userType.value, hash, normalize)
    ensures WellFormed(r.store)
  {
    if !SignupComplete(name, email, password, userType) then
      Step(s, Error(MissingFields), [])
    else if EmailTaken(s, normalize(email.value)) || UsernameTaken(s, email.value) then
      Step(s, Error(EmailInUse), [])
    else
      var id := s.nextUser;
      var u := NewUser(id, name.value, email.value, password.value, userType.value, hash, normalize);
      Step(InsertUser(s, u), Created(id), [])
  }

  /** The answer to a signin once the address to look up is fixed: the first user with it, if the password checks. */
  function SigninAs(s: Store, lookup: string, password: string, verify: (Credential, string) -> bool): (r: Step)
    requires WellFormed(s)
    ensures r.store == s && r.mail == []
    ensures !r.response.LoggedIn? ==> r.response == Error(InvalidCredentials) && Status(r.response) == 401
    ensures !EmailTaken(s, lookup) ==> r.response == Error(InvalidCredentials)
    ensures r.response.LoggedIn? ==>
              && r.response.userId in s.users
              && s.users[r.response.userId].email == lookup
              && verify(s.users[r.response.userId].credential, password)
              && r.response.name == s.users[r.response.userId].firstName
    ensures UniqueEmails(s) ==>
              (r.response.LoggedIn? <==>
                 exists id :: id in s.users && s.users[id].email == lookup && verify(s.users[id].credential, password))
  {
    match UserByEmail(s, lookup)
    case None => Step(s, Error(InvalidCredentials), [])
    case Some(id) =>
      if !verify(s.users[id].credential, password) then Step(s, Error(InvalidCredentials), [])
      else Step(s, LoggedIn(id, s.users[id].firstName), [])
  }

  /**
   `SigninView.post` as written: the submitted email is compared as given
   with the stored, normalised emails.
   */
  function Signin(s: Store, email: Option<string>, password: Option<string>,
                  verify: (Credential, string) -> bool): (r: Step)
    requires WellFormed(s)
    ensures r.store == s && r.mail == []
    ensures !(Given(email) && Given(password)) ==> r.response == Error(MissingFields)
    ensures Given(email) && Given(password) && !EmailTaken(s, email.value) ==>
              r.response == Error(InvalidCredentials) && Status(r.response) == 401
    ensures r.response.LoggedIn? ==>
              && Given(email) && Given(password)
              && r.response.userId in s.users
              && s.users[r.response.userId].email == email.value
              && verify(s.users[r.response.userId].credential, password.value)
              && r.response.name == s.users[r.response.userId].firstName
    ensures Given(email) && Given(password) && !r.response.LoggedIn? ==>
              r.response == Error(InvalidCredentials) && Status(r.response) == 401
    ensures UniqueEmails(s) && Given(email) && Given(password) ==>
              (r.response.LoggedIn? <==>
                 exists id :: id in s.users && s.users[id].email == email.value &&
                              verify(s.users[id].credential, password.value))
  {
    if !(Given(email) && Given(password)) then Step(s, Error(MissingFields), [])
    else SigninAs(s, email.value, password.value, verify)
  }

  /**
   `SigninView.post` as evidently intended: the submitted email is normalised
   the way `create_user` normalised it before the lookup.
   */
  function SigninChecked(s: Store, email: Option<string>, password: Option<string>,
                         verify: (Credential, string) -> bool, normalize: string -> string): (r: Step)
    requires WellFormed(s)
    ensures r.store == s && r.mail == []
    ensures !(Given(email) && Given(password)) ==> r.response == Error(MissingFields)
    ensures r.response.LoggedIn? ==>
              && Given(email) && Given(password)
              && r.response.userId in s.users
              && s.users[r.response.userId].email == normalize(email.value)
              && verify(s.users[r.response.userId].credential, password.value)
              && r.response.name == s.users[r.response.userId].firstName
    ensures Given(email) && Given(password) && !r.response.LoggedIn? ==>
              r.response == Error(InvalidCredentials) && Status(r.response) == 401
    ensures UniqueEmails(s) && Given(email) && Given(password) ==>
              (r.response.LoggedIn? <==>
                 exists id :: id in s.users && s.users[id].email == normalize(email.value) &&
                              verify(s.users[id].credential, password.value))
  {
    if !(Given(email) && Given(password)) then Step(s, Error(MissingFields), [])
    else SigninAs(s, normalize(email.value), password.value, verify)
  }

  /** With an idempotent normaliser, an email some user holds is its own normal form. */
  lemma TakenEmailIsNormal(s: Store, email: string, normalize: string -> string)
    requires EmailsNormalized(s, normalize) && Idempotent(normalize)
    requires EmailTaken(s, email)
    ensures normalize(email) == email
  {
    var id :| id in s.users && s.users[id].email == email;
    assert normalize(normalize(s.users[id].username)) == normalize(s.users[id].username);
  }

  /**
   Where every stored email is in normal form, the corrected signup answers
   exactly as the handler as written does, except that the database error
   becomes the 400 duplicate answer.
   */
  lemma SignupCorrectionOnlyReplacesCrash(s: Store, name: Option<string>, email: Option<string>,
                                          password: Option<string>, userType: Option<string>,
                                          hash: string -> Credential, normalize: string -> string)
    requires Inv(s) && EmailsNormalized(s, normalize) && Idempotent(normalize)
    ensures var written := Signup(s, name, email, password, userType, hash, normalize);
            SignupChecked(s, name, email, password, userType, hash, normalize) ==
              if written.response == Error(IntegrityError) then Step(s, Error(EmailInUse), []) else written
  {
    if SignupComplete(name, email, password, userType) && EmailTaken(s, email.value) {
      TakenEmailIsNormal(s, email.value, normalize);
    }
  }

  /**
   Where every stored email is in normal form, a login the signin as written
   grants is granted alike by the corrected signin: the correction only adds
   logins.
   */
  lemma SigninCorrectionKeepsLogins(s: Store, email: Option<string>, password: Option<string>,
                                    verify: (Credential, string) -> bool, normalize: string -> string)
    requires WellFormed(s) && EmailsNormalized(s, normalize) && Idempotent(normalize)
    ensures Signin(s, email, password, verify).response.LoggedIn? ==>
              SigninChecked(s, email, password, verify, normalize) == Signin(s, email, password, verify)
  {
    if Given(email) && EmailTaken(s, email.value) {
      TakenEmailIsNormal(s, email.value, normalize);
    }
  }

  /** `JobListView.get`: every job, open to any authenticated caller. */
  function JobList(s: Store, caller: Id): (r: Step)
    requires Consistent(s) && caller in s.users
    ensures r.store == s && r.mail == []
    ensures r.response.Jobs? && ListsAllJobs(s, r.response.jobs)
  {
    AllJobsListed(s);
    Step(s, Jobs(SerializeJobs(s, Ascending(s.jobs.Keys, s.nextJob))), [])
  }

  /** `PostJobView.post`: the role is checked before the fields. */
  function PostJob(s: Store, caller: Id, title: Option<string>, description: Option<string>,
                   now: Timestamp): (r: Step)
    requires WellFormed(s) && caller in s.users
    ensures r.mail == []
    ensures s.users[caller].userType != Recruiter ==>
              r.response == Error(OnlyRecruitersPost) && Status(r.response) == 403 && r.store == s
    ensures s.users[caller].userType == Recruiter && !(Given(title) && Given(description)) ==>
              r.response == Error(MissingFields) && Status(r.response) == 400 && r.store == s
    ensures r.response.JobPosted? <==>
              s.users[caller].userType == Recruiter && Given(title) && Given(description)
    ensures r.response.JobPosted? ==>
              && AddsOneJob(s, r.store, r.response.jobId)
              && r.store.jobs[r.response.jobId] ==
                 Job(r.response.jobId, title.value, description.value, caller, now)
    ensures WellFormed(r.store)
  {
    if s.users[caller].userType != Recruiter then
      Step(s, Error(OnlyRecruitersPost), [])
    else if !Given(title) || !Given(description) then
      Step(s, Error(MissingFields), [])
    else
      var id := s.nextJob;
      Step(s.(jobs := s.jobs[id := Job(id, title.value, description.value, caller, now)], nextJob := id + 1),
           JobPosted(id), [])
  }

  /**
   `ApplyJobView.post`: the role is checked before the job's existence; the
   application is a get-or-create on (caller, job), and only a creation
   sends mail.
   */
  function ApplyJob(s: Store, caller: Id, job: Id, now: Timestamp): (r: Step)
    requires WellFormed(s) && ReferencesResolve(s) && caller in s.users
    ensures s.users[caller].userType != Candidate ==>
              r.response == Error(OnlyCandidatesApply) && Status(r.response) == 403 && r.store == s
    ensures s.users[caller].userType == Candidate && job !in s.jobs ==>
              r.response == Error(NotFound) && Status(r.response) == 404 && r.store == s
    ensures s.users[caller].userType == Candidate && job in s.jobs && HasApplied(s, caller, job) ==>
              r.response == AlreadyApplied && r.store == s
    ensures r.response == Applied <==>
              s.users[caller].userType == Candidate && job in s.jobs && !HasApplied(s, caller, job)
    ensures r.response == Applied ==>
              && AddsOneApplication(s, r.store, s.nextApp)
              && r.store.apps[s.nextApp] == Application(s.nextApp, caller, job, now)
              && r.mail == [Notification(s.users[caller].email, ApplicationSubmitted, job),
                            Notification(s.users[s.jobs[job].postedBy].email, NewApplicant, job)]
    ensures r.response != Applied ==> r.mail == []
    ensures r.response == Applied || r.response == AlreadyApplied ==> HasApplied(r.store, caller, job)
    ensures WellFormed(r.store)
  {
    if s.users[caller].userType != Candidate then
      Step(s, Error(OnlyCandidatesApply), [])
    else if job !in s.jobs then
      Step(s, Error(NotFound), [])
    else if HasApplied(s, caller, job) then
      Step(s, AlreadyApplied, [])
    else
      var id := s.nextApp;
      var poster := s.users[s.jobs[job].postedBy];
      var s' := s.(apps := s.apps[id := Application(id, caller, job, now)], nextApp := id + 1);
      assert s'.apps[id].candidate == caller && s'.apps[id].job == job;
      Step(s', Applied,
           [Notification(s.users[caller].email, ApplicationSubmitted, job),
            Notification(poster.email, NewApplicant, job)])
  }

  /** `MyApplicationsView.get`: exactly the caller's applications. */
  function MyApplications(s: Store, caller: Id): (r: Step)
    requires Consistent(s) && caller in s.users
    ensures r.store == s && r.mail == []
    ensures s.users[caller].userType != Candidate ==>
              r.response == Error(OnlyCandidatesView) && Status(r.response) == 403
    ensures s.users[caller].userType == Candidate ==>
              && r.response.Applications?
              && ListsApplications(s, r.response.apps, set id | id in s.apps && s.apps[id].candidate == caller)
  {
    if s.users[caller].userType != Candidate then
      Step(s, Error(OnlyCandidatesView), [])
    else
      var mine := set id | id in s.apps && s.apps[id].candidate == caller;
      SelectedApplicationsListed(s, mine);
      Step(s, Applications(SerializeApplications(s, Ascending(mine, s.nextApp))), [])
  }

  /**
   `JobApplicantsView.get`: a job that does not exist and a job posted by
   someone else give the same 404.
   */
  function JobApplicants(s: Store, caller: Id, job: Id): (r: Step)
    requires Consistent(s) && caller in s.users
    ensures r.store == s && r.mail == []
    ensures s.users[caller].userType != Recruiter ==>
              r.response == Error(OnlyRecruitersView) && Status(r.response) == 403
    ensures s.users[caller].userType == Recruiter && (job !in s.jobs || s.jobs[job].postedBy != caller) ==>
              r.response == Error(NotFound) && Status(r.response) == 404
    ensures s.users[caller].userType == Recruiter && job in s.jobs && s.jobs[job].postedBy == caller ==>
              && r.response.Applications?
              && ListsApplications(s, r.response.apps, set id | id in s.apps && s.apps[id].job == job)
  {
    if s.users[caller].userType != Recruiter then
      Step(s, Error(OnlyRecruitersView), [])
    else if job !in s.jobs || s.jobs[job].postedBy != caller then
      Step(s, Error(NotFound), [])
    else
      var theirs := set id | id in s.apps && s.apps[id].job == job;
      SelectedApplicationsListed(s, theirs);
      Step(s, Applications(SerializeApplications(s, Ascending(theirs, s.nextApp))), [])
  }
}
