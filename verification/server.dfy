/**
 Requests routed to the handlers, and runs of requests from an empty
 database. A run keeps the reachable-state invariant `Inv`: every job is
 posted by a recruiter and every application is made by a candidate, on top
 of the database's own constraints.
 */
module Server {
  import opened Wrappers
  import opened Emails
  import opened Models
  import opened Views

  /**
   One request. `caller` is the user the bearer token authenticates; a
   token that names no user is refused before any handler runs.
   */
  datatype Request =
    | SignupRequest(name: Option<string>, email: Option<string>, password: Option<string>, userType: Option<string>)
    | SigninRequest(email: Option<string>, password: Option<string>)
    | JobListRequest(caller: Id)
    | PostJobRequest(caller: Id, title: Option<string>, description: Option<string>)
    | ApplyJobRequest(caller: Id, job: Id)
    | MyApplicationsRequest(caller: Id)
    | JobApplicantsRequest(caller: Id, job: Id)

  /** A request and the wall-clock time at which it is handled. */
  datatype Event = Event(request: Request, at: Timestamp)

  /**
   Both signups keep the invariant: the stored email is the normalised form
   of the stored username, and neither is taken by another user.
   */
  lemma SignupKeepsInv(s: Store, name: Option<string>, email: Option<string>, password: Option<string>,
                       userType: Option<string>, hash: string -> Credential, normalize: string -> string)
    requires Inv(s)
    ensures var r := Signup(s, name, email, password, userType, hash, normalize).store;
            Inv(r) && (EmailsNormalized(s, normalize) ==> EmailsNormalized(r, normalize))
    ensures var r := SignupChecked(s, name, email, password, userType, hash, normalize).store;
            Inv(r) && (EmailsNormalized(s, normalize) ==> EmailsNormalized(r, normalize))
  {
    if SignupComplete(name, email, password, userType) {
      var u := NewUser(s.nextUser, name.value, email.value, password.value, userType.value, hash, normalize);
      if !EmailTaken(s, u.email) && !UsernameTaken(s, u.username) {
        InsertUserKeepsInv(s, u, normalize);
      }
    }
  }

  /**
   A new user whose email and username are free keeps `Inv`, and keeps the
   emails normalised when its own email is normalised from its username.
   */
  lemma InsertUserKeepsInv(s: Store, u: User, normalize: string -> string)
    requires Inv(s) && u.id == s.nextUser
    requires !EmailTaken(s, u.email) && !UsernameTaken(s, u.username)
    ensures Inv(InsertUser(s, u))
    ensures EmailsNormalized(s, normalize) && u.email == normalize(u.username) ==>
              EmailsNormalized(InsertUser(s, u), normalize)
  {
    var r := InsertUser(s, u);
    assert UniqueEmails(r);
    assert UniqueUsernames(r);
  }

  lemma PostJobKeepsInv(s: Store, caller: Id, title: Option<string>, description: Option<string>, now: Timestamp)
    requires Inv(s) && caller in s.users
    ensures Inv(PostJob(s, caller, title, description, now).store)
  {
  }

  lemma ApplyJobKeepsInv(s: Store, caller: Id, job: Id, now: Timestamp)
    requires Inv(s) && caller in s.users
    ensures Inv(ApplyJob(s, caller, job, now).store)
  {
    var step := ApplyJob(s, caller, job, now);
    if step.response == Applied {
      NewApplicationKeepsInv(s, step.store, Application(s.nextApp, caller, job, now));
    }
  }

  /**
   Adding one application by a candidate, to an existing job the candidate
   has not applied to yet, keeps `Inv`.
   */
  lemma NewApplicationKeepsInv(s: Store, r: Store, a: Application)
    requires Inv(s) && WellFormed(r)
    requires AddsOneApplication(s, r, a.id) && r.apps[a.id] == a
    requires a.candidate in s.users && s.users[a.candidate].userType == Candidate
    requires a.job in s.jobs && !HasApplied(s, a.candidate, a.job)
    ensures Inv(r)
  {
    NewApplicationKeepsConstraints(s, r, a);
    NewApplicationKeepsRoles(s, r, a);
    assert UniqueEmails(r) && UniqueUsernames(r);
  }

  lemma NewApplicationKeepsConstraints(s: Store, r: Store, a: Application)
    requires Consistent(s)
    requires AddsOneApplication(s, r, a.id) && r.apps[a.id] == a
    requires a.candidate in s.users && a.job in s.jobs && !HasApplied(s, a.candidate, a.job)
    ensures UniquePairs(r) && ReferencesResolve(r)
  {
  }

  lemma NewApplicationKeepsRoles(s: Store, r: Store, a: Application)
    requires RolesRespected(s)
    requires AddsOneApplication(s, r, a.id) && r.apps[a.id] == a
    requires a.candidate in s.users && s.users[a.candidate].userType == Candidate
    ensures RolesRespected(r)
  {
  }

  /**
   The handler a request is routed to, behind the authentication check.
   Signup and signin are the corrected handlers, which compare emails in the
   form `create_user` stores them.
   */
  function Handle(s: Store, request: Request, now: Timestamp, hash: string -> Credential,
                  verify: (Credential, string) -> bool, normalize: string -> string): (r: Step)
    requires Inv(s)
    ensures Inv(r.store)
    ensures EmailsNormalized(s, normalize) ==> EmailsNormalized(r.store, normalize)
    ensures !request.SignupRequest? && !request.SigninRequest? && request.caller !in s.users ==>
              r == Step(s, Error(NotAuthenticated), [])
    ensures request.SignupRequest? || request.PostJobRequest? || request.ApplyJobRequest? || r.store == s
  {
    match request
    case SignupRequest(name, email, password, userType) =>
      SignupKeepsInv(s, name, email, password, userType, hash, normalize);
      SignupChecked(s, name, email, password, userType, hash, normalize)
    case SigninRequest(email, password) =>
      SigninChecked(s, email, password, verify, normalize)
    case JobListRequest(caller) =>
      if caller !in s.users then Step(s, Error(NotAuthenticated), [])
      else JobList(s, caller)
    case PostJobRequest(caller, title, description) =>
      if caller !in s.users then Step(s, Error(NotAuthenticated), [])
      else
        PostJobKeepsInv(s, caller, title, description, now);
        PostJob(s, caller, title, description, now)
    case ApplyJobRequest(caller, job) =>
      if caller !in s.users then Step(s, Error(NotAuthenticated), [])
      else
        ApplyJobKeepsInv(s, caller, job, now);
        ApplyJob(s, caller, job, now)
    case MyApplicationsRequest(caller) =>
      if caller !in s.users then Step(s, Error(NotAuthenticated), [])
      else MyApplications(s, caller)
    case JobApplicantsRequest(caller, job) =>
      if caller !in s.users then Step(s, Error(NotAuthenticated), [])
      else JobApplicants(s, caller, job)
  }

  /** The store after handling `events` in order, starting from `s`. */
  function Run(s: Store, events: seq<Event>, hash: string -> Credential,
               verify: (Credential, string) -> bool, normalize: string -> string): (r: Store)
    requires Inv(s)
    ensures Inv(r)
    ensures EmailsNormalized(s, normalize) ==> EmailsNormalized(r, normalize)
    decreases |events|
  {
    if events == [] then s
    else
      var step := Handle(s, events[0].request, events[0].at, hash, verify, normalize);
      Run(step.store, events[1..], hash, verify, normalize)
  }

  /**
   The routing as the code has it: signup and signin go to the handlers as
   written, every other request where `Handle` sends it.
   */
  function HandleAsWritten(s: Store, request: Request, now: Timestamp, hash: string -> Credential,
                           verify: (Credential, string) -> bool, normalize: string -> string): (r: Step)
    requires Inv(s)
    ensures Inv(r.store)
    ensures EmailsNormalized(s, normalize) ==> EmailsNormalized(r.store, normalize)
    ensures !request.SignupRequest? && !request.SigninRequest? ==>
              r == Handle(s, request, now, hash, verify, normalize)
    ensures request.SigninRequest? ==> r.store == s
  {
    match request
    case SignupRequest(name, email, password, userType) =>
      SignupKeepsInv(s, name, email, password, userType, hash, normalize);
      Signup(s, name, email, password, userType, hash, normalize)
    case SigninRequest(email, password) =>
      Signin(s, email, password, verify)
    case _ =>
      Handle(s, request, now, hash, verify, normalize)
  }

  /**
   Where every stored email is in normal form under an idempotent
   normaliser, the routing as written and the corrected one leave the same
   store, and answer alike except where the code as written ends in a
   database error or refuses a login the corrected signin grants.
   */
  lemma AsWrittenAgrees(s: Store, request: Request, now: Timestamp, hash: string -> Credential,
                        verify: (Credential, string) -> bool, normalize: string -> string)
    requires Inv(s)
    ensures var w := HandleAsWritten(s, request, now, hash, verify, normalize);
            var c := Handle(s, request, now, hash, verify, normalize);
            Idempotent(normalize) && EmailsNormalized(s, normalize) ==>
              && w.store == c.store
              && (w.response == Error(IntegrityError) ==> c == Step(s, Error(EmailInUse), []))
              && (w.response != Error(IntegrityError) && !request.SigninRequest? ==> w == c)
              && (w.response.LoggedIn? ==> w == c)
  {
    if Idempotent(normalize) && EmailsNormalized(s, normalize) {
      match request
      case SignupRequest(name, email, password, userType) =>
        SignupCorrectionOnlyReplacesCrash(s, name, email, password, userType, hash, normalize);
      case SigninRequest(email, password) =>
        SigninCorrectionKeepsLogins(s, email, password, verify, normalize);
      case _ =>
    }
  }

  /** The store after handling `events` in order with the routing as written. */
  function RunAsWritten(s: Store, events: seq<Event>, hash: string -> Credential,
                        verify: (Credential, string) -> bool, normalize: string -> string): (r: Store)
    requires Inv(s)
    ensures Inv(r)
    ensures EmailsNormalized(s, normalize) ==> EmailsNormalized(r, normalize)
    ensures Idempotent(normalize) && EmailsNormalized(s, normalize) ==>
              r == Run(s, events, hash, verify, normalize)
    decreases |events|
  {
    if events == [] then s
    else
      var step := HandleAsWritten(s, events[0].request, events[0].at, hash, verify, normalize);
      AsWrittenAgrees(s, events[0].request, events[0].at, hash, verify, normalize);
      RunAsWritten(step.store, events[1..], hash, verify, normalize)
  }

  /**
   Every state reachable from an empty database, with the routing as written
   or the corrected one, satisfies `Inv`, and every stored email is the
   normalised form of its username; under an idempotent normaliser the two
   routings reach the same state.
   */
  lemma ReachableStatesKeepInv(events: seq<Event>, hash: string -> Credential,
                               verify: (Credential, string) -> bool, normalize: string -> string)
    ensures Inv(Run(Empty, events, hash, verify, normalize))
    ensures EmailsNormalized(Run(Empty, events, hash, verify, normalize), normalize)
    ensures Inv(RunAsWritten(Empty, events, hash, verify, normalize))
    ensures EmailsNormalized(RunAsWritten(Empty, events, hash, verify, normalize), normalize)
    ensures Idempotent(normalize) ==>
              RunAsWritten(Empty, events, hash, verify, normalize) == Run(Empty, events, hash, verify, normalize)
  {
  }
}
