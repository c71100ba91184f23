/**
 Properties that relate several handler calls: the idempotent apply, the
 email as identity, the roles Signup lets through, and what the read
 handlers show after an application.
 */
module Properties {
  import opened Wrappers
  import opened Emails
  import opened Models
  import opened Serializers
  import opened Views
  import opened Server

  /**
   Applying twice to the same job: the second call reports `already_applied`,
   changes nothing and sends nothing, and the pair has exactly one application.
   */
  lemma ApplyIsIdempotent(s: Store, caller: Id, job: Id, now: Timestamp, later: Timestamp)
    requires Inv(s) && caller in s.users
    requires s.users[caller].userType == Candidate && job in s.jobs
    ensures var first := ApplyJob(s, caller, job, now);
            var second := ApplyJob(first.store, caller, job, later);
            && second.response == AlreadyApplied
            && second.store == first.store
            && second.mail == []
            && |ApplicationsFor(second.store, caller, job)| == 1
  {
    var first := ApplyJob(s, caller, job, now);
    ApplyJobKeepsInv(s, caller, job, now);
    AppliedPairIsUnique(first.store, caller, job);
  }

  /**
   Once an email has signed up, every later signup whose email normalises the
   same way is refused with 400 and adds no user.
   */
  lemma SecondSignupRefused(s: Store, name: Option<string>, email: Option<string>, password: Option<string>,
                            userType: Option<string>, name2: Option<string>, email2: Option<string>,
                            password2: Option<string>, userType2: Option<string>, hash: string -> Credential,
                            normalize: string -> string)
    requires Inv(s)
    requires SignupChecked(s, name, email, password, userType, hash, normalize).response.Created?
    requires SignupComplete(name2, email2, password2, userType2)
    requires normalize(email2.value) == normalize(email.value)
    ensures var after := SignupChecked(s, name, email, password, userType, hash, normalize).store;
            var again := SignupChecked(after, name2, email2, password2, userType2, hash, normalize);
            again.response == Error(EmailInUse) && Status(again.response) == 400 && again.store == after
  {
    var up := SignupChecked(s, name, email, password, userType, hash, normalize);
    assert up.store.users[up.response.userId].email == normalize(email2.value);
  }

  /**
   With a hasher whose check accepts exactly the password it hashed, signing
   in after signing up succeeds as the new user under any spelling of the
   email that normalises the same way, and any other password is refused
   with 401.
   */
  lemma SignupThenSignin(s: Store, name: string, email: string, password: string, userType: string,
                         typed: string, other: string, hash: string -> Credential,
                         verify: (Credential, string) -> bool, normalize: string -> string)
    requires Inv(s)
    requires forall p, q :: verify(hash(p), q) <==> p == q
    requires name != "" && email != "" && password != "" && userType != ""
    requires !EmailTaken(s, normalize(email)) && !UsernameTaken(s, email)
    requires typed != "" && normalize(typed) == normalize(email)
    requires other != "" && other != password
    ensures var up := SignupChecked(s, Some(name), Some(email), Some(password), Some(userType), hash, normalize);
            && up.response.Created?
            && SigninChecked(up.store, Some(typed), Some(password), verify, normalize).response ==
               LoggedIn(up.response.userId, name)
            && SigninChecked(up.store, Some(typed), Some(other), verify, normalize).response ==
               Error(InvalidCredentials)
  {
    var up := SignupChecked(s, Some(name), Some(email), Some(password), Some(userType), hash, normalize);
    SignupKeepsInv(s, Some(name), Some(email), Some(password), Some(userType), hash, normalize);
    var id := up.response.userId;
    assert up.store.users[id].email == normalize(typed);
    assert UserByEmail(up.store, normalize(typed)) == Some(id);
  }

  /**
   On every state the code as written reaches from an empty database under
   `normalize_email`, the corrected signup differs from the one as written
   only where the latter ends in a database error.
   */
  lemma ReachableSignupCorrection(events: seq<Event>, hash: string -> Credential,
                                  verify: (Credential, string) -> bool, name: Option<string>,
                                  email: Option<string>, password: Option<string>, userType: Option<string>)
    ensures var s := RunAsWritten(Empty, events, hash, verify, NormalizeEmail);
            var written := Signup(s, name, email, password, userType, hash, NormalizeEmail);
            SignupChecked(s, name, email, password, userType, hash, NormalizeEmail) ==
              if written.response == Error(IntegrityError) then Step(s, Error(EmailInUse), []) else written
  {
    ReachableStatesKeepInv(events, hash, verify, NormalizeEmail);
    NormalizeEmailIsIdempotent();
    var s := RunAsWritten(Empty, events, hash, verify, NormalizeEmail);
    SignupCorrectionOnlyReplacesCrash(s, name, email, password, userType, hash, NormalizeEmail);
  }

  /**
   A signup with an address that differs from a stored one but normalises to
   it passes the duplicate check as written and ends in a database error; the
   corrected handler answers 400.
   */
  lemma NormalisedDuplicateCrashes(stored: string, typed: string, hash: string -> Credential,
                                   normalize: string -> string)
    requires stored != "" && typed != "" && typed != stored
    requires normalize(stored) == stored && normalize(typed) == stored
    ensures var first := Signup(Empty, Some("B"), Some(stored), Some("pw"), Some(Candidate), hash, normalize);
            var again := Signup(first.store, Some("B"), Some(typed), Some("pw"), Some(Candidate), hash, normalize);
            var fixed := SignupChecked(first.store, Some("B"), Some(typed), Some("pw"), Some(Candidate), hash, normalize);
            && first.response == Created(1)
            && again.response == Error(IntegrityError) && Status(again.response) == 500
            && again.store == first.store
            && fixed.response == Error(EmailInUse) && Status(fixed.response) == 400
  {
    var first := Signup(Empty, Some("B"), Some(stored), Some("pw"), Some(Candidate), hash, normalize);
    assert first.store.users.Keys == {1};
    assert first.store.users[1].email == stored;
    assert !EmailTaken(first.store, typed) by {
      forall id | id in first.store.users
        ensures first.store.users[id].email != typed
      {
        assert id == 1;
      }
    }
    assert EmailTaken(first.store, normalize(typed));
  }

  /**
   The crash as written: after "b@x.com" has signed up, a signup with
   " b@x.com" passes the duplicate check, and the insert of the stored
   "b@x.com" breaks the unique email constraint (500). The corrected
   handler answers 400.
   */
  lemma PaddedDuplicateCrashes(hash: string -> Credential)
    ensures var first := Signup(Empty, Some("B"), Some("b@x.com"), Some("pw"), Some(Candidate), hash, NormalizeEmail);
            var again := Signup(first.store, Some("B"), Some(" b@x.com"), Some("pw"), Some(Candidate), hash,
                                NormalizeEmail);
            var fixed := SignupChecked(first.store, Some("B"), Some(" b@x.com"), Some("pw"), Some(Candidate), hash,
                                       NormalizeEmail);
            && first.response == Created(1)
            && again.response == Error(IntegrityError) && Status(again.response) == 500
            && again.store == first.store
            && fixed.response == Error(EmailInUse) && Status(fixed.response) == 400
  {
    PaddedExample();
    assert " b@x.com" != "b@x.com" by { assert " b@x.com"[0] != "b@x.com"[0]; }
    NormalisedDuplicateCrashes("b@x.com", " b@x.com", hash, NormalizeEmail);
  }

  /**
   A signin with the address exactly as it was signed up with is refused as
   written when the stored, normalised address differs from it; the
   corrected handler logs the user in.
   */
  lemma UnnormalisedSigninRefused(typed: string, hash: string -> Credential,
                                  verify: (Credential, string) -> bool, normalize: string -> string)
    requires typed != "" && normalize(typed) != typed
    requires forall p, q :: verify(hash(p), q) <==> p == q
    ensures var up := Signup(Empty, Some("B"), Some(typed), Some("pw"), Some(Candidate), hash, normalize);
            && up.response == Created(1)
            && Signin(up.store, Some(typed), Some("pw"), verify).response == Error(InvalidCredentials)
            && SigninChecked(up.store, Some(typed), Some("pw"), verify, normalize).response == LoggedIn(1, "B")
  {
    var up := Signup(Empty, Some("B"), Some(typed), Some("pw"), Some(Candidate), hash, normalize);
    assert up.store.users.Keys == {1};
    assert up.store.users[1].email == normalize(typed);
    assert !EmailTaken(up.store, typed);
    assert UserByEmail(up.store, normalize(typed)) == Some(1);
  }

  /**
   The missed login as written: after "b@X.com" has signed up, its row holds
   "b@x.com", so a signin with "b@X.com" is refused with 401 whatever the
   password. The corrected handler logs the user in.
   */
  lemma MixedCaseSigninRefused(hash: string -> Credential, verify: (Credential, string) -> bool)
    requires forall p, q :: verify(hash(p), q) <==> p == q
    ensures var up := Signup(Empty, Some("B"), Some("b@X.com"), Some("pw"), Some(Candidate), hash, NormalizeEmail);
            && up.response == Created(1)
            && Signin(up.store, Some("b@X.com"), Some("pw"), verify).response == Error(InvalidCredentials)
            && SigninChecked(up.store, Some("b@X.com"), Some("pw"), verify, NormalizeEmail).response ==
               LoggedIn(1, "B")
  {
    MixedCaseExample();
    assert "b@x.com" != "b@X.com" by { assert "b@x.com"[2] != "b@X.com"[2]; }
    UnnormalisedSigninRefused("b@X.com", hash, verify, NormalizeEmail);
  }

  /** Under the unique email constraint, the email lookup of Signin names the only user with that email. */
  lemma EmailIdentifiesUser(s: Store, email: string, id: Id)
    requires Consistent(s)
    requires id in s.users && s.users[id].email == email
    ensures UserByEmail(s, email) == Some(id)
  {
  }

  /**
   Signup only checks that a user type is given: any non-empty value makes a
   user, and a user whose type is neither role is refused with 403 by every
   role-gated handler, which then change nothing.
   */
  lemma UncheckedRoleIsLockedOut(s: Store, name: string, email: string, password: string, userType: string,
                                 hash: string -> Credential, normalize: string -> string,
                                 title: Option<string>, description: Option<string>, job: Id, now: Timestamp)
    requires Inv(s)
    requires name != "" && email != "" && password != "" && userType != ""
    requires userType != Candidate && userType != Recruiter
    requires !EmailTaken(s, normalize(email)) && !UsernameTaken(s, email)
    ensures var up := SignupChecked(s, Some(name), Some(email), Some(password), Some(userType), hash, normalize);
            var t := up.store;
            var u := up.response.userId;
            && up.response.Created?
            && u in t.users
            && PostJob(t, u, title, description, now) == Step(t, Error(OnlyRecruitersPost), [])
            && ApplyJob(t, u, job, now) == Step(t, Error(OnlyCandidatesApply), [])
            && MyApplications(t, u) == Step(t, Error(OnlyCandidatesView), [])
            && JobApplicants(t, u, job) == Step(t, Error(OnlyRecruitersView), [])
  {
  }

  /** After a candidate's application is created, the candidate's own listing shows it with the job's title. */
  lemma CandidateSeesApplication(s: Store, caller: Id, job: Id, now: Timestamp)
    requires Inv(s) && caller in s.users
    requires ApplyJob(s, caller, job, now).response == Applied
    ensures var t := ApplyJob(s, caller, job, now).store;
            var r := MyApplications(t, caller).response;
            && r.Applications?
            && exists i :: 0 <= i < |r.apps| && r.apps[i].id == s.nextApp &&
                           r.apps[i].job.id == job && r.apps[i].job.title == s.jobs[job].title
  {
  }

  /** After a candidate's application is created, the poster's applicant listing shows it with the candidate's email. */
  lemma PosterSeesApplicant(s: Store, caller: Id, job: Id, now: Timestamp)
    requires Inv(s) && caller in s.users
    requires ApplyJob(s, caller, job, now).response == Applied
    ensures var t := ApplyJob(s, caller, job, now).store;
            var poster := s.jobs[job].postedBy;
            && poster in t.users
            && var r := JobApplicants(t, poster, job).response;
            && r.Applications?
            && exists i :: 0 <= i < |r.apps| && r.apps[i].id == s.nextApp &&
                           r.apps[i].candidate.email == s.users[caller].email
  {
  }

  /** A missing job and a job posted by someone else get the same answer from JobApplicants. */
  lemma ForeignJobLooksMissing(s: Store, caller: Id, missing: Id, foreign: Id)
    requires Consistent(s) && caller in s.users
    requires missing !in s.jobs
    requires foreign in s.jobs && s.jobs[foreign].postedBy != caller
    ensures JobApplicants(s, caller, missing) == JobApplicants(s, caller, foreign)
  {
  }
}
