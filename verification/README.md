# Job board request handlers, modelled in Dafny

A job-board backend: recruiters post jobs, candidates apply to them, and each
side lists its own records. This project models the request handlers of
`jobServices/views.py` as pure transitions over an immutable in-memory store.
The table constraints come from `jobServices/models.py` and the response
projections from `jobServices/serializers.py`.

- `Emails` (`emails.dfy`) holds the email normalisation that `create_user`
  applies before it stores a user: strip surrounding whitespace, split at
  the last `@`, lower-case the domain. An address without `@` is kept as
  given.
- `Models` (`models.dfy`) holds the store: users, jobs and applications, each
  a map from id to row, plus one id sequence per table. It defines the
  constraints the database enforces: unique email, unique (candidate, job)
  pair, and foreign keys. It also defines the role invariant that only the
  handlers enforce, and the cascading deletes.
- `Serializers` (`serializers.dfy`) holds `UserSerializer`, `JobSerializer`
  and `ApplicationSerializer` as projection functions from rows to output
  records. Each also has a `many=True` list form.
- `Views` (`views.dfy`) holds one function per handler. Each returns a
  `Step`: the new store, the response and the mail sent. `Status` gives each
  response's HTTP status. Signup and signin appear twice: as written
  (`Signup`, `Signin`) and corrected (`SignupChecked`, `SigninChecked`), see
  "Findings".
- `Server` (`server.dfy`) routes a request to its handler behind the
  authentication check, twice: `HandleAsWritten` uses the signup and signin
  as written, and `Handle` the corrected ones. `RunAsWritten` and `Run`
  handle a sequence of requests. Every state either run reaches keeps the
  invariant `Inv` and stores every email in normal form, and under the real
  normalisation both runs reach the same state.
- `Properties` (`properties.dfy`) holds the lemmas that relate several
  calls: the idempotent apply, email identity, unchecked roles, and what the
  listings show after an application.

Outside collaborators are parameters of the model:

- Password hashing is a function `hash: string -> Credential`.
  `check_password` is a predicate `verify: (Credential, string) -> bool`.
- The clock is a `now: Timestamp` argument.
- `send_mail(..., fail_silently=True)` is a `Notification` (recipient, kind,
  job) in the step's mail list. `fail_silently` hides transport failures,
  so those never reach a response. A subject the mail library refuses to
  build is another matter, listed under "Left out".
- The email normalisation is a parameter `normalize: string -> string` of
  the handlers. `Emails.NormalizeEmail` is the normalisation itself, and
  the lemmas that exhibit the findings use it.
- The authenticated caller (`request.user`) is a user id.
- A successful signup or signin is the `Created` or `LoggedIn` response.
  That response stands for the issued token pair.

A request field is given when it is present and not the empty string. This is
Python's truthiness for string values, as used by `not all([...])` and
`not title`.

Two behaviours of the code that its declarations do not suggest:

- Signup checks only that `user_type` is present. Any non-empty value makes a
  user, even though `USER_TYPE_CHOICES` lists only two roles.
- A duplicate email gets the same 400 status as a missing field.

## Model

| member | source | states |
|---|---|---|
| Emails.TrimStart | jobServices/views.py:25 | `str.lstrip()`: what is cut off is a whitespace prefix, and the result starts with no whitespace. A string that starts with no whitespace is kept whole. |
| Emails.TrimEnd | jobServices/views.py:25 | `str.rstrip()`: what is cut off is a whitespace suffix, and the result ends with no whitespace. A string that ends with no whitespace is kept whole. |
| Emails.Strip | jobServices/views.py:25 | `str.strip()`: the result has whitespace at neither end, and a string with whitespace at neither end is kept whole. |
| Emails.StripCutsOnlySpace | jobServices/views.py:25 | `str.strip()` cuts off only whitespace: its result is a contiguous slice of the input, and everything before and after that slice is whitespace. |
| Emails.NormalizeIsIdempotent | jobServices/views.py:25 | Normalising a stored address again changes nothing. `create_user` strips the address and lower-cases the part after its last `@`, and the result is its own normal form. |
| Emails.NormalizeEmailIsIdempotent | jobServices/views.py:25 | The email normalisation is idempotent as a function, as the correctness lemmas about signup and signin require. |
| Emails.LeadingSpaceIgnored | jobServices/views.py:25 | A leading whitespace character does not change the stored form of an address that has an `@`. |
| Emails.PaddedExample | jobServices/views.py:25 | " b@x.com" is stored as "b@x.com", and "b@x.com" is stored as given. |
| Emails.MixedCaseExample | jobServices/views.py:25 | "b@X.com" is stored as "b@x.com". |
| Models.AppliedPairIsUnique | jobServices/models.py:47-48 | Under `unique_together`, a (candidate, job) pair that has an application has exactly one. |
| Models.DeleteJob | jobServices/models.py:44 | Deleting a job removes it and exactly the applications that point at it. All other rows stay unchanged. If the foreign keys resolved before, they still resolve, and the applications kept are exactly those whose job survives. |
| Models.DeleteUser | jobServices/models.py:36-44 | Deleting a user removes that user, exactly the jobs they posted, and exactly the applications that point at the user or at one of those jobs. All other rows stay unchanged. If the foreign keys resolved before, they still resolve, and the applications kept are exactly those whose candidate and job survive. |
| Models.DeleteJobKeepsInv | jobServices/models.py:44-48 | The job cascade keeps every database constraint, the role invariant and the normal form of the stored emails. |
| Models.DeleteUserKeepsInv | jobServices/models.py:36-48 | The user cascade keeps every database constraint, the role invariant and the normal form of the stored emails. |
| Serializers.UserProjectionFields | jobServices/serializers.py:4-7 | Two users serialise alike exactly when they agree on id, email, first_name and user_type. The password credential and the username never reach an output. |
| Serializers.SerializeJob | jobServices/serializers.py:9-13 | A job's `posted_by` is the user projection of its poster. The projection loses nothing: the job row (id, title, description, poster id, created_at) reads back from it. |
| Serializers.SerializeApplication | jobServices/serializers.py:15-20 | The candidate and the job's poster are user projections. The projection loses nothing: the application row (id, candidate id, job id, applied_at) and its job row both read back from it. |
| Serializers.SerializeJobs | jobServices/views.py:83 | `many=True` gives one job projection per input row, in the same order. |
| Serializers.SerializeApplications | jobServices/views.py:157 | `many=True` gives one application projection per input row, in the same order. |
| Serializers.AllJobsListed | jobServices/views.py:82-83 | Serialising all jobs in primary-key order lists every job exactly once, in ascending id order, as its full projection. |
| Serializers.SelectedApplicationsListed | jobServices/views.py:156-157 | Serialising a selection of applications in primary-key order lists exactly the selected ones, in ascending id order, as full projections. |
| Views.UserByEmail | jobServices/views.py:45 | `.first()` finds a user with the given email, the one with the smallest id. It finds none exactly when no user has that email. |
| Views.NewUser | jobServices/views.py:25-27 | The row a signup stores keeps the submitted email as its username and stores that email's normal form. Under an idempotent normaliser the stored email is its own normal form, so a lookup of the normalised address finds it. |
| Views.Signup | jobServices/views.py:16-34 | As written. A missing field gives 400 and leaves the store unchanged. So does a submitted email that some user holds exactly. An email that is free as submitted, but whose normalised form or whose username is taken, gives 500 (the database error) and leaves the store unchanged. Otherwise the handler gives 201 and adds exactly one user, the `NewUser` row, under a fresh id. Signup succeeds exactly when all four fields are given and neither check nor constraint objects. |
| Views.SignupChecked | jobServices/views.py:21-27 | Corrected. A missing field, a taken normalised email or a taken username gives 400 and leaves the store unchanged. Every error is a 400. Otherwise the handler gives 201 and adds exactly the `NewUser` row. |
| Views.Signin | jobServices/views.py:40-55 | As written. The store never changes (the password re-hash is left out, see "Left out") and no mail is sent. Missing fields give 400. With both fields given, anything but a login is 401. A login names a user whose stored email equals the submitted one exactly and whose credential passes the check, and returns that user's first_name. Under unique emails, a login happens exactly when such a user exists. |
| Views.SigninChecked | jobServices/views.py:44-55 | Corrected: the same as `Signin`, except that the submitted email is normalised before the lookup. A login happens exactly when a user holds the normalised email and passes the check. |
| Views.TakenEmailIsNormal | jobServices/views.py:23-25 | When stored emails are normalised from usernames by an idempotent normaliser, an email some user holds is its own normal form. |
| Views.SignupCorrectionOnlyReplacesCrash | jobServices/views.py:23-25 | Where stored emails are in normal form, the corrected signup answers exactly as the one as written, except that the 500 database error becomes the 400 duplicate answer. |
| Views.SigninCorrectionKeepsLogins | jobServices/views.py:45-46 | Where stored emails are in normal form, every login the signin as written grants, the corrected signin grants alike. |
| Views.JobList | jobServices/views.py:81-84 | Returns every job exactly once, in id order, as its full projection. The store never changes. |
| Views.PostJob | jobServices/views.py:90-98 | A non-recruiter gets 403 even when fields are missing. A recruiter with an empty title or description gets 400. Either way the store is unchanged. Otherwise exactly one job is added under a fresh id, posted by the caller. No mail is sent. |
| Views.ApplyJob | jobServices/views.py:104-147 | A non-candidate gets 403 for any job id. An unknown job gives 404. An existing (caller, job) pair gives `already_applied`. In all three cases the store is unchanged and no mail is sent. Otherwise exactly one application is added under a fresh id, and exactly two mails go out: one to the candidate, then one to the job's poster. |
| Views.MyApplications | jobServices/views.py:153-158 | A non-candidate gets 403. A candidate gets exactly their own applications, each once, in id order, as full projections. The store never changes. |
| Views.JobApplicants | jobServices/views.py:164-170 | A non-recruiter gets 403. A job that is missing or posted by someone else gives 404. Otherwise the caller gets exactly that job's applications, each once, in id order, as full projections. The store never changes. |
| Server.SignupKeepsInv | jobServices/views.py:21-27 | Both signups keep unique emails, unique usernames, the foreign keys and the role invariant. Each stored email stays the normalised form of its username. |
| Server.PostJobKeepsInv | jobServices/views.py:91-97 | PostJob keeps the invariant: a new job's poster is a recruiter. |
| Server.ApplyJobKeepsInv | jobServices/views.py:105-108 | ApplyJob keeps the invariant: a new application's candidate is a candidate, and the (candidate, job) pair stays unique. |
| Server.Handle | jobServices/urls.py:8-17 | A request that names no user and is neither signup nor signin is refused with 401 and changes nothing. Only signup, post-job and apply can change the store. Every routed handler keeps the invariant and the normal form of the stored emails. |
| Server.Run | jobServices/views.py:91-108 | Any sequence of requests keeps the invariant: every job was posted by a recruiter, every application is by a candidate, and the database constraints hold. Stored emails stay in normal form. |
| Server.HandleAsWritten | jobServices/urls.py:8-16 | The routing as the code has it, with the signup and signin as written. Every routed handler keeps the invariant and the normal form of the stored emails. A signin never changes the store (the password re-hash is left out, see "Left out"), and every request other than signup and signin is handled as `Server.Handle` handles it. |
| Server.AsWrittenAgrees | jobServices/views.py:23-46 | Where stored emails are in normal form under an idempotent normaliser, the routing as written and the corrected one leave the same store. They answer alike, except that a database error as written is the 400 duplicate answer corrected, and a login refused as written may be granted corrected. |
| Server.RunAsWritten | jobServices/views.py:16-170 | Any sequence of requests handled by the code as written keeps the invariant and the normal form of the stored emails. From a state with normalised emails, under an idempotent normaliser, it ends in the same store as the corrected run. |
| Server.ReachableStatesKeepInv | jobServices/models.py:36-48 | Every state reached from an empty database, by the code as written or the corrected one, satisfies the invariant, and every stored email is the normalised form of its username. Under an idempotent normaliser both reach the same state. |
| Properties.ApplyIsIdempotent | jobServices/views.py:108-110 | Applying twice gives `already_applied` the second time. The second call leaves the store as the first left it and sends no mail. Exactly one application exists for the pair. |
| Properties.SecondSignupRefused | jobServices/views.py:23-24 | After a successful corrected signup, a later signup whose email normalises the same way, with all other fields given, gets 400 and adds no user. |
| Properties.SignupThenSignin | jobServices/views.py:25-55 | When the password check accepts exactly the hashed password, a corrected signin after a corrected signup logs in as the new user under any spelling of the email that normalises the same way. Any other non-empty password gets 401. |
| Properties.ReachableSignupCorrection | jobServices/views.py:23-25 | On every state the code as written reaches from an empty database under the real normalisation, the two signups differ only where the one as written ends in a database error. |
| Properties.NormalisedDuplicateCrashes | jobServices/views.py:23-25 | After one signup, a signup with a different address that normalises to the stored one gets 500 as written and leaves the store unchanged. The corrected signup gets 400. |
| Properties.PaddedDuplicateCrashes | jobServices/views.py:23-25 | After "b@x.com" signs up, a signup as written with " b@x.com" gets 500, and the corrected one gets 400. |
| Properties.UnnormalisedSigninRefused | jobServices/views.py:45-46 | After a signup with an address that normalisation changes, a signin as written with that same address and the right password gets 401. The corrected signin logs the user in. |
| Properties.MixedCaseSigninRefused | jobServices/views.py:45-46 | After "b@X.com" signs up, a signin as written with "b@X.com" gets 401, and the corrected one logs in. |
| Properties.EmailIdentifiesUser | jobServices/models.py:10 | Under the unique email constraint, the signin lookup by email returns the only user with that email. |
| Properties.UncheckedRoleIsLockedOut | jobServices/views.py:21-25 | Signup accepts a user_type that is neither candidate nor recruiter. PostJob, ApplyJob, MyApplications and JobApplicants then all refuse that user with 403 and change nothing. |
| Properties.CandidateSeesApplication | jobServices/views.py:156-158 | After an application is created, the candidate's listing contains it, with the job's id and title. |
| Properties.PosterSeesApplicant | jobServices/views.py:167-170 | After an application is created, the poster's applicant listing for that job contains it, with the candidate's email. |
| Properties.ForeignJobLooksMissing | jobServices/views.py:167 | For a recruiter, JobApplicants answers a missing job and a job posted by someone else in exactly the same way. |

## Findings

| source | as written | input that shows it | evidently intended | confidence | as-written member | corrected member |
|---|---|---|---|---|---|---|
| jobServices/views.py:23-25 | The duplicate check compares the submitted email, but `create_user` stores the normalised email, so the insert can break the unique email constraint. | "b@x.com" has signed up; a signup with " b@x.com" passes the check and the insert raises a database error (500). | A duplicate address gets the 400 "Email already exists" answer. | not executed | Views.Signup, Properties.PaddedDuplicateCrashes | Views.SignupChecked, Properties.SecondSignupRefused |
| jobServices/views.py:45 | Signin looks up the submitted email exactly, while the stored email is normalised. | A signup with "b@X.com" stores "b@x.com"; a signin with "b@X.com" and the right password gets 401. | The user signs in with the address they signed up with. | not executed | Views.Signin, Properties.MixedCaseSigninRefused | Views.SigninChecked, Properties.SignupThenSignin |

## Left out

- Token issuance (`RefreshToken.for_user`) and the logout view with its blacklist (jobServices/views.py:57-75) are token-library internals. A successful signup or signin is only the `Created` or `LoggedIn` response.
- The `IsAuthenticated`/`AllowAny` permission classes and request parsing are not modelled. Authentication is only the check in `Server.Handle` that the caller is an existing user.
- Password hashing and `check_password` are the parameters `hash` and `verify`. Only `Properties.SignupThenSignin`, `Properties.UnnormalisedSigninRefused` and `Properties.MixedCaseSigninRefused` assume anything of them: that the check accepts exactly the password that was hashed.
- Mail subjects and bodies, the sender address and transport failures are left out. `fail_silently=True` silences only transport failures (SMTP errors); it does not catch errors raised while the message is built.
- Views.ApplyJob: both mail subjects embed the job title (jobServices/views.py:113, :131). PostJob stores any non-empty title (jobServices/views.py:93-97), and the mail library raises `BadHeaderError` for a subject that contains a line break. For a job titled "Dev\nOps", `get_or_create` (jobServices/views.py:108) has already stored the application when `send_mail` (jobServices/views.py:122) raises. The response is then 500 and no mail is sent, and a retry gets `already_applied`. The model answers `Applied` with two mails.
- Views.Signin: a correct password whose stored hash uses outdated parameters is re-hashed by `check_password` (jobServices/views.py:46), which saves the new password hash. So a successful signin can change that user's credential, and no other row. The model keeps the credential unchanged, in `Views.SigninChecked` and `Server.HandleAsWritten` as well.
- Views.Signup: ids come from a gapless counter. A failed insert inside `create_user` (jobServices/views.py:25) can consume a sequence value: PostgreSQL never rolls back `nextval`, and SQLite's AUTOINCREMENT may leave a gap. The next signup's `user_id` (jobServices/views.py:31) can then skip a value, while the model reuses it. The same holds for `Properties.NormalisedDuplicateCrashes` and `Properties.PaddedDuplicateCrashes`, whose `again.store == first.store` includes the counter.
- `created_at` and `applied_at` are opaque values supplied by the caller of the model.
- Transactions and the race inside `get_or_create` are left out. Each handler is one atomic step.
- Emails.NormalizeEmail: strips and lower-cases ASCII characters only. Python's `str.strip` and `str.lower` also act on non-ASCII whitespace and letters; those are not modelled.
- Django's `BaseUserManager.normalize_email` and `AbstractBaseUser.normalize_username` are not part of this model's source. `Emails.NormalizeEmail` follows the former. The latter (Unicode NFKC) is taken as the identity, which it is on ASCII input.
- Emails are compared exactly, as SQLite and PostgreSQL compare them. A case-insensitive collation, as in MySQL, is not modelled.
- Request fields that are JSON values other than strings (numbers, booleans, lists) are not modelled. A field is absent, empty or a non-empty string.
- Column lengths are not modelled. The model assumes a database that does not enforce `max_length`, as SQLite does not: `title` 255, `user_type` 10, `username` 150, `email` 254, `first_name` 150. On PostgreSQL, a value that is too long raises a database error (500), which the model does not show. For `first_name` the effect is worse: `create_user` has already inserted the user when the separate `user.save()` (jobServices/views.py:26-27) fails. Under autocommit the user then stays, with an empty first_name, while the response is 500.
- The `groups` and `user_permissions` fields and the other `AbstractUser` fields are left out (jobServices/models.py:12-25).
- The source gives no ordering for `Job.objects.all()` and the `filter(...)` query sets. The model lists rows in ascending id order.
- Server.Handle: routes signup and signin to the corrected handlers. `Server.HandleAsWritten` is the routing as written, and `Server.AsWrittenAgrees` states how far the two differ.
- Server.Run: returns only the final store, not the responses or the mail log of the run, and so does `Server.RunAsWritten`. Those are stated per handler in `Views`.
- Ids are unbounded naturals. The database columns are 32- or 64-bit integers, and `<int:job_id>` (jobServices/urls.py:14, 16) accepts any digit string. With SQLite and Django before 5.0, an out-of-range `job_id` raises `OverflowError` (500) at jobServices/views.py:107 and :167, where the model answers 404.
- URL routing (jobServices/urls.py) appears only as the request kinds that `Server.Handle` dispatches on.
