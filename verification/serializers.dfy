/**
 The output projections of jobServices/serializers.py. A projection is a
 record of its own type, so a field the serializer does not list (the
 password credential, the username) cannot appear in any response.
 */
module Serializers {
  import opened Models

  /** `UserSerializer`: id, email, first_name, user_type. */
  datatype UserOut = UserOut(id: Id, email: string, firstName: string, userType: string)

  /** `JobSerializer`: the poster is nested as a `UserOut`. */
  datatype JobOut = JobOut(id: Id, title: string, description: string, postedBy: UserOut, createdAt: Timestamp)

  /** `ApplicationSerializer`: the candidate and the whole job are nested. */
  datatype ApplicationOut = ApplicationOut(id: Id, candidate: UserOut, job: JobOut, appliedAt: Timestamp)

  function SerializeUser(u: User): (o: UserOut) {
    UserOut(u.id, u.email, u.firstName, u.userType)
  }

  /** The poster of `j` is a row of `s`. */
  ghost predicate JobSerializable(s: Store, j: Job) {
    j.postedBy in s.users
  }

  /** The candidate, the job and the job's poster of `a` are rows of `s`. */
  ghost predicate ApplicationSerializable(s: Store, a: Application) {
    a.candidate in s.users && a.job in s.jobs && JobSerializable(s, s.jobs[a.job])
  }

  /**
   `JobSerializer(job)`: nests the poster as a user projection, and loses
   nothing of the job row, which reads back from the output.
   */
  function SerializeJob(s: Store, j: Job): (r: JobOut)
    requires JobSerializable(s, j)
    ensures r.postedBy == SerializeUser(s.users[j.postedBy])
    ensures WellFormed(s) ==> JobOf(r) == j
  {
    JobOut(j.id, j.title, j.description, SerializeUser(s.users[j.postedBy]), j.createdAt)
  }

  /**
   `ApplicationSerializer(application)`: nests the candidate and the job's
   poster as user projections, and loses nothing of the application row or
   of its job row, which both read back from the output.
   */
  function SerializeApplication(s: Store, a: Application): (r: ApplicationOut)
    requires ApplicationSerializable(s, a)
    ensures r.candidate == SerializeUser(s.users[a.candidate])
    ensures r.job.postedBy == SerializeUser(s.users[s.jobs[a.job].postedBy])
    ensures WellFormed(s) ==> ApplicationOf(r) == a && JobOf(r.job) == s.jobs[a.job]
  {
    ApplicationOut(a.id, SerializeUser(s.users[a.candidate]), SerializeJob(s, s.jobs[a.job]), a.appliedAt)
  }

  /** `JobSerializer(rows, many=True)`: one output per row, in the rows' order. */
  function SerializeJobs(s: Store, ids: seq<Id>): (r: seq<JobOut>)
    requires forall i :: 0 <= i < |ids| ==> ids[i] in s.jobs && JobSerializable(s, s.jobs[ids[i]])
    ensures |r| == |ids|
    ensures forall i :: 0 <= i < |ids| ==> r[i] == SerializeJob(s, s.jobs[ids[i]])
  {
    if ids == [] then [] else [SerializeJob(s, s.jobs[ids[0]])] + SerializeJobs(s, ids[1..])
  }

  /** `ApplicationSerializer(rows, many=True)`: one output per row, in the rows' order. */
  function SerializeApplications(s: Store, ids: seq<Id>): (r: seq<ApplicationOut>)
    requires forall i :: 0 <= i < |ids| ==> ids[i] in s.apps && ApplicationSerializable(s, s.apps[ids[i]])
    ensures |r| == |ids|
    ensures forall i :: 0 <= i < |ids| ==> r[i] == SerializeApplication(s, s.apps[ids[i]])
  {
    if ids == [] then [] else [SerializeApplication(s, s.apps[ids[0]])] + SerializeApplications(s, ids[1..])
  }

  /** The row a job projection was made from, read back from the projection. */
  function JobOf(o: JobOut): (j: Job) {
    Job(o.id, o.title, o.description, o.postedBy.id, o.createdAt)
  }

  /** The row an application projection was made from, read back from the projection. */
  function ApplicationOf(o: ApplicationOut): (a: Application) {
    Application(o.id, o.candidate.id, o.job.id, o.appliedAt)
  }

  /**
   Two users serialise alike exactly when they agree on id, email, first name
   and user type: the credential and the username never reach an output.
   */
  lemma UserProjectionFields(u: User, v: User)
    ensures SerializeUser(u) == SerializeUser(v) <==>
              u.id == v.id && u.email == v.email && u.firstName == v.firstName && u.userType == v.userType
  {
  }

  /**
   `outs` lists, in ascending id order, one full projection of each
   application whose id is in `selected`, and nothing else.
   */
  ghost predicate ListsApplications(s: Store, outs: seq<ApplicationOut>, selected: set<Id>) {
    && (forall i, j :: 0 <= i < j < |outs| ==> outs[i].id < outs[j].id)
    && (forall i :: 0 <= i < |outs| ==>
          && outs[i].id in selected
          && outs[i].id in s.apps
          && ApplicationSerializable(s, s.apps[outs[i].id])
          && outs[i] == SerializeApplication(s, s.apps[outs[i].id]))
    && (forall id :: id in selected ==> exists i :: 0 <= i < |outs| && outs[i].id == id)
  }

  /** `outs` lists, in ascending id order, one full projection of every job of `s`. */
  ghost predicate ListsAllJobs(s: Store, outs: seq<JobOut>) {
    && (forall i, j :: 0 <= i < j < |outs| ==> outs[i].id < outs[j].id)
    && (forall i :: 0 <= i < |outs| ==>
          && outs[i].id in s.jobs
          && JobSerializable(s, s.jobs[outs[i].id])
          && outs[i] == SerializeJob(s, s.jobs[outs[i].id]))
    && (forall id :: id in s.jobs ==> exists i :: 0 <= i < |outs| && outs[i].id == id)
  }

  /** Serialising application rows keeps each row's id at its position. */
  lemma {:induction false} ApplicationIdsKept(s: Store, ids: seq<Id>)
    requires WellFormed(s)
    requires forall i :: 0 <= i < |ids| ==> ids[i] in s.apps && ApplicationSerializable(s, s.apps[ids[i]])
    ensures forall i :: 0 <= i < |ids| ==> SerializeApplications(s, ids)[i].id == ids[i]
  {
    var outs := SerializeApplications(s, ids);
    forall i | 0 <= i < |ids|
      ensures outs[i].id == ids[i]
    {
      assert outs[i] == SerializeApplication(s, s.apps[ids[i]]);
      assert s.apps[ids[i]].id == ids[i];
    }
  }

  /** Serialising job rows keeps each row's id at its position. */
  lemma {:induction false} JobIdsKept(s: Store, ids: seq<Id>)
    requires WellFormed(s)
    requires forall i :: 0 <= i < |ids| ==> ids[i] in s.jobs && JobSerializable(s, s.jobs[ids[i]])
    ensures forall i :: 0 <= i < |ids| ==> SerializeJobs(s, ids)[i].id == ids[i]
  {
    var outs := SerializeJobs(s, ids);
    forall i | 0 <= i < |ids|
      ensures outs[i].id == ids[i]
    {
      assert outs[i] == SerializeJob(s, s.jobs[ids[i]]);
      assert s.jobs[ids[i]].id == ids[i];
    }
  }

  /** Serialising the selected applications in primary-key order lists each exactly once. */
  lemma {:induction false} SelectedApplicationsListed(s: Store, selected: set<Id>)
    requires WellFormed(s) && ReferencesResolve(s)
    requires selected <= s.apps.Keys
    ensures forall i :: 0 <= i < |Ascending(selected, s.nextApp)| ==>
              Ascending(selected, s.nextApp)[i] in s.apps &&
              ApplicationSerializable(s, s.apps[Ascending(selected, s.nextApp)[i]])
    ensures ListsApplications(s, SerializeApplications(s, Ascending(selected, s.nextApp)), selected)
  {
    var ids := Ascending(selected, s.nextApp);
    forall i | 0 <= i < |ids|
      ensures ids[i] in s.apps && ApplicationSerializable(s, s.apps[ids[i]])
    {
      assert ids[i] in ids;
    }
    var outs := SerializeApplications(s, ids);
    ApplicationIdsKept(s, ids);
    forall i, j | 0 <= i < j < |outs|
      ensures outs[i].id < outs[j].id
    {
    }
    forall i | 0 <= i < |outs|
      ensures outs[i].id in selected && outs[i].id in s.apps
      ensures ApplicationSerializable(s, s.apps[outs[i].id])
      ensures outs[i] == SerializeApplication(s, s.apps[outs[i].id])
    {
      assert ids[i] in ids;
    }
    forall id | id in selected
      ensures exists i :: 0 <= i < |outs| && outs[i].id == id
    {
      assert id in ids;
      var i :| 0 <= i < |ids| && ids[i] == id;
      assert outs[i].id == id;
    }
  }

  /** Serialising every job in primary-key order lists each exactly once. */
  lemma {:induction false} AllJobsListed(s: Store)
    requires WellFormed(s) && ReferencesResolve(s)
    ensures forall i :: 0 <= i < |Ascending(s.jobs.Keys, s.nextJob)| ==>
              Ascending(s.jobs.Keys, s.nextJob)[i] in s.jobs &&
              JobSerializable(s, s.jobs[Ascending(s.jobs.Keys, s.nextJob)[i]])
    ensures ListsAllJobs(s, SerializeJobs(s, Ascending(s.jobs.Keys, s.nextJob)))
  {
    var ids := Ascending(s.jobs.Keys, s.nextJob);
    forall i | 0 <= i < |ids|
      ensures ids[i] in s.jobs && JobSerializable(s, s.jobs[ids[i]])
    {
      assert ids[i] in ids;
    }
    var outs := SerializeJobs(s, ids);
    JobIdsKept(s, ids);
    forall i, j | 0 <= i < j < |outs|
      ensures outs[i].id < outs[j].id
    {
    }
    forall i | 0 <= i < |outs|
      ensures outs[i].id in s.jobs && JobSerializable(s, s.jobs[outs[i].id])
      ensures outs[i] == SerializeJob(s, s.jobs[outs[i].id])
    {
      assert ids[i] in ids;
    }
    forall id | id in s.jobs
      ensures exists i :: 0 <= i < |outs| && outs[i].id == id
    {
      assert id in ids;
      var i :| 0 <= i < |ids| && ids[i] == id;
      assert outs[i].id == id;
    }
  }
}
