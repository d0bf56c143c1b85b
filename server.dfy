/** The job portal's store as one object whose five tables the write handlers
    change in place. Each handler runs as one atomic step and receives the
    claims `authenticateToken` put on the request; hashing is a parameter and
    `now` is the clock reading CURRENT_TIMESTAMP would take. */
module Server {
  import opened Lists
  import opened Auth
  import opened Schema

  class JobPortal {
    var users: seq<User>
    var employeeProfiles: seq<EmployeeProfile>
    var studentProfiles: seq<StudentProfile>
    var jobs: seq<Job>
    var applications: seq<Application>
    // AUTOINCREMENT counters: the id the next row of each table receives
    var nextUserId: nat
    var nextEmployeeProfileId: nat
    var nextStudentProfileId: nat
    var nextJobId: nat
    var nextApplicationId: nat

    /** Row ids ascend below their counters, emails are unique, and no student
        has two applications to one job. */
    ghost predicate Valid()
      reads this
    {
      && Keyed(users, UserKey, nextUserId)
      && Keyed(employeeProfiles, EmployeeProfileKey, nextEmployeeProfileId)
      && Keyed(studentProfiles, StudentProfileKey, nextStudentProfileId)
      && Keyed(jobs, JobKey, nextJobId)
      && Keyed(applications, ApplicationKey, nextApplicationId)
      && UniqueEmails(users)
      && AppliedOnce(applications)
    }

    /** The tables as CREATE TABLE IF NOT EXISTS leaves a fresh database. */
    constructor ()
      ensures Valid()
      ensures users == [] && employeeProfiles == [] && studentProfiles == [] && jobs == [] && applications == []
      ensures nextUserId == 1 && nextEmployeeProfileId == 1 && nextStudentProfileId == 1
      ensures nextJobId == 1 && nextApplicationId == 1
    {
      users, employeeProfiles, studentProfiles, jobs, applications := [], [], [], [], [];
      nextUserId, nextEmployeeProfileId, nextStudentProfileId := 1, 1, 1;
      nextJobId, nextApplicationId := 1, 1;
    }

    /** POST /api/register: insert the user, then the profile its userType
        selects. The two inserts are not one transaction: a failed profile
        insert leaves the new user row behind. */
    method Register(email: Option<string>, password: Option<string>, userType: Option<string>,
                    profile: ProfileData, hash: string -> string) returns (reply: Reply)
      requires Valid()
      modifies this
      ensures Valid()
      ensures jobs == old(jobs) && applications == old(applications)
      ensures nextJobId == old(nextJobId) && nextApplicationId == old(nextApplicationId)
      // bcrypt rejects a password that is not a string
      ensures password.None? ==> reply == ServerError && unchanged(this)
      ensures password.Some? && UserInsertFails(old(users), email, userType) ==>
                reply == Reply(400, Error("Email already exists")) && unchanged(this)
      ensures password.Some? && !UserInsertFails(old(users), email, userType) ==>
                && users == old(users) + [User(old(nextUserId), email.value, hash(password.value), userType.value)]
                && nextUserId == old(nextUserId) + 1
      ensures password.Some? && !UserInsertFails(old(users), email, userType) && userType.value == Employee ==>
                && studentProfiles == old(studentProfiles) && nextStudentProfileId == old(nextStudentProfileId)
                && if EmployeeProfileComplete(profile) then
                     && employeeProfiles == old(employeeProfiles) + [EmployeeProfile(old(nextEmployeeProfileId),
                          old(nextUserId), profile.companyName.value, profile.contactPerson.value, profile.industry.value)]
                     && nextEmployeeProfileId == old(nextEmployeeProfileId) + 1
                     && reply == Reply(200, Message("Employee registered successfully"))
                   else
                     && employeeProfiles == old(employeeProfiles) && nextEmployeeProfileId == old(nextEmployeeProfileId)
                     && reply == Reply(400, Error("Failed to create employee profile"))
      ensures password.Some? && !UserInsertFails(old(users), email, userType) && userType.value != Employee ==>
                && employeeProfiles == old(employeeProfiles) && nextEmployeeProfileId == old(nextEmployeeProfileId)
                && if StudentProfileComplete(profile) then
                     && studentProfiles == old(studentProfiles) + [StudentProfile(old(nextStudentProfileId),
                          old(nextUserId), profile.firstName.value, profile.lastName.value, profile.university.value,
                          None, None)]
                     && nextStudentProfileId == old(nextStudentProfileId) + 1
                     && reply == Reply(200, Message("Student registered successfully"))
                   else
                     && studentProfiles == old(studentProfiles) && nextStudentProfileId == old(nextStudentProfileId)
                     && reply == Reply(400, Error("Failed to create student profile"))
    {
      if password.None? {
        return ServerError;
      }
      var hashed := hash(password.value);
      if UserInsertFails(users, email, userType) {
        return Reply(400, Error("Email already exists"));
      }
      var userId := nextUserId;
      var user := User(userId, email.value, hashed, userType.value);
      KeyedAppend(users, user, UserKey, nextUserId);
      AppendUserKeepsEmailsUnique(users, user);
      users := users + [user];
      nextUserId := nextUserId + 1;

      if userType.value == Employee {
        reply := InsertEmployeeProfile(userId, profile);
      } else {
        reply := InsertStudentProfile(userId, profile);
      }
    }

    /** The employee branch of registration: the profile insert, which fails
        on a NOT NULL column left NULL. */
    method InsertEmployeeProfile(userId: nat, profile: ProfileData) returns (reply: Reply)
      requires Valid()
      modifies this
      ensures Valid()
      ensures users == old(users) && studentProfiles == old(studentProfiles)
      ensures jobs == old(jobs) && applications == old(applications)
      ensures nextUserId == old(nextUserId) && nextStudentProfileId == old(nextStudentProfileId)
      ensures nextJobId == old(nextJobId) && nextApplicationId == old(nextApplicationId)
      ensures EmployeeProfileComplete(profile) ==>
                && employeeProfiles == old(employeeProfiles) + [EmployeeProfile(old(nextEmployeeProfileId),
                     userId, profile.companyName.value, profile.contactPerson.value, profile.industry.value)]
                && nextEmployeeProfileId == old(nextEmployeeProfileId) + 1
                && reply == Reply(200, Message("Employee registered successfully"))
      ensures !EmployeeProfileComplete(profile) ==>
                && employeeProfiles == old(employeeProfiles) && nextEmployeeProfileId == old(nextEmployeeProfileId)
                && reply == Reply(400, Error("Failed to create employee profile"))
    {
      if !EmployeeProfileComplete(profile) {
        return Reply(400, Error("Failed to create employee profile"));
      }
      var row := EmployeeProfile(nextEmployeeProfileId, userId, profile.companyName.value,
                                 profile.contactPerson.value, profile.industry.value);
      KeyedAppend(employeeProfiles, row, EmployeeProfileKey, nextEmployeeProfileId);
      employeeProfiles := employeeProfiles + [row];
      nextEmployeeProfileId := nextEmployeeProfileId + 1;
      reply := Reply(200, Message("Employee registered successfully"));
    }

    /** The student branch of registration: the profile starts with no
        qualifications and no experience. */
    method InsertStudentProfile(userId: nat, profile: ProfileData) returns (reply: Reply)
      requires Valid()
      modifies this
      ensures Valid()
      ensures users == old(users) && employeeProfiles == old(employeeProfiles)
      ensures jobs == old(jobs) && applications == old(applications)
      ensures nextUserId == old(nextUserId) && nextEmployeeProfileId == old(nextEmployeeProfileId)
      ensures nextJobId == old(nextJobId) && nextApplicationId == old(nextApplicationId)
      ensures StudentProfileComplete(profile) ==>
                && studentProfiles == old(studentProfiles) + [StudentProfile(old(nextStudentProfileId),
                     userId, profile.firstName.value, profile.lastName.value, profile.university.value, None, None)]
                && nextStudentProfileId == old(nextStudentProfileId) + 1
                && reply == Reply(200, Message("Student registered successfully"))
      ensures !StudentProfileComplete(profile) ==>
                && studentProfiles == old(studentProfiles) && nextStudentProfileId == old(nextStudentProfileId)
                && reply == Reply(400, Error("Failed to create student profile"))
    {
      if !StudentProfileComplete(profile) {
        return Reply(400, Error("Failed to create student profile"));
      }
      var row := StudentProfile(nextStudentProfileId, userId, profile.firstName.value,
                                profile.lastName.value, profile.university.value, None, None);
      KeyedAppend(studentProfiles, row, StudentProfileKey, nextStudentProfileId);
      studentProfiles := studentProfiles + [row];
      nextStudentProfileId := nextStudentProfileId + 1;
      reply := Reply(200, Message("Student registered successfully"));
    }

    /** PUT /api/profile: a student overwrites qualifications and experience of
        every profile row with their user id. For any other role the handler
        sends no response at all (None) and changes nothing. */
    method UpdateProfile(caller: Claims, qualifications: Option<string>, experience: Option<string>)
      returns (reply: Option<Reply>)
      requires Valid()
      modifies this
      ensures Valid()
      ensures !HasRole(caller, Student) ==> reply.None? && unchanged(this)
      ensures HasRole(caller, Student) ==>
                && studentProfiles == SetQualifications(old(studentProfiles), caller.id, qualifications, experience)
                && reply == Some(Reply(200, Message("Profile updated successfully")))
      ensures users == old(users) && employeeProfiles == old(employeeProfiles)
      ensures jobs == old(jobs) && applications == old(applications)
      ensures nextUserId == old(nextUserId) && nextEmployeeProfileId == old(nextEmployeeProfileId)
      ensures nextStudentProfileId == old(nextStudentProfileId)
      ensures nextJobId == old(nextJobId) && nextApplicationId == old(nextApplicationId)
    {
      if !HasRole(caller, Student) {
        return None;
      }
      SetQualificationsKeepsKeys(studentProfiles, caller.id, qualifications, experience, nextStudentProfileId);
      studentProfiles := SetQualifications(studentProfiles, caller.id, qualifications, experience);
      reply := Some(Reply(200, Message("Profile updated successfully")));
    }

    /** POST /api/jobs: an employer's job is inserted verbatim under the
        caller's id; a NOT NULL column left out makes the insert fail. */
    method CreateJob(caller: Claims, title: Option<string>, description: Option<string>,
                     jobType: Option<string>, industry: Option<string>, location: Option<string>,
                     requirements: Option<string>, salary: Option<string>, googleFormLink: Option<string>,
                     now: nat) returns (reply: Reply)
      requires Valid()
      modifies this
      ensures Valid()
      ensures !HasRole(caller, Employee) ==> reply == AccessDenied && unchanged(this)
      ensures HasRole(caller, Employee) && (title.None? || description.None? || jobType.None? || industry.None?) ==>
                reply == ServerError && unchanged(this)
      ensures HasRole(caller, Employee) && title.Some? && description.Some? && jobType.Some? && industry.Some? ==>
                && jobs == old(jobs) + [Job(old(nextJobId), caller.id, title.value, description.value, jobType.value,
                                            industry.value, location, requirements, salary, googleFormLink, now)]
                && nextJobId == old(nextJobId) + 1
                && reply == Reply(200, JobCreated("Job created successfully", old(nextJobId)))
      ensures users == old(users) && employeeProfiles == old(employeeProfiles) && studentProfiles == old(studentProfiles)
      ensures applications == old(applications)
      ensures nextUserId == old(nextUserId) && nextEmployeeProfileId == old(nextEmployeeProfileId)
      ensures nextStudentProfileId == old(nextStudentProfileId) && nextApplicationId == old(nextApplicationId)
    {
      if !HasRole(caller, Employee) {
        return AccessDenied;
      }
      if title.None? || description.None? || jobType.None? || industry.None? {
        return ServerError;
      }
      var job := Job(nextJobId, caller.id, title.value, description.value, jobType.value, industry.value,
                     location, requirements, salary, googleFormLink, now);
      KeyedAppend(jobs, job, JobKey, nextJobId);
      jobs := jobs + [job];
      reply := Reply(200, JobCreated("Job created successfully", nextJobId));
      nextJobId := nextJobId + 1;
    }

    /** DELETE /api/jobs/:id: first every application to that job id is deleted,
        then the job row, but only if the caller owns it. The first delete
        happens whether or not the second finds a row. */
    method DeleteJob(caller: Claims, jobId: int) returns (reply: Reply)
      requires Valid()
      modifies this
      ensures Valid()
      ensures !HasRole(caller, Employee) ==> reply == AccessDenied && unchanged(this)
      ensures HasRole(caller, Employee) ==> applications == WithoutJobApplications(old(applications), jobId)
      ensures HasRole(caller, Employee) && (exists i :: 0 <= i < |old(jobs)| && OwnedBy(old(jobs)[i], jobId, caller.id)) ==>
                && jobs == Filter(old(jobs), (j: Job) => !OwnedBy(j, jobId, caller.id))
                && |jobs| < |old(jobs)|
                && reply == Reply(200, Message("Job and associated applications deleted successfully"))
      ensures HasRole(caller, Employee) && !(exists i :: 0 <= i < |old(jobs)| && OwnedBy(old(jobs)[i], jobId, caller.id)) ==>
                && jobs == old(jobs)
                && reply == Reply(404, Error("Job not found or you do not have permission to delete it"))
      ensures users == old(users) && employeeProfiles == old(employeeProfiles) && studentProfiles == old(studentProfiles)
      ensures nextUserId == old(nextUserId) && nextEmployeeProfileId == old(nextEmployeeProfileId)
      ensures nextStudentProfileId == old(nextStudentProfileId)
      ensures nextJobId == old(nextJobId) && nextApplicationId == old(nextApplicationId)
    {
      if !HasRole(caller, Employee) {
        return AccessDenied;
      }
      DeleteApplicationsFor(jobId);
      var changes := DeleteOwnedJob(jobId, caller.id);
      if changes == 0 {
        reply := Reply(404, Error("Job not found or you do not have permission to delete it"));
      } else {
        reply := Reply(200, Message("Job and associated applications deleted successfully"));
      }
    }

    /** `DELETE FROM applications WHERE job_id = ?` */
    method DeleteApplicationsFor(jobId: int)
      requires Valid()
      modifies this
      ensures Valid()
      ensures applications == WithoutJobApplications(old(applications), jobId)
      ensures users == old(users) && employeeProfiles == old(employeeProfiles) && studentProfiles == old(studentProfiles)
      ensures jobs == old(jobs)
      ensures nextUserId == old(nextUserId) && nextEmployeeProfileId == old(nextEmployeeProfileId)
      ensures nextStudentProfileId == old(nextStudentProfileId)
      ensures nextJobId == old(nextJobId) && nextApplicationId == old(nextApplicationId)
    {
      var notForJob := (a: Application) => a.jobId != jobId;
      KeyedFilter(applications, notForJob, ApplicationKey, nextApplicationId);
      FilterPreservesPairwise(applications, notForJob,
        (a: Application, b: Application) => a.jobId != b.jobId || a.studentId != b.studentId);
      applications := WithoutJobApplications(applications, jobId);
    }

    /** `DELETE FROM jobs WHERE id = ? AND employer_id = ?`, returning
        `this.changes`, the number of rows it deleted. */
    method DeleteOwnedJob(jobId: int, employerId: nat) returns (changes: nat)
      requires Valid()
      modifies this
      ensures Valid()
      ensures jobs == Filter(old(jobs), (j: Job) => !OwnedBy(j, jobId, employerId))
      ensures changes == |old(jobs)| - |jobs|
      ensures changes == 0 <==> !exists i :: 0 <= i < |old(jobs)| && OwnedBy(old(jobs)[i], jobId, employerId)
      ensures changes == 0 ==> jobs == old(jobs)
      ensures users == old(users) && employeeProfiles == old(employeeProfiles) && studentProfiles == old(studentProfiles)
      ensures applications == old(applications)
      ensures nextUserId == old(nextUserId) && nextEmployeeProfileId == old(nextEmployeeProfileId)
      ensures nextStudentProfileId == old(nextStudentProfileId)
      ensures nextJobId == old(nextJobId) && nextApplicationId == old(nextApplicationId)
    {
      var keep := (j: Job) => !OwnedBy(j, jobId, employerId);
      var remaining := Filter(jobs, keep);
      FilterDropsNothing(jobs, keep);
      KeyedFilter(jobs, keep, JobKey, nextJobId);
      changes := |jobs| - |remaining|;
      jobs := remaining;
    }

    /** POST /api/apply: a student's first application to a job id is appended
        with status 'pending'; a second one is refused. The job id is not checked
        against the jobs table. A missing job id matches no row and then fails
        the NOT NULL insert. */
    method Apply(caller: Claims, jobId: Option<int>, now: nat) returns (reply: Reply)
      requires Valid()
      modifies this
      ensures Valid()
      ensures !HasRole(caller, Student) ==> reply == AccessDenied && unchanged(this)
      ensures HasRole(caller, Student) && jobId.None? ==> reply == ServerError && unchanged(this)
      ensures HasRole(caller, Student) && jobId.Some? && HasApplied(old(applications), jobId.value, caller.id) ==>
                reply == Reply(400, Error("Already applied for this job")) && unchanged(this)
      ensures HasRole(caller, Student) && jobId.Some? && !HasApplied(old(applications), jobId.value, caller.id) ==>
                && applications == old(applications) + [Application(old(nextApplicationId), jobId.value, caller.id,
                                                                    Some("pending"), now)]
                && nextApplicationId == old(nextApplicationId) + 1
                && reply == Reply(200, Message("Application submitted successfully"))
      ensures users == old(users) && employeeProfiles == old(employeeProfiles) && studentProfiles == old(studentProfiles)
      ensures jobs == old(jobs)
      ensures nextUserId == old(nextUserId) && nextEmployeeProfileId == old(nextEmployeeProfileId)
      ensures nextStudentProfileId == old(nextStudentProfileId) && nextJobId == old(nextJobId)
    {
      if !HasRole(caller, Student) {
        return AccessDenied;
      }
      if jobId.None? {
        return ServerError;
      }
      if HasApplied(applications, jobId.value, caller.id) {
        return Reply(400, Error("Already applied for this job"));
      }
      var row := Application(nextApplicationId, jobId.value, caller.id, Some("pending"), now);
      KeyedAppend(applications, row, ApplicationKey, nextApplicationId);
      AppendKeepsAppliedOnce(applications, row);
      applications := applications + [row];
      nextApplicationId := nextApplicationId + 1;
      reply := Reply(200, Message("Application submitted successfully"));
    }

    /** PUT /api/applications/:id/status: any employer writes any status (NULL
        when the body has none) to the row with that id, which need not exist
        and need not belong to one of the caller's jobs. */
    method UpdateStatus(caller: Claims, id: int, status: Option<string>) returns (reply: Reply)
      requires Valid()
      modifies this
      ensures Valid()
      ensures !HasRole(caller, Employee) ==> reply == AccessDenied && unchanged(this)
      ensures HasRole(caller, Employee) ==>
                && applications == SetStatus(old(applications), id, status)
                && reply == Reply(200, Message("Application status updated"))
      ensures users == old(users) && employeeProfiles == old(employeeProfiles) && studentProfiles == old(studentProfiles)
      ensures jobs == old(jobs)
      ensures nextUserId == old(nextUserId) && nextEmployeeProfileId == old(nextEmployeeProfileId)
      ensures nextStudentProfileId == old(nextStudentProfileId)
      ensures nextJobId == old(nextJobId) && nextApplicationId == old(nextApplicationId)
    {
      if !HasRole(caller, Employee) {
        return AccessDenied;
      }
      SetStatusKeepsKeys(applications, id, status, nextApplicationId);
      applications := SetStatus(applications, id, status);
      reply := Reply(200, Message("Application status updated"));
    }
  }
}
