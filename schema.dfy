/** The five tables of the job portal's store, their rows, the replies the
    handlers send, and the pure row-level edits the handlers make. Nullable
    columns are Option; `created_at` and `applied_at` are naturals that only
    order rows. */
module Schema {
  import opened Lists

  datatype User = User(id: nat, email: string, password: string, userType: string)

  datatype EmployeeProfile = EmployeeProfile(
    id: nat, userId: nat, companyName: string, contactPerson: string, industry: string)

  datatype StudentProfile = StudentProfile(
    id: nat, userId: nat, firstName: string, lastName: string, university: string,
    qualifications: Option<string>, experience: Option<string>)

  datatype Job = Job(
    id: nat, employerId: nat, title: string, description: string, jobType: string, industry: string,
    location: Option<string>, requirements: Option<string>, salary: Option<string>,
    googleFormLink: Option<string>, createdAt: nat)

  /** `status` has a default but no NOT NULL constraint, so it can hold NULL. */
  datatype Application = Application(id: nat, jobId: int, studentId: nat, status: Option<string>, appliedAt: nat)

  datatype Body =
    | Message(text: string)
    | Error(text: string)
    | LoggedIn(token: string, userType: string)
    | JobCreated(text: string, jobId: nat)
    | NoBody                                   // `res.sendStatus(...)`

  datatype Reply = Reply(status: nat, body: Body)

  const AccessDenied: Reply := Reply(403, Error("Access denied"))
  const ServerError: Reply := Reply(500, Error("Server error"))

  /** `profileData` of a registration request; a field the client left out is None. */
  datatype ProfileData = ProfileData(
    companyName: Option<string>, contactPerson: Option<string>, industry: Option<string>,
    firstName: Option<string>, lastName: Option<string>, university: Option<string>)

  /** A table's AUTOINCREMENT ids: ascending in table order and all below `next`,
      the id the next inserted row receives. */
  ghost predicate Keyed<T>(rows: seq<T>, id: T -> int, next: int)
  {
    Pairwise(rows, (a, b) => id(a) < id(b)) && forall i :: 0 <= i < |rows| ==> id(rows[i]) < next
  }

  function UserKey(u: User): int { u.id }
  function EmployeeProfileKey(p: EmployeeProfile): int { p.id }
  function StudentProfileKey(p: StudentProfile): int { p.id }
  function JobKey(j: Job): int { j.id }
  function ApplicationKey(a: Application): int { a.id }

  lemma KeyedAppend<T>(rows: seq<T>, row: T, id: T -> int, next: int)
    requires Keyed(rows, id, next) && id(row) == next
    ensures Keyed(rows + [row], id, next + 1)
  {
    var r := rows + [row];
    forall i, j | 0 <= i < j < |r| ensures id(r[i]) < id(r[j]) {
      assert r[i] == rows[i];
      if j < |rows| {
        assert r[j] == rows[j];
      }
    }
  }

  lemma KeyedFilter<T>(rows: seq<T>, keep: T -> bool, id: T -> int, next: int)
    requires Keyed(rows, id, next)
    ensures Keyed(Filter(rows, keep), id, next)
  {
    FilterPreservesPairwise(rows, keep, (a, b) => id(a) < id(b));
    var r := Filter(rows, keep);
    forall i | 0 <= i < |r| ensures id(r[i]) < next {
      assert r[i] in rows;
    }
  }

  /** The UNIQUE constraint on users.email. */
  ghost predicate UniqueEmails(users: seq<User>)
  {
    Pairwise(users, (a: User, b: User) => a.email != b.email)
  }

  predicate EmailTaken(users: seq<User>, email: string)
  {
    exists i | 0 <= i < |users| :: users[i].email == email
  }

  /** The users INSERT fails on a NOT NULL column left NULL or on a taken email. */
  predicate UserInsertFails(users: seq<User>, email: Option<string>, userType: Option<string>)
  {
    email.None? || userType.None? || EmailTaken(users, email.value)
  }

  /** An inserted user keeps the emails unique exactly when the insert was allowed. */
  lemma AppendUserKeepsEmailsUnique(users: seq<User>, u: User)
    requires UniqueEmails(users)
    ensures UniqueEmails(users + [u]) <==> !EmailTaken(users, u.email)
  {
    var r := users + [u];
    if !EmailTaken(users, u.email) {
      forall i, j | 0 <= i < j < |r| ensures r[i].email != r[j].email {
        assert r[i] == users[i];
        if j < |users| {
          assert r[j] == users[j];
        }
      }
    } else {
      var k :| 0 <= k < |users| && users[k].email == u.email;
      assert r[k] == users[k] && r[|users|] == u;
    }
  }

  /** NOT NULL on company_name, contact_person and industry. */
  predicate EmployeeProfileComplete(p: ProfileData)
  {
    p.companyName.Some? && p.contactPerson.Some? && p.industry.Some?
  }

  /** NOT NULL on first_name, last_name and university. */
  predicate StudentProfileComplete(p: ProfileData)
  {
    p.firstName.Some? && p.lastName.Some? && p.university.Some?
  }

  /** `SELECT * FROM applications WHERE job_id = ? AND student_id = ?` finds a row. */
  predicate HasApplied(apps: seq<Application>, jobId: int, studentId: nat)
  {
    exists i | 0 <= i < |apps| :: apps[i].jobId == jobId && apps[i].studentId == studentId
  }

  /** At most one application per (job, student) pair. */
  ghost predicate AppliedOnce(apps: seq<Application>)
  {
    Pairwise(apps, (a: Application, b: Application) => a.jobId != b.jobId || a.studentId != b.studentId)
  }

  /** Appending a row keeps apply-once exactly when the pair had no row yet. */
  lemma AppendKeepsAppliedOnce(apps: seq<Application>, a: Application)
    requires AppliedOnce(apps)
    ensures AppliedOnce(apps + [a]) <==> !HasApplied(apps, a.jobId, a.studentId)
  {
    var r := apps + [a];
    if !HasApplied(apps, a.jobId, a.studentId) {
      forall i, j | 0 <= i < j < |r| ensures r[i].jobId != r[j].jobId || r[i].studentId != r[j].studentId {
        assert r[i] == apps[i];
        if j < |apps| {
          assert r[j] == apps[j];
        }
      }
    } else {
      var k :| 0 <= k < |apps| && apps[k].jobId == a.jobId && apps[k].studentId == a.studentId;
      assert r[k] == apps[k] && r[|apps|] == a;
    }
  }

  /** `UPDATE applications SET status = ? WHERE id = ?` */
  function SetStatus(apps: seq<Application>, id: int, status: Option<string>): (r: seq<Application>)
    ensures |r| == |apps|
    ensures forall i :: 0 <= i < |r| ==>
              r[i].id == apps[i].id && r[i].jobId == apps[i].jobId && r[i].studentId == apps[i].studentId
  {
    MapWhere(apps, (a: Application) => a.id == id, (a: Application) => a.(status := status))
  }

  /** The status update touches only the status column: ids, jobs and students
      stay where they were, so the table invariants survive it. */
  lemma SetStatusKeepsKeys(apps: seq<Application>, id: int, status: Option<string>, next: int)
    requires Keyed(apps, ApplicationKey, next) && AppliedOnce(apps)
    ensures Keyed(SetStatus(apps, id, status), ApplicationKey, next)
    ensures AppliedOnce(SetStatus(apps, id, status))
  {
    var r := SetStatus(apps, id, status);
    assert forall i :: 0 <= i < |r| ==>
      r[i].id == apps[i].id && r[i].jobId == apps[i].jobId && r[i].studentId == apps[i].studentId;
    forall i, j | 0 <= i < j < |r| ensures ApplicationKey(r[i]) < ApplicationKey(r[j]) {
      assert ApplicationKey(apps[i]) < ApplicationKey(apps[j]);
    }
  }

  /** The stored status of the row with that id becomes the given value
      verbatim, whatever it is; every other row and every other column keeps
      its value. */
  lemma SetStatusExact(apps: seq<Application>, id: int, status: Option<string>)
    ensures var r := SetStatus(apps, id, status);
            && |r| == |apps|
            && (forall i :: 0 <= i < |apps| ==> r[i].status == (if apps[i].id == id then status else apps[i].status))
            && (forall i :: 0 <= i < |apps| ==> r[i] == apps[i].(status := r[i].status))
  {
  }

  /** `UPDATE student_profiles SET qualifications = ?, experience = ? WHERE user_id = ?` */
  function SetQualifications(profiles: seq<StudentProfile>, userId: nat,
                             qualifications: Option<string>, experience: Option<string>): (r: seq<StudentProfile>)
    ensures |r| == |profiles|
    ensures forall i :: 0 <= i < |r| && profiles[i].userId == userId ==>
              r[i] == profiles[i].(qualifications := qualifications, experience := experience)
    ensures forall i :: 0 <= i < |r| && profiles[i].userId != userId ==> r[i] == profiles[i]
  {
    MapWhere(profiles, (p: StudentProfile) => p.userId == userId,
             (p: StudentProfile) => p.(qualifications := qualifications, experience := experience))
  }

  lemma SetQualificationsKeepsKeys(profiles: seq<StudentProfile>, userId: nat,
                                   qualifications: Option<string>, experience: Option<string>, next: int)
    requires Keyed(profiles, StudentProfileKey, next)
    ensures Keyed(SetQualifications(profiles, userId, qualifications, experience), StudentProfileKey, next)
  {
    var r := SetQualifications(profiles, userId, qualifications, experience);
    assert forall i :: 0 <= i < |r| ==> r[i].id == profiles[i].id;
    forall i, j | 0 <= i < j < |r| ensures StudentProfileKey(r[i]) < StudentProfileKey(r[j]) {
      assert StudentProfileKey(profiles[i]) < StudentProfileKey(profiles[j]);
    }
  }

  /** `DELETE FROM applications WHERE job_id = ?` */
  function WithoutJobApplications(apps: seq<Application>, jobId: int): (r: seq<Application>)
    ensures forall i :: 0 <= i < |r| ==> r[i].jobId != jobId
    ensures forall i :: 0 <= i < |apps| && apps[i].jobId != jobId ==> apps[i] in r
  {
    Filter(apps, (a: Application) => a.jobId != jobId)
  }

  /** The cascade removes exactly the applications to that job id and keeps
      the rest in table order. */
  lemma WithoutJobApplicationsExact(apps: seq<Application>, jobId: int, a: Application)
    ensures a in WithoutJobApplications(apps, jobId) <==> a in apps && a.jobId != jobId
    ensures IsSubsequence(WithoutJobApplications(apps, jobId), apps)
    ensures forall i :: 0 <= i < |WithoutJobApplications(apps, jobId)| ==>
              WithoutJobApplications(apps, jobId)[i].jobId != jobId
  {
    FilterMembership(apps, (x: Application) => x.jobId != jobId, a);
  }

  /** The rows `DELETE FROM jobs WHERE id = ? AND employer_id = ?` matches. */
  predicate OwnedBy(j: Job, jobId: int, employerId: nat)
  {
    j.id == jobId && j.employerId == employerId
  }
}
