/** The read-only handlers of the server: login and the four listings. Each is a
    pure function of the tables it queries; a database error (500) cannot
    happen in this in-memory store. */
module Queries {
  import opened Lists
  import opened Auth
  import opened Schema

  /** A row of GET /api/jobs: `j.*` with the employer's `company_name`. */
  datatype JobListing = JobListing(job: Job, companyName: string)

  /** A row of GET /api/my-applications: `a.*, j.title, j.job_type, ep.company_name`. */
  datatype StudentApplication = StudentApplication(app: Application, title: string, jobType: string, companyName: string)

  /** A row of GET /api/job-applications/:jobId: `a.*` with the student's profile columns. */
  datatype Applicant = Applicant(
    app: Application, firstName: string, lastName: string, university: string,
    qualifications: Option<string>, experience: Option<string>)

  /** What a role-gated listing answers: the rows, or the 403 it refused with. */
  datatype Listing<T> = Rows(rows: seq<T>) | Refused(reply: Reply)

  // ---------------------------------------------------------------- login

  /** `db.get('SELECT * FROM users WHERE email = ?')`: the first matching row.
      A missing email is NULL, which equals nothing. */
  function FindByEmail(users: seq<User>, email: Option<string>): (r: Option<User>)
    ensures r.Some? ==> r.value in users && Some(r.value.email) == email
    ensures r.None? ==> email.None? || !EmailTaken(users, email.value)
  {
    if users == [] || email.None? then None
    else if users[0].email == email.value then Some(users[0])
    else FindByEmail(users[1..], email)
  }

  /** With unique emails, the row found is the one user holding that email. */
  lemma {:induction false} FindByEmailUnique(users: seq<User>, u: User)
    requires UniqueEmails(users) && u in users
    ensures FindByEmail(users, Some(u.email)) == Some(u)
  {
    if users[0] != u {
      assert UniqueEmails(users[1..]) by {
        forall i, j | 0 <= i < j < |users[1..]| ensures users[1..][i].email != users[1..][j].email {
          assert users[1..][i] == users[i + 1] && users[1..][j] == users[j + 1];
        }
      }
      var k :| 0 <= k < |users| && users[k] == u;
      assert users[0].email != users[k].email;
      assert users[1..][k - 1] == u;
      FindByEmailUnique(users[1..], u);
    }
  }

  /** POST /api/login. `compare` is bcrypt's password check and `sign` the JWT
      signer. */
  function Login(users: seq<User>, email: Option<string>, password: string,
                 compare: (string, string) -> bool, sign: Claims -> string): (r: Reply)
    ensures r.status == 200 || r == Reply(400, Error("Invalid credentials"))
    ensures r.status == 200 <==>
            FindByEmail(users, email).Some? && compare(password, FindByEmail(users, email).value.password)
    ensures r.status == 200 ==>
              var u := FindByEmail(users, email).value;
              r.body == LoggedIn(sign(Claims(u.id, u.userType)), u.userType)
  {
    match FindByEmail(users, email)
    case None => Reply(400, Error("Invalid credentials"))
    case Some(u) =>
      if !compare(password, u.password) then Reply(400, Error("Invalid credentials"))
      else Reply(200, LoggedIn(sign(Claims(u.id, u.userType)), u.userType))
  }

  /** An unknown email and a wrong password get the very same reply, so the
      reply does not reveal which accounts exist. */
  lemma LoginDoesNotRevealAccounts(users: seq<User>, unknown: string, known: User, password: string,
                                   compare: (string, string) -> bool, sign: Claims -> string)
    requires UniqueEmails(users) && known in users
    requires !EmailTaken(users, unknown) && !compare(password, known.password)
    ensures Login(users, Some(unknown), password, compare, sign) == Login(users, Some(known.email), password, compare, sign)
  {
    FindByEmailUnique(users, known);
  }

  /** A registered user with the right password gets a token for exactly its id and role. */
  lemma LoginSucceeds(users: seq<User>, u: User, password: string,
                      compare: (string, string) -> bool, sign: Claims -> string)
    requires UniqueEmails(users) && u in users && compare(password, u.password)
    ensures Login(users, Some(u.email), password, compare, sign) ==
            Reply(200, LoggedIn(sign(Claims(u.id, u.userType)), u.userType))
  {
    FindByEmailUnique(users, u);
  }

  // ---------------------------------------------------------------- GET /api/jobs

  /** One condition the handler pushes onto `conditions`. */
  datatype Condition =
    | TitleOrDescriptionLike(term: string)   // (j.title LIKE ? OR j.description LIKE ?)
    | IndustryIs(industry: string)           // j.industry = ?
    | JobTypeIs(jobType: string)             // j.job_type = ?

  /** The conditions in the order the handler pushes them; an empty query
      parameter is falsy and pushes nothing. */
  function Conditions(search: string, industry: string, jobType: string): seq<Condition>
  {
    (if search != "" then [TitleOrDescriptionLike(search)] else [])
    + (if industry != "" then [IndustryIs(industry)] else [])
    + (if jobType != "" then [JobTypeIs(jobType)] else [])
  }

  predicate Holds(j: Job, c: Condition)
  {
    match c
    case TitleOrDescriptionLike(term) => Contains(j.title, term) || Contains(j.description, term)
    case IndustryIs(industry) => j.industry == industry
    case JobTypeIs(jobType) => j.jobType == jobType
  }

  /** `' WHERE ' + conditions.join(' AND ')`, and no WHERE for no conditions. */
  predicate SatisfiesAll(j: Job, conds: seq<Condition>)
  {
    forall k :: 0 <= k < |conds| ==> Holds(j, conds[k])
  }

  /** Each non-empty parameter is one more conjunct; empty parameters filter nothing. */
  lemma ConditionsMeaning(j: Job, search: string, industry: string, jobType: string)
    ensures SatisfiesAll(j, Conditions(search, industry, jobType)) <==>
            (search == "" || Contains(j.title, search) || Contains(j.description, search))
            && (industry == "" || j.industry == industry)
            && (jobType == "" || j.jobType == jobType)
  {
    var a := if search != "" then [TitleOrDescriptionLike(search)] else [];
    var b := if industry != "" then [IndustryIs(industry)] else [];
    var c := if jobType != "" then [JobTypeIs(jobType)] else [];
    var conds := a + b + c;
    assert search != "" ==> conds[0] == TitleOrDescriptionLike(search);
    assert industry != "" ==> conds[|a|] == IndustryIs(industry);
    assert jobType != "" ==> conds[|a| + |b|] == JobTypeIs(jobType);
    assert forall k :: 0 <= k < |conds| ==>
      (k < |a| ==> conds[k] == a[k]) && (|a| <= k < |a| + |b| ==> conds[k] == b[k - |a|])
      && (|a| + |b| <= k ==> conds[k] == c[k - |a| - |b|]);
  }

  /** `FROM jobs j JOIN employee_profiles ep ON j.employer_id = ep.user_id` */
  function CompanyListings(jobs: seq<Job>, profiles: seq<EmployeeProfile>): seq<JobListing>
  {
    Join(jobs, profiles, (j: Job, p: EmployeeProfile) => j.employerId == p.userId,
         (j: Job, p: EmployeeProfile) => JobListing(j, p.companyName))
  }

  /** GET /api/jobs?search&industry&jobType, `ORDER BY j.created_at DESC`. */
  function ListJobs(jobs: seq<Job>, profiles: seq<EmployeeProfile>,
                    search: string, industry: string, jobType: string): (r: seq<JobListing>)
    ensures SortedDesc(r, (l: JobListing) => l.job.createdAt)
    ensures |r| <= |CompanyListings(jobs, profiles)|
  {
    SortByDesc(Filter(CompanyListings(jobs, profiles),
                      (l: JobListing) => SatisfiesAll(l.job, Conditions(search, industry, jobType))),
               (l: JobListing) => l.job.createdAt)
  }

  /** A listing row is a job paired with the company name of its employer's profile. */
  ghost predicate ListedWithCompany(l: JobListing, jobs: seq<Job>, profiles: seq<EmployeeProfile>)
  {
    l.job in jobs && exists p :: p in profiles && p.userId == l.job.employerId && p.companyName == l.companyName
  }

  lemma CompanyListingsMembership(jobs: seq<Job>, profiles: seq<EmployeeProfile>, l: JobListing)
    ensures l in CompanyListings(jobs, profiles) <==> ListedWithCompany(l, jobs, profiles)
  {
    var on := (j: Job, p: EmployeeProfile) => j.employerId == p.userId;
    var mk := (j: Job, p: EmployeeProfile) => JobListing(j, p.companyName);
    JoinMembership(jobs, profiles, on, mk, l);
    if ListedWithCompany(l, jobs, profiles) {
      var p :| p in profiles && p.userId == l.job.employerId && p.companyName == l.companyName;
      var i :| 0 <= i < |jobs| && jobs[i] == l.job;
      var k :| 0 <= k < |profiles| && profiles[k] == p;
      assert on(jobs[i], profiles[k]) && l == mk(jobs[i], profiles[k]);
    }
  }

  /** GET /api/jobs lists newest first exactly the jobs that pass every active
      filter and whose employer has a company profile, each with its company name. */
  lemma ListJobsContents(jobs: seq<Job>, profiles: seq<EmployeeProfile>,
                                            search: string, industry: string, jobType: string)
    ensures SortedDesc(ListJobs(jobs, profiles, search, industry, jobType), (l: JobListing) => l.job.createdAt)
    ensures forall l :: l in ListJobs(jobs, profiles, search, industry, jobType) <==>
              ListedWithCompany(l, jobs, profiles)
              && (search == "" || Contains(l.job.title, search) || Contains(l.job.description, search))
              && (industry == "" || l.job.industry == industry)
              && (jobType == "" || l.job.jobType == jobType)
  {
    var keep := (l: JobListing) => SatisfiesAll(l.job, Conditions(search, industry, jobType));
    var key := (l: JobListing) => l.job.createdAt;
    var listings := CompanyListings(jobs, profiles);
    forall l ensures l in ListJobs(jobs, profiles, search, industry, jobType) <==>
              ListedWithCompany(l, jobs, profiles)
              && (search == "" || Contains(l.job.title, search) || Contains(l.job.description, search))
              && (industry == "" || l.job.industry == industry)
              && (jobType == "" || l.job.jobType == jobType)
    {
      SortedMembership(Filter(listings, keep), key, l);
      FilterMembership(listings, keep, l);
      CompanyListingsMembership(jobs, profiles, l);
      ConditionsMeaning(l.job, search, industry, jobType);
    }
  }

  /** A job whose employer has no employee profile is dropped by the inner join. */
  lemma UnprofiledEmployerNotListed(jobs: seq<Job>, profiles: seq<EmployeeProfile>,
                                    search: string, industry: string, jobType: string, j: Job)
    requires forall p :: p in profiles ==> p.userId != j.employerId
    ensures forall l :: l in ListJobs(jobs, profiles, search, industry, jobType) ==> l.job != j
  {
    ListJobsContents(jobs, profiles, search, industry, jobType);
  }

  // ---------------------------------------------------------------- GET /api/my-jobs

  /** `SELECT * FROM jobs WHERE employer_id = ? ORDER BY created_at DESC`, behind the employer gate. */
  function MyJobs(caller: Claims, jobs: seq<Job>): (r: Listing<Job>)
    ensures !HasRole(caller, Employee) <==> r == Refused(AccessDenied)
    ensures r.Rows? ==> SortedDesc(r.rows, (j: Job) => j.createdAt)
    ensures r.Rows? ==> forall j :: j in r.rows <==> j in jobs && j.employerId == caller.id
    ensures r.Rows? ==> |r.rows| == Count(jobs, (j: Job) => j.employerId == caller.id)
  {
    if !HasRole(caller, Employee) then Refused(AccessDenied)
    else
      var own := Filter(jobs, (j: Job) => j.employerId == caller.id);
      var rows := SortByDesc(own, (j: Job) => j.createdAt);
      assert |multiset(rows)| == |multiset(own)|;
      assert forall j :: j in rows <==> j in jobs && j.employerId == caller.id by {
        forall j ensures j in rows <==> j in jobs && j.employerId == caller.id {
          SortedMembership(own, (j: Job) => j.createdAt, j);
          FilterMembership(jobs, (j: Job) => j.employerId == caller.id, j);
        }
      }
      Rows(rows)
  }

  // ---------------------------------------------------------------- GET /api/my-applications

  /** `FROM applications a JOIN jobs j ON a.job_id = j.id JOIN employee_profiles ep
      ON j.employer_id = ep.user_id WHERE a.student_id = ? ORDER BY a.applied_at DESC` */
  function StudentApplications(apps: seq<Application>, jobs: seq<Job>, profiles: seq<EmployeeProfile>,
                               studentId: nat): (r: seq<StudentApplication>)
    ensures SortedDesc(r, (r: StudentApplication) => r.app.appliedAt)
    ensures forall i :: 0 <= i < |r| ==> r[i].app.studentId == studentId
  {
    var joined := Join(apps, CompanyListings(jobs, profiles),
                       (a: Application, l: JobListing) => a.jobId == l.job.id,
                       (a: Application, l: JobListing) => StudentApplication(a, l.job.title, l.job.jobType, l.companyName));
    var mine := Filter(joined, (r: StudentApplication) => r.app.studentId == studentId);
    SortedAllPass(mine, (r: StudentApplication) => r.app.appliedAt, (r: StudentApplication) => r.app.studentId == studentId);
    SortByDesc(mine, (r: StudentApplication) => r.app.appliedAt)
  }

  /** GET /api/my-applications, behind the student gate. */
  function MyApplications(caller: Claims, apps: seq<Application>, jobs: seq<Job>,
                          profiles: seq<EmployeeProfile>): (r: Listing<StudentApplication>)
    ensures !HasRole(caller, Student) <==> r == Refused(AccessDenied)
  {
    if !HasRole(caller, Student) then Refused(AccessDenied)
    else Rows(StudentApplications(apps, jobs, profiles, caller.id))
  }

  /** A row of the student's listing, unsorted: one of their applications
      joined with a listed job of that id. */
  ghost predicate StudentRow(r: StudentApplication, apps: seq<Application>, jobs: seq<Job>,
                             profiles: seq<EmployeeProfile>, studentId: nat)
  {
    r.app in apps && r.app.studentId == studentId
    && exists l :: ListedWithCompany(l, jobs, profiles) && l.job.id == r.app.jobId
                   && r == StudentApplication(r.app, l.job.title, l.job.jobType, l.companyName)
  }

  lemma StudentApplicationRow(apps: seq<Application>, jobs: seq<Job>, profiles: seq<EmployeeProfile>,
                              studentId: nat, r: StudentApplication)
    ensures r in StudentApplications(apps, jobs, profiles, studentId) <==> StudentRow(r, apps, jobs, profiles, studentId)
  {
    var listings := CompanyListings(jobs, profiles);
    var on := (a: Application, l: JobListing) => a.jobId == l.job.id;
    var mk := (a: Application, l: JobListing) => StudentApplication(a, l.job.title, l.job.jobType, l.companyName);
    var mine := (r: StudentApplication) => r.app.studentId == studentId;
    var key := (r: StudentApplication) => r.app.appliedAt;
    var joined := Join(apps, listings, on, mk);
    SortedMembership(Filter(joined, mine), key, r);
    FilterMembership(joined, mine, r);
    JoinMembership(apps, listings, on, mk, r);
    if r in joined {
      var i, k :| 0 <= i < |apps| && 0 <= k < |listings| && on(apps[i], listings[k]) && r == mk(apps[i], listings[k]);
      CompanyListingsMembership(jobs, profiles, listings[k]);
    }
    if StudentRow(r, apps, jobs, profiles, studentId) {
      var l :| ListedWithCompany(l, jobs, profiles) && l.job.id == r.app.jobId
               && r == StudentApplication(r.app, l.job.title, l.job.jobType, l.companyName);
      CompanyListingsMembership(jobs, profiles, l);
      var i :| 0 <= i < |apps| && apps[i] == r.app;
      var k :| 0 <= k < |listings| && listings[k] == l;
      assert on(apps[i], listings[k]) && r == mk(apps[i], listings[k]);
    }
  }

  /** The student sees, newest first, exactly their own applications whose job
      still exists and has an employer profile, with that job's title, type and company. */
  lemma StudentApplicationsContents(apps: seq<Application>, jobs: seq<Job>,
                                    profiles: seq<EmployeeProfile>, studentId: nat)
    ensures SortedDesc(StudentApplications(apps, jobs, profiles, studentId),
                       (r: StudentApplication) => r.app.appliedAt)
    ensures forall r :: r in StudentApplications(apps, jobs, profiles, studentId) <==>
              r.app in apps && r.app.studentId == studentId
              && exists l :: ListedWithCompany(l, jobs, profiles) && l.job.id == r.app.jobId
                             && r == StudentApplication(r.app, l.job.title, l.job.jobType, l.companyName)
  {
    forall r ensures r in StudentApplications(apps, jobs, profiles, studentId) <==>
                     StudentRow(r, apps, jobs, profiles, studentId) {
      StudentApplicationRow(apps, jobs, profiles, studentId, r);
    }
  }

  // ---------------------------------------------------------------- GET /api/job-applications/:jobId

  /** `FROM applications a JOIN student_profiles sp ON a.student_id = sp.user_id
      WHERE a.job_id = ? ORDER BY a.applied_at DESC` */
  function Applicants(apps: seq<Application>, students: seq<StudentProfile>, jobId: int): (r: seq<Applicant>)
    ensures SortedDesc(r, (r: Applicant) => r.app.appliedAt)
    ensures forall i :: 0 <= i < |r| ==> r[i].app.jobId == jobId
  {
    var joined := Join(apps, students, (a: Application, p: StudentProfile) => a.studentId == p.userId,
                       (a: Application, p: StudentProfile) =>
                         Applicant(a, p.firstName, p.lastName, p.university, p.qualifications, p.experience));
    var forJob := Filter(joined, (r: Applicant) => r.app.jobId == jobId);
    SortedAllPass(forJob, (r: Applicant) => r.app.appliedAt, (r: Applicant) => r.app.jobId == jobId);
    SortByDesc(forJob, (r: Applicant) => r.app.appliedAt)
  }

  /** GET /api/job-applications/:jobId, behind the employer gate only: the
      caller's id is never compared with the job's employer. */
  function JobApplications(caller: Claims, apps: seq<Application>, students: seq<StudentProfile>,
                           jobId: int): (r: Listing<Applicant>)
    ensures !HasRole(caller, Employee) <==> r == Refused(AccessDenied)
  {
    if !HasRole(caller, Employee) then Refused(AccessDenied)
    else Rows(Applicants(apps, students, jobId))
  }

  /** Newest first, exactly the applications to that job whose student has a
      profile, each with that profile's columns. */
  lemma ApplicantsContents(apps: seq<Application>, students: seq<StudentProfile>, jobId: int)
    ensures SortedDesc(Applicants(apps, students, jobId), (r: Applicant) => r.app.appliedAt)
    ensures forall r :: r in Applicants(apps, students, jobId) <==>
              r.app in apps && r.app.jobId == jobId
              && exists p :: p in students && p.userId == r.app.studentId
                             && r == Applicant(r.app, p.firstName, p.lastName, p.university, p.qualifications, p.experience)
  {
    var on := (a: Application, p: StudentProfile) => a.studentId == p.userId;
    var mk := (a: Application, p: StudentProfile) =>
                Applicant(a, p.firstName, p.lastName, p.university, p.qualifications, p.experience);
    var forJob := (r: Applicant) => r.app.jobId == jobId;
    var key := (r: Applicant) => r.app.appliedAt;
    var joined := Join(apps, students, on, mk);
    forall r ensures r in Applicants(apps, students, jobId) <==>
              r.app in apps && r.app.jobId == jobId
              && exists p :: p in students && p.userId == r.app.studentId
                             && r == Applicant(r.app, p.firstName, p.lastName, p.university, p.qualifications, p.experience)
    {
      SortedMembership(Filter(joined, forJob), key, r);
      FilterMembership(joined, forJob, r);
      JoinMembership(apps, students, on, mk, r);
      if r.app in apps && exists p :: p in students && p.userId == r.app.studentId
                             && r == Applicant(r.app, p.firstName, p.lastName, p.university, p.qualifications, p.experience) {
        var p :| p in students && p.userId == r.app.studentId
                 && r == Applicant(r.app, p.firstName, p.lastName, p.university, p.qualifications, p.experience);
        var i :| 0 <= i < |apps| && apps[i] == r.app;
        var k :| 0 <= k < |students| && students[k] == p;
        assert on(apps[i], students[k]) && r == mk(apps[i], students[k]);
      }
    }
  }

  /** Any two employers get the same applicants for a job: no ownership check. */
  lemma AnyEmployerSeesApplicants(a: Claims, b: Claims, apps: seq<Application>,
                                  students: seq<StudentProfile>, jobId: int)
    requires HasRole(a, Employee) && HasRole(b, Employee)
    ensures JobApplications(a, apps, students, jobId) == JobApplications(b, apps, students, jobId)
    ensures JobApplications(a, apps, students, jobId).Rows?
  {
  }
}
