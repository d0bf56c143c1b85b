/** The job list page: the client-side search filter over the fetched jobs and
    the guard in front of an application request. `toLowerCase` is an abstract
    per-character case fold, a parameter. */
module JobsPage {
  import opened Lists
  import Auth

  /** The `Job` interface the page reads from GET /api/jobs. */
  datatype Job = Job(
    id: nat, title: string, description: string, jobType: string, industry: string,
    location: string, requirements: string, salary: string, companyName: string,
    googleFormLink: string, employerId: nat, createdAt: string)

  /** The signed-in user as the auth context holds it. */
  datatype SessionUser = SessionUser(token: string, userType: string)

  /** The request `handleApply` sends: its Authorization header and JSON body. */
  datatype ApplyRequest = ApplyRequest(authorization: string, jobId: nat)

  function Lower(s: string, fold: char -> char): (r: string)
    ensures |r| == |s|
  {
    seq(|s|, i requires 0 <= i < |s| => fold(s[i]))
  }

  /** The search test: the term, case-folded, occurs in the case-folded title,
      description or company name. */
  predicate MatchesSearch(job: Job, term: string, fold: char -> char)
  {
    var t := Lower(term, fold);
    Contains(Lower(job.title, fold), t) || Contains(Lower(job.description, fold), t)
    || Contains(Lower(job.companyName, fold), t)
  }

  /** One `.filter` step of `filterJobs`, applied only when its input is set. */
  function Stage(jobs: seq<Job>, active: bool, test: Job -> bool): seq<Job>
  {
    if active then Filter(jobs, test) else jobs
  }

  /** The three tests `filterJobs` filters by. */
  function SearchTest(searchTerm: string, fold: char -> char): Job -> bool
  {
    (j: Job) => MatchesSearch(j, searchTerm, fold)
  }

  function IndustryTest(selectedIndustry: string): Job -> bool
  {
    (j: Job) => j.industry == selectedIndustry
  }

  function JobTypeTest(selectedJobType: string): Job -> bool
  {
    (j: Job) => j.jobType == selectedJobType
  }

  /** `filterJobs`: search, then industry, then job type, each step only when
      its field is non-empty. */
  function FilterJobs(jobs: seq<Job>, searchTerm: string, selectedIndustry: string, selectedJobType: string,
                      fold: char -> char): (r: seq<Job>)
    ensures searchTerm == "" && selectedIndustry == "" && selectedJobType == "" ==> r == jobs
  {
    var bySearch := Stage(jobs, searchTerm != "", SearchTest(searchTerm, fold));
    var byIndustry := Stage(bySearch, selectedIndustry != "", IndustryTest(selectedIndustry));
    Stage(byIndustry, selectedJobType != "", JobTypeTest(selectedJobType))
  }

  /** The conjunction of the active filters: the test a job must pass to stay. */
  predicate Kept(job: Job, searchTerm: string, selectedIndustry: string, selectedJobType: string,
                 fold: char -> char)
  {
    && (searchTerm == "" || MatchesSearch(job, searchTerm, fold))
    && (selectedIndustry == "" || job.industry == selectedIndustry)
    && (selectedJobType == "" || job.jobType == selectedJobType)
  }

  /** A test that only applies when `active`. */
  function Guarded(active: bool, test: Job -> bool): Job -> bool
  {
    (j: Job) => !active || test(j)
  }

  function Both(p: Job -> bool, q: Job -> bool): Job -> bool
  {
    (j: Job) => p(j) && q(j)
  }

  function KeptTest(searchTerm: string, selectedIndustry: string, selectedJobType: string,
                    fold: char -> char): Job -> bool
  {
    (j: Job) => Kept(j, searchTerm, selectedIndustry, selectedJobType, fold)
  }

  lemma StageIsFilter(jobs: seq<Job>, active: bool, test: Job -> bool)
    ensures Stage(jobs, active, test) == Filter(jobs, Guarded(active, test))
  {
    if active {
      FilterExt(jobs, test, Guarded(active, test));
    } else {
      FilterAll(jobs, Guarded(active, test));
    }
  }

  /** A stage followed by a filter is one filter by both tests. */
  lemma StageThenFilter(jobs: seq<Job>, active: bool, test: Job -> bool, rest: Job -> bool)
    ensures Filter(Stage(jobs, active, test), rest) == Filter(jobs, Both(Guarded(active, test), rest))
  {
    if active {
      FilterFilter(jobs, test, rest, Both(Guarded(active, test), rest));
    } else {
      FilterExt(jobs, rest, Both(Guarded(active, test), rest));
    }
  }

  /** The three stages of `filterJobs` as one filter by their guarded tests. */
  lemma FilterJobsAsStages(jobs: seq<Job>, searchTerm: string, selectedIndustry: string,
                           selectedJobType: string, fold: char -> char)
    ensures FilterJobs(jobs, searchTerm, selectedIndustry, selectedJobType, fold)
            == Filter(jobs, Both(Guarded(searchTerm != "", SearchTest(searchTerm, fold)),
                                 Both(Guarded(selectedIndustry != "", IndustryTest(selectedIndustry)),
                                      Guarded(selectedJobType != "", JobTypeTest(selectedJobType)))))
  {
    var b := Guarded(selectedIndustry != "", IndustryTest(selectedIndustry));
    var c := Guarded(selectedJobType != "", JobTypeTest(selectedJobType));
    var bySearch := Stage(jobs, searchTerm != "", SearchTest(searchTerm, fold));
    var byIndustry := Stage(bySearch, selectedIndustry != "", IndustryTest(selectedIndustry));
    StageIsFilter(byIndustry, selectedJobType != "", JobTypeTest(selectedJobType));
    StageThenFilter(bySearch, selectedIndustry != "", IndustryTest(selectedIndustry), c);
    StageThenFilter(jobs, searchTerm != "", SearchTest(searchTerm, fold), Both(b, c));
  }

  /** The chain of three filters is one filter by the conjunction of the active ones. */
  lemma FilterJobsIsConjunction(jobs: seq<Job>, searchTerm: string, selectedIndustry: string,
                                selectedJobType: string, fold: char -> char)
    ensures FilterJobs(jobs, searchTerm, selectedIndustry, selectedJobType, fold)
            == Filter(jobs, KeptTest(searchTerm, selectedIndustry, selectedJobType, fold))
  {
    var stages := Both(Guarded(searchTerm != "", SearchTest(searchTerm, fold)),
                       Both(Guarded(selectedIndustry != "", IndustryTest(selectedIndustry)),
                            Guarded(selectedJobType != "", JobTypeTest(selectedJobType))));
    var keep := KeptTest(searchTerm, selectedIndustry, selectedJobType, fold);
    FilterJobsAsStages(jobs, searchTerm, selectedIndustry, selectedJobType, fold);
    forall i | 0 <= i < |jobs| ensures stages(jobs[i]) == keep(jobs[i]) {
    }
    FilterExt(jobs, stages, keep);
  }

  /** The filtered list keeps the jobs in the order they were fetched. */
  lemma FilterJobsKeepsOrder(jobs: seq<Job>, searchTerm: string, selectedIndustry: string,
                             selectedJobType: string, fold: char -> char)
    ensures IsSubsequence(FilterJobs(jobs, searchTerm, selectedIndustry, selectedJobType, fold), jobs)
  {
    FilterJobsIsConjunction(jobs, searchTerm, selectedIndustry, selectedJobType, fold);
  }

  /** A job is shown exactly when it passes every active filter: no job that
      passes is dropped, and none that fails one is kept. */
  lemma FilterJobsExact(jobs: seq<Job>, searchTerm: string, selectedIndustry: string,
                        selectedJobType: string, fold: char -> char, job: Job)
    ensures job in FilterJobs(jobs, searchTerm, selectedIndustry, selectedJobType, fold) <==>
            && job in jobs
            && (searchTerm == "" || MatchesSearch(job, searchTerm, fold))
            && (selectedIndustry == "" || job.industry == selectedIndustry)
            && (selectedJobType == "" || job.jobType == selectedJobType)
  {
    FilterJobsIsConjunction(jobs, searchTerm, selectedIndustry, selectedJobType, fold);
    FilterMembership(jobs, KeptTest(searchTerm, selectedIndustry, selectedJobType, fold), job);
  }

  /** Filtering the filtered list again with the same inputs changes nothing. */
  lemma FilterJobsIdempotent(jobs: seq<Job>, searchTerm: string, selectedIndustry: string,
                             selectedJobType: string, fold: char -> char)
    ensures var once := FilterJobs(jobs, searchTerm, selectedIndustry, selectedJobType, fold);
            FilterJobs(once, searchTerm, selectedIndustry, selectedJobType, fold) == once
  {
    var keep := KeptTest(searchTerm, selectedIndustry, selectedJobType, fold);
    var once := FilterJobs(jobs, searchTerm, selectedIndustry, selectedJobType, fold);
    FilterJobsIsConjunction(jobs, searchTerm, selectedIndustry, selectedJobType, fold);
    FilterJobsIsConjunction(once, searchTerm, selectedIndustry, selectedJobType, fold);
    FilterIdempotent(jobs, keep);
  }

  /** `handleApply`: a request is sent only for a signed-in student, carrying
      `Bearer ${user.token}` and the job's id. */
  function ApplyFor(user: Option<SessionUser>, job: Job): (r: Option<ApplyRequest>)
    ensures r.Some? <==> user.Some? && user.value.userType == Auth.Student
    ensures r.Some? ==> r.value.jobId == job.id && r.value.authorization == "Bearer " + user.value.token
  {
    if user.None? || user.value.userType != Auth.Student then None
    else Some(ApplyRequest("Bearer " + user.value.token, job.id))
  }

  /** The server's middleware recovers from that header exactly the token the
      client holds (a JWT has no spaces). */
  lemma ApplyRequestCarriesToken(user: SessionUser, job: Job)
    requires user.userType == Auth.Student && ' ' !in user.token
    ensures ApplyFor(Some(user), job).Some?
    ensures Auth.BearerToken(Some(ApplyFor(Some(user), job).value.authorization)) == Some(user.token)
  {
    assert "Bearer " + user.token == "Bearer" + " " + user.token;
    Auth.BearerRoundTrip("Bearer", user.token);
  }
}
