/** The employer dashboard: the component state its handlers replace step by
    step (`setJobs`, `setSelectedJobApplications`, `setSelectedJobId`), the pure
    list updates they compute, the counts, and the pending-only review actions.
    `fetch`, `alert` and `window.confirm` are inputs: a handler receives the
    response it would have awaited and returns the alert it would have shown. */
module EmployeeDashboard {
  import opened Lists
  import StudentDashboard

  /** A row of GET /api/my-jobs as the dashboard reads it. */
  datatype Job = Job(id: nat, title: string, jobType: string, description: string, createdAt: string)

  /** A row of GET /api/job-applications/:jobId as the dashboard reads it. */
  datatype Application = Application(
    id: nat, studentId: nat, firstName: string, lastName: string, university: string,
    qualifications: string, experience: string, status: string, appliedAt: string)

  /** How an awaited `fetch` ended: it threw, it answered with `response.ok`
      false, or it answered ok (with the parsed body, where the handler reads one). */
  datatype Response<T> = Threw | NotOk | Ok(data: T)

  /** `prev.map(app => app.id === applicationId ? { ...app, status } : app)` */
  function WithStatus(apps: seq<Application>, applicationId: nat, status: string): (r: seq<Application>)
    ensures |r| == |apps|
    ensures forall i :: 0 <= i < |r| ==> r[i].id == apps[i].id && r[i].studentId == apps[i].studentId
  {
    MapWhere(apps, (a: Application) => a.id == applicationId, (a: Application) => a.(status := status))
  }

  /** Exactly the applications with that id take the new status; the list keeps
      its length and every other application and field. */
  lemma WithStatusExact(apps: seq<Application>, applicationId: nat, status: string)
    ensures var r := WithStatus(apps, applicationId, status);
            && |r| == |apps|
            && (forall i :: 0 <= i < |apps| && apps[i].id == applicationId ==> r[i] == apps[i].(status := status))
            && (forall i :: 0 <= i < |apps| && apps[i].id != applicationId ==> r[i] == apps[i])
  {
  }

  /** `prevJobs.filter(job => job.id !== jobId)` */
  function WithoutJob(jobs: seq<Job>, jobId: nat): (r: seq<Job>)
    ensures forall i :: 0 <= i < |r| ==> r[i].id != jobId
    ensures forall i :: 0 <= i < |jobs| && jobs[i].id != jobId ==> jobs[i] in r
  {
    Filter(jobs, (j: Job) => j.id != jobId)
  }

  /** Deleting loses exactly the jobs with that id, keeps the rest in order, and
      shortens the list exactly when some job had that id. */
  lemma {:induction false} WithoutJobExact(jobs: seq<Job>, jobId: nat, job: Job)
    ensures job in WithoutJob(jobs, jobId) <==> job in jobs && job.id != jobId
    ensures IsSubsequence(WithoutJob(jobs, jobId), jobs)
    ensures |WithoutJob(jobs, jobId)| < |jobs| <==> exists i :: 0 <= i < |jobs| && jobs[i].id == jobId
  {
    FilterMembership(jobs, (j: Job) => j.id != jobId, job);
    FilterDropsNothing(jobs, (j: Job) => j.id != jobId);
  }

  predicate IsPending(a: Application)
  {
    a.status == "pending"
  }

  /** `selectedJobApplications.filter(app => app.status === 'pending').length` */
  function Pending(apps: seq<Application>): (n: nat)
    ensures n <= |apps|
  {
    Count(apps, IsPending)
  }

  /** The review buttons an application card offers: Approve and Reject, each
      sending its status, and only while the application is pending. */
  function Actions(a: Application): seq<string>
  {
    if a.status == "pending" then ["approved", "rejected"] else []
  }

  lemma ActionsOnlyForPending(a: Application)
    ensures Actions(a) != [] <==> a.status == "pending"
    ensures forall k :: 0 <= k < |Actions(a)| ==> Actions(a)[k] == "approved" || Actions(a)[k] == "rejected"
  {
  }

  /** Deciding the one pending application with a given id through one of its
      buttons lowers the pending count by exactly one. */
  lemma {:induction false} DecidingLowersPending(apps: seq<Application>, i: nat, decision: string)
    requires i < |apps| && IsPending(apps[i])
    requires forall j :: 0 <= j < |apps| && j != i ==> apps[j].id != apps[i].id
    requires decision in Actions(apps[i])
    ensures Pending(WithStatus(apps, apps[i].id, decision)) == Pending(apps) - 1
  {
    var id := apps[i].id;
    var r := WithStatus(apps, id, decision);
    assert r == [if apps[0].id == id then apps[0].(status := decision) else apps[0]]
                + WithStatus(apps[1..], id, decision);
    if i == 0 {
      var tail := WithStatus(apps[1..], id, decision);
      assert forall k :: 0 <= k < |apps[1..]| ==> apps[1..][k] == apps[k + 1];
      assert tail == apps[1..];
    } else {
      assert apps[1..][i - 1] == apps[i];
      assert forall k :: 0 <= k < |apps[1..]| ==> apps[1..][k] == apps[k + 1];
      DecidingLowersPending(apps[1..], i - 1, decision);
    }
  }

  /** The status badge of an applicant card. */
  function BadgeClass(status: string): string
  {
    if status == "approved" then "bg-green-100 text-green-800"
    else if status == "rejected" then "bg-red-100 text-red-800"
    else "bg-yellow-100 text-yellow-800"
  }

  /** The employer's badge and the student's badge colour a status alike. */
  lemma BadgeMatchesStudentView(status: string)
    ensures BadgeClass(status) == StudentDashboard.StatusColor(status)
  {
  }

  class Dashboard {
    var jobs: seq<Job>
    var selectedJobApplications: seq<Application>
    var selectedJobId: Option<nat>
    var loading: bool
    var applicationsLoading: bool

    /** Applicants are shown only for a selected job. */
    ghost predicate Valid()
      reads this
    {
      selectedJobId.None? ==> selectedJobApplications == []
    }

    /** The initial `useState` values. */
    constructor()
      ensures Valid()
      ensures jobs == [] && selectedJobApplications == [] && selectedJobId == None
      ensures loading && !applicationsLoading
    {
      jobs := [];
      selectedJobApplications := [];
      selectedJobId := None;
      loading := true;
      applicationsLoading := false;
    }

    /** `getTotalApplications` */
    function TotalApplications(): nat
      reads this
    {
      |selectedJobApplications|
    }

    /** `getPendingApplications`: never more than the total. */
    function PendingApplications(): (n: nat)
      reads this
      ensures n <= TotalApplications()
    {
      Pending(selectedJobApplications)
    }

    /** `fetchJobs`: an ok response replaces the job list; loading ends either way. */
    method FetchJobs(response: Response<seq<Job>>)
      requires Valid()
      modifies this
      ensures Valid()
      ensures jobs == (if response.Ok? then response.data else old(jobs))
      ensures !loading
      ensures selectedJobApplications == old(selectedJobApplications) && selectedJobId == old(selectedJobId)
      ensures applicationsLoading == old(applicationsLoading)
    {
      if response.Ok? {
        jobs := response.data;
      }
      loading := false;
    }

    /** `fetchJobApplications`: an ok response sets the applicant list and the
        selected job together; any other outcome leaves both as they were. */
    method FetchJobApplications(jobId: nat, response: Response<seq<Application>>)
      requires Valid()
      modifies this
      ensures Valid()
      ensures response.Ok? ==> selectedJobApplications == response.data && selectedJobId == Some(jobId)
      ensures !response.Ok? ==>
                selectedJobApplications == old(selectedJobApplications) && selectedJobId == old(selectedJobId)
      ensures !applicationsLoading
      ensures jobs == old(jobs) && loading == old(loading)
    {
      applicationsLoading := true;
      if response.Ok? {
        selectedJobApplications := response.data;
        selectedJobId := Some(jobId);
      }
      applicationsLoading := false;
    }

    /** `updateApplicationStatus`: only an ok response rewrites the list, and
        then only the status of the applications with that id. */
    method UpdateApplicationStatus(applicationId: nat, status: string, response: Response<()>)
      returns (alert: Option<string>)
      requires Valid()
      modifies this
      ensures Valid()
      ensures selectedJobApplications ==
                (if response.Ok? then WithStatus(old(selectedJobApplications), applicationId, status)
                 else old(selectedJobApplications))
      ensures alert == (match response
                        case Ok(_) => Some("Application " + status + " successfully!")
                        case NotOk => None
                        case Threw => Some("Failed to update application status"))
      ensures jobs == old(jobs) && selectedJobId == old(selectedJobId)
      ensures loading == old(loading) && applicationsLoading == old(applicationsLoading)
    {
      alert := None;
      match response {
        case Ok(_) =>
          selectedJobApplications := WithStatus(selectedJobApplications, applicationId, status);
          alert := Some("Application " + status + " successfully!");
        case NotOk =>
        case Threw =>
          alert := Some("Failed to update application status");
      }
    }

    /** `handleDeleteJob`: nothing happens unless the user confirms. An ok
        response drops the job from the list and, when it was the selected job,
        clears the selection and its applicants; any other outcome only alerts. */
    method DeleteJob(jobId: nat, confirmed: bool, response: Response<()>) returns (alert: Option<string>)
      requires Valid()
      modifies this
      ensures Valid()
      ensures jobs == (if confirmed && response.Ok? then WithoutJob(old(jobs), jobId) else old(jobs))
      ensures confirmed && response.Ok? && old(selectedJobId) == Some(jobId) ==>
                selectedJobId == None && selectedJobApplications == []
      ensures !(confirmed && response.Ok? && old(selectedJobId) == Some(jobId)) ==>
                selectedJobId == old(selectedJobId) && selectedJobApplications == old(selectedJobApplications)
      ensures alert == (if !confirmed then None
                        else match response
                          case Ok(_) => Some("Job deleted successfully!")
                          case NotOk => Some("Failed to delete job.")
                          case Threw => Some("An error occurred while deleting the job."))
      ensures loading == old(loading) && applicationsLoading == old(applicationsLoading)
    {
      alert := None;
      if confirmed {
        match response {
          case Ok(_) =>
            alert := Some("Job deleted successfully!");
            jobs := WithoutJob(jobs, jobId);
            if selectedJobId == Some(jobId) {
              selectedJobId := None;
              selectedJobApplications := [];
            }
          case NotOk =>
            alert := Some("Failed to delete job.");
          case Threw =>
            alert := Some("An error occurred while deleting the job.");
        }
      }
    }
  }
}
