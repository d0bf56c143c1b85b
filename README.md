# Job board: a verified model of its server handlers and client rules

The job board connects employers with students. Its Express server keeps five
SQLite tables: users, employee profiles, student profiles, jobs and
applications. Its React client lists jobs, lets students apply and lets
employers review applicants. This project models three parts of it in Dafny
and proves what they promise.

- **Server** (`backend/index.js`).
  - `Auth` models the bearer-token middleware and the role gate.
  - `Schema` holds the table rows, the replies and the row-level edits.
  - `Queries` models login and the four listings as pure functions of the tables.
  - `Server.JobPortal` is a class whose fields are the five tables and their
    AUTOINCREMENT counters. The handlers that write to the tables are methods
    on it.
  - Every write method keeps the store invariant `Valid()`:
    - row ids ascend below their counter;
    - emails are unique;
    - no student has two applications to one job.
  - Every write method states its whole new state, including which tables and
    counters stay unchanged.
- **Client list logic.**
  - `JobsPage` models the jobs page search filter and the apply guard.
  - `EmployeeDashboard` models the employer dashboard. Its class `Dashboard`
    holds the component state that the handlers replace. Its pure functions
    compute the new lists and the counts.
  - `StudentDashboard` models the student dashboard's tallies and how it
    styles a badge from an application's status.
- **Client guards.**
  - `ProtectedRoute` models the route guard's ordered decision.
  - `RegisterPage` models the registration form: the `?type=` rule, the
    checks run before submitting, the shape of `profileData`, and the submit
    handler as a method of the class `RegisterForm`.

`Lists` holds the sequence operations these share:
- `filter`, and `filter(...).length`;
- `map` over the matching elements;
- SQL inner JOIN;
- `ORDER BY ... DESC`;
- `includes`.

Foreign code appears as function parameters:
- bcrypt's `hash` and `compare`;
- JWT `sign` and `verify`;
- `toLowerCase`, modelled as a per-character fold.

Client handlers receive the outcome of their `fetch`, `window.confirm` or
`register` call as an input. They return the alert they would show or the
request they would send.

Where the code's intent and its letter differ, the model follows the letter:
- The statuses the code itself uses are pending, approved and rejected: the
  column's default, the two review buttons and the badge colours. The server
  stores whatever string the status update carries, and NULL when the update
  carries none. So a status is `Option<string>`, and
  `Server.JobPortal.UpdateStatus` writes it verbatim.
- The server's search matches title or description. The client's search also
  matches the company name. Both are modelled as written.

## Model

| member | source | states |
|---|---|---|
| Lists.Filter | frontend/src/pages/Jobs.tsx:62-74 | `filter` keeps exactly the elements that pass, in their original order, as a subsequence |
| Lists.FilterMembership | frontend/src/pages/Jobs.tsx:62-74 | an element is in the filtered list iff it is in the list and passes the test |
| Lists.FilterDropsNothing | frontend/src/pages/Jobs.tsx:62-74 | a filter keeps the whole list iff every element passes |
| Lists.FilterFilter | frontend/src/pages/Jobs.tsx:59-75 | two successive filters are one filter by the conjunction of the tests |
| Lists.FilterIdempotent | frontend/src/pages/Jobs.tsx:58-77 | filtering again by the same test changes nothing |
| Lists.Count | frontend/src/components/EmployeeDashboard.tsx:134-136 | `filter(...).length` never exceeds the length |
| Lists.FilterSnoc | frontend/src/components/StudentDashboard.tsx:98-122 | filtering a list with one more element at the end appends that element iff it passes |
| Lists.MapWhere | frontend/src/components/EmployeeDashboard.tsx:90-94 | the map keeps the length, replaces the matching elements, and keeps every other element |
| Lists.FilterPreservesPairwise | backend/index.js:253 | deleting rows keeps any relation that held between every earlier and later row |
| Lists.InsertDescSorted | backend/index.js:225 | inserting into a descending list keeps it descending and adds exactly that element |
| Lists.SortByDesc | backend/index.js:225 | `ORDER BY ... DESC` returns a permutation of its input whose keys never increase |
| Lists.SortedMembership | backend/index.js:225 | sorting neither adds nor loses a row |
| Lists.SortedAllPass | backend/index.js:225 | sorting keeps a property that every input row has |
| Lists.JoinMembership | backend/index.js:201-202 | a row is in the inner join iff some pair of input rows satisfies the ON condition and builds it |
| Lists.ContainsAt | frontend/src/pages/Jobs.tsx:63-65 | `includes` holds iff the needle occurs at some offset of the text |
| Auth.Split | backend/index.js:84 | `split(' ')` yields at least one piece, and no piece contains the separator |
| Auth.JoinSplit | backend/index.js:84 | joining the pieces from `split` gives the header back |
| Auth.SplitJoin | backend/index.js:84 | splitting a join of separator-free words gives the words back |
| Auth.BearerToken | backend/index.js:83-84 | no header gives no token, and a non-empty token has no space |
| Auth.BearerRoundTrip | backend/index.js:83-84 | the header `scheme token` yields exactly `token` |
| Auth.OneWordHeader | backend/index.js:84-86 | a non-empty header without a space has no token, so the request gets 401 |
| Auth.HasRole | backend/index.js:183-185 | the role gate opens iff the caller's `userType` is exactly the route's role; `ProtectedRoute.ExactlyOneRoleAdmits` is its client-side partner |
| Auth.Authenticate | backend/index.js:82-93 | 401 iff there is no token, 403 iff `verify` rejects it; otherwise the request's user is the verified claims |
| Schema.KeyedAppend | backend/index.js:24-78 | a row inserted with the counter's id keeps the table's ids ascending and below the advanced counter |
| Schema.KeyedFilter | backend/index.js:253-260 | deleting rows keeps ids ascending and below the counter |
| Schema.AppendUserKeepsEmailsUnique | backend/index.js:102-106 | a user insert keeps emails unique iff the email was not taken |
| Schema.AppendKeepsAppliedOnce | backend/index.js:282-289 | an application insert keeps one-row-per-(job, student) iff that pair had no row |
| Schema.SetStatusExact | backend/index.js:335 | the row with that id gets the given status verbatim; every other row and column is unchanged |
| Schema.SetStatus | backend/index.js:335 | the update keeps the length and every row's id, job and student; `SetStatusExact` gives the new status column |
| Schema.SetStatusKeepsKeys | backend/index.js:335 | the status update keeps ids ascending and keeps apply-once |
| Schema.SetQualifications | backend/index.js:173 | the rows of that user get the given qualifications and experience, and every other row is unchanged |
| Schema.SetQualificationsKeepsKeys | backend/index.js:173 | the profile update keeps the profile ids ascending |
| Schema.WithoutJobApplications | backend/index.js:253 | no remaining application is to that job, and every application to another job remains |
| Schema.WithoutJobApplicationsExact | backend/index.js:253 | the cascade removes exactly the applications to that job id and keeps the rest in order |
| Queries.FindByEmail | backend/index.js:136-139 | a found user is in the table with that email; not finding one means the email is missing or unknown |
| Queries.FindByEmailUnique | backend/index.js:136 | with unique emails, the lookup by a user's email finds exactly that user |
| Queries.Login | backend/index.js:133-149 | the reply is 200 or exactly 400 "Invalid credentials"; 200 iff the user exists and `compare` accepts; on 200 the token signs the user's id and user_type, and the body carries the user_type |
| Queries.LoginDoesNotRevealAccounts | backend/index.js:137-144 | an unknown email and a wrong password get the identical reply |
| Queries.LoginSucceeds | backend/index.js:141-147 | a registered user with the right password gets the token for their own id and role |
| Queries.ConditionsMeaning | backend/index.js:206-223 | the pushed conditions mean the AND of the non-empty parameters: search in title or description, industry equal, job type equal |
| Queries.CompanyListingsMembership | backend/index.js:201-202 | a listing row is a job paired with the company name of a profile whose user is the job's employer |
| Queries.ListJobs | backend/index.js:199-231 | the rows are newest first and never outnumber the joined listings; `ListJobsContents` says which rows they are |
| Queries.ListJobsContents | backend/index.js:199-231 | GET /api/jobs is sorted newest first and lists exactly the joined rows that satisfy every active filter |
| Queries.UnprofiledEmployerNotListed | backend/index.js:201-202 | a job whose employer has no employee profile is never listed |
| Queries.MyJobs | backend/index.js:233-242 | 403 iff the caller is not an employee; otherwise exactly the caller's jobs, newest first, with as many rows as the caller has jobs (so each once, as the rows are distinct by id) |
| Queries.MyApplications | backend/index.js:296-299 | 403 iff the caller is not a student |
| Queries.StudentApplications | backend/index.js:301-305 | the rows are newest first and all belong to that student; `StudentApplicationsContents` says which rows they are |
| Queries.StudentApplicationRow | backend/index.js:301-305 | a row is in the student's listing iff it is one of their applications joined with a listed job of that id |
| Queries.StudentApplicationsContents | backend/index.js:301-305 | newest first, exactly the caller's applications whose job exists and has an employer profile, each with that job's title, type and company |
| Queries.JobApplications | backend/index.js:311-314 | 403 iff the caller is not an employee |
| Queries.Applicants | backend/index.js:318-321 | the rows are newest first and all are applications to that job; `ApplicantsContents` says which rows they are |
| Queries.ApplicantsContents | backend/index.js:318-321 | newest first, exactly the job's applications whose student has a profile, each with that profile's columns |
| Queries.AnyEmployerSeesApplicants | backend/index.js:311-325 | any two employers get the same applicant list for a job: ownership is never checked |
| Server.JobPortal.constructor | backend/index.js:24-78 | a fresh store is empty with every counter at 1 and satisfies the store invariant |
| Server.JobPortal.Register | backend/index.js:96-131 | a password that is not a string gives 500 and a failed user insert gives 400 "Email already exists", both with no change; otherwise the user row is appended, then an employee profile for userType exactly "employee" and a student profile for every other value; a failed profile insert gives 400 and keeps the user row |
| Server.JobPortal.InsertEmployeeProfile | backend/index.js:110-117 | a complete employer profile is appended under the new user id with reply 200; otherwise 400 "Failed to create employee profile" with nothing changed |
| Server.JobPortal.InsertStudentProfile | backend/index.js:118-125 | a complete student profile is appended with no qualifications or experience and reply 200; otherwise 400 "Failed to create student profile" with nothing changed |
| Server.JobPortal.UpdateProfile | backend/index.js:170-179 | a student's qualifications and experience are overwritten; any other role gets no reply and nothing changes |
| Server.JobPortal.CreateJob | backend/index.js:182-197 | 403 for a non-employee, 500 for a missing NOT NULL field, both with no change; otherwise exactly one job is appended under the caller's id and its new id is returned |
| Server.JobPortal.DeleteJob | backend/index.js:244-271 | for an employer, the job's applications are always deleted; the job row goes only if the caller owns it, else 404 with jobs unchanged; 403 for anyone else with no change |
| Server.JobPortal.DeleteApplicationsFor | backend/index.js:253-258 | exactly the applications to that job id are deleted, and the other tables are unchanged |
| Server.JobPortal.DeleteOwnedJob | backend/index.js:260-267 | exactly the caller's jobs with that id are deleted; the count of deleted rows is 0 iff there was none, and then the table is unchanged |
| Server.JobPortal.Apply | backend/index.js:274-294 | 403 for a non-student; 500 with no change for a missing job id; 400 with no change if the pair has a row; otherwise exactly one row is appended with status "pending" |
| Server.JobPortal.UpdateStatus | backend/index.js:327-339 | any employer writes the given status verbatim to the row with that id; nothing else changes |
| JobsPage.MatchesSearch | frontend/src/pages/Jobs.tsx:62-66 | the search test: the folded term occurs in the folded title, description or company name; `FilterJobsExact` states that it is the search filter's test |
| JobsPage.FilterJobs | frontend/src/pages/Jobs.tsx:58-77 | with all three filters empty the list is returned as is |
| JobsPage.StageThenFilter | frontend/src/pages/Jobs.tsx:61-75 | one conditional filter step followed by a filter is one filter by both tests |
| JobsPage.FilterJobsAsStages | frontend/src/pages/Jobs.tsx:59-75 | the three conditional steps are one filter by their guarded tests |
| JobsPage.FilterJobsIsConjunction | frontend/src/pages/Jobs.tsx:58-77 | the three steps are one filter by the conjunction of the active tests |
| JobsPage.FilterJobsKeepsOrder | frontend/src/pages/Jobs.tsx:58-77 | the shown jobs are a subsequence of the fetched jobs |
| JobsPage.FilterJobsExact | frontend/src/pages/Jobs.tsx:61-75 | a job is shown iff it was fetched and passes every active filter: the case-folded term in title, description or company name; industry equal; job type equal |
| JobsPage.FilterJobsIdempotent | frontend/src/pages/Jobs.tsx:58-77 | filtering the shown list again changes nothing |
| JobsPage.ApplyFor | frontend/src/pages/Jobs.tsx:80-93 | a request is built iff a student is signed in; it carries `Bearer <token>` and the job's id |
| JobsPage.ApplyRequestCarriesToken | frontend/src/pages/Jobs.tsx:91 | the server's middleware recovers exactly the client's token from that header |
| EmployeeDashboard.WithStatus | frontend/src/components/EmployeeDashboard.tsx:90-94 | the map keeps the length and every application's id and student; `WithStatusExact` gives the new statuses |
| EmployeeDashboard.WithStatusExact | frontend/src/components/EmployeeDashboard.tsx:90-94 | exactly the applications with that id take the new status; the length and all other applications and fields are unchanged |
| EmployeeDashboard.WithoutJob | frontend/src/components/EmployeeDashboard.tsx:115 | no remaining job has that id, and every job with another id remains |
| EmployeeDashboard.WithoutJobExact | frontend/src/components/EmployeeDashboard.tsx:115 | exactly the jobs with that id are dropped, the rest keep their order, and the list shrinks iff such a job existed |
| EmployeeDashboard.Pending | frontend/src/components/EmployeeDashboard.tsx:134-136 | the pending count is at most the number of applications |
| EmployeeDashboard.Actions | frontend/src/components/EmployeeDashboard.tsx:320-335 | the Approve and Reject buttons of a card; `ActionsOnlyForPending` shows they appear only for a pending application |
| EmployeeDashboard.ActionsOnlyForPending | frontend/src/components/EmployeeDashboard.tsx:320-335 | review buttons appear iff the status is "pending", and they send only "approved" or "rejected" |
| EmployeeDashboard.DecidingLowersPending | frontend/src/components/EmployeeDashboard.tsx:90-94 | approving or rejecting the one pending application with a given id lowers the pending count by exactly one |
| EmployeeDashboard.BadgeClass | frontend/src/components/EmployeeDashboard.tsx:293-297 | the applicant card's badge classes; `BadgeMatchesStudentView` shows they equal the student's `getStatusColor` |
| EmployeeDashboard.BadgeMatchesStudentView | frontend/src/components/EmployeeDashboard.tsx:293-297 | the employer's badge colours a status exactly as the student's badge does |
| EmployeeDashboard.Dashboard.constructor | frontend/src/components/EmployeeDashboard.tsx:28-32 | the initial state: empty lists, nothing selected, loading |
| EmployeeDashboard.Dashboard.TotalApplications | frontend/src/components/EmployeeDashboard.tsx:130-132 | the number of applicants of the selected job; `PendingApplications` is bounded by it |
| EmployeeDashboard.Dashboard.PendingApplications | frontend/src/components/EmployeeDashboard.tsx:130-136 | the pending count never exceeds the total count |
| EmployeeDashboard.Dashboard.FetchJobs | frontend/src/components/EmployeeDashboard.tsx:38-55 | an ok response replaces the job list, any other outcome keeps it, and loading ends either way |
| EmployeeDashboard.Dashboard.FetchJobApplications | frontend/src/components/EmployeeDashboard.tsx:57-76 | an ok response sets the applicant list and the selected job together; any other outcome leaves both as they were |
| EmployeeDashboard.Dashboard.UpdateApplicationStatus | frontend/src/components/EmployeeDashboard.tsx:78-101 | only an ok response rewrites the list, through the status map; the alert matches the outcome |
| EmployeeDashboard.Dashboard.DeleteJob | frontend/src/components/EmployeeDashboard.tsx:103-128 | without confirmation nothing happens; an ok response drops the job, and clears the selection and applicants if that job was selected; a failed response changes no list |
| StudentDashboard.StatusIcon | frontend/src/components/StudentDashboard.tsx:42-51 | the clock is shown iff the status is neither "approved" nor "rejected", the default arm |
| StudentDashboard.StatusColor | frontend/src/components/StudentDashboard.tsx:53-62 | the badge colour classes; `StatusColorMeaning` gives which status gets which |
| StudentDashboard.StatusColorMeaning | frontend/src/components/StudentDashboard.tsx:53-62 | green iff "approved", red iff "rejected", yellow for every other string, "pending" included |
| StudentDashboard.IconAgreesWithColour | frontend/src/components/StudentDashboard.tsx:42-62 | two statuses get the same icon iff they get the same colour |
| StudentDashboard.Tally | frontend/src/components/StudentDashboard.tsx:98-122 | a tally never exceeds the number of applications |
| StudentDashboard.TallySnoc | frontend/src/components/StudentDashboard.tsx:98-122 | one more application raises exactly the tally of its own status, by one |
| StudentDashboard.TalliesWithinTotal | frontend/src/components/StudentDashboard.tsx:87-122 | pending + approved + rejected never exceeds the total, and equals it iff every status is one of the three |
| ProtectedRoute.Guard | frontend/src/components/ProtectedRoute.tsx:10-30 | while loading, the spinner; with no user, /login; a required type the user lacks sends them to /dashboard; the page is shown iff loaded, signed in and of the required type if one is given |
| ProtectedRoute.WrongRoleLandsOnDashboard | frontend/src/App.tsx:37-52 | a user turned away for their role is let in at /dashboard, which requires no type |
| ProtectedRoute.ExactlyOneRoleAdmits | frontend/src/components/ProtectedRoute.tsx:25-29 | an employee or student user is admitted by exactly one of the two required types |
| Auth.RoleName | frontend/src/pages/Register.tsx:7 | the two account kinds have the names "employee" and "student" |
| RegisterPage.TypeFromQuery | frontend/src/pages/Register.tsx:30-36 | `?type=` sets the account kind only when it is exactly "employee" or "student"; any other value keeps it |
| RegisterPage.Validate | frontend/src/pages/Register.tsx:53-61 | the password mismatch is reported iff the passwords differ, so it wins when both checks fail; the terms error iff the passwords match and the terms are unticked; no error iff both pass |
| RegisterPage.ProfileFor | frontend/src/pages/Register.tsx:66-76 | a student sends exactly the form's firstName, lastName and university, and anyone else exactly its companyName, contactPerson and industry |
| RegisterPage.AsServerProfile | backend/index.js:110-125 | the server reads exactly the payload's fields, and the fields of the other kind of profile as absent |
| RegisterPage.FormProfileIsComplete | frontend/src/pages/Register.tsx:66-83 | a profile built by the form always fills every NOT NULL column of the profile table the server picks for that user type |
| RegisterPage.RegisterForm.constructor | frontend/src/pages/Register.tsx:7-24 | a fresh form is a student form with empty fields and the terms unticked |
| RegisterPage.RegisterForm.ApplyQuery | frontend/src/pages/Register.tsx:30-36 | the account kind becomes `TypeFromQuery` of the old one, and nothing else changes |
| RegisterPage.RegisterForm.HandleSubmit | frontend/src/pages/Register.tsx:49-95 | a failed check sets its message and sends nothing; otherwise the request carries the form's fields and profile, success goes to /login, a false result or a thrown error sets "Registration failed. Please try again.", and loading ends false |

## Left out
- GET /api/profile and the public employee and student profile routes (backend/index.js:152-168, 341-358): they are read-only lookups, and the rules above do not depend on them.
- The mongoose `JobSchema` and server start-up (backend/index.js:360-402): the first is unused and the second is I/O.
- Database errors other than the constraint violations modelled in `Register` (UNIQUE and NOT NULL), `CreateJob` (NOT NULL) and `Apply` (a missing job id), the 500 replies they cause, and the asynchronous callbacks: each handler runs as one atomic step, so the race between the apply check and its insert is not modelled.
- Server.JobPortal.DeleteJob: a 500 from the first DELETE is not modelled; the handler would also run the second DELETE and try to reply again.
- SQL `LIKE` is a case-sensitive substring test here. SQLite's ASCII case-insensitivity and its `%` and `_` wildcards in the search term are not modelled.
- Path parameters are strings that SQLite compares through INTEGER affinity. They are integers here, so a non-numeric id, which matches no row, is not modelled.
- Queries.Login: a password missing from the body, which bcrypt would reject, is not modelled; the password is always a string.
- Server.JobPortal.Register: a request with no `profileData` object at all, where reading its fields throws after the user row is inserted, is not modelled. Missing fields are modelled as None.
- `ORDER BY` among rows with equal timestamps: SQLite's order for them is unspecified, so the contracts promise only sortedness and a permutation.
- Timestamps are naturals that only order rows. Date formatting is not modelled.
- `toLowerCase` is an arbitrary per-character fold given as a parameter. Unicode case mapping that changes a string's length is not modelled.
- JSX rendering and styling, `alert`, `window.open` and `console.error`: only the alert text each handler would show is modelled.
- `fetch`, `window.confirm` and the auth context's `register`: each is an input describing how the call ended. `AuthContext.tsx` is not part of this model, so `RegisterPage.AsServerProfile` takes it that `register` posts the request object as the JSON body.
- StudentDashboard: a NULL status reaches the client as `null` and falls into the default arm. The client status is a string here, so that case is not modelled separately.
- The remaining pages and components (Home, Navbar, Dashboard, CreateJob, Profile and the profile views) fetch and render only.
