/** The student dashboard: the tallies over the student's applications and the
    badge icon and colour chosen from an application's status. */
module StudentDashboard {
  import opened Lists

  /** A row of GET /api/my-applications as the dashboard reads it. */
  datatype Application = Application(
    id: nat, title: string, companyName: string, jobType: string, status: string, appliedAt: string)

  /** The three lucide icons the status badge can show. */
  datatype Icon = CheckCircle | XCircle | Clock

  const GreenBadge: string := "bg-green-100 text-green-800"
  const RedBadge: string := "bg-red-100 text-red-800"
  const YellowBadge: string := "bg-yellow-100 text-yellow-800"

  /** `getStatusIcon`: a `switch` with a default arm. */
  function StatusIcon(status: string): (icon: Icon)
    ensures icon == Clock <==> status != "approved" && status != "rejected"
  {
    if status == "approved" then CheckCircle
    else if status == "rejected" then XCircle
    else Clock
  }

  /** `getStatusColor`: the same `switch` over the badge's colour classes. */
  function StatusColor(status: string): string
  {
    if status == "approved" then GreenBadge
    else if status == "rejected" then RedBadge
    else YellowBadge
  }

  /** Green means approved, red means rejected, and every other string,
      "pending" among them, is yellow. */
  lemma StatusColorMeaning(status: string)
    ensures StatusColor(status) == GreenBadge <==> status == "approved"
    ensures StatusColor(status) == RedBadge <==> status == "rejected"
    ensures StatusColor(status) == YellowBadge <==> status != "approved" && status != "rejected"
  {
  }

  /** Icon and colour split the statuses into the same classes: two statuses get
      the same icon exactly when they get the same colour. */
  lemma IconAgreesWithColour(s1: string, s2: string)
    ensures StatusIcon(s1) == StatusIcon(s2) <==> StatusColor(s1) == StatusColor(s2)
  {
  }

  /** `applications.filter(app => app.status === status).length` */
  function Tally(apps: seq<Application>, status: string): (n: nat)
    ensures n <= |apps|
  {
    Count(apps, (a: Application) => a.status == status)
  }

  /** A tally grows by one for each appended application with exactly that status. */
  lemma TallySnoc(apps: seq<Application>, a: Application, status: string)
    ensures Tally(apps + [a], status) == Tally(apps, status) + (if a.status == status then 1 else 0)
  {
    FilterSnoc(apps, a, (x: Application) => x.status == status);
  }

  /** The three status cards together. */
  function Tallied(apps: seq<Application>): nat
  {
    Tally(apps, "pending") + Tally(apps, "approved") + Tally(apps, "rejected")
  }

  predicate Known(status: string)
  {
    status == "pending" || status == "approved" || status == "rejected"
  }

  /** The pending, approved and rejected cards never add up to more than the
      total card, and they add up to it exactly when every status is one of the
      three. */
  lemma {:induction false} TalliesWithinTotal(apps: seq<Application>)
    ensures Tallied(apps) <= |apps|
    ensures Tallied(apps) == |apps| <==> forall i :: 0 <= i < |apps| ==> Known(apps[i].status)
  {
    if apps != [] {
      var init := apps[..|apps| - 1];
      var last := apps[|apps| - 1];
      assert apps == init + [last];
      TalliesWithinTotal(init);
      TallySnoc(init, last, "pending");
      TallySnoc(init, last, "approved");
      TallySnoc(init, last, "rejected");
      assert forall i :: 0 <= i < |init| ==> init[i] == apps[i];
    }
  }
}
