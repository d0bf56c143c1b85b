/** The client's route guard: what a guarded route shows, decided in order from
    the auth context's `loading` flag, its signed-in user and the route's
    optional required account kind. */
module ProtectedRoute {
  import opened Lists
  import opened Auth

  /** What the guard renders: the spinner, a `<Navigate replace>` or the page. */
  datatype View = Spinner | Redirect(to: string) | Children

  /** `ProtectedRoute`, with the signed-in user given by its `userType`. */
  function Guard(loading: bool, user: Option<string>, required: Option<Role>): (v: View)
    ensures loading ==> v == Spinner
    ensures !loading && user.None? ==> v == Redirect("/login")
    ensures !loading && user.Some? && required.Some? && user.value != RoleName(required.value) ==>
              v == Redirect("/dashboard")
    ensures v == Children <==> !loading && user.Some? && (required.None? || user.value == RoleName(required.value))
  {
    if loading then Spinner
    else if user.None? then Redirect("/login")
    else if required.Some? && user.value != RoleName(required.value) then Redirect("/dashboard")
    else Children
  }

  /** A signed-in user turned away for their account kind is sent to
      /dashboard, which is guarded with no required kind and so lets them in:
      the guard never redirects in a loop. */
  lemma WrongRoleLandsOnDashboard(user: Option<string>, required: Option<Role>)
    requires Guard(false, user, required) == Redirect("/dashboard")
    ensures Guard(false, user, None) == Children
  {
  }

  /** Once loaded, exactly one of the two account kinds admits a given user,
      when that user's kind is one the client knows. */
  lemma ExactlyOneRoleAdmits(userType: string)
    requires userType == Employee || userType == Student
    ensures (Guard(false, Some(userType), Some(EmployeeRole)) == Children)
            != (Guard(false, Some(userType), Some(StudentRole)) == Children)
  {
  }
}
