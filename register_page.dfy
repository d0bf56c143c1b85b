/** The registration page: the `?type=` query rule, the pre-submit checks in
    their order, the shaping of `profileData`, and the error and loading state
    `handleSubmit` leaves behind. The auth context's `register` call is an
    input: the submit handler receives how it ended. */
module RegisterPage {
  import opened Lists
  import opened Auth
  import Schema

  /** The form's text fields. */
  datatype FormData = FormData(
    email: string, password: string, confirmPassword: string,
    firstName: string, lastName: string, university: string,
    companyName: string, contactPerson: string, industry: string)

  /** The `profileData` object sent with the request: the student fields or the
      employer fields, never both. */
  datatype ProfilePayload =
    | StudentPayload(firstName: string, lastName: string, university: string)
    | EmployeePayload(companyName: string, contactPerson: string, industry: string)

  datatype RegisterRequest = RegisterRequest(email: string, password: string, userType: Role, profileData: ProfilePayload)

  /** How `await register(...)` ended: true, false, or a thrown error. */
  datatype Outcome = Succeeded | ReturnedFalse | Threw

  const PasswordMismatch: string := "Passwords do not match"
  const TermsNotAgreed: string := "Please agree to the terms and conditions"
  const RegistrationFailed: string := "Registration failed. Please try again."

  /** The `useEffect` on the location: `?type=` switches the account kind only
      when it names one exactly. */
  function TypeFromQuery(current: Role, param: Option<string>): (t: Role)
    ensures param == Some(Employee) ==> t == EmployeeRole
    ensures param == Some(Student) ==> t == StudentRole
    ensures param != Some(Employee) && param != Some(Student) ==> t == current
  {
    if param == Some(Employee) then EmployeeRole
    else if param == Some(Student) then StudentRole
    else current
  }

  /** The checks before any request: the passwords first, then the terms box. */
  function Validate(form: FormData, agreeTerms: bool): (err: Option<string>)
    ensures err == Some(PasswordMismatch) <==> form.password != form.confirmPassword
    ensures err == Some(TermsNotAgreed) <==> form.password == form.confirmPassword && !agreeTerms
    ensures err.None? <==> form.password == form.confirmPassword && agreeTerms
  {
    if form.password != form.confirmPassword then Some(PasswordMismatch)
    else if !agreeTerms then Some(TermsNotAgreed)
    else None
  }

  /** `profileData`: a student sends the student fields, anyone else the employer fields. */
  function ProfileFor(userType: Role, form: FormData): (p: ProfilePayload)
    ensures p.StudentPayload? <==> userType == StudentRole
    ensures p.StudentPayload? ==>
              p.firstName == form.firstName && p.lastName == form.lastName && p.university == form.university
    ensures p.EmployeePayload? ==>
              p.companyName == form.companyName && p.contactPerson == form.contactPerson && p.industry == form.industry
  {
    if userType == StudentRole then StudentPayload(form.firstName, form.lastName, form.university)
    else EmployeePayload(form.companyName, form.contactPerson, form.industry)
  }

  /** The payload as the server reads `profileData`: the fields it does not carry are absent. */
  function AsServerProfile(p: ProfilePayload): (d: Schema.ProfileData)
    ensures p.StudentPayload? ==>
              d == Schema.ProfileData(None, None, None, Some(p.firstName), Some(p.lastName), Some(p.university))
    ensures p.EmployeePayload? ==>
              d == Schema.ProfileData(Some(p.companyName), Some(p.contactPerson), Some(p.industry), None, None, None)
  {
    match p
    case StudentPayload(f, l, u) => Schema.ProfileData(None, None, None, Some(f), Some(l), Some(u))
    case EmployeePayload(c, cp, i) => Schema.ProfileData(Some(c), Some(cp), Some(i), None, None, None)
  }

  /** A request built by this form always carries every NOT NULL column of the
      profile table the server picks for its user type (empty strings are not
      NULL), so the form never triggers the server's failed-profile reply. */
  lemma FormProfileIsComplete(userType: Role, form: FormData)
    ensures var d := AsServerProfile(ProfileFor(userType, form));
            if RoleName(userType) == Employee then Schema.EmployeeProfileComplete(d)
            else Schema.StudentProfileComplete(d)
  {
  }

  class RegisterForm {
    var userType: Role
    var formData: FormData
    var agreeTerms: bool
    var error: string
    var loading: bool

    /** The initial `useState` values: a student, empty fields, terms unticked. */
    constructor()
      ensures userType == StudentRole && formData == FormData("", "", "", "", "", "", "", "", "")
      ensures !agreeTerms && error == "" && !loading
    {
      userType := StudentRole;
      formData := FormData("", "", "", "", "", "", "", "", "");
      agreeTerms := false;
      error := "";
      loading := false;
    }

    method ApplyQuery(param: Option<string>)
      modifies this
      ensures userType == TypeFromQuery(old(userType), param)
      ensures formData == old(formData) && agreeTerms == old(agreeTerms)
      ensures error == old(error) && loading == old(loading)
    {
      if param == Some(Employee) || param == Some(Student) {
        userType := if param == Some(Employee) then EmployeeRole else StudentRole;
      }
    }

    /** `handleSubmit`. A failed check sets its message and sends nothing.
        Otherwise the request goes out; success navigates to /login, a false
        result or a thrown error sets the failure message, and loading ends. */
    method HandleSubmit(outcome: Outcome) returns (request: Option<RegisterRequest>, navigateTo: Option<string>)
      modifies this
      ensures request.Some? <==> Validate(old(formData), old(agreeTerms)).None?
      ensures Validate(old(formData), old(agreeTerms)).Some? ==>
                error == Validate(old(formData), old(agreeTerms)).value && navigateTo.None? && loading == old(loading)
      ensures request.Some? ==>
                && request.value == RegisterRequest(formData.email, formData.password, userType,
                                                    ProfileFor(userType, formData))
                && navigateTo == (if outcome == Succeeded then Some("/login") else None)
                && error == (if outcome == Succeeded then "" else RegistrationFailed)
                && !loading
      ensures userType == old(userType) && formData == old(formData) && agreeTerms == old(agreeTerms)
    {
      request, navigateTo := None, None;
      error := "";
      if formData.password != formData.confirmPassword {
        error := PasswordMismatch;
        return;
      }
      if !agreeTerms {
        error := TermsNotAgreed;
        return;
      }
      loading := true;
      var profileData := ProfileFor(userType, formData);
      request := Some(RegisterRequest(formData.email, formData.password, userType, profileData));
      if outcome == Succeeded {
        navigateTo := Some("/login");
      } else {
        error := RegistrationFailed;
      }
      loading := false;
    }
  }
}
