/**
 * Editing a claim: only the subject, the description and the status can
 * change, and only administrators and masters are shown the status field.
 */
module ClaimEditForm {
  import opened Wrappers
  import opened Schema
  import opened UserEditForm
  import opened ClaimsPage

  datatype EditValues = EditValues(subject: string, description: string, status: string)

  function Issues(v: EditValues): (r: seq<Issue>)
    ensures r == [] <==> |v.subject| >= 5 && |v.description| >= 20 && v.status in ClaimStatuses
  {
    var checks := [
      MinLength("subject", v.subject, 5, "El asunto debe tener al menos 5 caracteres."),
      MinLength("description", v.description, 20, "La descripción debe tener al menos 20 caracteres."),
      OneOf("status", v.status, ClaimStatuses, "Invalid enum value.")];
    assert checks[0].issues == [] <==> |v.subject| >= 5;
    assert checks[1].issues == [] <==> |v.description| >= 20;
    assert checks[2].issues == [] <==> v.status in ClaimStatuses;
    Flatten(checks)
  }

  predicate Valid(v: EditValues) {
    Issues(v) == []
  }

  /** The form is loaded with the claim's own values. */
  function Reset(c: Claim): (v: EditValues)
    ensures v.subject == c.subject && v.description == c.description
    ensures ParseClaimStatus(v.status) == Some(c.status)
  {
    EditValues(c.subject, c.description, ClaimStatusName(c.status))
  }

  /** `canChangeStatus` */
  predicate CanChangeStatus(user: Option<User>) {
    user.Some? && IsManager(user.value)
  }

  /** `onSubmit`: nothing without a signed-in user; otherwise the claim with the three fields replaced. */
  function Submit(user: Option<User>, c: Claim, v: EditValues): (r: Option<Claim>)
    requires Valid(v)
    ensures user.None? ==> r.None?
    ensures user.Some? ==> r.Some?
    ensures r.Some? ==> r.value.subject == v.subject && r.value.description == v.description && ClaimStatusName(r.value.status) == v.status
    ensures r.Some? ==> r.value.(subject := c.subject, description := c.description, status := c.status) == c
  {
    if user.None? then None
    else Some(c.(subject := v.subject, description := v.description, status := ParseClaimStatus(v.status).value))
  }

  /** The user edits the text fields, and the status field only when it is shown. */
  function Edit(user: Option<User>, loaded: EditValues, subject: string, description: string, pickedStatus: string): (v: EditValues)
    ensures !CanChangeStatus(user) ==> v.status == loaded.status
  {
    EditValues(subject, description, if CanChangeStatus(user) then pickedStatus else loaded.status)
  }

  /** A representative's edit keeps the claim's status; the rest of the claim is untouched either way. */
  lemma RepresentativeKeepsStatus(user: User, c: Claim, subject: string, description: string, pickedStatus: string)
    requires !IsManager(user)
    requires Valid(Edit(Some(user), Reset(c), subject, description, pickedStatus))
    ensures Submit(Some(user), c, Edit(Some(user), Reset(c), subject, description, pickedStatus)).value.status == c.status
  {
  }

  /** Saving the form unchanged gives back the claim. */
  lemma SubmitReset(user: User, c: Claim)
    requires Valid(Reset(c))
    ensures Submit(Some(user), c, Reset(c)) == Some(c)
  {
  }
}
