/**
 * Changing one's password: the current password must be given, the new one
 * must have at least 8 characters, and the confirmation must equal it; a
 * mismatch is reported on the confirmation field. Each of the three inputs
 * has its own show/hide toggle.
 */
module ChangePasswordForm {
  import opened Schema

  datatype PasswordValues = PasswordValues(currentPassword: string, newPassword: string, confirmPassword: string)

  const Defaults := PasswordValues("", "", "")
  const MismatchIssue := Issue("confirmPassword", "Las contraseñas no coinciden.")

  function FieldChecks(v: PasswordValues): (checks: seq<FieldCheck>)
    ensures WellFormed(checks) && !AnyAborted(checks)
    ensures (forall i :: 0 <= i < |checks| ==> checks[i].issues == []) <==> |v.currentPassword| >= 1 && |v.newPassword| >= 8
  {
    var checks := [
      MinLength("currentPassword", v.currentPassword, 1, "La contraseña actual es requerida."),
      MinLength("newPassword", v.newPassword, 8, "La nueva contraseña debe tener al menos 8 caracteres."),
      Pass];
    assert checks[0].issues == [] <==> |v.currentPassword| >= 1;
    assert checks[1].issues == [] <==> |v.newPassword| >= 8;
    checks
  }

  /** The schema's issues: the fields', then the equality refinement, which always runs here. */
  function Issues(v: PasswordValues): seq<Issue> {
    ObjectIssues(FieldChecks(v), v.newPassword == v.confirmPassword, MismatchIssue)
  }

  predicate Valid(v: PasswordValues) {
    Issues(v) == []
  }

  lemma ValidIff(v: PasswordValues)
    ensures Valid(v) <==> |v.currentPassword| >= 1 && |v.newPassword| >= 8 && v.newPassword == v.confirmPassword
  {
  }

  /** A mismatched confirmation is reported even when the other fields fail too. */
  lemma MismatchReported(v: PasswordValues)
    requires v.newPassword != v.confirmPassword
    ensures MismatchIssue in Issues(v)
  {
  }

  /** The empty form is refused (the current password is missing). */
  lemma DefaultsInvalid()
    ensures !Valid(Defaults)
  {
    ValidIff(Defaults);
  }

  datatype PasswordField = Current | New | Confirm

  /** Which of the three inputs show their text. */
  class Visibility {
    var showCurrent: bool
    var showNew: bool
    var showConfirm: bool

    constructor ()
      ensures !showCurrent && !showNew && !showConfirm
    {
      showCurrent, showNew, showConfirm := false, false, false;
    }

    function Shown(f: PasswordField): bool
      reads this
    {
      match f
      case Current => showCurrent
      case New => showNew
      case Confirm => showConfirm
    }

    /** `togglePasswordVisibility`: one input flips, the others keep their state. */
    method Toggle(f: PasswordField)
      modifies this
      ensures Shown(f) == !old(Shown(f))
      ensures forall g :: g != f ==> Shown(g) == old(Shown(g))
    {
      match f
      case Current => showCurrent := !showCurrent;
      case New => showNew := !showNew;
      case Confirm => showConfirm := !showConfirm;
    }
  }

  /** Toggling twice restores the input's state. */
  method ToggleTwice(v: Visibility, f: PasswordField)
    modifies v
    ensures forall g :: v.Shown(g) == old(v.Shown(g))
  {
    v.Toggle(f);
    v.Toggle(f);
  }
}
