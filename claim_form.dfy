/**
 * Filing a claim: whom it is about (one of the user's represented students
 * or a school), a subject of at least 5 characters and a description of at
 * least 20. The new claim is "enviado", carries the user's id as text, and
 * takes the represented party's label as its name.
 */
module ClaimForm {
  import opened Wrappers
  import opened Text
  import opened Seqs
  import opened Schema
  import opened MockData
  import opened Combobox
  import opened UserEditForm
  import ClaimsPage

  /** A student the signed-in user represents. */
  datatype Student = Student(id: int, firstName: string, lastName: string)

  datatype ClaimValues = ClaimValues(
    representedType: Option<ClaimsPage.RepresentedType>,
    representedId: string,
    subject: string,
    description: string)

  const Empty := ClaimValues(None, "", "", "")

  function Issues(v: ClaimValues): (r: seq<Issue>)
    ensures r == [] <==> v.representedType.Some? && |v.representedId| >= 1 && |v.subject| >= 5 && |v.description| >= 20
  {
    var checks := [
      if v.representedType.None? then Missing("representedType", "Debes seleccionar si representas a un alumno o una escuela.") else Pass,
      MinLength("representedId", v.representedId, 1, "Debes seleccionar a quién representas."),
      MinLength("subject", v.subject, 5, "El asunto debe tener al menos 5 caracteres."),
      MinLength("description", v.description, 20, "La descripción debe tener al menos 20 caracteres.")];
    assert checks[0].issues == [] <==> v.representedType.Some?;
    assert checks[1].issues == [] <==> |v.representedId| >= 1;
    assert checks[2].issues == [] <==> |v.subject| >= 5;
    assert checks[3].issues == [] <==> |v.description| >= 20;
    Flatten(checks)
  }

  predicate Valid(v: ClaimValues) {
    Issues(v) == []
  }

  function StudentOptions(students: seq<Student>): (items: seq<Item>)
    ensures |items| == |students|
    ensures forall k :: 0 <= k < |items| ==> items[k] == Item(IntToString(students[k].id), students[k].firstName + " " + students[k].lastName)
  {
    seq(|students|, k requires 0 <= k < |students| => Item(IntToString(students[k].id), students[k].firstName + " " + students[k].lastName))
  }

  function SchoolOptions(schools: seq<School>): (items: seq<Item>)
    ensures |items| == |schools|
    ensures forall k :: 0 <= k < |items| ==> items[k] == Item(schools[k].value, schools[k].displayLabel)
  {
    seq(|schools|, k requires 0 <= k < |schools| => Item(schools[k].value, schools[k].displayLabel))
  }

  /** The represented party: looked up among the students or the schools, as the type says. */
  function Represented(v: ClaimValues, students: seq<Student>, schools: seq<School>): (r: Option<Item>)
    requires v.representedType.Some?
    ensures r.Some? ==> r.value.value == v.representedId
    ensures v.representedType == Some(ClaimsPage.Alumno) ==> (r.Some? ==> r.value in StudentOptions(students))
    ensures v.representedType == Some(ClaimsPage.Escuela) ==> (r.Some? ==> r.value in SchoolOptions(schools))
    ensures r.None? <==> forall it :: it in (if v.representedType == Some(ClaimsPage.Alumno) then StudentOptions(students) else SchoolOptions(schools)) ==> it.value != v.representedId
  {
    var options := if v.representedType == Some(ClaimsPage.Alumno) then StudentOptions(students) else SchoolOptions(schools);
    Find(options, (it: Item) => it.value == v.representedId)
  }

  /**
   * `onSubmit`: without a signed-in user, or when the represented party is
   * not among the options, nothing is filed and the form stays as it is;
   * otherwise the new claim is returned and the form is cleared. `now` is
   * the current time in milliseconds.
   */
  function Submit(user: Option<User>, students: seq<Student>, schools: seq<School>, v: ClaimValues, now: int): (r: (Option<ClaimsPage.Claim>, ClaimValues))
    requires Valid(v)
    ensures user.None? ==> r == (None, v)
    ensures user.Some? && Represented(v, students, schools).None? ==> r == (None, v)
    ensures r.0.Some? ==> r.1 == Empty && user.Some? && Represented(v, students, schools).Some?
    ensures user.Some? && Represented(v, students, schools).Some? ==> r.0.Some? && r.1 == Empty
  {
    if user.None? then (None, v)
    else
      var item := Represented(v, students, schools);
      if item.None? then (None, v)
      else
        var u := user.value;
        var claim := ClaimsPage.Claim(
          id := "claim-" + IntToString(now),
          representativeId := IdToString(u.id),
          representativeName := FullName(u),
          representedId := v.representedId,
          representedName := item.value.itemLabel,
          representedType := v.representedType.value,
          subject := v.subject,
          description := v.description,
          status := ClaimsPage.Enviado,
          submissionDate := now);
        (Some(claim), Empty)
  }

  /** A signed-in user whose picked party is among the options files a claim; what it holds: it is the user's, new, stamped now, and names the picked party. */
  lemma FiledClaimContents(user: Option<User>, students: seq<Student>, schools: seq<School>, v: ClaimValues, now: int)
    requires Valid(v)
    requires user.Some? && Represented(v, students, schools).Some?
    ensures Submit(user, students, schools, v, now).0.Some?
    ensures var c := Submit(user, students, schools, v, now).0.value;
      c.status == ClaimsPage.Enviado && c.submissionDate == now && c.id == "claim-" + IntToString(now) &&
      ClaimsPage.FiledBy(c, user.value) &&
      c.representedId == v.representedId && c.subject == v.subject && c.description == v.description &&
      c.representedName == Represented(v, students, schools).value.itemLabel
  {
  }

  /** The one who files a claim may then edit or delete it, and a representative sees it in the list. */
  lemma FiledClaimIsOwn(claims: seq<ClaimsPage.Claim>, user: User, students: seq<Student>, schools: seq<School>, v: ClaimValues, now: int)
    requires Valid(v)
    requires Represented(v, students, schools).Some?
    requires user.role == Representante
    ensures Submit(Some(user), students, schools, v, now).0.Some?
    ensures ClaimsPage.CanEditOrDelete(Some(user), Submit(Some(user), students, schools, v, now).0.value)
    ensures Submit(Some(user), students, schools, v, now).0.value in ClaimsPage.OwnClaims([Submit(Some(user), students, schools, v, now).0.value] + claims, Some(user))
  {
    var c := Submit(Some(user), students, schools, v, now).0.value;
    assert ([c] + claims)[0] == c;
  }

  /** Choosing a represented type clears the represented party. */
  function ChangeType(v: ClaimValues, t: ClaimsPage.RepresentedType): (r: ClaimValues)
    ensures r.representedType == Some(t) && r.representedId == ""
    ensures r.subject == v.subject && r.description == v.description
  {
    v.(representedType := Some(t), representedId := "")
  }

  /** A type change always leaves the form invalid until a party is picked again. */
  lemma ChangeTypeNeedsPick(v: ClaimValues, t: ClaimsPage.RepresentedType)
    ensures !Valid(ChangeType(v, t))
  {
  }
}
