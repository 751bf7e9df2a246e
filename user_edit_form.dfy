/**
 * User editing: the user record of the administration screens, the
 * document number ("cédula") split into type letter and digits and joined
 * back, the age and category of a birth date, the form's validation rules
 * (including the rule that an "alumno" needs a school, a belt and a
 * ranking), the default values, the record a submit produces, and the list
 * of representatives offered in the picker.
 */
module UserEditForm {
  import opened Wrappers
  import opened Text
  import opened Seqs
  import opened Schema
  import opened MockData
  import opened Combobox
  import RankingTable

  datatype Role = Admin | Master | Alumno | Representante

  function RoleName(r: Role): string {
    match r
    case Admin => "admin"
    case Master => "master"
    case Alumno => "alumno"
    case Representante => "representante"
  }

  /** The role enumeration as the form lists it. */
  const Roles: seq<string> := ["admin", "master", "alumno", "representante"]

  function ParseRole(s: string): (r: Option<Role>)
    ensures r.Some? <==> s in Roles
    ensures r.Some? ==> RoleName(r.value) == s
  {
    if s == "admin" then Some(Admin)
    else if s == "master" then Some(Master)
    else if s == "alumno" then Some(Alumno)
    else if s == "representante" then Some(Representante)
    else None
  }

  lemma ParseRoleName(r: Role)
    ensures ParseRole(RoleName(r)) == Some(r)
  {
  }

  /** Ids are numbers for generated users and strings for others. */
  datatype UserId = NumId(n: int) | StrId(s: string)

  /** `id.toString()` */
  function IdToString(id: UserId): string {
    match id
    case NumId(n) => IntToString(n)
    case StrId(s) => s
  }

  /** A calendar day. */
  datatype Day = Day(year: int, month: int, day: int)

  /** `a` is the same day as `b` or an earlier one. */
  predicate DayLe(a: Day, b: Day) {
    a.year < b.year || (a.year == b.year && (a.month < b.month || (a.month == b.month && a.day <= b.day)))
  }

  datatype User = User(
    id: UserId,
    firstName: string,
    lastName: string,
    email: string,
    role: Role,
    photoURL: Option<string>,
    cedula: Option<string>,
    dateOfBirth: Option<Day>,
    schoolId: Option<string>,
    school: Option<string>,
    belt: Option<string>,
    ranking: Option<real>,
    category: Option<string>,
    representativeId: Option<string>)

  /** JavaScript truthiness of an optional string: present and non-empty. */
  predicate Truthy(s: Option<string>) {
    s.Some? && s.value != ""
  }

  /** `x || d` for an optional string. */
  function OrElse(s: Option<string>, d: string): (r: string)
    ensures Truthy(s) ==> r == s.value
    ensures !Truthy(s) ==> r == d
  {
    if Truthy(s) then s.value else d
  }

  /** Completed years between a birth date and today; 0 without a birth date. */
  function GetAge(dateOfBirth: Option<Day>, today: Day): int {
    match dateOfBirth
    case None => 0
    case Some(b) =>
      var age := today.year - b.year;
      var m := today.month - b.month;
      if m < 0 || (m == 0 && today.day < b.day) then age - 1 else age
  }

  /** The day `years` after `b`, on the same month and day. */
  function Anniversary(b: Day, years: int): Day {
    Day(b.year + years, b.month, b.day)
  }

  /** The age is the number of anniversaries already reached: the n-th has passed, the (n+1)-th has not. */
  lemma GetAgeCountsAnniversaries(b: Day, today: Day)
    ensures DayLe(Anniversary(b, GetAge(Some(b), today)), today)
    ensures !DayLe(Anniversary(b, GetAge(Some(b), today) + 1), today)
  {
  }

  /** Nobody born on or before today has a negative age, and ages never go down as time passes. */
  lemma GetAgeMonotone(b: Day, t1: Day, t2: Day)
    ensures DayLe(b, t1) ==> GetAge(Some(b), t1) >= 0
    ensures DayLe(t1, t2) ==> GetAge(Some(b), t1) <= GetAge(Some(b), t2)
  {
  }

  /** The category field follows a chosen birth date. */
  function CategoryFor(dateOfBirth: Day, today: Day): (c: string)
    ensures c in RankingTable.CategoryLabels
  {
    RankingTable.GetCategory(GetAge(Some(dateOfBirth), today))
  }

  const DocTypes: seq<string> := ["V", "E", "P", "T"]

  predicate IsDocLetter(c: char) {
    c in "VEPTvept"
  }

  /** `s.replace(/\./g, '')` */
  function RemoveDots(s: string): (r: string)
    ensures '.' !in r
    ensures IsSubsequence(r, s) && |r| == Count(s, NotDot)
    ensures '.' !in s ==> r == s
  {
    FilterIsSubsequence(s, NotDot);
    FilterLength(s, NotDot);
    if '.' in s then Filter(s, NotDot)
    else
      FilterAll(s, NotDot);
      Filter(s, NotDot)
  }

  predicate NotDot(c: char) {
    c != '.'
  }

  /**
   * `getCedulaParts`: an absent or empty document gives ('V', ''); otherwise
   * a leading V/E/P/T in either case is the type (upper-cased), 'V' when
   * there is none, and the number is what follows that letter and at most
   * one '-', with every '.' removed.
   */
  function GetCedulaParts(cedula: Option<string>): (r: (string, string))
    ensures r.0 in DocTypes
    ensures '.' !in r.1
    ensures !Truthy(cedula) ==> r == ("V", "")
    ensures Truthy(cedula) && IsDocLetter(cedula.value[0]) ==>
      r.0 == [UpperChar(cedula.value[0])] &&
      r.1 == RemoveDots(if |cedula.value| > 1 && cedula.value[1] == '-' then cedula.value[2..] else cedula.value[1..])
    ensures Truthy(cedula) && !IsDocLetter(cedula.value[0]) ==> r == ("V", RemoveDots(cedula.value))
  {
    if !Truthy(cedula) then ("V", "")
    else
      var c := cedula.value;
      var docType := if IsDocLetter(c[0]) then [UpperChar(c[0])] else "V";
      var rest := if IsDocLetter(c[0]) then (if |c| > 1 && c[1] == '-' then c[2..] else c[1..]) else c;
      (docType, RemoveDots(rest))
  }

  /** A bare number (the mock cédulas are all digits) is read as a "V" document with that number, and saved back as "V-" and the number. */
  lemma BareCedulaParts(n: string)
    requires n != "" && AllDigits(n)
    ensures GetCedulaParts(Some(n)) == ("V", n)
    ensures FullCedula(GetCedulaParts(Some(n)).0, GetCedulaParts(Some(n)).1) == Some("V-" + n)
  {
    assert IsDigit(n[0]);
    assert '.' !in n by {
      forall i | 0 <= i < |n| ensures n[i] != '.' {
        assert IsDigit(n[i]);
      }
    }
    assert "V" + "-" + n == "V-" + n;
  }

  lemma CedulaPartsDefault()
    ensures GetCedulaParts(None) == ("V", "")
    ensures GetCedulaParts(Some("")) == ("V", "")
  {
  }

  /** `docType && docNumber ? docType + '-' + docNumber : undefined` */
  function FullCedula(docType: string, docNumber: string): (r: Option<string>)
    ensures r.Some? <==> docType != "" && docNumber != ""
    ensures r.Some? ==> r.value == docType + "-" + docNumber
  {
    if docType != "" && docNumber != "" then Some(docType + "-" + docNumber) else None
  }

  /** Splitting a composed document gives back its type and number. */
  lemma CedulaRoundTrip(t: string, n: string)
    requires t in DocTypes && '.' !in n && n != ""
    ensures GetCedulaParts(FullCedula(t, n)) == (t, n)
  {
    var c := t + "-" + n;
    assert c[0] == t[0] && c[1] == '-' && c[2..] == n;
  }

  /** Composing the parts of a document already in "T-N" form gives it back unchanged. */
  lemma CedulaCanonical(c: string, t: string, n: string)
    requires t in DocTypes && '.' !in n && n != ""
    requires c == t + "-" + n
    ensures FullCedula(GetCedulaParts(Some(c)).0, GetCedulaParts(Some(c)).1) == Some(c)
  {
    CedulaRoundTrip(t, n);
  }

  /** The number input drops everything but digits, so what it holds is dot-free and composes back. */
  function DigitsOnly(s: string): (r: string)
    ensures AllDigits(r)
    ensures '.' !in r
    ensures IsSubsequence(r, s) && |r| == Count(s, IsDigit)
  {
    FilterIsSubsequence(s, IsDigit);
    FilterLength(s, IsDigit);
    Filter(s, IsDigit)
  }

  /**
   * The two properties of `DigitsOnly` determine it: any digits-only
   * subsequence of the input that keeps as many characters as the input has
   * digits is the input's digits, in order.
   */
  lemma DigitsOnlyUnique(s: string, t: string)
    requires AllDigits(t) && IsSubsequence(t, s) && |t| == Count(s, IsDigit)
    ensures t == DigitsOnly(s)
  {
    FilterUnique(t, s, IsDigit);
  }

  lemma DigitsOnlyIdempotent(s: string)
    ensures DigitsOnly(DigitsOnly(s)) == DigitsOnly(s)
  {
    FilterAll(DigitsOnly(s), IsDigit);
  }

  /** The form's fields as the resolver sees them; a `None` is an undefined field. */
  datatype FormValues = FormValues(
    firstName: string,
    lastName: string,
    email: string,
    role: string,
    docType: Option<string>,
    docNumber: Option<string>,
    dateOfBirth: Option<Day>,
    schoolId: Option<string>,
    belt: Option<string>,
    ranking: Option<JsNumber>,
    category: Option<string>,
    representativeId: Option<string>)

  const AlumnoMessage := "La escuela, el cinturón y el ranking son requeridos para el rol de alumno."

  function EmailCheck(email: string, isEmail: string -> bool): (r: FieldCheck)
    ensures r.issues == [] <==> isEmail(email)
    ensures !r.aborted
  {
    if isEmail(email) then Pass else FieldCheck([Issue("email", "Por favor, introduce un correo electrónico válido.")], false)
  }

  const DocTypeMessage := "Por favor, selecciona un tipo de documento."

  function DocNumberCheck(docNumber: Option<string>): (r: FieldCheck)
    ensures r.issues == [] <==> docNumber.Some? && 6 <= |docNumber.value| <= 9
    ensures r.aborted <==> docNumber.None?
  {
    if docNumber.None? then Missing("docNumber", "El número de documento es requerido.")
    else
      Then(MinLength("docNumber", docNumber.value, 6, "El documento debe tener entre 6 y 9 dígitos."),
           MaxLength("docNumber", docNumber.value, 9, "El documento debe tener entre 6 y 9 dígitos."))
  }

  /** `z.date().max(endOfToday)`: a date after today fails. */
  function DateOfBirthCheck(dateOfBirth: Option<Day>, today: Day): (r: FieldCheck)
    ensures r.issues == [] <==> dateOfBirth.Some? && DayLe(dateOfBirth.value, today)
    ensures r.aborted <==> dateOfBirth.None?
  {
    if dateOfBirth.None? then Missing("dateOfBirth", "La fecha de nacimiento es requerida.")
    else if DayLe(dateOfBirth.value, today) then Pass
    else FieldCheck([Issue("dateOfBirth", "La fecha de nacimiento no puede ser en el futuro.")], false)
  }

  /** `z.coerce.number().optional()`: only a NaN fails. */
  function RankingCheck(ranking: Option<JsNumber>): (r: FieldCheck)
    ensures r.issues == [] <==> ranking != Some(NaN)
    ensures r.aborted <==> ranking == Some(NaN)
  {
    if ranking == Some(NaN) then FieldCheck([Issue("ranking", "Expected number, received nan")], true) else Pass
  }

  function FieldChecks(v: FormValues, today: Day, isEmail: string -> bool): (checks: seq<FieldCheck>)
    ensures WellFormed(checks)
    ensures |checks| == 8
  {
    var firstName := MinLength("firstName", v.firstName, 2, "El nombre debe tener al menos 2 caracteres.");
    var lastName := MinLength("lastName", v.lastName, 2, "El apellido debe tener al menos 2 caracteres.");
    var email := EmailCheck(v.email, isEmail);
    var role := OneOf("role", v.role, Roles, "Por favor, selecciona un rol.");
    var docType := Required("docType", v.docType, DocTypeMessage);
    var docNumber := DocNumberCheck(v.docNumber);
    var dateOfBirth := DateOfBirthCheck(v.dateOfBirth, today);
    var ranking := RankingCheck(v.ranking);
    WellFormedEight(firstName, lastName, email, role, docType, docNumber, dateOfBirth, ranking);
    [firstName, lastName, email, role, docType, docNumber, dateOfBirth, ranking]
  }

  /** The cross-field rule: an "alumno" needs a school, a belt and a ranking (0 counts). */
  predicate AlumnoRule(v: FormValues) {
    v.role != "alumno" || (Truthy(v.schoolId) && Truthy(v.belt) && v.ranking.Some?)
  }

  /**
   * The form's issues. `today` is the current day (the schema allows any
   * moment of it); `isEmail` is zod's e-mail pattern, which is not modelled.
   */
  function Issues(v: FormValues, today: Day, isEmail: string -> bool): seq<Issue> {
    ObjectIssues(FieldChecks(v, today, isEmail), AlumnoRule(v), Issue("schoolId", AlumnoMessage))
  }

  predicate Valid(v: FormValues, today: Day, isEmail: string -> bool) {
    Issues(v, today, isEmail) == []
  }

  /** The form is valid exactly when every field rule and the alumno rule hold. */
  lemma ValidIff(v: FormValues, today: Day, isEmail: string -> bool)
    ensures Valid(v, today, isEmail) <==>
      |v.firstName| >= 2 && |v.lastName| >= 2 && isEmail(v.email) && v.role in Roles &&
      v.docType.Some? && v.docNumber.Some? && 6 <= |v.docNumber.value| <= 9 &&
      v.dateOfBirth.Some? && DayLe(v.dateOfBirth.value, today) &&
      v.ranking != Some(NaN) && AlumnoRule(v)
  {
    var firstName := MinLength("firstName", v.firstName, 2, "El nombre debe tener al menos 2 caracteres.");
    var lastName := MinLength("lastName", v.lastName, 2, "El apellido debe tener al menos 2 caracteres.");
    var email := EmailCheck(v.email, isEmail);
    var role := OneOf("role", v.role, Roles, "Por favor, selecciona un rol.");
    var docType := Required("docType", v.docType, DocTypeMessage);
    var docNumber := DocNumberCheck(v.docNumber);
    var dateOfBirth := DateOfBirthCheck(v.dateOfBirth, today);
    var ranking := RankingCheck(v.ranking);
    assert FieldChecks(v, today, isEmail) == [firstName, lastName, email, role, docType, docNumber, dateOfBirth, ranking];
    PassesEight(firstName, lastName, email, role, docType, docNumber, dateOfBirth, ranking);
  }

  /** With the other fields well typed, an "alumno" without a school is reported on the school field. */
  lemma AlumnoIssueOnSchool(v: FormValues, today: Day, isEmail: string -> bool)
    requires v.role == "alumno" && !Truthy(v.schoolId)
    requires v.docType.Some? && v.docNumber.Some? && v.dateOfBirth.Some? && v.ranking != Some(NaN)
    ensures Issue("schoolId", AlumnoMessage) in Issues(v, today, isEmail)
  {
    var checks := FieldChecks(v, today, isEmail);
    assert !checks[0].aborted && !checks[1].aborted && !checks[2].aborted && !checks[3].aborted by {
      assert v.role in Roles;
    }
    assert !checks[4].aborted && !checks[5].aborted && !checks[6].aborted && !checks[7].aborted;
    NoneAbortedEight(checks);
  }

  /** Any role but "alumno" passes the cross-field rule whatever the athlete fields hold. */
  lemma NonAlumnoPassesRule(v: FormValues)
    requires v.role != "alumno"
    ensures AlumnoRule(v)
  {
  }

  /** The defaults loaded from a user. */
  function DefaultValues(user: User, today: Day): (v: FormValues)
    ensures v.docType.Some? && v.docNumber.Some?
    ensures (v.docType.value, v.docNumber.value) == GetCedulaParts(user.cedula)
    ensures v.ranking == Some(Finite(if user.ranking.Some? && user.ranking.value != 0.0 then user.ranking.value else 0.0))
    ensures v.dateOfBirth == user.dateOfBirth && v.role == RoleName(user.role)
    ensures v.firstName == user.firstName && v.lastName == user.lastName && v.email == user.email
    ensures Truthy(user.schoolId) ==> v.schoolId == user.schoolId
    ensures !Truthy(user.schoolId) ==> v.schoolId == Some("")
    ensures Truthy(user.belt) ==> v.belt == user.belt
    ensures !Truthy(user.belt) ==> v.belt == Some("")
    ensures Truthy(user.representativeId) ==> v.representativeId == user.representativeId
    ensures !Truthy(user.representativeId) ==> v.representativeId == Some("")
    ensures Truthy(user.category) ==> v.category == user.category
    ensures !Truthy(user.category) && user.dateOfBirth.Some? ==> v.category == Some(CategoryFor(user.dateOfBirth.value, today))
    ensures !Truthy(user.category) && user.dateOfBirth.None? ==> v.category == Some("")
  {
    var (docType, docNumber) := GetCedulaParts(user.cedula);
    var calculated := if user.dateOfBirth.Some? then CategoryFor(user.dateOfBirth.value, today) else "";
    FormValues(
      firstName := user.firstName,
      lastName := user.lastName,
      email := user.email,
      role := RoleName(user.role),
      docType := Some(docType),
      docNumber := Some(docNumber),
      dateOfBirth := user.dateOfBirth,
      schoolId := Some(OrElse(user.schoolId, "")),
      belt := Some(OrElse(user.belt, "")),
      ranking := Some(Finite(if user.ranking.Some? && user.ranking.value != 0.0 then user.ranking.value else 0.0)),
      category := Some(OrElse(user.category, calculated)),
      representativeId := Some(OrElse(user.representativeId, "")))
  }

  /**
   * The values the form holds once it has loaded: the defaults, and then
   * the effect on `dateOfBirth`, which, whenever a birth date is set,
   * overwrites the category with the one computed from it. The effect runs
   * on mount and again after the reset, whose new `Date` changes the
   * watched value, so a stored category survives only without a birth date.
   */
  function LoadedValues(user: User, today: Day): (v: FormValues)
    ensures var d := DefaultValues(user, today);
      v == d.(category := v.category)
    ensures user.dateOfBirth.Some? ==> v.category == Some(CategoryFor(user.dateOfBirth.value, today))
    ensures user.dateOfBirth.None? ==> v.category == DefaultValues(user, today).category
  {
    var d := DefaultValues(user, today);
    match d.dateOfBirth
    case Some(dob) => d.(category := Some(CategoryFor(dob, today)))
    case None => d
  }

  /** The validation rules do not look at the category, so the effect never changes validity. */
  lemma LoadedValuesValid(user: User, today: Day, isEmail: string -> bool)
    ensures Valid(LoadedValues(user, today), today, isEmail) <==> Valid(DefaultValues(user, today), today, isEmail)
  {
    ValidIff(LoadedValues(user, today), today, isEmail);
    ValidIff(DefaultValues(user, today), today, isEmail);
  }

  /**
   * `onSubmit`: the user overwritten by the form's values, with the role
   * parsed, the school label looked up ('' when the id matches no school),
   * the new photo when there is one, and the composed document.
   */
  function Submit(user: User, v: FormValues, previewImage: Option<string>, schools: seq<School>, today: Day, isEmail: string -> bool): (u: User)
    requires Valid(v, today, isEmail)
    ensures u.id == user.id
    ensures u.cedula == FullCedula(v.docType.GetOr(""), v.docNumber.GetOr(""))
    ensures u.school == Some(
      match Find(schools, (s: School) => Some(s.value) == v.schoolId)
      case Some(s) => s.displayLabel
      case None => "")
    ensures Truthy(previewImage) ==> u.photoURL == previewImage
    ensures !Truthy(previewImage) ==> u.photoURL == user.photoURL
    ensures u.firstName == v.firstName && u.lastName == v.lastName && u.email == v.email
    ensures Some(u.role) == ParseRole(v.role)
    ensures u.dateOfBirth == v.dateOfBirth && u.schoolId == v.schoolId && u.belt == v.belt
    ensures u.category == v.category && u.representativeId == v.representativeId
    ensures v.ranking.Some? && v.ranking.value.Finite? ==> u.ranking == Some(v.ranking.value.x)
  {
    ValidIff(v, today, isEmail);
    var schoolLabel := match Find(schools, (s: School) => Some(s.value) == v.schoolId)
      case Some(s) => s.displayLabel
      case None => "";
    user.(
      firstName := v.firstName,
      lastName := v.lastName,
      email := v.email,
      role := ParseRole(v.role).value,
      dateOfBirth := v.dateOfBirth,
      schoolId := v.schoolId,
      belt := v.belt,
      ranking := (match v.ranking case Some(Finite(x)) => Some(x) case _ => None),
      category := v.category,
      representativeId := v.representativeId,
      school := Some(schoolLabel),
      photoURL := if Truthy(previewImage) then previewImage else user.photoURL,
      cedula := FullCedula(v.docType.GetOr(""), v.docNumber.GetOr("")))
  }

  /**
   * Saving the form as it was loaded keeps the user's names, e-mail, role,
   * birth date, picture and the fields that were set, except the category:
   * with a birth date it is the computed one, whatever was stored.
   */
  lemma UnchangedEditKeepsFields(user: User, schools: seq<School>, today: Day, isEmail: string -> bool)
    requires Valid(LoadedValues(user, today), today, isEmail)
    ensures var u := Submit(user, LoadedValues(user, today), None, schools, today, isEmail);
      u.id == user.id && u.firstName == user.firstName && u.lastName == user.lastName && u.email == user.email &&
      u.role == user.role && u.dateOfBirth == user.dateOfBirth && u.photoURL == user.photoURL &&
      (Truthy(user.schoolId) ==> u.schoolId == user.schoolId) && (Truthy(user.belt) ==> u.belt == user.belt) &&
      (Truthy(user.representativeId) ==> u.representativeId == user.representativeId) &&
      (user.dateOfBirth.Some? ==> u.category == Some(CategoryFor(user.dateOfBirth.value, today))) &&
      (user.dateOfBirth.None? && Truthy(user.category) ==> u.category == user.category)
  {
    var u := Submit(user, LoadedValues(user, today), None, schools, today, isEmail);
    assert Some(u.role) == ParseRole(RoleName(user.role));
    match user.role
    case Admin =>
    case Master =>
    case Alumno =>
    case Representante =>
  }

  /**
   * A stored category that differs from the one the birth date gives is
   * lost by opening the form and saving it unchanged.
   */
  lemma StoredCategoryReplaced(user: User, schools: seq<School>, today: Day, isEmail: string -> bool)
    requires Valid(LoadedValues(user, today), today, isEmail)
    requires user.dateOfBirth.Some? && user.category != Some(CategoryFor(user.dateOfBirth.value, today))
    ensures Submit(user, LoadedValues(user, today), None, schools, today, isEmail).category != user.category
  {
  }

  /**
   * Editing a user whose document is already "T-N" and saving the form
   * untouched stores the same document: the defaults split it and the
   * submit joins it back.
   */
  lemma UnchangedCedulaSurvivesEdit(user: User, t: string, n: string, schools: seq<School>, today: Day, isEmail: string -> bool)
    requires t in DocTypes && '.' !in n && n != ""
    requires user.cedula == Some(t + "-" + n)
    requires Valid(LoadedValues(user, today), today, isEmail)
    ensures Submit(user, LoadedValues(user, today), None, schools, today, isEmail).cedula == user.cedula
  {
    CedulaRoundTrip(t, n);
  }

  /**
   * Editing a user whose document is a bare number and saving the form
   * untouched stores it as a "V" document: "V-" followed by the number.
   */
  lemma BareCedulaSavedAsV(user: User, n: string, schools: seq<School>, today: Day, isEmail: string -> bool)
    requires n != "" && AllDigits(n)
    requires user.cedula == Some(n)
    requires Valid(LoadedValues(user, today), today, isEmail)
    ensures Submit(user, LoadedValues(user, today), None, schools, today, isEmail).cedula == Some("V-" + n)
  {
    BareCedulaParts(n);
  }

  /** The full name a representative is known by. */
  function FullName(u: User): string {
    u.firstName + " " + u.lastName
  }

  predicate IsRepresentative(u: User) {
    u.role == Representante
  }

  /** The users behind the representatives picker: the "representante" users, one per full name, the first one winning. */
  function RepresentativeUsers(users: seq<User>): (d: seq<User>)
    ensures forall i :: 0 <= i < |d| ==> d[i] in users && d[i].role == Representante
  {
    DedupeBy(Filter(users, IsRepresentative), FullName)
  }

  /** The picker's options: each representative's id as text, with the full name as label. */
  function Representatives(users: seq<User>): (items: seq<Item>)
    ensures |items| == |RepresentativeUsers(users)|
    ensures forall k :: 0 <= k < |items| ==>
      items[k] == Item(IdToString(RepresentativeUsers(users)[k].id), FullName(RepresentativeUsers(users)[k]))
  {
    var d := RepresentativeUsers(users);
    seq(|d|, k requires 0 <= k < |d| => Item(IdToString(d[k].id), FullName(d[k])))
  }

  /** No two options carry the same name, and every "representante" has an option with its name. */
  lemma RepresentativesDistinctAndComplete(users: seq<User>)
    ensures forall i, j :: 0 <= i < j < |Representatives(users)| ==>
      Representatives(users)[i].itemLabel != Representatives(users)[j].itemLabel
    ensures forall i :: 0 <= i < |users| && users[i].role == Representante ==>
      exists k :: 0 <= k < |Representatives(users)| && Representatives(users)[k].itemLabel == FullName(users[i])
  {
    var reps := Filter(users, IsRepresentative);
    var d := RepresentativeUsers(users);
    var items := Representatives(users);
    DedupeByDistinct(reps, FullName);
    forall i | 0 <= i < |users| && users[i].role == Representante
      ensures exists k :: 0 <= k < |items| && items[k].itemLabel == FullName(users[i])
    {
      assert IsRepresentative(users[i]);
      assert users[i] in reps;
      var j :| 0 <= j < |reps| && reps[j] == users[i];
      assert HasKey(d, FullName, FullName(reps[j]));
      var k :| 0 <= k < |d| && FullName(d[k]) == FullName(reps[j]);
      assert items[k].itemLabel == FullName(users[i]);
    }
  }

  /** Each offered representative is the first "representante" with that name, and the options keep the users' order. */
  lemma RepresentativesFirstWins(users: seq<User>, k: int)
    requires 0 <= k < |RepresentativeUsers(users)|
    ensures exists j ::
      FirstWithKey(Filter(users, IsRepresentative), FullName, j) && Filter(users, IsRepresentative)[j] == RepresentativeUsers(users)[k]
    ensures IsSubsequence(RepresentativeUsers(users), Filter(users, IsRepresentative))
  {
    DedupeByFirstWins(Filter(users, IsRepresentative), FullName, k);
    DedupeByIsSubsequence(Filter(users, IsRepresentative), FullName);
  }

  /**
   * The representative picker's handler toggles once more what the picker
   * has already toggled. Together they still give one toggle: re-picking the
   * current representative clears it and picking another selects that one.
   */
  function PickRepresentative(items: seq<Item>, current: string, picked: string): (r: string)
    ensures current != "" && Resolve(items, picked) == current ==> r == ""
    ensures current != Resolve(items, picked) ==> r == Resolve(items, picked)
  {
    var reported := Selection(items, Some(current), picked);
    if reported == current then "" else reported
  }

  /** The role the generated users get from their id: the id modulo 4 indexes the role list; a negative remainder has no entry and gives "alumno". */
  function MockRole(id: int): (r: Role)
    ensures id >= 0 ==> r == [Alumno, Representante, Master, Admin][id % 4]
    ensures id < 0 && JsRem(id, 4) != 0 ==> r == Alumno
  {
    var k := JsRem(id, 4);
    if 0 <= k < 4 then [Alumno, Representante, Master, Admin][k] else Alumno
  }

  /** `s.split(' ')[0]`: everything before the first space. */
  function FirstWord(s: string): (w: string)
    ensures ' ' !in w
    ensures |w| <= |s| && w == s[..|w|]
    ensures |w| < |s| ==> s[|w|] == ' '
  {
    if s == [] || s[0] == ' ' then "" else [s[0]] + FirstWord(s[1..])
  }

  /**
   * The users the edit form offers as representatives: one per athlete,
   * with the role given by the id, the e-mail built from the first words of
   * the names, the school id of the school whose label is the athlete's
   * school, and today as birth date.
   */
  function MockUser(a: Athlete, today: Day): (u: User)
    ensures u.id == NumId(a.id) && u.role == MockRole(a.id)
    ensures u.email == ToLower(FirstWord(a.nombres)) + "." + ToLower(FirstWord(a.apellidos)) + "@example.com"
    ensures u.schoolId.Some? <==> exists j :: 0 <= j < |Schools| && Schools[j].displayLabel == a.escuela
    ensures u.ranking == Some(a.ranking as real) && u.representativeId.None?
  {
    User(
      id := NumId(a.id),
      firstName := a.nombres,
      lastName := a.apellidos,
      email := ToLower(FirstWord(a.nombres)) + "." + ToLower(FirstWord(a.apellidos)) + "@example.com",
      role := MockRole(a.id),
      photoURL := Some("https://picsum.photos/seed/" + IntToString(a.id) + "/200/200"),
      cedula := Some(a.cedula),
      dateOfBirth := Some(today),
      schoolId := SchoolIdOf(Schools, a.escuela),
      school := Some(a.escuela),
      belt := Some(a.cinturon),
      ranking := Some(a.ranking as real),
      category := None,
      representativeId := None)
  }

  /** The id of the school listed under `label`, if any. */
  function SchoolIdOf(schools: seq<School>, schoolLabel: string): (id: Option<string>)
    ensures id.Some? <==> exists j :: 0 <= j < |schools| && schools[j].displayLabel == schoolLabel
  {
    var school := Find(schools, (s: School) => s.displayLabel == schoolLabel);
    if school.Some? then Some(school.value.value) else None
  }

  /** The generated ids are positive, so the remainder picks one of the four roles in turn. */
  lemma MockUserRoles(k: int, today: Day)
    requires 0 <= k < |Athletes()|
    ensures MockUser(Athletes()[k], today).role == [Alumno, Representante, Master, Admin][Athletes()[k].id % 4]
  {
    AthleteIdAt(k);
    MockUserRoleOf(Athletes()[k], today);
  }

  lemma MockUserRoleOf(a: Athlete, today: Day)
    requires a.id >= 0
    ensures MockUser(a, today).role == [Alumno, Representante, Master, Admin][a.id % 4]
  {
  }
}
