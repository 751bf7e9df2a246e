/**
 * The users administration table: search by name or e-mail and filter by
 * role, eight users a page, edits that also refresh the signed-in user,
 * deletion reserved to administrators, the document number as displayed,
 * and the representative's name shown in a user's details.
 */
module UserTable {
  import opened Wrappers
  import opened Text
  import opened Seqs
  import opened Pagination
  import opened UserEditForm
  import RankingTable

  const ItemsPerPage := 8

  /** The search box matches the lower-cased full name or e-mail; an empty e-mail never matches. */
  predicate SearchMatch(u: User, searchTerm: string) {
    Contains(ToLower(u.firstName + " " + u.lastName), ToLower(searchTerm)) ||
    (u.email != "" && Contains(ToLower(u.email), ToLower(searchTerm)))
  }

  predicate RoleMatch(u: User, roleFilter: string) {
    roleFilter == "all" || RoleName(u.role) == roleFilter
  }

  function FilterUsers(users: seq<User>, searchTerm: string, roleFilter: string): (r: seq<User>)
    ensures forall i :: 0 <= i < |r| ==> r[i] in users && SearchMatch(r[i], searchTerm) && RoleMatch(r[i], roleFilter)
    ensures forall i :: 0 <= i < |users| && SearchMatch(users[i], searchTerm) && RoleMatch(users[i], roleFilter) ==> users[i] in r
    ensures IsSubsequence(r, users)
  {
    FilterIsSubsequence(users, (u: User) => SearchMatch(u, searchTerm) && RoleMatch(u, roleFilter));
    Filter(users, (u: User) => SearchMatch(u, searchTerm) && RoleMatch(u, roleFilter))
  }

  /** With an empty search and every role, the table lists every user in order. */
  lemma NoFilterListsAll(users: seq<User>)
    ensures FilterUsers(users, "", "all") == users
  {
    forall i | 0 <= i < |users| ensures SearchMatch(users[i], "") {
      ContainsEmpty(ToLower(users[i].firstName + " " + users[i].lastName));
    }
    FilterAll(users, (u: User) => SearchMatch(u, "") && RoleMatch(u, "all"));
  }

  /** Picking one role lists exactly that role's users. */
  lemma RoleFilterExact(users: seq<User>, role: Role)
    ensures forall i :: 0 <= i < |FilterUsers(users, "", RoleName(role))| ==> FilterUsers(users, "", RoleName(role))[i].role == role
    ensures forall i :: 0 <= i < |users| && users[i].role == role ==> users[i] in FilterUsers(users, "", RoleName(role))
  {
    forall i | 0 <= i < |users| ensures SearchMatch(users[i], "") {
      ContainsEmpty(ToLower(users[i].firstName + " " + users[i].lastName));
    }
    forall r: Role, s: Role | RoleName(r) == RoleName(s) ensures r == s {
      ParseRoleName(r);
      ParseRoleName(s);
    }
  }

  /** JavaScript truthiness of an id: 0 and "" are falsy. */
  predicate IdTruthy(id: UserId) {
    match id
    case NumId(n) => n != 0
    case StrId(s) => s != ""
  }

  /** `u.id === id`: the strict comparison the code as written uses. */
  predicate IdIs(u: User, id: UserId) {
    u.id == id
  }

  /** The two ids read the same as text. */
  predicate IdReads(u: User, id: UserId) {
    IdToString(u.id) == IdToString(id)
  }

  /**
   * `getRepresentativeName` as written: the lookup compares ids with `===`,
   * so a number id never equals a text id.
   */
  function RepresentativeNameAsWritten(users: seq<User>, representativeId: Option<UserId>): (name: string)
    ensures representativeId.None? || !IdTruthy(representativeId.value) ==> name == "No Asignado"
    ensures representativeId.Some? && IdTruthy(representativeId.value) ==>
      ((forall i :: 0 <= i < |users| ==> !IdIs(users[i], representativeId.value)) ==> name == "Desconocido")
    ensures representativeId.Some? && IdTruthy(representativeId.value) ==>
      ((exists i :: 0 <= i < |users| && IdIs(users[i], representativeId.value)) ==>
        exists i :: 0 <= i < |users| && IdIs(users[i], representativeId.value) && name == FullName(users[i]) &&
          forall j :: 0 <= j < i ==> !IdIs(users[j], representativeId.value))
  {
    if representativeId.None? || !IdTruthy(representativeId.value) then "No Asignado"
    else
      match Find(users, (u: User) => IdIs(u, representativeId.value))
      case Some(rep) => FullName(rep)
      case None => "Desconocido"
  }

  /**
   * Users loaded with number ids that record their representative by the
   * representative's id as text never find that representative.
   */
  lemma RepresentativeNeverFoundAsWritten(users: seq<User>, s: string)
    requires forall i :: 0 <= i < |users| ==> users[i].id.NumId?
    requires s != ""
    ensures RepresentativeNameAsWritten(users, Some(StrId(s))) == "Desconocido"
  {
  }

  /** A concrete case: user 1 exists, a user whose representative is recorded as "1" still shows 'Desconocido'. */
  lemma RepresentativeNeverFoundExample(rep: User)
    requires rep.id == NumId(1)
    ensures RepresentativeNameAsWritten([rep], Some(StrId(IdToString(rep.id)))) == "Desconocido"
    ensures IdToString(rep.id) == "1"
  {
    assert IntToString(1) == "1";
  }

  /** The lookup comparing both ids as text, which is what the stored text ids need. */
  function RepresentativeName(users: seq<User>, representativeId: Option<UserId>): (name: string)
    ensures representativeId.None? || !IdTruthy(representativeId.value) ==> name == "No Asignado"
    ensures representativeId.Some? && IdTruthy(representativeId.value) ==>
      ((forall i :: 0 <= i < |users| ==> !IdReads(users[i], representativeId.value)) ==> name == "Desconocido")
    ensures representativeId.Some? && IdTruthy(representativeId.value) ==>
      ((exists i :: 0 <= i < |users| && IdReads(users[i], representativeId.value)) ==>
        exists i :: 0 <= i < |users| && IdReads(users[i], representativeId.value) && name == FullName(users[i]) &&
          forall j :: 0 <= j < i ==> !IdReads(users[j], representativeId.value))
  {
    if representativeId.None? || !IdTruthy(representativeId.value) then "No Asignado"
    else
      match Find(users, (u: User) => IdReads(u, representativeId.value))
      case Some(rep) => FullName(rep)
      case None => "Desconocido"
  }

  /** With the corrected lookup a representative recorded by its number id as text is found: the first user with that id names it. */
  lemma RepresentativeFound(users: seq<User>, k: int, n: int)
    requires 0 <= k < |users| && users[k].id == NumId(n) && n != 0
    requires forall j :: 0 <= j < k ==> IdToString(users[j].id) != IntToString(n)
    ensures RepresentativeName(users, Some(StrId(IntToString(n)))) == FullName(users[k])
  {
    var id := StrId(IntToString(n));
    assert IntToString(n) != "" by {
      assert |IntToString(n)| > 0;
    }
    assert IdReads(users[k], id);
    var i :| 0 <= i < |users| && IdReads(users[i], id) && RepresentativeName(users, Some(id)) == FullName(users[i]) &&
      forall j :: 0 <= j < i ==> !IdReads(users[j], id);
    assert forall j :: 0 <= j < k ==> !IdReads(users[j], id);
    assert i == k;
  }

  /** The ASCII letters and digits that survive `replace(/[^0-9A-Z]/gi, '')`. */
  predicate IsAsciiAlnum(c: char) {
    ('0' <= c <= '9') || ('A' <= c <= 'Z') || ('a' <= c <= 'z')
  }

  predicate AllAlnum(s: string) {
    forall i :: 0 <= i < |s| ==> IsAsciiAlnum(s[i])
  }

  predicate IsHexDigit(c: char) {
    ('0' <= c <= '9') || ('A' <= c <= 'F')
  }

  predicate AllIn(s: string, allowed: string) {
    forall i :: 0 <= i < |s| ==> s[i] in allowed
  }

  /** `s[..k]` and `s[k + 1..]` are the digits around the exponent letter at `k`. */
  predicate ExponentAt(s: string, k: int) {
    0 < k < |s| - 1 && s[k] == 'E' && AllDigits(s[..k]) && AllDigits(s[k + 1..])
  }

  /**
   * When `Number(s)` is not NaN for an upper-case string of letters and
   * digits: the empty string (0), plain digits, digits with an exponent, or
   * a 0X, 0B or 0O literal.
   */
  predicate IsJsNumber(s: string) {
    s == "" || AllDigits(s) ||
    (exists k :: 0 < k < |s| - 1 && ExponentAt(s, k)) ||
    (|s| > 2 && s[0] == '0' &&
      ((s[1] == 'X' && forall i :: 2 <= i < |s| ==> IsHexDigit(s[i])) ||
       (s[1] == 'B' && AllIn(s[2..], "01")) ||
       (s[1] == 'O' && AllIn(s[2..], "01234567"))))
  }

  /** Letters and digits only, upper-cased. */
  function CleanCedula(cedula: string): (r: string)
    ensures forall i :: 0 <= i < |r| ==> IsAsciiAlnum(r[i]) && !IsLowerLetter(r[i])
  {
    ToUpper(Filter(cedula, IsAsciiAlnum))
  }

  /**
   * `formatCedula`. `groupDigits` is `Intl.NumberFormat('es-VE').format`
   * applied to the number the text denotes, which is not modelled.
   */
  function FormatCedula(cedula: Option<string>, groupDigits: string -> string): (r: string)
    ensures !Truthy(cedula) ==> r == "N/A"
  {
    if !Truthy(cedula) then "N/A"
    else
      var cleaned := CleanCedula(cedula.value);
      if |cleaned| > 0 && cleaned[0] in "VEPT" then
        var prefix := [cleaned[0]];
        var numbers := cleaned[1..];
        if prefix == "V" then
          if IsJsNumber(numbers) then "V-" + groupDigits(numbers) else "V-" + numbers
        else prefix + "-" + numbers
      else if IsJsNumber(cleaned) then "V-" + groupDigits(cleaned)
      else cedula.value
  }

  lemma FilterDocument(t: char, n: string)
    requires t in "VEPT" && AllAlnum(n)
    ensures Filter([t] + "-" + n, IsAsciiAlnum) == [t] + n
  {
    var s := [t] + "-" + n;
    var rest := ['-'] + n;
    assert s[1..] == rest;
    assert rest[1..] == n;
    FilterAll(n, IsAsciiAlnum);
    assert Filter(rest, IsAsciiAlnum) == n;
  }

  lemma CleanKeepsAlnum(t: char, n: string)
    requires t in "VEPT" && AllDigits(n)
    ensures CleanCedula([t] + "-" + n) == [t] + n
  {
    assert AllAlnum(n);
    FilterDocument(t, n);
    ToUpperNoLower([t] + n);
  }

  lemma CleanDigits(n: string)
    requires AllDigits(n)
    ensures CleanCedula(n) == n
  {
    FilterAll(n, IsAsciiAlnum);
    ToUpperNoLower(n);
  }

  /**
   * How documents in the form's own "T-N" shape are shown: E, P and T
   * documents unchanged, V documents with the number grouped.
   */
  lemma FormatTypedCedula(t: char, n: string, groupDigits: string -> string)
    requires t in "VEPT" && AllDigits(n)
    ensures t != 'V' ==> FormatCedula(Some([t] + "-" + n), groupDigits) == [t] + "-" + n
    ensures t == 'V' ==> FormatCedula(Some([t] + "-" + n), groupDigits) == "V-" + groupDigits(n)
  {
    CleanKeepsAlnum(t, n);
    var cleaned := [t] + n;
    assert cleaned[0] == t && cleaned[1..] == n;
    assert IsJsNumber(n);
  }

  /** A bare number is shown as a V document, the same as the number with the V. */
  lemma FormatBareCedula(n: string, groupDigits: string -> string)
    requires AllDigits(n) && n != ""
    ensures FormatCedula(Some(n), groupDigits) == "V-" + groupDigits(n)
    ensures FormatCedula(Some(n), groupDigits) == FormatCedula(Some("V-" + n), groupDigits)
  {
    FormatBareNumber(n, groupDigits);
    var typed := ['V'] + "-" + n;
    assert typed == "V-" + n;
    FormatTypedCedula('V', n, groupDigits);
    assert FormatCedula(Some(typed), groupDigits) == "V-" + groupDigits(n);
  }

  lemma FormatBareNumber(n: string, groupDigits: string -> string)
    requires AllDigits(n) && n != ""
    ensures FormatCedula(Some(n), groupDigits) == "V-" + groupDigits(n)
  {
    CleanDigits(n);
    assert IsDigit(n[0]);
    assert n[0] !in "VEPT";
    assert IsJsNumber(n);
  }

  /** A document that starts with no type letter and is no number is shown as entered. */
  lemma FormatCedulaUnrecognised(c: string, groupDigits: string -> string)
    requires c != "" && !IsJsNumber(CleanCedula(c))
    requires |CleanCedula(c)| > 0 ==> CleanCedula(c)[0] !in "VEPT"
    ensures FormatCedula(Some(c), groupDigits) == c
  {
  }

  /**
   * A recognised type letter followed by text that is not a plain number:
   * E, P and T documents and V documents alike show the letter, a '-' and
   * the cleaned rest, upper-cased and without separators.
   */
  lemma FormatTypedText(c: string, groupDigits: string -> string)
    requires c != "" && |CleanCedula(c)| > 0 && CleanCedula(c)[0] in "VEPT"
    requires CleanCedula(c)[0] == 'V' ==> !IsJsNumber(CleanCedula(c)[1..])
    ensures FormatCedula(Some(c), groupDigits) == [CleanCedula(c)[0]] + "-" + CleanCedula(c)[1..]
  {
  }

  /** For instance "V-12a" is shown as "V-12A". */
  lemma FormatTypedTextExample(groupDigits: string -> string)
    ensures FormatCedula(Some("V-12a"), groupDigits) == "V-12A"
  {
    CleanExample();
    NotNumberExample();
    FormatTypedText("V-12a", groupDigits);
    assert "V12A"[1..] == "12A";
  }

  lemma CleanExample()
    ensures CleanCedula("V-12a") == "V12A"
  {
    FilterExample();
    var s: string := "V12a";
    var u := ToUpper(s);
    assert |u| == 4;
    assert u[0] == UpperChar(s[0]) == 'V';
    assert u[1] == UpperChar(s[1]) == '1';
    assert u[2] == UpperChar(s[2]) == '2';
    assert u[3] == UpperChar(s[3]) == 'A';
    assert u == "V12A";
  }

  lemma FilterExample()
    ensures Filter("V-12a", IsAsciiAlnum) == "V12a"
  {
    var n: string := "12a";
    assert AllAlnum(n) by {
      assert IsAsciiAlnum(n[0]) && IsAsciiAlnum(n[1]) && IsAsciiAlnum(n[2]);
    }
    FilterDocument('V', n);
    assert ['V'] + "-" + n == "V-12a";
    assert ['V'] + n == "V12a";
  }

  lemma NotNumberExample()
    ensures !IsJsNumber("12A")
  {
    var s := "12A";
    assert !IsDigit(s[2]);
    assert !ExponentAt(s, 1);
  }

  /** `getAgeInYearsString` */
  function AgeText(dateOfBirth: Option<Day>, today: Day): (r: string)
    ensures dateOfBirth.None? ==> r == "N/A"
    ensures dateOfBirth.Some? ==> r == IntToString(GetAge(dateOfBirth, today)) + " años"
  {
    if dateOfBirth.None? then "N/A" else IntToString(GetAge(dateOfBirth, today)) + " años"
  }

  /** The category shown in a user's details. */
  function CategoryText(dateOfBirth: Option<Day>, today: Day): (r: string)
    ensures dateOfBirth.None? ==> r == "N/A"
    ensures dateOfBirth.Some? ==> r in RankingTable.CategoryLabels
    ensures dateOfBirth.Some? ==> r == CategoryFor(dateOfBirth.value, today)
  {
    if dateOfBirth.None? then "N/A" else RankingTable.GetCategory(GetAge(dateOfBirth, today))
  }

  /** For a user with a birth date, the details show the category the edit form loads. */
  lemma CategoryTextMatchesForm(user: User, today: Day)
    requires user.dateOfBirth.Some?
    ensures Some(CategoryText(user.dateOfBirth, today)) == LoadedValues(user, today).category
  {
  }

  /** A user's stored representative is the representative's id as text. */
  function StoredRepresentative(u: User): Option<UserId> {
    if u.representativeId.Some? then Some(StrId(u.representativeId.value)) else None
  }

  predicate IsAdmin(currentUser: Option<User>) {
    currentUser.Some? && currentUser.value.role == Admin
  }

  predicate SameId(a: User, b: User) {
    a.id == b.id
  }

  /** The table's state; `currentUser` is the signed-in user of the user context. */
  class Table {
    var usersData: seq<User>
    var currentPage: int
    var searchTerm: string
    var roleFilter: string
    var selectedUser: Option<User>
    var currentUser: Option<User>
    var viewDialogOpen: bool
    var editDialogOpen: bool
    var deleteDialogOpen: bool

    /** Pages count from 1 and only an administrator ever has the delete dialog open. */
    ghost predicate Valid()
      reads this
    {
      currentPage >= 1 && (deleteDialogOpen ==> IsAdmin(currentUser))
    }

    constructor(initialUsers: seq<User>, signedIn: Option<User>)
      ensures Valid()
      ensures usersData == initialUsers && currentUser == signedIn && selectedUser.None?
      ensures currentPage == 1 && searchTerm == "" && roleFilter == "all"
      ensures !viewDialogOpen && !editDialogOpen && !deleteDialogOpen
    {
      usersData := initialUsers;
      currentUser := signedIn;
      selectedUser := None;
      currentPage := 1;
      searchTerm := "";
      roleFilter := "all";
      viewDialogOpen := false;
      editDialogOpen := false;
      deleteDialogOpen := false;
    }

    function Filtered(): seq<User>
      reads this
    {
      FilterUsers(usersData, searchTerm, roleFilter)
    }

    function TotalPages(): nat
      reads this
    {
      Pagination.TotalPages(|Filtered()|, ItemsPerPage)
    }

    function Paginated(): seq<User>
      reads this
    {
      PageOf(Filtered(), currentPage, ItemsPerPage)
    }

    /** The caption "Mostrando start - end de n usuarios". */
    function Caption(): (int, int, nat)
      reads this
    {
      (StartIndex(currentPage, ItemsPerPage), EndIndex(currentPage, ItemsPerPage, |Filtered()|), |Filtered()|)
    }

    /** `handleEditSuccess`: the user with that id is replaced, and so is the signed-in user when it is the one edited. */
    method HandleEditSuccess(updated: User)
      requires Valid() && !deleteDialogOpen
      modifies this
      ensures Valid()
      ensures usersData == ReplaceById(old(usersData), (u: User) => u.id, updated)
      ensures currentUser == if old(currentUser).Some? && old(currentUser).value.id == updated.id then Some(updated) else old(currentUser)
      ensures !editDialogOpen
      ensures currentPage == old(currentPage) && searchTerm == old(searchTerm) && roleFilter == old(roleFilter)
      ensures selectedUser == old(selectedUser) && deleteDialogOpen == old(deleteDialogOpen) && viewDialogOpen == old(viewDialogOpen)
    {
      usersData := ReplaceById(usersData, (u: User) => u.id, updated);
      if currentUser.Some? && updated.id == currentUser.value.id {
        currentUser := Some(updated);
      }
      editDialogOpen := false;
    }

    /** `handlePageChange`: only pages 1..totalPages are taken. */
    method HandlePageChange(page: int)
      requires Valid()
      modifies this
      ensures Valid()
      ensures currentPage == GuardedPage(old(currentPage), page, old(TotalPages()))
      ensures usersData == old(usersData) && searchTerm == old(searchTerm) && roleFilter == old(roleFilter)
      ensures currentUser == old(currentUser) && selectedUser == old(selectedUser) && deleteDialogOpen == old(deleteDialogOpen)
      ensures viewDialogOpen == old(viewDialogOpen) && editDialogOpen == old(editDialogOpen)
    {
      if page > 0 && page <= TotalPages() {
        currentPage := page;
      }
    }

    method SetSearchTerm(term: string)
      requires Valid()
      modifies this
      ensures Valid()
      ensures searchTerm == term && currentPage == 1
      ensures usersData == old(usersData) && roleFilter == old(roleFilter) && currentUser == old(currentUser)
      ensures selectedUser == old(selectedUser)
      ensures viewDialogOpen == old(viewDialogOpen) && editDialogOpen == old(editDialogOpen) && deleteDialogOpen == old(deleteDialogOpen)
    {
      searchTerm := term;
      currentPage := 1;
    }

    method SetRoleFilter(value: string)
      requires Valid()
      modifies this
      ensures Valid()
      ensures roleFilter == value && currentPage == 1
      ensures usersData == old(usersData) && searchTerm == old(searchTerm) && currentUser == old(currentUser)
      ensures selectedUser == old(selectedUser)
      ensures viewDialogOpen == old(viewDialogOpen) && editDialogOpen == old(editDialogOpen) && deleteDialogOpen == old(deleteDialogOpen)
    {
      roleFilter := value;
      currentPage := 1;
    }

    method HandleViewClick(u: User)
      requires Valid()
      modifies this
      ensures Valid()
      ensures selectedUser == Some(u) && viewDialogOpen
      ensures usersData == old(usersData) && currentUser == old(currentUser) && currentPage == old(currentPage)
      ensures searchTerm == old(searchTerm) && roleFilter == old(roleFilter)
      ensures editDialogOpen == old(editDialogOpen) && deleteDialogOpen == old(deleteDialogOpen)
    {
      selectedUser := Some(u);
      viewDialogOpen := true;
    }

    method HandleEditClick(u: User)
      requires Valid()
      modifies this
      ensures Valid()
      ensures selectedUser == Some(u) && editDialogOpen
      ensures usersData == old(usersData) && currentUser == old(currentUser) && currentPage == old(currentPage)
      ensures searchTerm == old(searchTerm) && roleFilter == old(roleFilter)
      ensures viewDialogOpen == old(viewDialogOpen) && deleteDialogOpen == old(deleteDialogOpen)
    {
      selectedUser := Some(u);
      editDialogOpen := true;
    }

    /** `handleDeleteClick`: only an administrator gets the confirmation dialog. */
    method HandleDeleteClick(u: User)
      requires Valid()
      modifies this
      ensures Valid()
      ensures IsAdmin(currentUser) ==> selectedUser == Some(u) && deleteDialogOpen
      ensures !IsAdmin(currentUser) ==> selectedUser == old(selectedUser) && deleteDialogOpen == old(deleteDialogOpen)
      ensures usersData == old(usersData) && currentUser == old(currentUser) && currentPage == old(currentPage)
      ensures searchTerm == old(searchTerm) && roleFilter == old(roleFilter)
      ensures viewDialogOpen == old(viewDialogOpen) && editDialogOpen == old(editDialogOpen)
    {
      if !IsAdmin(currentUser) {
        return;
      }
      selectedUser := Some(u);
      deleteDialogOpen := true;
    }

    /**
     * `confirmDelete`, the action of the confirmation dialog: the selected
     * user's id leaves the list; with nothing selected nothing happens.
     * The dialog being open means the signed-in user is an administrator.
     */
    method ConfirmDelete()
      requires Valid() && deleteDialogOpen
      modifies this
      ensures Valid()
      ensures IsAdmin(currentUser)
      ensures old(selectedUser).None? ==> usersData == old(usersData) && deleteDialogOpen
      ensures old(selectedUser).Some? ==>
        usersData == RemoveById(old(usersData), (u: User) => u.id, old(selectedUser).value.id) && !deleteDialogOpen
      ensures currentUser == old(currentUser) && currentPage == old(currentPage)
      ensures searchTerm == old(searchTerm) && roleFilter == old(roleFilter) && selectedUser == old(selectedUser)
      ensures viewDialogOpen == old(viewDialogOpen) && editDialogOpen == old(editDialogOpen)
    {
      if selectedUser.None? {
        return;
      }
      usersData := RemoveById(usersData, (u: User) => u.id, selectedUser.value.id);
      deleteDialogOpen := false;
    }

    /**
     * The "Representante" line of the view dialog, shown only for an
     * "alumno", as written: it goes through the `===` lookup.
     */
    function SelectedRepresentativeNameAsWritten(): (line: Option<string>)
      reads this
      ensures line.Some? <==> selectedUser.Some? && selectedUser.value.role == Alumno
      ensures line.Some? ==> line.value == RepresentativeNameAsWritten(usersData, StoredRepresentative(selectedUser.value))
    {
      if selectedUser.None? || selectedUser.value.role != Alumno then None
      else Some(RepresentativeNameAsWritten(usersData, StoredRepresentative(selectedUser.value)))
    }

    /** The same line with the corrected lookup, which compares the ids as text. */
    function SelectedRepresentativeName(): (line: Option<string>)
      reads this
      ensures line.Some? <==> selectedUser.Some? && selectedUser.value.role == Alumno
      ensures line.Some? ==> line.value == RepresentativeName(usersData, StoredRepresentative(selectedUser.value))
    {
      if selectedUser.None? || selectedUser.value.role != Alumno then None
      else Some(RepresentativeName(usersData, StoredRepresentative(selectedUser.value)))
    }
  }

  /** An edit followed by deleting the edited id leaves the same list as deleting it straight away. */
  lemma EditThenDelete(users: seq<User>, updated: User)
    ensures RemoveById(ReplaceById(users, (u: User) => u.id, updated), (u: User) => u.id, updated.id) ==
            RemoveById(users, (u: User) => u.id, updated.id)
  {
    RemoveAfterReplace(users, (u: User) => u.id, updated);
  }
}
