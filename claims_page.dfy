/**
 * The claims page: which claims the signed-in user sees (administrators
 * and masters all of them, a representative only their own, a student
 * none), searched by subject and listed newest first, eight a page; who may
 * create, manage, edit or delete; and the representative's name column.
 */
module ClaimsPage {
  import opened Wrappers
  import opened Text
  import opened Seqs
  import opened Sorting
  import opened Pagination
  import opened MockData
  import opened UserEditForm

  const ItemsPerPage := 8

  datatype RepresentedType = Alumno | Escuela

  datatype ClaimStatus = Enviado | EnProceso | Resuelto | Rechazado

  function ClaimStatusName(s: ClaimStatus): string {
    match s
    case Enviado => "enviado"
    case EnProceso => "en-proceso"
    case Resuelto => "resuelto"
    case Rechazado => "rechazado"
  }

  const ClaimStatuses: seq<string> := ["enviado", "en-proceso", "resuelto", "rechazado"]

  function ParseClaimStatus(s: string): (r: Option<ClaimStatus>)
    ensures r.Some? <==> s in ClaimStatuses
    ensures r.Some? ==> ClaimStatusName(r.value) == s
  {
    if s == "enviado" then Some(Enviado)
    else if s == "en-proceso" then Some(EnProceso)
    else if s == "resuelto" then Some(Resuelto)
    else if s == "rechazado" then Some(Rechazado)
    else None
  }

  /** A claim; `submissionDate` is a time in milliseconds. */
  datatype Claim = Claim(
    id: string,
    representativeId: string,
    representativeName: string,
    representedId: string,
    representedName: string,
    representedType: RepresentedType,
    subject: string,
    description: string,
    status: ClaimStatus,
    submissionDate: int)

  function ClaimId(c: Claim): string {
    c.id
  }

  function DateKey(c: Claim): seq<int> {
    [c.submissionDate]
  }

  predicate SubjectMatch(c: Claim, searchTerm: string) {
    Contains(ToLower(c.subject), ToLower(searchTerm))
  }

  predicate IsManager(user: User) {
    user.role == Admin || user.role == Master
  }

  /**
   * The claims a user may see before the search, with the representative
   * test as written: `===` between the claim's text id and the user's id.
   */
  function OwnClaimsAsWritten(claims: seq<Claim>, user: Option<User>): (r: seq<Claim>)
    ensures user.None? || user.value.role == UserEditForm.Alumno ==> r == []
    ensures user.Some? && IsManager(user.value) ==> r == claims
  {
    if user.None? then []
    else if user.value.role == Representante then Filter(claims, (c: Claim) => StrId(c.representativeId) == user.value.id)
    else if IsManager(user.value) then claims
    else []
  }

  /** A representative signed in with a number id sees none of the claims filed under that id. */
  lemma NumberIdSeesNoOwnClaims(claims: seq<Claim>, user: User, n: int)
    requires user.role == Representante && user.id == NumId(n)
    ensures OwnClaimsAsWritten(claims, Some(user)) == []
  {
    assert forall i :: 0 <= i < |claims| ==> StrId(claims[i].representativeId) != user.id;
    FilterNone(claims, (c: Claim) => StrId(c.representativeId) == user.id);
  }

  lemma {:induction false} FilterNone<T>(s: seq<T>, p: T -> bool)
    requires forall i :: 0 <= i < |s| ==> !p(s[i])
    ensures Filter(s, p) == []
  {
    if s != [] {
      FilterNone(s[1..], p);
    }
  }

  /** Whether a claim was filed by the user: the claim stores the user's id as text. */
  predicate FiledBy(c: Claim, user: User) {
    IdToString(user.id) == c.representativeId
  }

  /** The claims a user may see, comparing ids as text as the edit permission does. */
  function OwnClaims(claims: seq<Claim>, user: Option<User>): (r: seq<Claim>)
    ensures user.None? || user.value.role == UserEditForm.Alumno ==> r == []
    ensures user.Some? && IsManager(user.value) ==> r == claims
    ensures user.Some? && user.value.role == Representante ==>
      (forall i :: 0 <= i < |r| ==> r[i] in claims && FiledBy(r[i], user.value)) &&
      (forall i :: 0 <= i < |claims| && FiledBy(claims[i], user.value) ==> claims[i] in r)
  {
    if user.None? then []
    else if user.value.role == Representante then Filter(claims, (c: Claim) => FiledBy(c, user.value))
    else if IsManager(user.value) then claims
    else []
  }

  /** With a text id both tests agree. */
  lemma OwnClaimsTextId(claims: seq<Claim>, user: User, s: string)
    requires user.id == StrId(s)
    ensures OwnClaimsAsWritten(claims, Some(user)) == OwnClaims(claims, Some(user))
  {
    FilterCongruent(claims, (c: Claim) => StrId(c.representativeId) == user.id, (c: Claim) => FiledBy(c, user));
  }

  /** `filteredClaims`: the visible claims whose subject contains the search, newest first. */
  function VisibleClaims(claims: seq<Claim>, user: Option<User>, searchTerm: string): (r: seq<Claim>)
    ensures |r| <= |claims|
  {
    var found := Filter(OwnClaims(claims, user), (c: Claim) => SubjectMatch(c, searchTerm));
    SortDesc(found, DateKey)
  }

  /** `filteredClaims` with the `===` test as written. */
  function VisibleClaimsAsWritten(claims: seq<Claim>, user: Option<User>, searchTerm: string): (r: seq<Claim>)
    ensures |r| <= |claims|
  {
    var found := Filter(OwnClaimsAsWritten(claims, user), (c: Claim) => SubjectMatch(c, searchTerm));
    SortDesc(found, DateKey)
  }

  /** As written, a representative signed in with a number id is shown an empty list. */
  lemma NumberIdListsNothing(claims: seq<Claim>, user: User, n: int, searchTerm: string)
    requires user.role == Representante && user.id == NumId(n)
    ensures VisibleClaimsAsWritten(claims, Some(user), searchTerm) == []
  {
    NumberIdSeesNoOwnClaims(claims, user, n);
  }

  /** For a user whose id is text, the list as written is the corrected list. */
  lemma VisibleClaimsTextId(claims: seq<Claim>, user: User, s: string, searchTerm: string)
    requires user.id == StrId(s)
    ensures VisibleClaimsAsWritten(claims, Some(user), searchTerm) == VisibleClaims(claims, Some(user), searchTerm)
  {
    OwnClaimsTextId(claims, user, s);
  }

  /**
   * The listed claims are exactly the visible claims matching the search,
   * each as often as there, and newer ones come first.
   */
  lemma VisibleClaimsSpec(claims: seq<Claim>, user: Option<User>, searchTerm: string)
    ensures multiset(VisibleClaims(claims, user, searchTerm)) ==
      multiset(Filter(OwnClaims(claims, user), (c: Claim) => SubjectMatch(c, searchTerm)))
    ensures forall i, j :: 0 <= i < j < |VisibleClaims(claims, user, searchTerm)| ==>
      VisibleClaims(claims, user, searchTerm)[i].submissionDate >= VisibleClaims(claims, user, searchTerm)[j].submissionDate
  {
    var found := Filter(OwnClaims(claims, user), (c: Claim) => SubjectMatch(c, searchTerm));
    SortDescMultiset(found, DateKey);
    SortDescSorted(found, DateKey);
    SortedDescOneKey(SortDesc(found, DateKey), DateKey, (c: Claim) => c.submissionDate);
  }

  /** Claims filed at the same moment keep their order. */
  lemma VisibleClaimsStable(claims: seq<Claim>, user: Option<User>, searchTerm: string, t: int)
    ensures KeyClass(VisibleClaims(claims, user, searchTerm), DateKey, [t]) ==
      KeyClass(Filter(OwnClaims(claims, user), (c: Claim) => SubjectMatch(c, searchTerm)), DateKey, [t])
  {
    SortDescStable(Filter(OwnClaims(claims, user), (c: Claim) => SubjectMatch(c, searchTerm)), DateKey, [t]);
  }

  /** A student, or nobody signed in, sees no claims. */
  lemma StudentSeesNothing(claims: seq<Claim>, user: Option<User>, searchTerm: string)
    requires user.None? || user.value.role == UserEditForm.Alumno
    ensures VisibleClaims(claims, user, searchTerm) == []
  {
  }

  /** A manager with an empty search sees every claim. */
  lemma ManagerSeesAll(claims: seq<Claim>, user: User)
    requires IsManager(user)
    ensures multiset(VisibleClaims(claims, Some(user), "")) == multiset(claims)
  {
    forall i | 0 <= i < |claims| ensures SubjectMatch(claims[i], "") {
      ContainsEmpty(ToLower(claims[i].subject));
    }
    FilterAll(claims, (c: Claim) => SubjectMatch(c, ""));
    VisibleClaimsSpec(claims, Some(user), "");
  }

  /** `canManageClaims` */
  predicate CanManage(user: User) {
    IsManager(user)
  }

  /** `canCreateClaim`: everyone but a student. */
  predicate CanCreate(user: User) {
    user.role == Admin || user.role == Master || user.role == Representante
  }

  lemma CanCreateIffNotStudent(user: User)
    ensures CanCreate(user) <==> user.role != UserEditForm.Alumno
  {
  }

  /** `canEditOrDeleteClaim`: a manager, or the claim's own representative. */
  predicate CanEditOrDelete(user: Option<User>, c: Claim) {
    user.Some? && (IsManager(user.value) || FiledBy(c, user.value))
  }

  /** Whoever sees a claim may edit or delete it. */
  lemma VisibleClaimsEditable(claims: seq<Claim>, user: Option<User>, searchTerm: string, i: int)
    requires 0 <= i < |VisibleClaims(claims, user, searchTerm)|
    ensures CanEditOrDelete(user, VisibleClaims(claims, user, searchTerm)[i])
  {
    VisibleClaimsSpec(claims, user, searchTerm);
    var found := Filter(OwnClaims(claims, user), (c: Claim) => SubjectMatch(c, searchTerm));
    var v := VisibleClaims(claims, user, searchTerm);
    assert v[i] in multiset(found);
    assert v[i] in found;
    assert v[i] in OwnClaims(claims, user);
  }

  /** The users the page knows by name: one per athlete, the id as text. */
  datatype NamedUser = NamedUser(id: string, firstName: string, lastName: string)

  function ClaimsMockUsers(athletes: seq<Athlete>): (r: seq<NamedUser>)
    ensures |r| == |athletes|
    ensures forall k :: 0 <= k < |r| ==> r[k] == NamedUser(IntToString(athletes[k].id), athletes[k].nombres, athletes[k].apellidos)
  {
    seq(|athletes|, k requires 0 <= k < |athletes| => NamedUser(IntToString(athletes[k].id), athletes[k].nombres, athletes[k].apellidos))
  }

  /** `getRepresentativeName`: a known user's name, else the signed-in user's when the id is theirs, else 'Desconocido'. */
  function RepresentativeName(known: seq<NamedUser>, user: Option<User>, representativeId: string): (name: string)
    ensures (forall k :: 0 <= k < |known| ==> known[k].id != representativeId) && user.Some? && IdToString(user.value.id) == representativeId ==>
      name == FullName(user.value)
    ensures (forall k :: 0 <= k < |known| ==> known[k].id != representativeId) && !(user.Some? && IdToString(user.value.id) == representativeId) ==>
      name == "Desconocido"
    ensures (exists k :: 0 <= k < |known| && known[k].id == representativeId) ==>
      exists k :: 0 <= k < |known| && known[k].id == representativeId && name == known[k].firstName + " " + known[k].lastName &&
        forall j :: 0 <= j < k ==> known[j].id != representativeId
  {
    match Find(known, (u: NamedUser) => u.id == representativeId)
    case Some(rep) => rep.firstName + " " + rep.lastName
    case None =>
      if user.Some? && IdToString(user.value.id) == representativeId then FullName(user.value)
      else "Desconocido"
  }

  predicate DistinctIds(athletes: seq<Athlete>) {
    forall j, k :: 0 <= j < k < |athletes| ==> athletes[j].id != athletes[k].id
  }

  /** Among athletes with distinct ids, a claim filed under an athlete's id is attributed to that athlete. */
  lemma RepresentativeNameOfAthlete(athletes: seq<Athlete>, user: Option<User>, k: int)
    requires DistinctIds(athletes) && 0 <= k < |athletes|
    ensures RepresentativeName(ClaimsMockUsers(athletes), user, IntToString(athletes[k].id)) ==
      athletes[k].nombres + " " + athletes[k].apellidos
  {
    var known := ClaimsMockUsers(athletes);
    var rid := IntToString(athletes[k].id);
    var p := (u: NamedUser) => u.id == rid;
    var j := FindIndex(known, p);
    assert p(known[k]);
    assert j >= 0 && IntToString(athletes[j].id) == rid;
    IntToStringInjective(athletes[j].id, athletes[k].id);
    assert j == k;
    assert Find(known, p) == Some(known[k]);
  }

  /** The generated athletes have distinct ids, so every one of them is found by name. */
  lemma AthletesDistinctIds()
    ensures DistinctIds(Athletes())
  {
    forall j, k | 0 <= j < k < |Athletes()| ensures Athletes()[j].id != Athletes()[k].id {
      AthleteIdsUnique(j, k);
    }
  }

  /** The state of the claims page; `user` is the signed-in user. */
  class Page {
    var claimsData: seq<Claim>
    var currentPage: int
    var searchTerm: string
    var selectedClaim: Option<Claim>
    var addDialogOpen: bool
    var viewDialogOpen: bool
    var editDialogOpen: bool
    var deleteDialogOpen: bool
    const user: Option<User>

    ghost predicate Valid()
      reads this
    {
      currentPage >= 1
    }

    constructor(initialClaims: seq<Claim>, signedIn: Option<User>)
      ensures Valid()
      ensures claimsData == initialClaims && user == signedIn && currentPage == 1 && searchTerm == ""
      ensures selectedClaim.None? && !addDialogOpen && !viewDialogOpen && !editDialogOpen && !deleteDialogOpen
    {
      claimsData := initialClaims;
      user := signedIn;
      currentPage := 1;
      searchTerm := "";
      selectedClaim := None;
      addDialogOpen := false;
      viewDialogOpen := false;
      editDialogOpen := false;
      deleteDialogOpen := false;
    }

    function Filtered(): seq<Claim>
      reads this
    {
      VisibleClaims(claimsData, user, searchTerm)
    }

    function TotalPages(): nat
      reads this
    {
      Pagination.TotalPages(|Filtered()|, ItemsPerPage)
    }

    function Paginated(): seq<Claim>
      reads this
    {
      PageOf(Filtered(), currentPage, ItemsPerPage)
    }

    /** `handleAddSuccess`: the new claim goes first. */
    method HandleAddSuccess(newClaim: Claim)
      requires Valid()
      modifies this
      ensures Valid()
      ensures claimsData == [newClaim] + old(claimsData) && !addDialogOpen
      ensures currentPage == old(currentPage) && searchTerm == old(searchTerm) && selectedClaim == old(selectedClaim)
      ensures viewDialogOpen == old(viewDialogOpen) && editDialogOpen == old(editDialogOpen) && deleteDialogOpen == old(deleteDialogOpen)
    {
      claimsData := [newClaim] + claimsData;
      addDialogOpen := false;
    }

    /** `handleEditSuccess`: the claim with that id is replaced. */
    method HandleEditSuccess(updated: Claim)
      requires Valid()
      modifies this
      ensures Valid()
      ensures claimsData == ReplaceById(old(claimsData), ClaimId, updated) && !editDialogOpen
      ensures currentPage == old(currentPage) && searchTerm == old(searchTerm) && selectedClaim == old(selectedClaim)
      ensures addDialogOpen == old(addDialogOpen) && viewDialogOpen == old(viewDialogOpen) && deleteDialogOpen == old(deleteDialogOpen)
    {
      claimsData := ReplaceById(claimsData, ClaimId, updated);
      editDialogOpen := false;
    }

    method HandlePageChange(page: int)
      requires Valid()
      modifies this
      ensures Valid()
      ensures currentPage == GuardedPage(old(currentPage), page, old(TotalPages()))
      ensures claimsData == old(claimsData) && searchTerm == old(searchTerm) && selectedClaim == old(selectedClaim)
      ensures addDialogOpen == old(addDialogOpen) && viewDialogOpen == old(viewDialogOpen)
      ensures editDialogOpen == old(editDialogOpen) && deleteDialogOpen == old(deleteDialogOpen)
    {
      if page > 0 && page <= TotalPages() {
        currentPage := page;
      }
    }

    /** `handleViewClick`: the claim is selected and its details dialog opens. */
    method HandleViewClick(c: Claim)
      requires Valid()
      modifies this
      ensures Valid()
      ensures selectedClaim == Some(c) && viewDialogOpen
      ensures claimsData == old(claimsData) && currentPage == old(currentPage) && searchTerm == old(searchTerm)
      ensures addDialogOpen == old(addDialogOpen) && editDialogOpen == old(editDialogOpen) && deleteDialogOpen == old(deleteDialogOpen)
    {
      selectedClaim := Some(c);
      viewDialogOpen := true;
    }

    /** `handleEditClick`: the claim is selected and the edit dialog opens. */
    method HandleEditClick(c: Claim)
      requires Valid()
      modifies this
      ensures Valid()
      ensures selectedClaim == Some(c) && editDialogOpen
      ensures claimsData == old(claimsData) && currentPage == old(currentPage) && searchTerm == old(searchTerm)
      ensures addDialogOpen == old(addDialogOpen) && viewDialogOpen == old(viewDialogOpen) && deleteDialogOpen == old(deleteDialogOpen)
    {
      selectedClaim := Some(c);
      editDialogOpen := true;
    }

    method SetSearchTerm(term: string)
      requires Valid()
      modifies this
      ensures Valid()
      ensures searchTerm == term && currentPage == 1
      ensures claimsData == old(claimsData) && selectedClaim == old(selectedClaim)
      ensures addDialogOpen == old(addDialogOpen) && viewDialogOpen == old(viewDialogOpen)
      ensures editDialogOpen == old(editDialogOpen) && deleteDialogOpen == old(deleteDialogOpen)
    {
      searchTerm := term;
      currentPage := 1;
    }

    method HandleDeleteClick(c: Claim)
      requires Valid()
      modifies this
      ensures Valid()
      ensures selectedClaim == Some(c) && deleteDialogOpen
      ensures claimsData == old(claimsData) && currentPage == old(currentPage) && searchTerm == old(searchTerm)
      ensures addDialogOpen == old(addDialogOpen) && viewDialogOpen == old(viewDialogOpen) && editDialogOpen == old(editDialogOpen)
    {
      selectedClaim := Some(c);
      deleteDialogOpen := true;
    }

    /** `confirmDelete`: the selected claim's id leaves the list; with nothing selected nothing happens. */
    method ConfirmDelete()
      requires Valid()
      modifies this
      ensures Valid()
      ensures old(selectedClaim).None? ==> claimsData == old(claimsData) && deleteDialogOpen == old(deleteDialogOpen)
      ensures old(selectedClaim).Some? ==> claimsData == RemoveById(old(claimsData), ClaimId, old(selectedClaim).value.id) && !deleteDialogOpen
      ensures currentPage == old(currentPage) && searchTerm == old(searchTerm) && selectedClaim == old(selectedClaim)
      ensures addDialogOpen == old(addDialogOpen) && viewDialogOpen == old(viewDialogOpen) && editDialogOpen == old(editDialogOpen)
    {
      if selectedClaim.None? {
        return;
      }
      claimsData := RemoveById(claimsData, ClaimId, selectedClaim.value.id);
      deleteDialogOpen := false;
    }
  }

  /** Adding a claim with a new id and then deleting it gives back the list. */
  lemma AddThenDelete(claims: seq<Claim>, c: Claim)
    requires FreshId(claims, ClaimId, c.id)
    ensures RemoveById([c] + claims, ClaimId, c.id) == claims
  {
    PrependThenRemove(claims, ClaimId, c);
  }

  /** A new claim is listed (for whoever may see it) when its subject matches the search. */
  lemma AddedClaimListed(claims: seq<Claim>, c: Claim, user: User, searchTerm: string)
    requires IsManager(user) || (user.role == Representante && FiledBy(c, user))
    requires SubjectMatch(c, searchTerm)
    ensures c in VisibleClaims([c] + claims, Some(user), searchTerm)
  {
    var all := [c] + claims;
    assert all[0] == c;
    var own := OwnClaims(all, Some(user));
    assert c in own;
    var found := Filter(own, (x: Claim) => SubjectMatch(x, searchTerm));
    var i :| 0 <= i < |own| && own[i] == c;
    assert c in found;
    VisibleClaimsSpec(all, Some(user), searchTerm);
    assert c in multiset(found);
  }
}
