/**
 * The schools administration table: search by name, eight a page, edit and
 * delete, each school's director, and the PDF report download, which sends
 * the school and its athletes to a background worker and marks the school
 * as generating until the worker answers or fails.
 */
module SchoolTable {
  import opened Wrappers
  import opened Text
  import opened Seqs
  import opened Pagination
  import opened MockData
  import opened PdfGenerator
  import UserEditForm

  const ItemsPerPage := 8

  /** A school as the table keeps it; `masterId` is the director's user id. */
  datatype SchoolRecord = SchoolRecord(
    id: string,
    name: string,
    address: string,
    masterId: Option<UserEditForm.UserId>,
    logoUrl: Option<string>)

  datatype Person = Person(id: UserEditForm.UserId, firstName: string, lastName: string)

  function SchoolId(s: SchoolRecord): string {
    s.id
  }

  predicate NameMatch(s: SchoolRecord, searchTerm: string) {
    Contains(ToLower(s.name), ToLower(searchTerm))
  }

  function FilterSchools(schools: seq<SchoolRecord>, searchTerm: string): (r: seq<SchoolRecord>)
    ensures forall i :: 0 <= i < |r| ==> r[i] in schools && NameMatch(r[i], searchTerm)
    ensures forall i :: 0 <= i < |schools| && NameMatch(schools[i], searchTerm) ==> schools[i] in r
    ensures IsSubsequence(r, schools)
  {
    FilterIsSubsequence(schools, (s: SchoolRecord) => NameMatch(s, searchTerm));
    Filter(schools, (s: SchoolRecord) => NameMatch(s, searchTerm))
  }

  /** The search ignores case: searching for a name in other letter case finds the same schools. */
  lemma SearchIgnoresCase(schools: seq<SchoolRecord>, searchTerm: string)
    ensures FilterSchools(schools, ToLower(searchTerm)) == FilterSchools(schools, searchTerm)
  {
    ToLowerIdempotent(searchTerm);
    FilterCongruent(schools, (s: SchoolRecord) => NameMatch(s, ToLower(searchTerm)), (s: SchoolRecord) => NameMatch(s, searchTerm));
  }

  /** `getMasterName`: 'No Asignado' without a director, the director's name, or 'Desconocido'. */
  function MasterName(users: seq<Person>, masterId: Option<UserEditForm.UserId>): (name: string)
    ensures masterId.None? ==> name == "No Asignado"
    ensures masterId.Some? && (masterId.value == UserEditForm.NumId(0) || masterId.value == UserEditForm.StrId("")) ==> name == "No Asignado"
    ensures masterId.Some? && masterId.value != UserEditForm.NumId(0) && masterId.value != UserEditForm.StrId("") ==>
      ((forall i :: 0 <= i < |users| ==> users[i].id != masterId.value) ==> name == "Desconocido")
    ensures masterId.Some? && masterId.value != UserEditForm.NumId(0) && masterId.value != UserEditForm.StrId("") ==>
      ((exists i :: 0 <= i < |users| && users[i].id == masterId.value) ==>
        exists i :: 0 <= i < |users| && users[i].id == masterId.value && name == users[i].firstName + " " + users[i].lastName &&
          forall j :: 0 <= j < i ==> users[j].id != masterId.value)
  {
    if masterId.None? || masterId.value == UserEditForm.NumId(0) || masterId.value == UserEditForm.StrId("") then "No Asignado"
    else
      match Find(users, (u: Person) => u.id == masterId.value)
      case Some(m) => m.firstName + " " + m.lastName
      case None => "Desconocido"
  }

  /** What the worker is sent: the school in the report's shape and the athletes whose school is its name. */
  function ReportInput(s: SchoolRecord, athletes: seq<Athlete>): (r: (School, seq<Athlete>))
    ensures r.0 == School(s.id, s.name, s.logoUrl)
    ensures forall i :: 0 <= i < |r.1| ==> r.1[i] in athletes && r.1[i].escuela == s.name
    ensures forall i :: 0 <= i < |athletes| && athletes[i].escuela == s.name ==> athletes[i] in r.1
  {
    (School(s.id, s.name, s.logoUrl), Filter(athletes, (a: Athlete) => a.escuela == s.name))
  }

  /** The downloaded report is titled with the school's name and lists exactly its athletes, one row each. */
  lemma ReportOfSchool(s: SchoolRecord, athletes: seq<Athlete>, day: nat, month: nat, year: nat)
    ensures SchoolReport(ReportInput(s, athletes).0, ReportInput(s, athletes).1, day, month, year).title == s.name
    ensures |SchoolReport(ReportInput(s, athletes).0, ReportInput(s, athletes).1, day, month, year).body| ==
      Count(athletes, (a: Athlete) => a.escuela == s.name)
  {
    FilterLength(athletes, (a: Athlete) => a.escuela == s.name);
  }

  /**
   * `new Date().toISOString().split('T')[0]` for a UTC day: for a year below
   * 10000 and a day and month below 100 it is `YYYY-MM-DD`, ten characters
   * whose three fields read back as the year, the month and the day.
   */
  function IsoDate(year: nat, month: nat, day: nat): (r: string)
    ensures day < 100 && month < 100 && year < 10000 ==>
      |r| == 10 && r[4] == '-' && r[7] == '-' &&
      AllDigits(r[..4]) && AllDigits(r[5..7]) && AllDigits(r[8..]) &&
      DigitsValue(r[..4]) == year && DigitsValue(r[5..7]) == month && DigitsValue(r[8..]) == day
  {
    var r := Pad(year, 4) + "-" + Pad(month, 2) + "-" + Pad(day, 2);
    if day < 100 && month < 100 && year < 10000 then
      Power10Values();
      PadField(day, 2);
      PadField(month, 2);
      PadField(year, 4);
      IsoFields(Pad(year, 4), Pad(month, 2), Pad(day, 2));
      r
    else
      r
  }

  lemma IsoFields(a: string, b: string, c: string)
    requires |a| == 4 && |b| == 2 && |c| == 2
    ensures var r := a + "-" + b + "-" + c;
      |r| == 10 && r[4] == '-' && r[7] == '-' && r[..4] == a && r[5..7] == b && r[8..] == c
  {
  }

  /** Two days in range with the same stamp are the same day. */
  lemma IsoDateInjective(y1: nat, m1: nat, d1: nat, y2: nat, m2: nat, d2: nat)
    requires d1 < 100 && m1 < 100 && y1 < 10000 && d2 < 100 && m2 < 100 && y2 < 10000
    requires IsoDate(y1, m1, d1) == IsoDate(y2, m2, d2)
    ensures y1 == y2 && m1 == m2 && d1 == d2
  {
  }

  /** The downloaded file's name. */
  function ReportFileName(schoolId: string, year: nat, month: nat, day: nat): (name: string)
    ensures |name| > 8 + |schoolId| && name[..8] == "reporte_"
    ensures name[8..8 + |schoolId|] == schoolId
    ensures name[|name| - 4..] == ".pdf"
    ensures name[8 + |schoolId|..] == "_" + IsoDate(year, month, day) + ".pdf"
  {
    var stamp := "_" + IsoDate(year, month, day) + ".pdf";
    NameParts(schoolId, stamp);
    "reporte_" + schoolId + stamp
  }

  lemma NameParts(schoolId: string, stamp: string)
    requires |stamp| >= 4 && stamp[|stamp| - 4..] == ".pdf"
    ensures var name := "reporte_" + schoolId + stamp;
      |name| == 8 + |schoolId| + |stamp| && name[..8] == "reporte_" &&
      name[8..8 + |schoolId|] == schoolId && name[8 + |schoolId|..] == stamp && name[|name| - 4..] == ".pdf"
  {
  }

  /** Files of different schools are named differently on the same day. */
  lemma ReportFileNamesDistinct(a: string, b: string, year: nat, month: nat, day: nat)
    requires |a| == |b| && a != b
    ensures ReportFileName(a, year, month, day) != ReportFileName(b, year, month, day)
  {
    var na := ReportFileName(a, year, month, day);
    var nb := ReportFileName(b, year, month, day);
    assert na[8..8 + |a|] == a && nb[8..8 + |b|] == b;
  }

  class Table {
    var schoolsData: seq<SchoolRecord>
    var currentPage: int
    var searchTerm: string
    var selectedSchool: Option<SchoolRecord>
    var viewDialogOpen: bool
    var editDialogOpen: bool
    var deleteDialogOpen: bool
    /** `isGeneratingPdf`: the id of the school whose report is being made. */
    var generatingPdf: Option<string>

    ghost predicate Valid()
      reads this
    {
      currentPage >= 1
    }

    constructor(initialSchools: seq<SchoolRecord>)
      ensures Valid()
      ensures schoolsData == initialSchools && currentPage == 1 && searchTerm == ""
      ensures selectedSchool.None? && generatingPdf.None? && !viewDialogOpen && !editDialogOpen && !deleteDialogOpen
    {
      schoolsData := initialSchools;
      currentPage := 1;
      searchTerm := "";
      selectedSchool := None;
      viewDialogOpen := false;
      editDialogOpen := false;
      deleteDialogOpen := false;
      generatingPdf := None;
    }

    function Filtered(): seq<SchoolRecord>
      reads this
    {
      FilterSchools(schoolsData, searchTerm)
    }

    function TotalPages(): nat
      reads this
    {
      Pagination.TotalPages(|Filtered()|, ItemsPerPage)
    }

    function Paginated(): seq<SchoolRecord>
      reads this
    {
      PageOf(Filtered(), currentPage, ItemsPerPage)
    }

    /** The download entry of a school is disabled while its own report is being made. */
    predicate DownloadDisabled(s: SchoolRecord)
      reads this
    {
      generatingPdf == Some(s.id)
    }

    method HandlePageChange(page: int)
      requires Valid()
      modifies this
      ensures Valid()
      ensures currentPage == GuardedPage(old(currentPage), page, old(TotalPages()))
      ensures schoolsData == old(schoolsData) && searchTerm == old(searchTerm) && generatingPdf == old(generatingPdf)
      ensures selectedSchool == old(selectedSchool) && viewDialogOpen == old(viewDialogOpen)
      ensures editDialogOpen == old(editDialogOpen) && deleteDialogOpen == old(deleteDialogOpen)
    {
      if page > 0 && page <= TotalPages() {
        currentPage := page;
      }
    }

    /** `handleViewClick`: the school is selected and its details dialog opens. */
    method HandleViewClick(s: SchoolRecord)
      requires Valid()
      modifies this
      ensures Valid()
      ensures selectedSchool == Some(s) && viewDialogOpen
      ensures schoolsData == old(schoolsData) && currentPage == old(currentPage) && searchTerm == old(searchTerm)
      ensures generatingPdf == old(generatingPdf) && editDialogOpen == old(editDialogOpen) && deleteDialogOpen == old(deleteDialogOpen)
    {
      selectedSchool := Some(s);
      viewDialogOpen := true;
    }

    /** `handleEditClick`: the school is selected and the edit dialog opens. */
    method HandleEditClick(s: SchoolRecord)
      requires Valid()
      modifies this
      ensures Valid()
      ensures selectedSchool == Some(s) && editDialogOpen
      ensures schoolsData == old(schoolsData) && currentPage == old(currentPage) && searchTerm == old(searchTerm)
      ensures generatingPdf == old(generatingPdf) && viewDialogOpen == old(viewDialogOpen) && deleteDialogOpen == old(deleteDialogOpen)
    {
      selectedSchool := Some(s);
      editDialogOpen := true;
    }

    method SetSearchTerm(term: string)
      requires Valid()
      modifies this
      ensures Valid()
      ensures searchTerm == term && currentPage == 1
      ensures schoolsData == old(schoolsData) && generatingPdf == old(generatingPdf)
      ensures selectedSchool == old(selectedSchool) && viewDialogOpen == old(viewDialogOpen)
      ensures editDialogOpen == old(editDialogOpen) && deleteDialogOpen == old(deleteDialogOpen)
    {
      searchTerm := term;
      currentPage := 1;
    }

    /** `handleEditSuccess`: the school with that id is replaced. */
    method HandleEditSuccess(updated: SchoolRecord)
      requires Valid()
      modifies this
      ensures Valid()
      ensures schoolsData == ReplaceById(old(schoolsData), SchoolId, updated) && !editDialogOpen
      ensures currentPage == old(currentPage) && searchTerm == old(searchTerm) && generatingPdf == old(generatingPdf)
      ensures selectedSchool == old(selectedSchool) && viewDialogOpen == old(viewDialogOpen) && deleteDialogOpen == old(deleteDialogOpen)
    {
      schoolsData := ReplaceById(schoolsData, SchoolId, updated);
      editDialogOpen := false;
    }

    method HandleDeleteClick(s: SchoolRecord)
      requires Valid()
      modifies this
      ensures Valid()
      ensures selectedSchool == Some(s) && deleteDialogOpen
      ensures schoolsData == old(schoolsData) && currentPage == old(currentPage) && generatingPdf == old(generatingPdf)
      ensures searchTerm == old(searchTerm) && viewDialogOpen == old(viewDialogOpen) && editDialogOpen == old(editDialogOpen)
    {
      selectedSchool := Some(s);
      deleteDialogOpen := true;
    }

    /** `confirmDelete`: the selected school's id leaves the list; with nothing selected nothing happens. */
    method ConfirmDelete()
      requires Valid()
      modifies this
      ensures Valid()
      ensures old(selectedSchool).None? ==> schoolsData == old(schoolsData) && deleteDialogOpen == old(deleteDialogOpen)
      ensures old(selectedSchool).Some? ==> schoolsData == RemoveById(old(schoolsData), SchoolId, old(selectedSchool).value.id) && !deleteDialogOpen
      ensures currentPage == old(currentPage) && searchTerm == old(searchTerm) && generatingPdf == old(generatingPdf)
      ensures selectedSchool == old(selectedSchool) && viewDialogOpen == old(viewDialogOpen) && editDialogOpen == old(editDialogOpen)
    {
      if selectedSchool.None? {
        return;
      }
      schoolsData := RemoveById(schoolsData, SchoolId, selectedSchool.value.id);
      deleteDialogOpen := false;
    }

    /** `handleDownload`: marks the school as generating and returns what the worker is sent. */
    method HandleDownload(s: SchoolRecord, athletes: seq<Athlete>) returns (message: (School, seq<Athlete>))
      requires Valid()
      modifies this
      ensures Valid()
      ensures message == ReportInput(s, athletes)
      ensures generatingPdf == Some(s.id) && DownloadDisabled(s)
      ensures schoolsData == old(schoolsData) && currentPage == old(currentPage) && searchTerm == old(searchTerm)
      ensures selectedSchool == old(selectedSchool) && viewDialogOpen == old(viewDialogOpen)
      ensures editDialogOpen == old(editDialogOpen) && deleteDialogOpen == old(deleteDialogOpen)
    {
      generatingPdf := Some(s.id);
      message := ReportInput(s, athletes);
    }

    /** The worker's answer: the file is saved under its name and the mark is cleared. */
    method OnWorkerMessage(s: SchoolRecord, year: nat, month: nat, day: nat) returns (fileName: string)
      requires Valid()
      modifies this
      ensures Valid()
      ensures fileName == ReportFileName(s.id, year, month, day)
      ensures generatingPdf.None? && !DownloadDisabled(s)
      ensures schoolsData == old(schoolsData) && currentPage == old(currentPage) && searchTerm == old(searchTerm)
      ensures selectedSchool == old(selectedSchool) && viewDialogOpen == old(viewDialogOpen)
      ensures editDialogOpen == old(editDialogOpen) && deleteDialogOpen == old(deleteDialogOpen)
    {
      generatingPdf := None;
      fileName := ReportFileName(s.id, year, month, day);
    }

    /** The worker's failure: the mark is cleared as well. */
    method OnWorkerError()
      requires Valid()
      modifies this
      ensures Valid()
      ensures generatingPdf.None?
      ensures schoolsData == old(schoolsData) && currentPage == old(currentPage) && searchTerm == old(searchTerm)
      ensures selectedSchool == old(selectedSchool) && viewDialogOpen == old(viewDialogOpen)
      ensures editDialogOpen == old(editDialogOpen) && deleteDialogOpen == old(deleteDialogOpen)
    {
      generatingPdf := None;
    }
  }
}
