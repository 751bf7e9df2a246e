/**
 * The public athlete search: names matched without regard to case, the
 * document number matched as typed after lower-casing the search, five
 * results a page, numbered rows, and "Anterior"/"Siguiente" buttons that
 * are only disabled at the ends. The page is not range-checked.
 */
module AthleteSearch {
  import opened Wrappers
  import opened Text
  import opened Seqs
  import opened Pagination
  import opened MockData

  const ItemsPerPage := 5

  predicate SearchMatch(a: Athlete, lowered: string) {
    Contains(ToLower(a.nombres), lowered) || Contains(ToLower(a.apellidos), lowered) || Contains(a.cedula, lowered)
  }

  /** `filteredAthletes`: everything for an empty search, otherwise the matches in order. */
  function FilterAthletes(athletes: seq<Athlete>, search: string): (r: seq<Athlete>)
    ensures search == "" ==> r == athletes
    ensures search != "" ==> forall i :: 0 <= i < |r| ==> r[i] in athletes && SearchMatch(r[i], ToLower(search))
    ensures search != "" ==> forall i :: 0 <= i < |athletes| && SearchMatch(athletes[i], ToLower(search)) ==> athletes[i] in r
    ensures IsSubsequence(r, athletes)
  {
    var lowered := ToLower(search);
    if lowered == "" then
      IsSubsequenceRefl(athletes);
      athletes
    else
      FilterIsSubsequence(athletes, (a: Athlete) => SearchMatch(a, lowered));
      Filter(athletes, (a: Athlete) => SearchMatch(a, lowered))
  }

  lemma {:induction false} IsSubsequenceRefl<T>(s: seq<T>)
    ensures IsSubsequence(s, s)
  {
    if s != [] {
      IsSubsequenceRefl(s[1..]);
    }
  }

  /** Names are matched in either case, the document number only as lower-cased text. */
  lemma NameCaseInsensitive(athletes: seq<Athlete>, search: string)
    ensures FilterAthletes(athletes, ToLower(search)) == FilterAthletes(athletes, search)
  {
    ToLowerIdempotent(search);
  }

  /** An upper-case letter in a document number is never found by typing it. */
  lemma UpperCedulaLetterNotFound(a: Athlete, c: char)
    requires IsUpperLetter(c) && c in a.cedula
    requires !Contains(ToLower(a.nombres), [LowerChar(c)]) && !Contains(ToLower(a.apellidos), [LowerChar(c)])
    requires LowerChar(c) !in a.cedula
    ensures FilterAthletes([a], [c]) == []
  {
    assert ToLower([c]) == [LowerChar(c)];
    forall i | 0 <= i < |a.cedula| ensures !OccursAt(a.cedula, [LowerChar(c)], i) {
      assert a.cedula[i..i + 1] == [a.cedula[i]];
    }
  }

  /** The number shown in a row: its place in the whole result list. */
  function RowNumber(page: int, index: int): int {
    (page - 1) * ItemsPerPage + index + 1
  }

  class Search {
    var search: string
    var currentPage: int
    const athletes: seq<Athlete>

    ghost predicate Valid()
      reads this
    {
      currentPage >= 1
    }

    constructor(all: seq<Athlete>, initialSearchTerm: string)
      ensures Valid()
      ensures athletes == all && search == initialSearchTerm && currentPage == 1
    {
      athletes := all;
      search := initialSearchTerm;
      currentPage := 1;
    }

    function Filtered(): seq<Athlete>
      reads this
    {
      FilterAthletes(athletes, search)
    }

    function TotalPages(): nat
      reads this
    {
      Pagination.TotalPages(|Filtered()|, ItemsPerPage)
    }

    function Paginated(): seq<Athlete>
      reads this
    {
      PageOf(Filtered(), currentPage, ItemsPerPage)
    }

    predicate PrevDisabled()
      reads this
    {
      currentPage == 1
    }

    predicate NextDisabled()
      reads this
    {
      currentPage == TotalPages()
    }

    /**
     * The number in row `index` of the shown page is the athlete's
     * one-based place in the result list.
     */
    lemma RowNumberIsPlace(index: int)
      requires Valid() && 0 <= index < |Paginated()|
      ensures 0 <= RowNumber(currentPage, index) - 1 < |Filtered()|
      ensures Paginated()[index] == Filtered()[RowNumber(currentPage, index) - 1]
    {
      var f := Filtered();
      var start := (currentPage - 1) * ItemsPerPage;
      if start <= |f| {
        assert Paginated() == f[start..Min(currentPage * ItemsPerPage, |f|)];
      }
    }

    /** A typed search: the term is forwarded to the page, and the table goes back to page 1. */
    method HandleLocalSearchChange(term: string) returns (forwarded: string)
      requires Valid()
      modifies this
      ensures Valid()
      ensures search == term && currentPage == 1 && forwarded == term
    {
      search := term;
      forwarded := term;
      currentPage := 1;
    }

    /** A new search term from the page replaces the search and leaves the page number alone. */
    method SyncInitialSearch(initialSearchTerm: string)
      requires Valid()
      modifies this
      ensures Valid()
      ensures search == initialSearchTerm && currentPage == old(currentPage)
    {
      search := initialSearchTerm;
    }

    /** "Anterior": enabled except on page 1, so the page never drops below 1. */
    method Previous()
      requires Valid() && !PrevDisabled()
      modifies this
      ensures Valid()
      ensures currentPage == old(currentPage) - 1 && search == old(search)
      ensures old(currentPage) <= old(TotalPages()) ==> 1 <= currentPage <= TotalPages()
    {
      currentPage := currentPage - 1;
    }

    /** "Siguiente": enabled except on the last page; from inside the range it stays inside. */
    method Next()
      requires Valid() && !NextDisabled()
      modifies this
      ensures Valid()
      ensures currentPage == old(currentPage) + 1 && search == old(search)
      ensures old(currentPage) <= old(TotalPages()) ==> 1 <= currentPage <= TotalPages()
    {
      currentPage := currentPage + 1;
    }
  }

  /**
   * Once a search from the page narrows the results while the table is past
   * the new last page, the shown page is empty; when the pager is still
   * rendered (more than one page), "Siguiente" stays enabled and moves
   * further away.
   */
  lemma PastLastPage(s: Search)
    requires s.Valid() && s.currentPage > s.TotalPages()
    ensures PagerShown(s.TotalPages()) ==> !s.NextDisabled()
    ensures s.Paginated() == []
  {
    PageOfOutOfRange(s.Filtered(), s.currentPage, ItemsPerPage);
  }
}
