/**
 * The ranking board: athletes ordered by points and medals, narrowed by a
 * search box and by school, category and registration-year selectors, and
 * shown eight to a page with the first three places highlighted.
 */
module RankingTable {
  import opened Wrappers
  import opened Text
  import opened Seqs
  import opened Sorting
  import opened Pagination
  import opened MockData

  const ItemsPerPage: nat := 8

  const CategoryLabels: seq<string> := [
    "Hasta 5 años (mixto)", "Infantil A", "Infantil B", "Infantil C",
    "Cadete", "Junior", "Sub-21", "Adulto"
  ]

  /** The inclusive upper age of every bracket but the last. */
  const CategoryBounds: seq<int> := [5, 7, 9, 11, 13, 15, 17]

  /** The competition category of an age: a chain of inclusive upper bounds. */
  function GetCategory(age: int): (c: string)
    ensures c in CategoryLabels
  {
    if age <= 5 then "Hasta 5 años (mixto)"
    else if age <= 7 then "Infantil A"
    else if age <= 9 then "Infantil B"
    else if age <= 11 then "Infantil C"
    else if age <= 13 then "Cadete"
    else if age <= 15 then "Junior"
    else if age <= 17 then "Sub-21"
    else "Adulto"
  }

  /** The bracket number of an age: how many upper bounds the age exceeds. */
  function CategoryIndex(age: int): (k: nat)
    ensures k < |CategoryLabels|
  {
    Count(CategoryBounds, b => b < age)
  }

  /** The category is the label of the bracket the age falls into. */
  lemma GetCategoryByIndex(age: int)
    ensures GetCategory(age) == CategoryLabels[CategoryIndex(age)]
  {
    var p := b => b < age;
    BoundsTails();
    var c7 := Count(CategoryBounds[7..], p);
    var c6 := Count(CategoryBounds[6..], p);
    assert c6 == (if 17 < age then 1 else 0) + c7;
    var c5 := Count(CategoryBounds[5..], p);
    assert c5 == (if 15 < age then 1 else 0) + c6;
    var c4 := Count(CategoryBounds[4..], p);
    assert c4 == (if 13 < age then 1 else 0) + c5;
    var c3 := Count(CategoryBounds[3..], p);
    assert c3 == (if 11 < age then 1 else 0) + c4;
    var c2 := Count(CategoryBounds[2..], p);
    assert c2 == (if 9 < age then 1 else 0) + c3;
    var c1 := Count(CategoryBounds[1..], p);
    assert c1 == (if 7 < age then 1 else 0) + c2;
    assert CategoryIndex(age) == (if 5 < age then 1 else 0) + c1;
  }

  lemma BoundsTails()
    ensures CategoryBounds[1..] == [7, 9, 11, 13, 15, 17]
    ensures CategoryBounds[2..] == [9, 11, 13, 15, 17]
    ensures CategoryBounds[3..] == [11, 13, 15, 17]
    ensures CategoryBounds[4..] == [13, 15, 17]
    ensures CategoryBounds[5..] == [15, 17]
    ensures CategoryBounds[6..] == [17]
    ensures CategoryBounds[7..] == []
  {
  }

  /** An older athlete is never in a younger bracket. */
  lemma CategoryIndexMonotone(a1: int, a2: int)
    requires a1 <= a2
    ensures CategoryIndex(a1) <= CategoryIndex(a2)
  {
    CountMono(CategoryBounds, b => b < a1, b => b < a2);
  }

  /** The upper bounds are inclusive. */
  lemma CategoryBoundaries()
    ensures GetCategory(5) == "Hasta 5 años (mixto)" && GetCategory(6) == "Infantil A"
    ensures GetCategory(17) == "Sub-21" && GetCategory(18) == "Adulto"
    ensures forall age :: age <= 0 ==> GetCategory(age) == "Hasta 5 años (mixto)"
  {
  }

  /** The sort key, most significant first. */
  function RankKey(a: Athlete): seq<int> {
    [a.ranking, a.oro, a.plata, a.bronce]
  }

  /** The comparator: points, then gold, silver and bronze, each descending. */
  function Compare(a: Athlete, b: Athlete): int {
    if b.ranking != a.ranking then b.ranking - a.ranking
    else if b.oro != a.oro then b.oro - a.oro
    else if b.plata != a.plata then b.plata - a.plata
    else b.bronce - a.bronce
  }

  lemma LexGtFour(a: seq<int>, b: seq<int>)
    requires |a| == 4 && |b| == 4
    ensures LexGt(a, b) <==>
      a[0] > b[0] || (a[0] == b[0] && (a[1] > b[1] || (a[1] == b[1] && (a[2] > b[2] || (a[2] == b[2] && a[3] > b[3])))))
  {
    LexGtCons(a, b);
    LexGtCons(a[1..], b[1..]);
    LexGtCons(a[2..], b[2..]);
    LexGtCons(a[3..], b[3..]);
    assert a[1..][1..] == a[2..] && b[1..][1..] == b[2..];
    assert a[2..][1..] == a[3..] && b[2..][1..] == b[3..];
    assert a[3..][1..] == [] && b[3..][1..] == [];
  }

  /** A negative comparator result puts `a` first exactly when its key is greater; zero exactly when the keys tie. */
  lemma CompareAgreesWithKey(a: Athlete, b: Athlete)
    ensures Compare(a, b) < 0 <==> LexGt(RankKey(a), RankKey(b))
    ensures Compare(a, b) > 0 <==> LexGt(RankKey(b), RankKey(a))
    ensures Compare(a, b) == 0 <==> RankKey(a) == RankKey(b)
  {
    LexGtFour(RankKey(a), RankKey(b));
    LexGtFour(RankKey(b), RankKey(a));
  }

  /** `[...athletesData].sort(compare)`: a stable sort of a copy. */
  function SortAthletes(athletes: seq<Athlete>): (r: seq<Athlete>)
    ensures |r| == |athletes|
  {
    SortDesc(athletes, RankKey)
  }

  /** The sorted list is a permutation in which the comparator never puts a later athlete first. */
  lemma SortAthletesSpec(athletes: seq<Athlete>)
    ensures multiset(SortAthletes(athletes)) == multiset(athletes)
    ensures forall i, j :: 0 <= i < j < |athletes| ==> Compare(SortAthletes(athletes)[i], SortAthletes(athletes)[j]) <= 0
  {
    SortDescMultiset(athletes, RankKey);
    SortDescSorted(athletes, RankKey);
    var r := SortAthletes(athletes);
    forall i, j | 0 <= i < j < |athletes| ensures Compare(r[i], r[j]) <= 0 {
      CompareAgreesWithKey(r[i], r[j]);
    }
  }

  /** Athletes tied on all four keys keep their input order, and sorting twice changes nothing. */
  lemma SortAthletesStableIdempotent(athletes: seq<Athlete>, k: seq<int>)
    ensures KeyClass(SortAthletes(athletes), RankKey, k) == KeyClass(athletes, RankKey, k)
    ensures SortAthletes(SortAthletes(athletes)) == SortAthletes(athletes)
  {
    SortDescStable(athletes, RankKey, k);
    SortDescIdempotent(athletes, RankKey);
  }

  /** The search box: nombres, apellidos or cédula contain the term, ignoring case. */
  predicate SearchMatch(a: Athlete, searchTerm: string) {
    var t := ToLower(searchTerm);
    Contains(ToLower(a.nombres), t) || Contains(ToLower(a.apellidos), t) || Contains(ToLower(a.cedula), t)
  }

  /** The school selector: 'all', or the escuela equals the label of the school with that value. */
  predicate SchoolMatch(a: Athlete, schoolFilter: string, schools: seq<School>) {
    schoolFilter == "all" ||
    var s := Find(schools, (s: School) => s.value == schoolFilter);
    s.Some? && a.escuela == s.value.displayLabel
  }

  predicate CategoryMatch(a: Athlete, categoryFilter: string) {
    categoryFilter == "all" || GetCategory(a.edad) == categoryFilter
  }

  /**
   * The year selector: the registration date must parse and its year, in
   * decimal, must be the selected text. `registrationYear` stands for
   * `new Date(registrationDate).getFullYear()`, `None` for an invalid date.
   */
  predicate YearMatch(a: Athlete, yearFilter: string, registrationYear: string -> Option<int>) {
    var y := registrationYear(a.registrationDate);
    y.Some? && IntToString(y.value) == yearFilter
  }

  /** The four selectors, all of which must agree. */
  datatype Filters = Filters(searchTerm: string, schoolFilter: string, categoryFilter: string, yearFilter: string)

  predicate Matches(a: Athlete, f: Filters, schools: seq<School>, registrationYear: string -> Option<int>) {
    SearchMatch(a, f.searchTerm) && SchoolMatch(a, f.schoolFilter, schools) &&
    CategoryMatch(a, f.categoryFilter) && YearMatch(a, f.yearFilter, registrationYear)
  }

  /** `filteredAthletes`: the sorted list narrowed by the four selectors. */
  function FilterAthletes(sorted: seq<Athlete>, f: Filters, schools: seq<School>, registrationYear: string -> Option<int>): (r: seq<Athlete>)
    ensures forall i :: 0 <= i < |r| ==> r[i] in sorted && Matches(r[i], f, schools, registrationYear)
    ensures forall i :: 0 <= i < |sorted| && Matches(sorted[i], f, schools, registrationYear) ==> sorted[i] in r
  {
    Filter(sorted, a => Matches(a, f, schools, registrationYear))
  }

  /** The filtered list keeps the ranking order: it is a subsequence of the sorted list. */
  lemma FilterAthletesOrder(sorted: seq<Athlete>, f: Filters, schools: seq<School>, registrationYear: string -> Option<int>)
    ensures IsSubsequence(FilterAthletes(sorted, f, schools, registrationYear), sorted)
  {
    FilterIsSubsequence(sorted, a => Matches(a, f, schools, registrationYear));
  }

  /** An empty search term matches every athlete. */
  lemma EmptySearchMatchesAll(a: Athlete)
    ensures SearchMatch(a, "")
  {
    ContainsEmpty(ToLower(a.nombres));
  }

  /** A school value no school carries matches no athlete. */
  lemma UnknownSchoolMatchesNone(a: Athlete, schoolFilter: string, schools: seq<School>)
    requires schoolFilter != "all"
    requires forall i :: 0 <= i < |schools| ==> schools[i].value != schoolFilter
    ensures !SchoolMatch(a, schoolFilter, schools)
  {
  }

  /** A known school value matches exactly the athletes of that school's label. */
  lemma KnownSchoolMatches(a: Athlete, i: int, schools: seq<School>)
    requires 0 <= i < |schools|
    requires schools[i].value != "all"
    requires forall j :: 0 <= j < i ==> schools[j].value != schools[i].value
    ensures SchoolMatch(a, schools[i].value, schools) <==> a.escuela == schools[i].displayLabel
  {
    var f := Find(schools, (s: School) => s.value == schools[i].value);
    assert f.Some?;
  }

  /** The position shown on a card: the 1-based index of the athlete's id in the filtered list. */
  function Position(filtered: seq<Athlete>, a: Athlete): (pos: int)
    ensures 0 <= pos <= |filtered|
    ensures pos > 0 ==> filtered[pos - 1].id == a.id && forall i :: 0 <= i < pos - 1 ==> filtered[i].id != a.id
    ensures pos == 0 <==> forall i :: 0 <= i < |filtered| ==> filtered[i].id != a.id
  {
    FindIndex(filtered, (x: Athlete) => x.id == a.id) + 1
  }

  predicate UniqueIds(s: seq<Athlete>) {
    forall i, j :: 0 <= i < j < |s| ==> s[i].id != s[j].id
  }

  /** With distinct ids, row `j` of page `p` shows position (p - 1) * 8 + j + 1: a place in the filtered list, not in the whole list. */
  lemma PositionOnPage(filtered: seq<Athlete>, page: int, j: int)
    requires UniqueIds(filtered)
    requires 1 <= page && 0 <= j < |PageOf(filtered, page, ItemsPerPage)|
    ensures Position(filtered, PageOf(filtered, page, ItemsPerPage)[j]) == (page - 1) * ItemsPerPage + j + 1
  {
    var start := (page - 1) * ItemsPerPage;
    assert start < |filtered|;
    var k := start + j;
    assert PageOf(filtered, page, ItemsPerPage)[j] == filtered[k];
    var pos := Position(filtered, filtered[k]);
    assert filtered[pos - 1].id == filtered[k].id;
  }

  /** The first three places get the trophy styling. */
  predicate IsTop3(position: int) {
    position <= 3
  }

  /** The year selector runs from max(current year, 2025) down to 2020. */
  function Years(currentYear: int): (r: seq<int>)
    ensures |r| == Max(currentYear, 2025) - 2020 + 1
    ensures forall k :: 0 <= k < |r| ==> r[k] == Max(currentYear, 2025) - k
  {
    var endYear := Max(currentYear, 2025);
    seq(endYear - 2020 + 1, k requires 0 <= k < endYear - 2020 + 1 => endYear - k)
  }

  lemma YearsRange(currentYear: int)
    ensures Years(currentYear)[0] == Max(currentYear, 2025)
    ensures Years(currentYear)[|Years(currentYear)| - 1] == 2020
    ensures forall i, j :: 0 <= i < j < |Years(currentYear)| ==> Years(currentYear)[i] > Years(currentYear)[j]
  {
  }

  /** The default year: the current year, but never before 2025. */
  function DefaultYearFilter(currentYear: int): (y: string)
    ensures y == IntToString(Years(currentYear)[0])
  {
    IntToString(Max(currentYear, 2025))
  }

  /** The category of each athlete, in list order. */
  function AthleteCategories(athletes: seq<Athlete>): (cats: seq<string>)
    ensures |cats| == |athletes|
    ensures forall i :: 0 <= i < |athletes| ==> cats[i] == GetCategory(athletes[i].edad)
  {
    seq(|athletes|, i requires 0 <= i < |athletes| => GetCategory(athletes[i].edad))
  }

  function SameCategory(c: string): string {
    c
  }

  /** The category selector: 'all' followed by the distinct categories of the initial athletes, in order of first appearance. */
  function Categories(initialAthletes: seq<Athlete>): (r: seq<string>)
    ensures |r| >= 1 && r[0] == "all"
    ensures forall i :: 1 <= i < |r| ==> r[i] in CategoryLabels
    ensures forall i :: 0 <= i < |initialAthletes| ==> GetCategory(initialAthletes[i].edad) in r
    ensures forall i :: 1 <= i < |r| ==> r[i] in AthleteCategories(initialAthletes)
    ensures forall i, j :: 1 <= i < j < |r| ==> r[i] != r[j]
    ensures forall i, j :: 1 <= i < j < |r| ==> FirstSeenBefore(AthleteCategories(initialAthletes), r[i], r[j])
  {
    var cats := AthleteCategories(initialAthletes);
    var r := ["all"] + DedupeBy(cats, SameCategory);
    DistinctCategoriesKnown(cats);
    DistinctCategoriesCover(cats);
    CategoriesPresent(cats, r);
    CategoriesDistinct(cats, r);
    CategoriesOrder(cats, r);
    r
  }

  /** Every occurrence of `b` in `cats` has an `a` before it: `a` appears first. */
  predicate FirstSeenBefore(cats: seq<string>, a: string, b: string) {
    forall k :: 0 <= k < |cats| && cats[k] == b ==> exists m :: 0 <= m < k && cats[m] == a
  }

  lemma CategoriesPresent(cats: seq<string>, r: seq<string>)
    requires r == ["all"] + DedupeBy(cats, SameCategory)
    ensures forall i :: 1 <= i < |r| ==> r[i] in cats
  {
    var d := DedupeBy(cats, SameCategory);
    assert forall i :: 1 <= i < |r| ==> r[i] == d[i - 1];
  }

  lemma CategoriesDistinct(cats: seq<string>, r: seq<string>)
    requires r == ["all"] + DedupeBy(cats, SameCategory)
    ensures forall i, j :: 1 <= i < j < |r| ==> r[i] != r[j]
  {
    var d := DedupeBy(cats, SameCategory);
    DedupeByDistinct(cats, SameCategory);
    forall i, j | 1 <= i < j < |r| ensures r[i] != r[j] {
      assert r[i] == d[i - 1] && r[j] == d[j - 1];
      assert SameCategory(d[i - 1]) != SameCategory(d[j - 1]);
    }
  }

  lemma CategoriesOrder(cats: seq<string>, r: seq<string>)
    requires r == ["all"] + DedupeBy(cats, SameCategory)
    ensures forall i, j :: 1 <= i < j < |r| ==> FirstSeenBefore(cats, r[i], r[j])
  {
    var d := DedupeBy(cats, SameCategory);
    forall i, j | 1 <= i < j < |r| ensures FirstSeenBefore(cats, r[i], r[j]) {
      assert r[i] == d[i - 1] && r[j] == d[j - 1];
      DistinctCategoriesOrder(cats, i - 1, j - 1);
    }
  }

  lemma DistinctCategoriesOrder(cats: seq<string>, i: int, j: int)
    requires 0 <= i < j < |DedupeBy(cats, SameCategory)|
    ensures FirstSeenBefore(cats, DedupeBy(cats, SameCategory)[i], DedupeBy(cats, SameCategory)[j])
  {
    var d := DedupeBy(cats, SameCategory);
    DedupeByOrder(cats, SameCategory);
    assert SeenBefore(cats, SameCategory, SameCategory(d[i]), SameCategory(d[j]));
    SeenBeforeSame(cats, d[i], d[j]);
  }

  lemma SeenBeforeSame(cats: seq<string>, a: string, b: string)
    requires SeenBefore(cats, SameCategory, SameCategory(a), SameCategory(b))
    ensures FirstSeenBefore(cats, a, b)
  {
    forall k | 0 <= k < |cats| && cats[k] == b ensures exists m :: 0 <= m < k && cats[m] == a {
      assert SameCategory(cats[k]) == SameCategory(b);
      var m :| 0 <= m < k && SameCategory(cats[m]) == SameCategory(a);
      assert cats[m] == a;
    }
  }

  lemma DistinctCategoriesKnown(cats: seq<string>)
    requires forall i :: 0 <= i < |cats| ==> cats[i] in CategoryLabels
    ensures forall x :: x in DedupeBy(cats, SameCategory) ==> x in CategoryLabels
  {
  }

  lemma DistinctCategoriesCover(cats: seq<string>)
    ensures forall i :: 0 <= i < |cats| ==> cats[i] in DedupeBy(cats, SameCategory)
  {
    var d := DedupeBy(cats, SameCategory);
    forall i | 0 <= i < |cats| ensures cats[i] in d {
      assert HasKey(d, SameCategory, SameCategory(cats[i]));
    }
  }

  /** The first letters of the two names, upper-cased; a missing letter contributes nothing. */
  function GetInitials(firstName: Option<string>, lastName: Option<string>): (r: string)
    ensures |r| <= 2
    ensures firstName.Some? && lastName.Some? && |firstName.value| > 0 && |lastName.value| > 0 ==>
      r == [UpperChar(firstName.value[0]), UpperChar(lastName.value[0])]
    ensures firstName.Some? && |firstName.value| > 0 && (lastName.None? || lastName.value == "") ==> r == [UpperChar(firstName.value[0])]
    ensures (firstName.None? || firstName.value == "") && lastName.Some? && |lastName.value| > 0 ==> r == [UpperChar(lastName.value[0])]
    ensures (firstName.None? || firstName.value == "") && (lastName.None? || lastName.value == "") ==> r == ""
  {
    var f := if firstName.Some? && |firstName.value| > 0 then [firstName.value[0]] else "";
    var l := if lastName.Some? && |lastName.value| > 0 then [lastName.value[0]] else "";
    ToUpper(f + l)
  }

  /** The state of the ranking page: the athletes and the selectors. */
  class Table {
    var athletesData: seq<Athlete>
    var currentPage: int
    var filters: Filters
    const initialAthletes: seq<Athlete>
    const schools: seq<School>
    const registrationYear: string -> Option<int>

    /** Pages count from 1. */
    ghost predicate Valid()
      reads this
    {
      currentPage >= 1
    }

    constructor(initial: seq<Athlete>, schoolList: seq<School>, currentYear: int, parseYear: string -> Option<int>)
      ensures Valid()
      ensures athletesData == initial && initialAthletes == initial && schools == schoolList && registrationYear == parseYear
      ensures currentPage == 1
      ensures filters == Filters("", "all", "all", DefaultYearFilter(currentYear))
    {
      athletesData := initial;
      initialAthletes := initial;
      schools := schoolList;
      registrationYear := parseYear;
      currentPage := 1;
      filters := Filters("", "all", "all", IntToString(Max(currentYear, 2025)));
    }

    function Sorted(): seq<Athlete>
      reads this
    {
      SortAthletes(athletesData)
    }

    function Filtered(): seq<Athlete>
      reads this
    {
      FilterAthletes(Sorted(), filters, schools, registrationYear)
    }

    function TotalPages(): nat
      reads this
    {
      Pagination.TotalPages(|Filtered()|, ItemsPerPage)
    }

    function Paginated(): seq<Athlete>
      reads this
    {
      PageOf(Filtered(), currentPage, ItemsPerPage)
    }

    /** `handleEditSuccess`: the athlete with the same id is replaced, everything else stays. */
    method HandleEditSuccess(updated: Athlete)
      modifies this
      ensures athletesData == ReplaceById(old(athletesData), (a: Athlete) => a.id, updated)
      ensures currentPage == old(currentPage) && filters == old(filters)
    {
      athletesData := ReplaceById(athletesData, (a: Athlete) => a.id, updated);
    }

    /** `handlePageChange`: only pages 1..totalPages are taken. */
    method HandlePageChange(page: int)
      requires Valid()
      modifies this
      ensures Valid()
      ensures currentPage == GuardedPage(old(currentPage), page, old(TotalPages()))
      ensures athletesData == old(athletesData) && filters == old(filters)
    {
      if page > 0 && page <= TotalPages() {
        currentPage := page;
      }
    }

    /** Typing in the search box resets the page. */
    method SetSearchTerm(term: string)
      modifies this
      ensures Valid()
      ensures filters == old(filters).(searchTerm := term) && currentPage == 1
      ensures athletesData == old(athletesData)
    {
      filters := filters.(searchTerm := term);
      currentPage := 1;
    }

    /** The school picker yields "" when its current entry is picked again; that means 'all'. */
    method SelectSchool(value: string)
      modifies this
      ensures Valid()
      ensures filters == old(filters).(schoolFilter := if value == "" then "all" else value) && currentPage == 1
      ensures athletesData == old(athletesData)
    {
      filters := filters.(schoolFilter := if value == "" then "all" else value);
      currentPage := 1;
    }

    method SetCategoryFilter(value: string)
      modifies this
      ensures Valid()
      ensures filters == old(filters).(categoryFilter := value) && currentPage == 1
      ensures athletesData == old(athletesData)
    {
      filters := filters.(categoryFilter := value);
      currentPage := 1;
    }

    method SetYearFilter(value: string)
      modifies this
      ensures Valid()
      ensures filters == old(filters).(yearFilter := value) && currentPage == 1
      ensures athletesData == old(athletesData)
    {
      filters := filters.(yearFilter := value);
      currentPage := 1;
    }
  }

  /** Any selector change lands on page 1, which always exists or is the empty first page. */
  lemma FirstPageAfterReset(t: Table)
    requires t.currentPage == 1
    ensures t.Paginated() == t.Filtered()[..Min(ItemsPerPage, |t.Filtered()|)]
  {
  }

  /** A worked example: points 1200, 1500 and 900 come out as 1500, 1200, 900. */
  lemma SortExample(a: Athlete, b: Athlete, c: Athlete)
    requires a.ranking == 1200 && b.ranking == 1500 && c.ranking == 900
    ensures SortAthletes([a, b, c]) == [b, a, c]
  {
    assert LexGt(RankKey(b), RankKey(a)) && LexGt(RankKey(a), RankKey(c)) && LexGt(RankKey(b), RankKey(c));
    assert [a, b, c][1..] == [b, c] && [b, c][1..] == [c];
    assert SortAthletes([c]) == [c];
    assert SortAthletes([b, c]) == [b, c];
    assert Insert(a, [b, c], RankKey) == [b] + Insert(a, [c], RankKey);
  }
}
