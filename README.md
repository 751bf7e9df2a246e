# SRAM dashboard core, modelled in Dafny

SRAM is the administration dashboard of a karate federation. It is a React application. All of its data is mock data held in component state, so its logic sits in plain expressions and state handlers inside the components. This project lifts that logic out and proves what it does:

- **Ranking engine**:
  - the age-to-category brackets;
  - the four-key descending comparator (points, then gold, silver and bronze medals), as a stable sort;
  - the search, school, category and year filters, composed by AND;
  - pagination, eight rows a page;
  - the PDF report's rows, numbered 1..n, and its "Página i de n" footers.
- **Collection stores** of the user, event, school, ranking and claims screens. Each is a class holding its record list and current page. Adding prepends, editing replaces by id, deleting removes by id, and a page change is taken only within range.
- **Form validation** (each zod schema as a list of field checks with zod's abort/dirty rule) and the record each submit builds. This covers the user, claim, event, ranking and password forms.
- **The cédula** (national id): split into type letter and number, joined back as `T-N`, and formatted for display.
- **Access rules**: which claims each role sees, and who may create, manage, edit or delete them; the sidebar's menu per role and which link is highlighted.
- **Mock data**: the deterministic athlete generator, including JavaScript's truncating `%`, which gives negative medal counts.
- **Dashboard widgets**: the belt and role histograms, the five upcoming events, the five latest registrations, the searchable combobox, and the profile page's avatar change.

The files follow the source: one module per component or library file, plus shared modules for the common pieces:

- `Text`: case mapping, `includes`, decimal rendering;
- `Seqs`: filtering, replace/remove by id, counting;
- `Sorting`: stable insertion sort by a lexicographic key;
- `Pagination`: JavaScript `slice` and `Math.ceil` pages;
- `Schema`: the zod issue model;
- `Wrappers`: `Option`.

Component state that handlers change in place becomes a Dafny `class` whose methods carry `modifies` clauses. Views derived from that state are functions that read it. Loops in the source (the mock generator, the histograms, the report footer) are methods with loop invariants, proved against specification functions.

Inputs the browser or a library supplies become parameters:

- the clock (`now`, `today`);
- date parsing (`readDate`, `registrationYear`);
- `Intl.NumberFormat` digit grouping (`groupDigits`);
- zod's e-mail check (`isEmail`);
- the number of pages the PDF table takes.

## Notes on the code

- **Scores can be negative.** The mock generator produces negative points (i ≥ 24) and negative silver and bronze counts (a truncated remainder for i > 15). `MockData.NegativeRankingInData`, `MockData.MedalRemainders` and `RankingEditForm.SomeDefaultsInvalid` state this.
- **Page changes are not always guarded.** The public athlete search sets any page it is given (`AthleteSearch.PastLastPage`). The event table's type and status selectors can leave the page past the end (see Findings).
- **Report file name.** It is named after the id of the school and the date as `YYYY-MM-DD`, built from the UTC year, month and day, which is what `toISOString` gives (`SchoolTable.ReportFileName`).
- **The edit form recomputes the category.** Once a birth date is loaded, an effect overwrites the category with the one computed from it, so a stored category that differs is replaced on save (`UserEditForm.LoadedValues`, `UserEditForm.StoredCategoryReplaced`).
- **The claims page compares ids as text.** The page model, and the lemmas about what a user sees, use the corrected comparison of the Findings row; `ClaimsPage.VisibleClaimsAsWritten` is the list as written, and the two agree for a user whose id is text.

## Model

| member | source | states |
|---|---|---|
| Text.LowerChar | src/components/dashboard/RankingTable.tsx:96-101 | an upper-case letter becomes the lower-case letter 32 code points above it; every other character is unchanged |
| Text.UpperChar | src/components/dashboard/RankingTable.tsx:127-129 | a lower-case letter becomes the upper-case letter 32 code points below it; every other character is unchanged |
| Text.ToLower | src/components/dashboard/RankingTable.tsx:96-101 | `toLowerCase` maps each modelled letter to its lower-case partner and leaves every other character as it is |
| Text.ToLowerIdempotent | src/components/dashboard/RankingTable.tsx:96-101 | lower-casing twice is lower-casing once, so a search term already in lower case is unchanged |
| Text.ToLowerConcat | src/components/dashboard/RankingTable.tsx:96-101 | lower-casing distributes over concatenation |
| Text.ToUpper | src/components/dashboard/RankingTable.tsx:127-129 | `toUpperCase` maps each modelled letter to its one-character upper-case partner and leaves every other character as it is |
| Text.ToUpperNoLower | src/components/dashboard/UserEditForm.tsx:184 | a text without lower-case letters is its own upper case |
| Text.ContainsEmpty | src/components/dashboard/RankingTable.tsx:96-101 | every string `includes` the empty string, so an empty search matches every row |
| Text.ContainsSelf | src/components/dashboard/RankingTable.tsx:96-101 | a string `includes` itself |
| Text.ContainsTooLong | src/components/dashboard/RankingTable.tsx:96-101 | a search term longer than the text never matches |
| Text.ContainsPrefixOf | src/components/dashboard/RankingTable.tsx:96-101 | a match inside a text remains a match in any extension of it |
| Text.StartsWithContains | src/components/dashboard/Sidebar.tsx:73 | a string that starts with a prefix includes it |
| Text.ContainsIgnoringCaseEmpty | src/components/dashboard/RankingTable.tsx:96-101 | the case-insensitive search with an empty term matches every text |
| Text.NatToString | src/lib/mock-data.ts:84 | `String(n)` of a non-negative number is a non-empty string of decimal digits |
| Text.IntToString | src/components/dashboard/RankingTable.tsx:104 | `String(i)` of an integer: its digits, with a leading '-' exactly when it is negative |
| Text.NatToStringRoundTrip | src/lib/mock-data.ts:84 | reading back the rendered digits gives the number |
| Text.NatToStringInjective | src/lib/mock-data.ts:84 | distinct numbers render to distinct strings |
| Text.IntToStringInjective | src/components/dashboard/RankingTable.tsx:104 | distinct integers render to distinct strings, so a year filter selects one year |
| Text.IntToStringSign | src/components/dashboard/RankingTable.tsx:104 | the rendering starts with '-' exactly for negative numbers |
| Text.NatToStringLength | src/lib/mock-data.ts:84 | the rendering has as many characters as the number has decimal digits |
| Seqs.Filter | src/components/dashboard/RankingTable.tsx:94-107 | `Array.prototype.filter`: every kept element is in the input and passes, every passing element is kept |
| Seqs.FilterIsSubsequence | src/components/dashboard/RankingTable.tsx:94-107 | filtering keeps the input's order |
| Seqs.FilterConcat | src/components/dashboard/RankingTable.tsx:94-107 | filtering a concatenation filters each part |
| Seqs.FilterFilter | src/components/dashboard/RankingTable.tsx:94-107 | two filters in a row are one filter by the conjunction |
| Seqs.FilterAll | src/components/dashboard/RankingTable.tsx:94-107 | a filter every element passes returns the input unchanged |
| Seqs.FilterCongruent | src/components/dashboard/RankingTable.tsx:94-107 | filters that agree on every element give the same result |
| Seqs.FilterLength | src/components/dashboard/RankingTable.tsx:109 | the filtered list has as many rows as the input has passing elements |
| Seqs.FilterUnique | src/components/dashboard/RankingTable.tsx:94-107 | a subsequence of the input whose elements all pass and that has one entry per passing element is the filtered input |
| Seqs.FilterMultiset | src/components/dashboard/RankingTable.tsx:94-107 | filtering never duplicates an element |
| Seqs.FindIndex | src/components/dashboard/RankingTable.tsx:232 | `findIndex`: -1 exactly when none passes, otherwise the first passing index |
| Seqs.Find | src/components/dashboard/RankingTable.tsx:102 | `find`: none exactly when no element passes, otherwise the first passing element |
| Seqs.ReplaceById | src/components/dashboard/RankingTable.tsx:64-68 | `map(a => a.id === u.id ? u : a)`: same length, every row with the id replaced, every other row kept |
| Seqs.RemoveById | src/components/dashboard/UserTable.tsx:178 | `filter(x => x.id !== id)`: the rows with another id, and only those |
| Seqs.ReplaceByIdFresh | src/components/dashboard/RankingTable.tsx:64-68 | an update whose id is not in the list changes nothing |
| Seqs.ReplaceByIdIdempotent | src/components/dashboard/RankingTable.tsx:64-68 | applying the same update twice is applying it once |
| Seqs.RemoveAfterReplace | src/components/dashboard/UserTable.tsx:120-185 | deleting a row after editing it leaves what deleting it directly leaves |
| Seqs.PrependThenRemove | src/components/dashboard/EventTable.tsx:102-164 | adding a row with a fresh id in front and then deleting it restores the list |
| Seqs.RemoveFresh | src/components/dashboard/UserTable.tsx:178 | deleting an id that is not listed changes nothing |
| Seqs.CountMono | src/components/dashboard/BeltDistributionChart.tsx:23-31 | a weaker condition counts at least as many rows |
| Seqs.CountConcat | src/components/dashboard/BeltDistributionChart.tsx:23-31 | counting over a concatenation adds the counts of the parts |
| Seqs.DedupeBy | src/components/dashboard/RankingTable.tsx:57 | `Array.from(new Set(...))` / a `Map` keyed by first insertion: a subsequence holding every key of the input |
| Seqs.DedupeByDistinct | src/components/dashboard/RankingTable.tsx:57 | no key appears twice after de-duplication |
| Seqs.DedupeByFirstWins | src/components/dashboard/UserEditForm.tsx:166-175 | each kept element is the first element of the input with its key |
| Seqs.DedupeByIsSubsequence | src/components/dashboard/RankingTable.tsx:57 | de-duplication keeps the order of first insertion |
| Seqs.DedupeByOrder | src/components/dashboard/RankingTable.tsx:57 | the kept elements come in the order their keys are first seen, as a `Set` keeps insertion order |
| Seqs.Take | src/components/dashboard/UpcomingEvents.tsx:43-68 | `slice(0, n)`: the first `min(n, length)` elements |
| Seqs.CountKeySnoc | src/components/dashboard/BeltDistributionChart.tsx:23-31 | one more element bumps exactly the counter of its key |
| Seqs.CountDisjoint | src/components/dashboard/UserRoleDistributionChart.tsx:39-52 | the count of a disjoint union is the sum of the counts |
| Seqs.SumCountsIsCountIn | src/components/dashboard/UserRoleDistributionChart.tsx:39-52 | the per-key counters of distinct keys add up to the number of rows whose key is listed |
| Seqs.CountEvery | src/components/dashboard/UserRoleDistributionChart.tsx:39-52 | when every row passes, the count is the number of rows |
| Sorting.LexGtIrreflexive | src/components/dashboard/RankingTable.tsx:75-92 | the ranking order puts no athlete strictly before itself |
| Sorting.LexGtTransitive | src/components/dashboard/RankingTable.tsx:75-92 | the ranking order is transitive |
| Sorting.LexGtAsymmetric | src/components/dashboard/RankingTable.tsx:75-92 | the ranking order is asymmetric |
| Sorting.LexGtTotal | src/components/dashboard/RankingTable.tsx:75-92 | two different keys are always ordered one way or the other |
| Sorting.SortDesc | src/components/dashboard/RankingTable.tsx:75-92 | a stable sort by descending key keeps the length |
| Sorting.SortDescMultiset | src/components/dashboard/RankingTable.tsx:75-92 | the sorted list is a permutation of the input |
| Sorting.SortDescSorted | src/components/dashboard/RankingTable.tsx:75-92 | the sorted list is in descending key order |
| Sorting.SortDescStable | src/components/dashboard/RankingTable.tsx:75-92 | rows with equal keys keep their input order (`Array.prototype.sort` is stable) |
| Sorting.SortDescOfSorted | src/components/dashboard/RankingTable.tsx:75-92 | sorting an already sorted list returns it unchanged |
| Sorting.SortDescIdempotent | src/components/dashboard/RankingTable.tsx:75-92 | sorting twice is sorting once |
| Sorting.SortedDescOneKey | src/lib/pdf-generator.ts:26 | sorted by a one-number key means that number never increases along the list |
| Pagination.JsSlice | src/components/dashboard/RankingTable.tsx:111-114 | `slice(start, end)` with JavaScript's clamping; inside the bounds it is the sub-range |
| Pagination.TotalPages | src/components/dashboard/RankingTable.tsx:109 | `Math.ceil(n / size)`: the fewest pages of `size` rows that hold `n` rows |
| Pagination.TotalPagesZero | src/components/dashboard/RankingTable.tsx:109 | there are no pages exactly when there are no rows |
| Pagination.PageOf | src/components/dashboard/RankingTable.tsx:111-114 | the rows of page `p` are the rows from `(p - 1) * size`, at most `size` of them |
| Pagination.PageOfInRange | src/components/dashboard/RankingTable.tsx:109-114 | every page in range is non-empty and every page but the last is full |
| Pagination.PageOfOutOfRange | src/components/dashboard/RankingTable.tsx:109-114 | a page past the last one is empty |
| Pagination.PageOfIndex | src/components/dashboard/RankingTable.tsx:109-114 | row `i` appears on page `i / size + 1` at position `i % size` |
| Pagination.PagesPrefix | src/components/dashboard/RankingTable.tsx:109-114 | the first `k` pages together are the first `k * size` rows |
| Pagination.AllPages | src/components/dashboard/RankingTable.tsx:109-114 | walking through all pages shows every row exactly once, in order |
| Pagination.GuardedPage | src/components/dashboard/RankingTable.tsx:121-125 | a requested page is taken exactly when `0 < page <= totalPages`, otherwise the page stays; a valid page stays valid |
| Pagination.CaptionMatchesPage | src/components/dashboard/RankingTable.tsx:131-132 | on a page in range the caption "start a end" counts exactly the rows displayed |
| Schema.MinLength | src/components/dashboard/UserEditForm.tsx:104 | `z.string().min(n, message)` passes exactly for strings of length at least `n`, and reports its message otherwise |
| Schema.MaxLength | src/components/dashboard/UserEditForm.tsx:112 | `z.string().max(n)` passes exactly for strings of length at most `n` |
| Schema.Then | src/components/dashboard/UserEditForm.tsx:112 | chained checks pass exactly when both pass |
| Schema.Missing | src/components/dashboard/UserEditForm.tsx:111 | a required field that is absent reports an issue and stops the refinements |
| Schema.Required | src/components/dashboard/UserEditForm.tsx:111 | a required field (the document type here, the event date at EventForm.tsx:31) passes exactly when present, and its absence aborts with its one message |
| Schema.OneOf | src/components/dashboard/UserEditForm.tsx:107-109 | `z.enum` passes exactly for listed values and aborts otherwise |
| Schema.NonNegativeInt | src/components/dashboard/RankingEditForm.tsx:22-25 | `z.coerce.number().int().min(0)` passes exactly for finite non-negative integers; NaN aborts |
| Schema.Flatten | src/components/dashboard/UserEditForm.tsx:103-131 | the object's issue list is empty exactly when every field passes |
| Schema.ObjectIssues | src/components/dashboard/UserEditForm.tsx:103-131 | `z.object(...).refine(...)`: no issue exactly when every field passes and the refinement holds; the refinement runs only when no field aborted |
| MockData.ParseEventType | src/lib/mock-data.ts:34 | the event type is one of 'competencia', 'seminario', 'exhibicion'; parsing accepts exactly those names and is the inverse of naming |
| MockData.ParseEventStatus | src/lib/mock-data.ts:35 | the event status is one of the four listed names; parsing accepts exactly those and inverts naming |
| MockData.JsRem | src/lib/mock-data.ts:73-74 | JavaScript's `%` truncates toward zero: the remainder takes the dividend's sign |
| MockData.OroFor | src/lib/mock-data.ts:67-71 | the gold count is never negative |
| MockData.GoldCounts | src/lib/mock-data.ts:66-71 | rounds 1-3 get 10, 8 and 6 golds, rounds 4-9 get `10 - i`, later rounds none |
| MockData.Batch | src/lib/mock-data.ts:60-93 | a batch of `count` athletes, the `k`-th built from round `k + 1` |
| MockData.BatchSnoc | src/lib/mock-data.ts:62-91 | one more loop round appends the next athlete |
| MockData.MakeAthlete | src/lib/mock-data.ts:63-90 | the loop body builds, field by field, the athlete of round `i` |
| MockData.GenerateAthletes | src/lib/mock-data.ts:60-93 | `generateAthletes(year, count)` returns the batch of `count` athletes, or nothing for a negative count |
| MockData.Athletes | src/lib/mock-data.ts:96-107 | the exported list holds 50 + 25 + 25 + 25 = 125 athletes |
| MockData.BuildAthletes | src/lib/mock-data.ts:96-107 | generating the four years and spreading them in order gives the exported list |
| MockData.AthletesAt | src/lib/mock-data.ts:96-107 | row `k` of the exported list is the athlete of a known year and round |
| MockData.AthleteIdAt | src/lib/mock-data.ts:77 | the id of row `k` is `year * 100 + round` |
| MockData.AthleteIdsUnique | src/lib/mock-data.ts:77 | no two mock athletes share an id |
| MockData.BatchIdsIncreasing | src/lib/mock-data.ts:77 | ids increase along a batch |
| MockData.RankingShape | src/lib/mock-data.ts:64 | ranking points are `1500 - 65 * i`, strictly decreasing, and negative from round 24 on |
| MockData.NegativeRankingInData | src/lib/mock-data.ts:64 | the data holds negative ranking points (-60 at round 24, -1750 at round 50) |
| MockData.MedalRemainders | src/lib/mock-data.ts:73-74 | silver and bronze go negative after round 15 exactly when the truncated remainder is non-zero |
| MockData.Round16Medals | src/lib/mock-data.ts:73-74 | round 16 has -1 silver and -1 bronze medals |
| MockData.AgeSchoolBelt | src/lib/mock-data.ts:78-82 | ages lie in 10..24, the school is `schools[i % 15]` and the belt `belts[i % 8]` |
| MockData.CedulaShape | src/lib/mock-data.ts:84 | the mock cédula is eight decimal digits |
| Combobox.TriggerText | src/components/ui/combobox.tsx:62-64 | the trigger shows the placeholder exactly for no value; otherwise the label of the first item with that value, or nothing exactly when no item has it |
| Combobox.Resolve | src/components/ui/combobox.tsx:85 | the reported label resolves to the value of the first item whose label matches it case-insensitively, or to "" when none does |
| Combobox.Selection | src/components/ui/combobox.tsx:86 | picking the current value again reports "" (deselects), anything else reports the resolved value |
| Combobox.ResolvePicked | src/components/ui/combobox.tsx:80-88 | with case-distinct labels, picking an item reports exactly that item's value |
| Combobox.SelectTwice | src/components/ui/combobox.tsx:84-88 | picking an item and then picking it again clears the selection; picking it once more restores it |
| Combobox.Picker.constructor | src/components/ui/combobox.tsx:48 | the popover starts closed |
| Combobox.Picker.SetOpen | src/components/ui/combobox.tsx:70 | the popover's open state follows `onOpenChange` |
| Combobox.Picker.Select | src/components/ui/combobox.tsx:84-88 | selecting reports the resolved selection and closes the popover |
| UserEditForm.ParseRole | src/components/dashboard/UserEditForm.tsx:79 | exactly the four role names parse, and parsing inverts naming |
| UserEditForm.ParseRoleName | src/components/dashboard/UserEditForm.tsx:79 | every role's name parses back to it |
| UserEditForm.OrElse | src/components/dashboard/UserEditForm.tsx:197-208 | `x \|\| d` keeps a non-empty string and falls back to `d` otherwise |
| UserEditForm.GetAgeCountsAnniversaries | src/components/dashboard/UserEditForm.tsx:134-144 | the age is the number of birthdays reached: today is on or after the last one and before the next |
| UserEditForm.GetAgeMonotone | src/components/dashboard/UserEditForm.tsx:134-144 | the age never decreases as time passes and is non-negative once born |
| UserEditForm.CategoryFor | src/components/dashboard/UserEditForm.tsx:146-155 | the category computed from a birth date is one of the eight category labels |
| UserEditForm.GetCedulaParts | src/components/dashboard/UserEditForm.tsx:179-188 | a missing or empty cédula gives ("V", ""); a leading V, E, P or T in either case gives that letter upper-cased and the rest after an optional "-" without dots; any other text gives "V" and the whole text without dots |
| UserEditForm.RemoveDots | src/components/dashboard/UserEditForm.tsx:187 | removing the dots keeps exactly the other characters, in their order, and leaves a text without dots unchanged |
| UserEditForm.CedulaPartsDefault | src/components/dashboard/UserEditForm.tsx:180 | no cédula, or an empty one, gives type "V" and an empty number |
| UserEditForm.FullCedula | src/components/dashboard/UserEditForm.tsx:265 | the stored cédula is `type-number` exactly when both parts are non-empty |
| UserEditForm.CedulaRoundTrip | src/components/dashboard/UserEditForm.tsx:179-188 | splitting a joined cédula gives back its type and number |
| UserEditForm.CedulaCanonical | src/components/dashboard/UserEditForm.tsx:265 | joining the parts of a canonical cédula gives it back |
| UserEditForm.DigitsOnly | src/components/dashboard/UserEditForm.tsx:391-393 | the document number input keeps exactly the digits of the input, in their order: a digit-only subsequence with one entry per digit of the input |
| UserEditForm.DigitsOnlyUnique | src/components/dashboard/UserEditForm.tsx:391-393 | any digit-only subsequence of the input holding all its digits is the filtered input, so the contract of `DigitsOnly` determines its result |
| UserEditForm.BareCedulaParts | src/components/dashboard/UserEditForm.tsx:179-188 | a cédula of bare digits n splits into ("V", n) and is rebuilt as "V-" + n |
| UserEditForm.BareCedulaSavedAsV | src/components/dashboard/UserEditForm.tsx:265 | a user whose cédula is bare digits n, saved with the form unchanged, is stored with cédula "V-" + n |
| UserEditForm.DigitsOnlyIdempotent | src/components/dashboard/UserEditForm.tsx:391-393 | filtering the digits twice is filtering once |
| UserEditForm.EmailCheck | src/components/dashboard/UserEditForm.tsx:106 | the email passes exactly when the email predicate accepts it |
| UserEditForm.DocNumberCheck | src/components/dashboard/UserEditForm.tsx:112 | the document number passes exactly when present with 6 to 9 characters |
| UserEditForm.DateOfBirthCheck | src/components/dashboard/UserEditForm.tsx:113-115 | the birth date passes exactly when present and not after today |
| UserEditForm.RankingCheck | src/components/dashboard/UserEditForm.tsx:118 | the coerced ranking passes unless it is NaN |
| UserEditForm.FieldChecks | src/components/dashboard/UserEditForm.tsx:103-120 | the eight field checks of the schema |
| UserEditForm.ValidIff | src/components/dashboard/UserEditForm.tsx:103-131 | the form is valid exactly when names have 2+ characters, the email is accepted, the role is listed, type and number are present with 6-9 digits, the birth date is not in the future, the ranking is a number, and an alumno has school, belt and ranking |
| UserEditForm.AlumnoIssueOnSchool | src/components/dashboard/UserEditForm.tsx:121-131 | an alumno without school gets the refinement's message on the `schoolId` path |
| UserEditForm.NonAlumnoPassesRule | src/components/dashboard/UserEditForm.tsx:122-125 | the alumno rule always holds for other roles |
| UserEditForm.DefaultValues | src/components/dashboard/UserEditForm.tsx:190-210 | the defaults hold the user's names, e-mail, role and birth date, the split cédula, the ranking or 0, the school, belt and representative ids or "", and the stored category or else the one computed from the birth date ("" without one) |
| UserEditForm.LoadedValues | src/components/dashboard/UserEditForm.tsx:212-245 | once loaded, the form holds the defaults except that, with a birth date, the category is the one computed from it |
| UserEditForm.LoadedValuesValid | src/components/dashboard/UserEditForm.tsx:215-221 | recomputing the category never changes whether the form is valid |
| UserEditForm.StoredCategoryReplaced | src/components/dashboard/UserEditForm.tsx:215-221 | a stored category that differs from the birth date's is lost by opening the form and saving it unchanged |
| UserEditForm.Submit | src/components/dashboard/UserEditForm.tsx:264-283 | the updated user keeps its id and takes the form's names, e-mail, parsed role, birth date, school id, belt, category, representative and ranking; it gets the joined cédula, the school label of the chosen id ("" when none) and the preview photo when there is one |
| UserEditForm.UnchangedCedulaSurvivesEdit | src/components/dashboard/UserEditForm.tsx:179-283 | opening the form, letting it load and saving it unchanged leaves a canonical cédula unchanged |
| UserEditForm.UnchangedEditKeepsFields | src/components/dashboard/UserEditForm.tsx:194-273 | saving the form as loaded keeps the user's id, names, e-mail, role, birth date and picture, and every school, belt and representative that was set; the category is the one computed from the birth date when there is one, and the stored one otherwise |
| UserEditForm.RepresentativeUsers | src/components/dashboard/UserEditForm.tsx:163-177 | the listed representatives are mock users with the representative role |
| UserEditForm.Representatives | src/components/dashboard/UserEditForm.tsx:163-177 | one item per distinct full name, its value the user's id as text and its label the full name |
| UserEditForm.RepresentativesDistinctAndComplete | src/components/dashboard/UserEditForm.tsx:163-177 | no full name is listed twice and every representative's full name is listed |
| UserEditForm.RepresentativesFirstWins | src/components/dashboard/UserEditForm.tsx:166-175 | of several representatives with the same name, the first is listed, in order |
| UserEditForm.PickRepresentative | src/components/dashboard/UserEditForm.tsx:596-599 | picking the current representative clears the field, any other pick sets it |
| UserEditForm.MockRole | src/components/dashboard/UserEditForm.tsx:42-43 | the mock role is `[alumno, representante, master, admin][id % 4]`, falling back to alumno |
| UserEditForm.FirstWord | src/components/dashboard/UserEditForm.tsx:49 | `split(' ')[0]`: the longest prefix without a space |
| UserEditForm.MockUser | src/components/dashboard/UserEditForm.tsx:41-60 | a mock user takes its athlete's id, role by id, an email built from the first words of the names, and a school id exactly when a school has that label |
| UserEditForm.SchoolIdOf | src/components/dashboard/UserEditForm.tsx:54 | a school id is found exactly when a school has that label |
| UserEditForm.MockUserRoles | src/components/dashboard/UserEditForm.tsx:41-43 | every mock athlete's user has the role its id selects |
| RankingTable.GetCategory | src/components/dashboard/RankingTable.tsx:28-37 | the category is one of the eight labels |
| RankingTable.GetCategoryByIndex | src/components/dashboard/RankingTable.tsx:28-37 | the category is the label of the first bound the age does not exceed |
| RankingTable.CategoryIndexMonotone | src/components/dashboard/RankingTable.tsx:28-37 | an older athlete never falls in an earlier category |
| RankingTable.CategoryBoundaries | src/components/dashboard/RankingTable.tsx:28-37 | 5 and 6, 17 and 18 fall on either side of a boundary; every age up to 0 is "Hasta 5 años (mixto)" |
| RankingTable.CompareAgreesWithKey | src/components/dashboard/RankingTable.tsx:75-92 | the comparator orders by points, then gold, silver and bronze, all descending |
| RankingTable.SortAthletes | src/components/dashboard/RankingTable.tsx:75-92 | sorting keeps the number of athletes |
| RankingTable.SortAthletesSpec | src/components/dashboard/RankingTable.tsx:75-92 | the sorted list is a permutation of the data and no athlete is after one the comparator puts behind it |
| RankingTable.SortAthletesStableIdempotent | src/components/dashboard/RankingTable.tsx:75-92 | athletes with equal points and medals keep their order, and sorting twice is sorting once |
| RankingTable.SortExample | src/components/dashboard/RankingTable.tsx:75-92 | 1200, 1500 and 900 points sort as 1500, 1200, 900 |
| RankingTable.FilterAthletes | src/components/dashboard/RankingTable.tsx:94-107 | the shown athletes are exactly the sorted athletes that match the search, school, category and year filters |
| RankingTable.FilterAthletesOrder | src/components/dashboard/RankingTable.tsx:94-107 | filtering keeps the ranking order |
| RankingTable.EmptySearchMatchesAll | src/components/dashboard/RankingTable.tsx:96-101 | an empty search term matches every athlete |
| RankingTable.UnknownSchoolMatchesNone | src/components/dashboard/RankingTable.tsx:102 | a school filter naming no school matches no athlete |
| RankingTable.KnownSchoolMatches | src/components/dashboard/RankingTable.tsx:102 | a known school filter matches exactly the athletes whose school is that school's label |
| RankingTable.Position | src/components/dashboard/RankingTable.tsx:232 | the place is the 1-based index of the first athlete in the filtered list with that id, or 0 exactly when none has it |
| RankingTable.PositionOnPage | src/components/dashboard/RankingTable.tsx:232 | with unique ids, row `j` of page `p` is shown at place `(p - 1) * 8 + j + 1` |
| RankingTable.Years | src/components/dashboard/RankingTable.tsx:58-62 | the year options run down from `max(current year, 2025)` one by one |
| RankingTable.YearsRange | src/components/dashboard/RankingTable.tsx:58-62 | the options start at `max(current year, 2025)`, end at 2020 and strictly decrease |
| RankingTable.DefaultYearFilter | src/components/dashboard/RankingTable.tsx:49 | the year filter starts at the first year option |
| RankingTable.AthleteCategories | src/components/dashboard/RankingTable.tsx:57 | the category of every athlete, in order |
| RankingTable.Categories | src/components/dashboard/RankingTable.tsx:57 | the options are "all" followed by the athletes' categories, each once, only categories some athlete has, every athlete's category, in the order the categories first appear in the list |
| RankingTable.DistinctCategoriesKnown | src/components/dashboard/RankingTable.tsx:57 | de-duplicating category labels yields only category labels |
| RankingTable.DistinctCategoriesCover | src/components/dashboard/RankingTable.tsx:57 | every athlete's category survives de-duplication |
| RankingTable.CategoriesPresent | src/components/dashboard/RankingTable.tsx:57 | every category option after "all" is the category of some athlete |
| RankingTable.CategoriesDistinct | src/components/dashboard/RankingTable.tsx:57 | no category option appears twice |
| RankingTable.CategoriesOrder | src/components/dashboard/RankingTable.tsx:57 | of two category options, the earlier one is seen first in the list |
| RankingTable.GetInitials | src/components/dashboard/RankingTable.tsx:127-129 | both upper-cased first letters when both names are non-empty, the one letter of the only non-empty name, or "" when neither is; never more than two characters |
| RankingTable.Table.constructor | src/components/dashboard/RankingTable.tsx:44-54 | the table starts on page 1 with the given athletes and schools, an empty search, every school and category, and the year filter at the later of the current year and 2025 |
| RankingTable.Table.HandleEditSuccess | src/components/dashboard/RankingTable.tsx:64-68 | the edited athlete replaces the one with its id; page and filters stay |
| RankingTable.Table.HandlePageChange | src/components/dashboard/RankingTable.tsx:121-125 | the page moves only to a page within range; data and filters stay |
| RankingTable.Table.SetSearchTerm | src/components/dashboard/RankingTable.tsx:173-176 | the search term changes and the page returns to 1 |
| RankingTable.Table.SelectSchool | src/components/dashboard/RankingTable.tsx:183-186 | the school filter takes the value or "all" for an empty one, and the page returns to 1 |
| RankingTable.Table.SetCategoryFilter | src/components/dashboard/RankingTable.tsx:192-195 | the category filter changes and the page returns to 1 |
| RankingTable.Table.SetYearFilter | src/components/dashboard/RankingTable.tsx:208-211 | the year filter changes and the page returns to 1 |
| RankingTable.FirstPageAfterReset | src/components/dashboard/RankingTable.tsx:111-114 | on page 1 the table shows the first eight filtered athletes |
| UserTable.FilterUsers | src/components/dashboard/UserTable.tsx:130-140 | the listed users are exactly those, in order, whose full name or email includes the search term case-insensitively and whose role matches the filter |
| UserTable.NoFilterListsAll | src/components/dashboard/UserTable.tsx:130-140 | with an empty search and "all" roles every user is listed, in order |
| UserTable.RoleFilterExact | src/components/dashboard/UserTable.tsx:137 | filtering by a role lists exactly the users with that role |
| UserTable.RepresentativeNameAsWritten | src/components/dashboard/UserTable.tsx:209-213 | the lookup as written compares the id with `===`: a missing or falsy id gives "No Asignado"; otherwise the name of the first user whose id is identical, or "Desconocido" when there is none |
| UserTable.RepresentativeNeverFoundAsWritten | src/components/dashboard/UserTable.tsx:209-213 | when every user has a numeric id, a representative id held as text is never found and shows "Desconocido" |
| UserTable.RepresentativeNeverFoundExample | src/components/dashboard/UserTable.tsx:209-213 | user 1, referenced by the id "1" the edit form stores, shows as "Desconocido" |
| UserTable.RepresentativeName | src/components/dashboard/UserTable.tsx:209-213 | the corrected lookup compares ids as text: a missing or falsy id gives "No Asignado"; otherwise the name of the first user whose id renders the same, or "Desconocido" when there is none |
| UserTable.Table.SelectedRepresentativeNameAsWritten | src/components/dashboard/UserTable.tsx:486-503 | the details dialog shows a representative line exactly for a selected alumno, with the name given by the lookup as written |
| UserTable.Table.SelectedRepresentativeName | src/components/dashboard/UserTable.tsx:486-503 | the same line with the corrected lookup, so a stored text id finds its user |
| UserTable.RepresentativeFound | src/components/dashboard/UserTable.tsx:209-213 | the corrected lookup finds user `n` from the text "n" and shows their full name |
| UserTable.CleanCedula | src/components/dashboard/UserTable.tsx:218 | the cleaned cédula holds only ASCII letters and digits, in upper case |
| UserTable.FormatCedula | src/components/dashboard/UserTable.tsx:215-243 | no cédula, or an empty one, shows "N/A" |
| UserTable.CleanKeepsAlnum | src/components/dashboard/UserTable.tsx:218 | cleaning `T-digits` drops only the dash |
| UserTable.CleanDigits | src/components/dashboard/UserTable.tsx:218 | a string of digits is already clean |
| UserTable.FormatTypedCedula | src/components/dashboard/UserTable.tsx:222-242 | `T-digits` shows as is for E, P and T, and as "V-" with the grouped number for V |
| UserTable.FormatBareCedula | src/components/dashboard/UserTable.tsx:227-239 | a bare number is shown as a V cédula, the same as "V-" followed by it |
| UserTable.FormatCedulaUnrecognised | src/components/dashboard/UserTable.tsx:230-232 | a cédula with no type letter that is not a number is shown unchanged |
| UserTable.FormatTypedText | src/components/dashboard/UserTable.tsx:218-227 | a type letter followed by anything but a V number is shown as the letter, "-" and the cleaned rest |
| UserTable.FormatTypedTextExample | src/components/dashboard/UserTable.tsx:218-227 | "V-12a" is shown as "V-12A" |
| UserTable.AgeText | src/components/dashboard/UserTable.tsx:203-207 | no birth date shows "N/A", otherwise the age followed by " años" |
| UserTable.CategoryText | src/components/dashboard/UserTable.tsx:88-100 | no birth date shows "N/A", otherwise the category computed from the birth date, one of the category labels |
| UserTable.CategoryTextMatchesForm | src/components/dashboard/UserTable.tsx:88-100 | for a user with a birth date, the details dialog shows the category the edit form loads |
| UserTable.Table.constructor | src/components/dashboard/UserTable.tsx:104-116 | the table starts on page 1 with no search, all roles, no selection and all dialogs closed |
| UserTable.Table.HandleEditSuccess | src/components/dashboard/UserTable.tsx:120-128 | the edited user replaces the one with its id, the signed-in user is updated when it is the same id, and the edit dialog closes; every other field stays as it was |
| UserTable.Table.HandlePageChange | src/components/dashboard/UserTable.tsx:153-157 | the page moves only to a page within range; nothing else changes |
| UserTable.Table.SetSearchTerm | src/components/dashboard/UserTable.tsx:274-277 | the search term changes and the page returns to 1; every other field stays as it was |
| UserTable.Table.SetRoleFilter | src/components/dashboard/UserTable.tsx:282-285 | the role filter changes and the page returns to 1; every other field stays as it was |
| UserTable.Table.HandleViewClick | src/components/dashboard/UserTable.tsx:159-162 | the user is selected and the view dialog opens; every other field stays as it was |
| UserTable.Table.HandleEditClick | src/components/dashboard/UserTable.tsx:164-167 | the user is selected and the edit dialog opens; every other field stays as it was |
| UserTable.Table.HandleDeleteClick | src/components/dashboard/UserTable.tsx:169-173 | only an administrator selects the user and opens the delete dialog; for anyone else nothing changes; the list, search, filter and page stay as they were |
| UserTable.Table.ConfirmDelete | src/components/dashboard/UserTable.tsx:175-185 | with a selection, every user with its id is removed and the dialog closes; without one nothing happens; every other field stays as it was |
| UserTable.EditThenDelete | src/components/dashboard/UserTable.tsx:120-185 | deleting a user after editing it leaves what deleting it directly leaves |
| ClaimsPage.ParseClaimStatus | src/app/dashboard/claims/page.tsx:74 | exactly the four status names parse, and parsing inverts naming |
| ClaimsPage.OwnClaimsAsWritten | src/app/dashboard/claims/page.tsx:187-198 | as written: no user or an alumno sees nothing, an admin or master sees every claim, a representative the claims whose representative id `===` their id |
| ClaimsPage.NumberIdSeesNoOwnClaims | src/app/dashboard/claims/page.tsx:193 | a representative whose id is a number never sees a claim, since claims hold the id as text |
| ClaimsPage.OwnClaims | src/app/dashboard/claims/page.tsx:187-198 | corrected: a representative sees exactly the claims whose representative id is their id as text; other roles as written |
| ClaimsPage.OwnClaimsTextId | src/app/dashboard/claims/page.tsx:193 | for a user whose id is already text, the code as written and the corrected one agree |
| ClaimsPage.VisibleClaims | src/app/dashboard/claims/page.tsx:187-205 | with the text comparison of the corrected OwnClaims, the visible list never holds more claims than the data |
| ClaimsPage.VisibleClaimsSpec | src/app/dashboard/claims/page.tsx:187-205 | the list is a permutation of the claims the corrected OwnClaims lets the user see whose subject includes the search, newest first |
| ClaimsPage.VisibleClaimsAsWritten | src/app/dashboard/claims/page.tsx:187-205 | the list as written, with the `===` test, never holds more claims than the data |
| ClaimsPage.NumberIdListsNothing | src/app/dashboard/claims/page.tsx:193 | as written, a representative signed in with a number id is shown an empty list |
| ClaimsPage.VisibleClaimsTextId | src/app/dashboard/claims/page.tsx:193 | for a user whose id is text (layout.tsx signs in with "1"), the list as written is the corrected list |
| ClaimsPage.VisibleClaimsStable | src/app/dashboard/claims/page.tsx:200-204 | claims with the same date keep their order |
| ClaimsPage.StudentSeesNothing | src/app/dashboard/claims/page.tsx:188-198 | without a user, or for an alumno, the list is empty |
| ClaimsPage.ManagerSeesAll | src/app/dashboard/claims/page.tsx:194-195 | with no search, an admin or master sees every claim |
| ClaimsPage.CanCreateIffNotStudent | src/app/dashboard/claims/page.tsx:256 | a claim can be created exactly by roles other than alumno |
| ClaimsPage.VisibleClaimsEditable | src/app/dashboard/claims/page.tsx:258-261 | every listed claim can be edited or deleted by the viewer |
| ClaimsPage.ClaimsMockUsers | src/app/dashboard/claims/page.tsx:78-88 | the page's mock users carry each athlete's id as text and its names |
| ClaimsPage.RepresentativeName | src/app/dashboard/claims/page.tsx:157-166 | the name of the first mock user with the id; when none has it, the signed-in user's name when the id is theirs, else "Desconocido" |
| ClaimsPage.RepresentativeNameOfAthlete | src/app/dashboard/claims/page.tsx:157-159 | the id of a mock athlete resolves to that athlete's full name |
| ClaimsPage.AthletesDistinctIds | src/app/dashboard/claims/page.tsx:78-88 | the page's mock users have distinct ids |
| ClaimsPage.Page.constructor | src/app/dashboard/claims/page.tsx:144-154 | the page starts on page 1 with no search, no selection and all dialogs closed |
| ClaimsPage.Page.HandleAddSuccess | src/app/dashboard/claims/page.tsx:169-176 | the new claim goes in front of the list and the add dialog closes; every other field stays as it was |
| ClaimsPage.Page.HandleEditSuccess | src/app/dashboard/claims/page.tsx:178-185 | the edited claim replaces the one with its id and the edit dialog closes; every other field stays as it was |
| ClaimsPage.Page.HandlePageChange | src/app/dashboard/claims/page.tsx:220-224 | the page moves only to a page within range; every other field stays as it was |
| ClaimsPage.Page.HandleViewClick | src/app/dashboard/claims/page.tsx:226-229 | the claim is selected and the details dialog opens; every other field stays as it was |
| ClaimsPage.Page.HandleEditClick | src/app/dashboard/claims/page.tsx:231-234 | the claim is selected and the edit dialog opens; every other field stays as it was |
| ClaimsPage.Page.SetSearchTerm | src/app/dashboard/claims/page.tsx:285-288 | the search term changes and the page returns to 1; every other field stays as it was |
| ClaimsPage.Page.HandleDeleteClick | src/app/dashboard/claims/page.tsx:236-239 | the claim is selected and the delete dialog opens; every other field stays as it was |
| ClaimsPage.Page.ConfirmDelete | src/app/dashboard/claims/page.tsx:241-250 | with a selection, the claims with its id are removed and the dialog closes; without one nothing happens; every other field stays as it was |
| ClaimsPage.AddThenDelete | src/app/dashboard/claims/page.tsx:169-250 | adding a claim with a fresh id and deleting it restores the list |
| ClaimsPage.AddedClaimListed | src/app/dashboard/claims/page.tsx:169-205 | with the corrected comparison, a claim just added by a manager, or filed by the representative, shows in their list when its subject matches |
| ClaimForm.Issues | src/components/dashboard/ClaimForm.tsx:26-33 | no issue exactly when a type is chosen, someone is picked, the subject has 5+ and the description 20+ characters |
| ClaimForm.StudentOptions | src/components/dashboard/ClaimForm.tsx:56-61 | one option per represented student: id as text, full name as label |
| ClaimForm.SchoolOptions | src/components/dashboard/ClaimForm.tsx:63-66 | one option per school, with its value and label |
| ClaimForm.Represented | src/components/dashboard/ClaimForm.tsx:75-78 | the picked item comes from the students or the schools as the type says, with the picked id; none exactly when no option has it |
| ClaimForm.Submit | src/components/dashboard/ClaimForm.tsx:69-101 | a signed-in user whose pick is among the options files a claim and the form is cleared; no user, or an unknown pick, files nothing and keeps the values |
| ClaimForm.FiledClaimContents | src/components/dashboard/ClaimForm.tsx:85-96 | for a signed-in user and a known pick a claim is filed, with status "enviado", the user as representative, the picked item's label and the entered subject and description |
| ClaimForm.FiledClaimIsOwn | src/components/dashboard/ClaimForm.tsx:85-96 | a representative with a known pick files a claim they can edit, and it is among the claims the corrected OwnClaims shows them |
| ClaimForm.ChangeType | src/components/dashboard/ClaimForm.tsx:116-119 | switching the type clears the pick and keeps subject and description |
| ClaimForm.ChangeTypeNeedsPick | src/components/dashboard/ClaimForm.tsx:116-119 | right after switching the type the form is invalid until someone is picked |
| ClaimEditForm.Issues | src/components/dashboard/ClaimEditForm.tsx:23-27 | no issue exactly when the subject has 5+ and the description 20+ characters and the status is listed |
| ClaimEditForm.Reset | src/components/dashboard/ClaimEditForm.tsx:48-55 | the form loads the claim's subject, description and status by name |
| ClaimEditForm.Submit | src/components/dashboard/ClaimEditForm.tsx:57-67 | without a user nothing is saved; otherwise the claim with the new subject, description and status, and nothing else changed |
| ClaimEditForm.Edit | src/components/dashboard/ClaimEditForm.tsx:71-118 | a user who is not admin or master cannot change the status field |
| ClaimEditForm.RepresentativeKeepsStatus | src/components/dashboard/ClaimEditForm.tsx:71-118 | a representative's edit keeps the claim's status |
| ClaimEditForm.SubmitReset | src/components/dashboard/ClaimEditForm.tsx:48-67 | saving the loaded values unchanged gives back the claim |
| EventTable.LabelsDistinct | src/components/dashboard/EventTable.tsx:61-79 | the Spanish labels of the statuses, and of the types, are distinct |
| EventTable.FilterEvents | src/components/dashboard/EventTable.tsx:112-120 | the filtered list never holds more events than the data |
| EventTable.FilterEventsSpec | src/components/dashboard/EventTable.tsx:112-120 | the list is a permutation of the events whose name or location includes the search and whose status and type match, latest date first |
| EventTable.FilterEventsMembership | src/components/dashboard/EventTable.tsx:112-120 | an event is listed exactly when it is in the data and matches the search and both selectors |
| EventTable.Table.constructor | src/components/dashboard/EventTable.tsx:88-99 | the table starts on page 1 with no search, both selectors on "all", no selection and all dialogs closed |
| EventTable.Table.HandleAddSuccess | src/components/dashboard/EventTable.tsx:102-105 | the new event goes in front of the list and the add dialog closes; every other field stays as it was |
| EventTable.Table.HandleEditSuccess | src/components/dashboard/EventTable.tsx:107-110 | the edited event replaces the one with its id and the edit dialog closes; every other field stays as it was |
| EventTable.Table.HandlePageChange | src/components/dashboard/EventTable.tsx:132-136 | the page moves only to a page within range; every other field stays as it was |
| EventTable.Table.HandleViewClick | src/components/dashboard/EventTable.tsx:138-141 | the event is selected and the details dialog opens; every other field stays as it was |
| EventTable.Table.HandleEditClick | src/components/dashboard/EventTable.tsx:143-146 | the event is selected and the edit dialog opens; every other field stays as it was |
| EventTable.Table.SetSearchTerm | src/components/dashboard/EventTable.tsx:176-179 | the search term changes and the page returns to 1; every other field stays as it was |
| EventTable.Table.SetTypeFilterAsWritten | src/components/dashboard/EventTable.tsx:184 | as written, the type selector changes the filter and keeps the page; every other field stays as it was |
| EventTable.Table.SetStatusFilterAsWritten | src/components/dashboard/EventTable.tsx:195 | as written, the status selector changes the filter and keeps the page; every other field stays as it was |
| EventTable.StalePageAfterNarrowing | src/components/dashboard/EventTable.tsx:184-195 | on page 2 or later, once a selector leaves at most eight events, the table shows no row and no pager |
| EventTable.StalePageExample | src/components/dashboard/EventTable.tsx:184-195 | nine events (two pages) narrowed by the type selector to eight leave page 2 blank |
| EventTable.Table.SetTypeFilter | src/components/dashboard/EventTable.tsx:176-179 | corrected: the type selector also returns to page 1, as the search box does; every other field stays as it was |
| EventTable.Table.SetStatusFilter | src/components/dashboard/EventTable.tsx:176-179 | corrected: the status selector also returns to page 1; every other field stays as it was |
| EventTable.FirstPageAfterSelector | src/components/dashboard/EventTable.tsx:124-127 | on page 1 the table shows the first eight matching events, and some row whenever any event matches |
| EventTable.Table.HandleDeleteClick | src/components/dashboard/EventTable.tsx:148-151 | the event is selected and the delete dialog opens; every other field stays as it was |
| EventTable.Table.ConfirmDelete | src/components/dashboard/EventTable.tsx:153-164 | with a selection, the events with its id are removed and the dialog closes; without one nothing happens; every other field stays as it was |
| EventTable.AddThenDelete | src/components/dashboard/EventTable.tsx:102-164 | adding an event with a fresh id and deleting it restores the list |
| EventForm.EnumCheck | src/components/dashboard/EventForm.tsx:33-35 | a `z.enum` field passes exactly for a listed value and reports its message otherwise |
| EventForm.FieldChecks | src/components/dashboard/EventForm.tsx:28-36 | name 3+, description 10+, date present, location 3+ and a listed type, one check each |
| EventForm.ValidIff | src/components/dashboard/EventForm.tsx:28-36 | the form is valid exactly when all five field rules hold |
| EventForm.InitialStatus | src/components/dashboard/EventForm.tsx:60 | a new event is "programado" exactly when its date is after now, "finalizado" otherwise |
| EventForm.Submit | src/components/dashboard/EventForm.tsx:56-71 | the new event has id "evt-" and the time, the entered fields and the initial status; the form resets |
| EventForm.SubmitIdsDistinct | src/components/dashboard/EventForm.tsx:59 | events created at different times get different ids |
| EventForm.DefaultsInvalid | src/components/dashboard/EventForm.tsx:47-54 | the empty form cannot be submitted |
| EventEditForm.ValidIff | src/components/dashboard/EventEditForm.tsx:28-39 | valid exactly when the creation rules hold and the status is one of the four |
| EventEditForm.Defaults | src/components/dashboard/EventEditForm.tsx:51-61 | the form loads the event's name, description, location, date, type and status |
| EventEditForm.Submit | src/components/dashboard/EventEditForm.tsx:63-76 | the saved event keeps its id and takes every entered field |
| EventEditForm.SubmitDefaults | src/components/dashboard/EventEditForm.tsx:51-76 | saving the loaded values unchanged gives back the event |
| EventEditForm.DefaultsValidIff | src/components/dashboard/EventEditForm.tsx:28-61 | an event's own values pass exactly when its name, description and location are long enough |
| SchoolTable.FilterSchools | src/components/dashboard/SchoolTable.tsx:85-89 | the listed schools are exactly those, in order, whose name includes the search term case-insensitively |
| SchoolTable.SearchIgnoresCase | src/components/dashboard/SchoolTable.tsx:85-89 | a search term and its lower case list the same schools |
| SchoolTable.MasterName | src/components/dashboard/SchoolTable.tsx:182-186 | no master id (or 0, or "") gives "No Asignado"; otherwise the name of the first user with that id, or "Desconocido" when none has it |
| SchoolTable.ReportInput | src/components/dashboard/SchoolTable.tsx:151-161 | the worker receives the school as id, name and logo, and exactly the athletes of that school |
| SchoolTable.ReportOfSchool | src/components/dashboard/SchoolTable.tsx:151-161 | the report of a school is titled with its name and has one row per athlete of the school |
| SchoolTable.ReportFileName | src/components/dashboard/SchoolTable.tsx:131 | the download is named "reporte_", the id, "_", the day as `YYYY-MM-DD` and ".pdf" |
| SchoolTable.IsoDate | src/components/dashboard/SchoolTable.tsx:131 | for a year below 10000 the day is written as ten characters `YYYY-MM-DD` whose fields read back as the year, month and day |
| SchoolTable.IsoDateInjective | src/components/dashboard/SchoolTable.tsx:131 | two days in range with the same stamp are the same day |
| SchoolTable.ReportFileNamesDistinct | src/components/dashboard/SchoolTable.tsx:131 | on the same day, two schools with different ids of the same length get different file names |
| SchoolTable.Table.constructor | src/components/dashboard/SchoolTable.tsx:72-83 | the table starts on page 1 with no search, no selection, no report in progress and closed dialogs |
| SchoolTable.Table.HandlePageChange | src/components/dashboard/SchoolTable.tsx:101-105 | the page moves only to a page within range; every other field stays as it was |
| SchoolTable.Table.HandleViewClick | src/components/dashboard/SchoolTable.tsx:107-110 | the school is selected and the details dialog opens; every other field stays as it was |
| SchoolTable.Table.HandleEditClick | src/components/dashboard/SchoolTable.tsx:112-115 | the school is selected and the edit dialog opens; every other field stays as it was |
| SchoolTable.Table.SetSearchTerm | src/components/dashboard/SchoolTable.tsx:199-202 | the search term changes and the page returns to 1; every other field stays as it was |
| SchoolTable.Table.HandleEditSuccess | src/components/dashboard/SchoolTable.tsx:165-168 | the edited school replaces the one with its id and the edit dialog closes; every other field stays as it was |
| SchoolTable.Table.HandleDeleteClick | src/components/dashboard/SchoolTable.tsx:117-120 | the school is selected and the delete dialog opens; every other field stays as it was |
| SchoolTable.Table.ConfirmDelete | src/components/dashboard/SchoolTable.tsx:170-180 | with a selection, the schools with its id are removed and the dialog closes; without one nothing happens; every other field stays as it was |
| SchoolTable.Table.HandleDownload | src/components/dashboard/SchoolTable.tsx:122-162 | the school's report is in progress (its download entry disabled) and the worker gets the report input; every other field stays as it was |
| SchoolTable.Table.OnWorkerMessage | src/components/dashboard/SchoolTable.tsx:126-138 | the file is saved under the report name and the download is enabled again; every other field stays as it was |
| SchoolTable.Table.OnWorkerError | src/components/dashboard/SchoolTable.tsx:140-149 | a failure ends the report in progress and changes nothing else |
| PdfGenerator.Row | src/lib/pdf-generator.ts:31-37 | a body row has one cell per column of the head |
| PdfGenerator.ReportBody | src/lib/pdf-generator.ts:26-37 | one row per athlete |
| PdfGenerator.Pad | src/lib/pdf-generator.ts:20 | the number's own digits preceded by as many zeros as reach the width, and no more |
| PdfGenerator.PadValue | src/lib/pdf-generator.ts:20 | the padded number reads back as the number |
| PdfGenerator.PadField | src/lib/pdf-generator.ts:20 | a number below 10^width takes exactly width characters once padded |
| PdfGenerator.LeadingZero | src/lib/pdf-generator.ts:20 | a leading zero does not change the value of a string of digits |
| PdfGenerator.FormatDate | src/lib/pdf-generator.ts:20 | for a year below 10000 the date is written as ten characters `dd/MM/yyyy` whose fields read back as the day, month and year |
| PdfGenerator.FormatDateInjective | src/lib/pdf-generator.ts:20 | two dates in range with the same stamp are the same date |
| PdfGenerator.SchoolReport | src/lib/pdf-generator.ts:6-68 | the report is titled with the school's label, subtitled "Reporte de Atletas - " and the date, and has the five-column head and the sorted body |
| PdfGenerator.PointsNonIncreasing | src/lib/pdf-generator.ts:26 | the report's athletes are in non-increasing order of points |
| PdfGenerator.ReportBodyRows | src/lib/pdf-generator.ts:31-37 | row `k` holds place `k + 1`, the full name, age, belt and points of the `k`-th sorted athlete |
| PdfGenerator.ReportBodyPermutation | src/lib/pdf-generator.ts:26 | the report lists every athlete of the school exactly once |
| PdfGenerator.ReportBodyPoints | src/lib/pdf-generator.ts:26-37 | the points column never increases down the table |
| PdfGenerator.EmptyReport | src/lib/pdf-generator.ts:28-37 | a school without athletes gets a report with the head and no rows |
| PdfGenerator.ReportTiesKeepOrder | src/lib/pdf-generator.ts:26 | athletes with equal points keep their order |
| PdfGenerator.StampFooters | src/lib/pdf-generator.ts:54-65 | every page from 1 to the page count gets the footer "Página i de n", none for a non-positive count |
| AthleteSearch.FilterAthletes | src/app/components/landing/AthleteSearch.tsx:29-40 | an empty search lists every athlete; otherwise exactly those, in order, whose names include the lower-cased term case-insensitively or whose cédula includes it as typed |
| AthleteSearch.NameCaseInsensitive | src/app/components/landing/AthleteSearch.tsx:30-38 | a search term and its lower case find the same athletes |
| AthleteSearch.UpperCedulaLetterNotFound | src/app/components/landing/AthleteSearch.tsx:37 | an upper-case letter of a cédula does not find it, since the cédula is compared with the lower-cased term |
| AthleteSearch.Search.constructor | src/app/components/landing/AthleteSearch.tsx:20-27 | the search starts from the initial term on page 1 |
| AthleteSearch.Search.RowNumberIsPlace | src/app/components/landing/AthleteSearch.tsx:89-91 | the number shown beside a row is its 1-based place in the filtered list |
| AthleteSearch.Search.HandleLocalSearchChange | src/app/components/landing/AthleteSearch.tsx:52-59 | typing sets the term, forwards it to the parent and returns to page 1 |
| AthleteSearch.Search.SyncInitialSearch | src/app/components/landing/AthleteSearch.tsx:23-25 | a new initial term from the parent replaces the search and keeps the page |
| AthleteSearch.Search.Previous | src/app/components/landing/AthleteSearch.tsx:113-118 | "Anterior", enabled off page 1, moves one page back and stays in range |
| AthleteSearch.Search.Next | src/app/components/landing/AthleteSearch.tsx:122-128 | "Siguiente", enabled off the last page, moves one page on; from a page in range it stays in range |
| AthleteSearch.PastLastPage | src/app/components/landing/AthleteSearch.tsx:48-50 | the unguarded page change lets a page past the last exist: no row is shown, and wherever the pager is rendered (more than one page) "Siguiente" stays enabled |
| Sidebar.MenuItems | src/components/dashboard/Sidebar.tsx:43 | no user sees no item; a user sees exactly the items listing their role, in menu order |
| Sidebar.MenuItemsOfRole | src/components/dashboard/Sidebar.tsx:43 | the menu is the menu list filtered by the user's role |
| Sidebar.AdminMenu | src/components/dashboard/Sidebar.tsx:13-21 | an administrator sees all seven items |
| Sidebar.MasterMenu | src/components/dashboard/Sidebar.tsx:13-21 | a master sees Dashboard, Ranking, Calendario and Reclamos |
| Sidebar.AlumnoMenu | src/components/dashboard/Sidebar.tsx:13-21 | an alumno sees Dashboard and Calendario |
| Sidebar.RepresentanteMenu | src/components/dashboard/Sidebar.tsx:13-21 | a representative sees Dashboard, Calendario and Reclamos |
| Sidebar.DashboardFirst | src/components/dashboard/Sidebar.tsx:13-21 | every signed-in user's menu starts with Dashboard |
| Sidebar.DashboardActiveOnlyAtHome | src/components/dashboard/Sidebar.tsx:73 | the Dashboard item is highlighted only on "/dashboard" itself |
| Sidebar.AtMostOneActive | src/components/dashboard/Sidebar.tsx:73 | no path highlights two menu items |
| Sidebar.DistinctBelowDashboard | src/components/dashboard/Sidebar.tsx:15-20 | no two section links are prefixes of one another |
| Sidebar.InactiveStartsProgress | src/components/dashboard/Sidebar.tsx:36-41 | following a link that is not highlighted always starts the progress bar |
| Sidebar.ActiveBelowStartsProgress | src/components/dashboard/Sidebar.tsx:36-41 | below a section, its highlighted link still starts the progress bar |
| Sidebar.Initials | src/components/dashboard/Sidebar.tsx:45-48 | "U" when a name is missing or empty, otherwise the upper-cased first letters |
| RankingEditForm.ScoreChecks | src/components/dashboard/RankingEditForm.tsx:21-38 | the four score fields are each checked for being a number, an integer and non-negative, one well-formed check per field |
| RankingEditForm.ScoresValidIff | src/components/dashboard/RankingEditForm.tsx:21-38 | the scores pass exactly when ranking, gold, silver and bronze are all non-negative integers |
| RankingEditForm.NegativePlataReported | src/components/dashboard/RankingEditForm.tsx:30-33 | a negative silver count is reported on the `plata` field with the "no puede ser negativo" message |
| RankingEditForm.Defaults | src/components/dashboard/RankingEditForm.tsx:43-51 | the form opens with the athlete's own ranking and medal counts |
| RankingEditForm.DefaultsValidIff | src/components/dashboard/RankingEditForm.tsx:43-51 | the opening values pass validation exactly when the athlete's four counts are non-negative |
| RankingEditForm.SomeDefaultsInvalid | src/lib/mock-data.ts:64-74 | some mock athletes carry negative counts (ranking points below zero, a silver count from a truncated negative remainder), so their form cannot be submitted unchanged |
| RankingEditForm.Apply | src/components/dashboard/RankingEditForm.tsx:62-75 | submitting overwrites the four counts with the entered integers and keeps identity, names and id card |
| RankingEditForm.ApplyDefaults | src/components/dashboard/RankingEditForm.tsx:43-75 | submitting the untouched form gives back the same athlete |
| RankingEditForm.ApplyIdempotent | src/components/dashboard/RankingEditForm.tsx:62-75 | submitting the same scores twice is the same as submitting them once |
| RankingEditForm.Submit | src/components/dashboard/RankingEditForm.tsx:62-75 | the athlete handed to `onSuccess` is the athlete with the entered scores applied |
| AssignRankingForm.FlattenConcat | src/components/dashboard/AssignRankingForm.tsx:35-53 | the issues of two groups of field checks are the issues of each group, in order |
| AssignRankingForm.ValidIff | src/components/dashboard/AssignRankingForm.tsx:35-53 | the form passes exactly when an athlete is chosen and the four counts are non-negative integers |
| AssignRankingForm.AthleteOptions | src/components/dashboard/AssignRankingForm.tsx:59-63 | one option per athlete, in order, valued by the decimal id and labelled "names surnames (id card)" |
| AssignRankingForm.Lookup | src/components/dashboard/AssignRankingForm.tsx:79 | `find` returns an athlete whose rendered id is the chosen value, and returns nothing only when no athlete has it |
| AssignRankingForm.Reset | src/components/dashboard/AssignRankingForm.tsx:78-98 | a found athlete fills the form with its id and counts; otherwise the form goes back to an empty pick and zeros |
| AssignRankingForm.UnknownPickInvalid | src/components/dashboard/AssignRankingForm.tsx:89-97 | after a pick that matches no athlete the form cannot be submitted |
| AssignRankingForm.PickOption | src/components/dashboard/AssignRankingForm.tsx:59-98 | picking the k-th option selects exactly the k-th athlete (ids distinct) and loads its counts |
| AssignRankingForm.Submit | src/components/dashboard/AssignRankingForm.tsx:100-108 | with no selected athlete nothing is saved; otherwise the saved athlete is the selected one with the entered counts |
| AssignRankingForm.PickThenSubmit | src/components/dashboard/AssignRankingForm.tsx:59-108 | choosing an option and submitting at once saves that athlete unchanged |
| ChangePasswordForm.FieldChecks | src/components/dashboard/ChangePasswordForm.tsx:20-23 | the field checks pass exactly when the current password is non-empty and the new one has at least 8 characters |
| ChangePasswordForm.ValidIff | src/components/dashboard/ChangePasswordForm.tsx:20-27 | the form passes exactly when both field checks pass and the confirmation equals the new password |
| ChangePasswordForm.MismatchReported | src/components/dashboard/ChangePasswordForm.tsx:24-27 | a confirmation that differs is reported on `confirmPassword` with "Las contraseñas no coinciden." |
| ChangePasswordForm.DefaultsInvalid | src/components/dashboard/ChangePasswordForm.tsx:37-44 | the empty opening values cannot be submitted |
| ChangePasswordForm.Visibility.constructor | src/components/dashboard/ChangePasswordForm.tsx:32-34 | all three passwords start hidden |
| ChangePasswordForm.Visibility.Toggle | src/components/dashboard/ChangePasswordForm.tsx:55-58 | the eye icon flips the visibility of its own field and of no other |
| ChangePasswordForm.ToggleTwice | src/components/dashboard/ChangePasswordForm.tsx:55-58 | pressing the same eye icon twice restores every field's visibility |
| ProfilePage.ProfileCategory | src/app/dashboard/profile/page.tsx:84-108 | the category shown is one of the eight labels; without a birth date (age 0) it is the youngest category |
| ProfilePage.AvatarSrc | src/app/dashboard/profile/page.tsx:175 | a pending new picture is shown when there is one, the stored picture otherwise |
| ProfilePage.SaveKeepsPicture | src/app/dashboard/profile/page.tsx:138-149 | after saving, the stored picture shows what the preview showed |
| ProfilePage.CancelShowsStored | src/app/dashboard/profile/page.tsx:151-153 | after cancelling, the stored picture is shown again |
| ProfilePage.Page.constructor | src/app/dashboard/profile/page.tsx:68-74 | the page starts from the signed-in user, with no pending picture and both dialogs closed |
| ProfilePage.Page.SyncFromContext | src/app/dashboard/profile/page.tsx:76-78 | the shown profile follows the signed-in user |
| ProfilePage.Page.HandleFileChange | src/app/dashboard/profile/page.tsx:118-136 | no file changes nothing; a file that is not PNG, JPG or JPEG raises the error toast and changes nothing; an accepted file becomes the pending picture |
| ProfilePage.Page.HandleSaveAvatar | src/app/dashboard/profile/page.tsx:138-149 | with a pending picture, profile and signed-in user get it as `photoURL` and the pending picture is cleared; otherwise nothing changes |
| ProfilePage.Page.HandleCancelAvatarChange | src/app/dashboard/profile/page.tsx:151-153 | cancelling clears the pending picture |
| ProfilePage.Page.HandleEditSuccess | src/app/dashboard/profile/page.tsx:155-159 | the edited user becomes both the shown profile and the signed-in user, and the dialog closes |
| ProfilePage.ChooseAndSave | src/app/dashboard/profile/page.tsx:118-149 | choosing an accepted picture and saving stores it as the profile picture and changes no other profile field |
| BeltDistributionChart.ChartData | src/components/dashboard/BeltDistributionChart.tsx:23-37 | one bar per belt in belt order, each counting exactly the athletes wearing that belt, with the belt's colour |
| BeltDistributionChart.BeltOrderDistinct | src/components/dashboard/BeltDistributionChart.tsx:8 | the eight belts of the order are distinct, so no athlete is counted twice |
| BeltDistributionChart.ChartTotal | src/components/dashboard/BeltDistributionChart.tsx:23-37 | the bars add up to the athletes whose belt is one of the eight, at most all athletes, and all of them when every belt is known |
| BeltDistributionChart.UnknownBeltIgnored | src/components/dashboard/BeltDistributionChart.tsx:28-30 | an athlete with a belt outside the order changes no bar |
| BeltDistributionChart.MockBeltsKnown | src/lib/mock-data.ts:58 | every mock athlete wears one of the eight belts |
| UserRoleDistributionChart.ChartData | src/components/dashboard/UserRoleDistributionChart.tsx:39-52 | one bar per role in role order, each counting exactly the users with that role, and the bars add up to all users |
| UserRoleDistributionChart.EveryRoleListed | src/components/dashboard/UserRoleDistributionChart.tsx:8 | every role appears in the chart order |
| UserRoleDistributionChart.TotalOfChart | src/components/dashboard/UserRoleDistributionChart.tsx:39-52 | the bars' total is the sum of the four role counts |
| UserRoleDistributionChart.EveryUserCounted | src/components/dashboard/UserRoleDistributionChart.tsx:39-52 | the four role counts add up to the number of users |
| UserRoleDistributionChart.RoleCycle | src/components/dashboard/UserRoleDistributionChart.tsx:26-27 | a user's role is the entry of the role list at `id % 4`, so roles repeat every four ids |
| UpcomingEvents.Upcoming | src/components/dashboard/UpcomingEvents.tsx:28-34 | the card lists at most five events |
| UpcomingEvents.AheadSpec | src/components/dashboard/UpcomingEvents.tsx:30-32 | the filtered and sorted list is a permutation of the events not yet past, in ascending date order |
| UpcomingEvents.UpcomingSpec | src/components/dashboard/UpcomingEvents.tsx:28-34 | every event shown is a real event not yet past; as many as exist up to five; ascending; none left out is sooner than one shown |
| UpcomingEvents.NoEventsIff | src/components/dashboard/UpcomingEvents.tsx:43-69 | "No hay eventos programados." is shown exactly when every event is in the past |
| RecentAthletesTable.Dated | src/components/dashboard/RecentAthletesTable.tsx:26-28 | the athletes whose registration date parses, each paired with its parsed time, and every such athlete is kept |
| RecentAthletesTable.RecentAthletes | src/components/dashboard/RecentAthletesTable.tsx:25-31 | the table lists at most five athletes |
| RecentAthletesTable.RecentAthletesSpec | src/components/dashboard/RecentAthletesTable.tsx:25-31 | every row is a dated athlete, rows are newest first, no athlete left out is newer than one shown, and there are five rows unless fewer athletes are dated |
| RecentAthletesTable.SortedSpec | src/components/dashboard/RecentAthletesTable.tsx:29 | the sort is a permutation of the dated athletes in descending registration time |
| RecentAthletesTable.SomeListedWhenAnyDated | src/components/dashboard/RecentAthletesTable.tsx:25-31 | the table is non-empty whenever some athlete has a valid registration date |

## Left out

- PDF drawing: jsPDF and autotable drawing, fonts, colours, row shading and the binary blob are left out. They belong to the PDF library. The model states the report's content: title, subtitle, header, body rows and footer labels. The number of pages is an input.
- Worker and browser plumbing: the Web Worker, `postMessage`, object URLs and the download link are left out. They are browser machinery. The table models the message sent, and the generating flag on success and on error.
- Dates: `new Date(...)`, `isValid`, time zones and `date-fns` formatting are left out, because they depend on the engine and the locale. Parsed dates and the current moment are parameters. Calendar days are (year, month, day) triples.
- `Intl.NumberFormat('es-VE')`: the digit grouping in the displayed cédula is the parameter `groupDigits`. Locale data is not part of this model.
- zod's `.email()`: its regular expression is the parameter `isEmail`, since the library that defines it is not part of this model.
- The async `FileReader`: the data URL of a chosen picture is given with the file, because the read happens in the browser.
- Object keys in the histograms: the belt and role counters are maps over the known keys. JavaScript object prototype keys (a belt named `"constructor"`, say) are not modelled, because the mock data holds none.
- Unicode case mapping: `toLowerCase` and `toUpperCase` are modelled on ASCII and on the Latin-1 letters with a one-character partner. 'ß' (upper case "SS"), 'ÿ' (U+0178), 'µ' (U+039C) and characters outside the Basic Multilingual Plane are not modelled. Lengths count code points, not UTF-16 units. The Spanish data uses no such character.
- ToUpper (and UpperChar, which it maps over the text): the length is kept only for the modelled letters. JavaScript upper-cases 'ß' to the two characters "SS", and the model leaves 'ß', 'ÿ' and 'µ' as they are.
- GetInitials: "at most two characters" holds only for the modelled letters. A name starting with 'ß' gives three characters in JavaScript.
- Initials: the two-character result holds only for the modelled letters. A name starting with 'ß' gives more in JavaScript.
- Add dialogs of the user and school tables: `isAddDialogOpen` in UserTable.tsx:104 and SchoolTable.tsx:72 is only toggled by a button and the dialog's own `onOpenChange`, so `UserTable.Table` and `SchoolTable.Table` have no field for it. The forms behind them, UserForm and SchoolForm, are left out as listed below.
- ClaimsPage.VisibleClaims: built, like the whole claims page model, on the corrected `OwnClaims`, which compares the user's id as text. As written (claims/page.tsx:193) a representative with a number id sees nothing; `VisibleClaimsAsWritten` and `NumberIdListsNothing` state that, and `VisibleClaimsTextId` shows both agree for a text id.
- ClaimsPage.VisibleClaimsSpec: states the list for the corrected comparison, not for the `===` test as written; the two agree for a user whose id is text.
- ClaimsPage.Page.Filtered: the page's list uses the corrected comparison, so a number-id representative is shown their claims, where the code as written shows none.
- ClaimsPage.AddedClaimListed: holds for the corrected comparison; as written, a number-id representative does not see the claim they add.
- ClaimForm.FiledClaimIsOwn: "among their claims" is stated for the corrected comparison; as written, a number-id representative does not see the claim filed under `user.id.toString()`.
- Presentation only: the rendering, CSS classes, icons, toasts and console logging are left out, because they carry no logic.
- CalendarView, YearView, CalendarView's in-place sort of the events: left out. They are date-library grid work with no stated contract.
- Other components: TopWinners (hard-coded winners), BeltSystemCard, CategoryListCard, UserForm and SchoolForm (thin schema wrappers), PageProgressBar and its timers, and the landing and layout pages are left out, because they carry no logic worth stating.
- The AI carousel flow is left out: it is a remote model call.
- The birth dates made up by the users page (users/page.tsx:5-10) are left out, because they are drawn with `Math.random`. The role rule of the same pages, `roles[id % 4]`, is modelled as `UserEditForm.MockRole`. The representative each alumno is given (users/page.tsx:20-21) and the master each school is given (schools/page.tsx:17-29) are deterministic, but they are left out: they only wire the demonstration data together and no component states anything about them.
- Duplicated helpers: `getCategory`, `getAge` and `getInitials` are copied into several components. Each is modelled once, because the copies are identical. `getCategory` and `getInitials` are in `RankingTable`; `getAge` is in `UserEditForm`. The sidebar's `getInitials` differs from the others and has its own model, `Sidebar.Initials`.
- Scores as JavaScript numbers: form values are `Finite(real)` or NaN. Infinity is not modelled, because zod's `.int()` rejects it as it rejects every non-integer.
- SchoolTable.ReportFileNamesDistinct: distinct download names are proved only for school ids of the same length. Ids of different lengths are not covered. An id that itself contains `_` and a date could make two names equal, and the lemma does not characterise those ids.

## Findings

| source | as written | input that shows it | evidently intended | confidence | as-written member | corrected member |
|---|---|---|---|---|---|---|
| src/components/dashboard/UserTable.tsx:209-213 | `getRepresentativeName` looks for a user whose numeric `id` is `===` to the representative id, which the edit form stores as text | a user with id 1 and a representative id `"1"`: the lookup fails and shows "Desconocido" | compare the ids as text, so user 1 is found and named | not executed | UserTable.RepresentativeNeverFoundAsWritten, UserTable.Table.SelectedRepresentativeNameAsWritten | UserTable.RepresentativeFound, UserTable.Table.SelectedRepresentativeName |
| src/components/dashboard/EventTable.tsx:184,195 | the type and status selectors change the filter but keep `currentPage`, unlike the search box | nine events, on page 2; the type selector narrows them to eight: page 2 is empty and the pager is hidden | return to page 1 on every filter change, as the search box does | not executed | EventTable.StalePageAfterNarrowing | EventTable.FirstPageAfterSelector |
| src/app/dashboard/claims/page.tsx:193 | a representative sees the claims whose `representativeId` is `===` to `user.id`, but claims hold the id as text and user ids can be numbers | a representative user with numeric id 5 and a claim with representativeId `"5"`: the claim is not visible | compare the user's id rendered as text | not executed | ClaimsPage.NumberIdSeesNoOwnClaims, ClaimsPage.NumberIdListsNothing | ClaimsPage.OwnClaims, ClaimsPage.VisibleClaims |
