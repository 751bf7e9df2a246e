/**
 * The dashboard's recently registered athletes: each athlete's registration
 * date is read, athletes whose date does not read as a valid date are
 * dropped, and the five latest are listed, latest first. `readDate` stands
 * for `new Date(text)` followed by `isValid`: a timestamp in milliseconds,
 * or nothing for an invalid date.
 */
module RecentAthletesTable {
  import opened Wrappers
  import opened Seqs
  import opened Sorting
  import opened MockData

  const Limit := 5

  /** An athlete with the registration date read as a timestamp (a fresh record; the list is left as it is). */
  datatype Registered = Registered(athlete: Athlete, registeredAt: int)

  /** The `map` and `filter` steps: the athletes whose date reads, in list order, with that date. */
  function Dated(athletes: seq<Athlete>, readDate: string -> Option<int>): (r: seq<Registered>)
    ensures |r| <= |athletes|
    ensures forall i :: 0 <= i < |r| ==> r[i].athlete in athletes && readDate(r[i].athlete.registrationDate) == Some(r[i].registeredAt)
    ensures forall a :: a in athletes && readDate(a.registrationDate).Some? ==> Registered(a, readDate(a.registrationDate).value) in r
  {
    if athletes == [] then []
    else
      var a := athletes[0];
      var rest := Dated(athletes[1..], readDate);
      assert forall x :: x in athletes[1..] ==> x in athletes;
      match readDate(a.registrationDate)
      case None => rest
      case Some(t) => [Registered(a, t)] + rest
  }

  function Latest(r: Registered): seq<int> {
    [r.registeredAt]
  }

  function Sorted(athletes: seq<Athlete>, readDate: string -> Option<int>): seq<Registered> {
    SortDesc(Dated(athletes, readDate), Latest)
  }

  /** `recentAthletes` */
  function RecentAthletes(athletes: seq<Athlete>, readDate: string -> Option<int>): (r: seq<Registered>)
    ensures |r| <= Limit
  {
    Take(Sorted(athletes, readDate), Limit)
  }

  /**
   * What the table lists: athletes of the list with a valid date, latest
   * first, none registered earlier than one left out, and five of them
   * unless fewer have a valid date.
   */
  lemma RecentAthletesSpec(athletes: seq<Athlete>, readDate: string -> Option<int>)
    ensures forall i :: 0 <= i < |RecentAthletes(athletes, readDate)| ==>
      RecentAthletes(athletes, readDate)[i].athlete in athletes &&
      readDate(RecentAthletes(athletes, readDate)[i].athlete.registrationDate) == Some(RecentAthletes(athletes, readDate)[i].registeredAt)
    ensures forall i, j :: 0 <= i < j < |RecentAthletes(athletes, readDate)| ==>
      RecentAthletes(athletes, readDate)[i].registeredAt >= RecentAthletes(athletes, readDate)[j].registeredAt
    ensures forall i, j :: 0 <= i < |RecentAthletes(athletes, readDate)| <= j < |Sorted(athletes, readDate)| ==>
      RecentAthletes(athletes, readDate)[i].registeredAt >= Sorted(athletes, readDate)[j].registeredAt
    ensures multiset(Sorted(athletes, readDate)) == multiset(Dated(athletes, readDate))
    ensures |RecentAthletes(athletes, readDate)| == if |Dated(athletes, readDate)| < Limit then |Dated(athletes, readDate)| else Limit
  {
    var sorted := Sorted(athletes, readDate);
    SortedSpec(athletes, readDate);
    assert |sorted| == |multiset(sorted)| == |multiset(Dated(athletes, readDate))| == |Dated(athletes, readDate)|;
    var r := RecentAthletes(athletes, readDate);
    assert r == sorted[..|r|];
    forall i | 0 <= i < |r| ensures r[i] == sorted[i] {
    }
  }

  /** The sorted list holds the dated athletes, latest first. */
  lemma SortedSpec(athletes: seq<Athlete>, readDate: string -> Option<int>)
    ensures multiset(Sorted(athletes, readDate)) == multiset(Dated(athletes, readDate))
    ensures forall i :: 0 <= i < |Sorted(athletes, readDate)| ==> Sorted(athletes, readDate)[i] in Dated(athletes, readDate)
    ensures forall i, j :: 0 <= i < j < |Sorted(athletes, readDate)| ==>
      Sorted(athletes, readDate)[i].registeredAt >= Sorted(athletes, readDate)[j].registeredAt
  {
    var dated := Dated(athletes, readDate);
    var sorted := Sorted(athletes, readDate);
    SortDescMultiset(dated, Latest);
    SortDescSorted(dated, Latest);
    SortedDescOneKey(sorted, Latest, (r: Registered) => r.registeredAt);
    forall i | 0 <= i < |sorted| ensures sorted[i] in dated {
      assert sorted[i] in multiset(dated);
    }
  }

  /** Athletes whose date reads are never all left out: with any of them the table is not empty. */
  lemma SomeListedWhenAnyDated(athletes: seq<Athlete>, readDate: string -> Option<int>, a: Athlete)
    requires a in athletes && readDate(a.registrationDate).Some?
    ensures |RecentAthletes(athletes, readDate)| > 0
  {
    var dated := Dated(athletes, readDate);
    assert Registered(a, readDate(a.registrationDate).value) in dated;
  }
}
