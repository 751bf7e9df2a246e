/**
 * The dashboard's upcoming events: the events dated now or later, nearest
 * first, at most five; an empty list shows a message instead.
 */
module UpcomingEvents {
  import opened Seqs
  import opened Sorting
  import opened MockData

  const Limit := 5
  const NoEventsMessage := "No hay eventos programados."

  predicate NotPast(now: int, e: KarateEvent) {
    e.date >= now
  }

  /** Nearest first: the stable sort on the negated date (the comparator `a.date - b.date`). */
  function Nearness(e: KarateEvent): seq<int> {
    [-e.date]
  }

  /** The events not yet past, in ascending date order. */
  function Ahead(events: seq<KarateEvent>, now: int): seq<KarateEvent> {
    SortDesc(Filter(events, e => NotPast(now, e)), Nearness)
  }

  /** `upcomingEvents` */
  function Upcoming(events: seq<KarateEvent>, now: int): (r: seq<KarateEvent>)
    ensures |r| <= Limit
  {
    Take(Ahead(events, now), Limit)
  }

  /** The events from now on, each as often as it appears, in ascending date order. */
  lemma AheadSpec(events: seq<KarateEvent>, now: int)
    ensures multiset(Ahead(events, now)) == multiset(Filter(events, e => NotPast(now, e)))
    ensures forall i, j :: 0 <= i < j < |Ahead(events, now)| ==> Ahead(events, now)[i].date <= Ahead(events, now)[j].date
  {
    var found := Filter(events, e => NotPast(now, e));
    SortDescMultiset(found, Nearness);
    SortDescSorted(found, Nearness);
    SortedDescOneKey(SortDesc(found, Nearness), Nearness, (e: KarateEvent) => -e.date);
  }

  /**
   * What the card lists: events from now on, in ascending date order, five
   * of them when there are that many, and none later than an event left
   * out.
   */
  lemma UpcomingSpec(events: seq<KarateEvent>, now: int)
    ensures forall i :: 0 <= i < |Upcoming(events, now)| ==> Upcoming(events, now)[i] in events && Upcoming(events, now)[i].date >= now
    ensures |Upcoming(events, now)| == if Count(events, e => NotPast(now, e)) < Limit then Count(events, e => NotPast(now, e)) else Limit
    ensures forall i, j :: 0 <= i < j < |Upcoming(events, now)| ==> Upcoming(events, now)[i].date <= Upcoming(events, now)[j].date
    ensures forall i, j :: 0 <= i < |Upcoming(events, now)| <= j < |Ahead(events, now)| ==> Upcoming(events, now)[i].date <= Ahead(events, now)[j].date
  {
    var found := Filter(events, e => NotPast(now, e));
    var ahead := Ahead(events, now);
    AheadSpec(events, now);
    FilterLength(events, e => NotPast(now, e));
    assert |ahead| == |found|;
    forall i | 0 <= i < |ahead| ensures ahead[i] in events && ahead[i].date >= now {
      assert ahead[i] in multiset(found);
    }
  }

  /** The message shows exactly when no event lies ahead. */
  lemma NoEventsIff(events: seq<KarateEvent>, now: int)
    ensures Upcoming(events, now) == [] <==> forall i :: 0 <= i < |events| ==> events[i].date < now
  {
    UpcomingSpec(events, now);
    if exists i :: 0 <= i < |events| && events[i].date >= now {
      var i :| 0 <= i < |events| && events[i].date >= now;
      CountPositive(events, e => NotPast(now, e), i);
    } else {
      CountNone(events, e => NotPast(now, e));
    }
  }
}
