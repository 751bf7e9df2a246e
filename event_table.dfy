/**
 * The events administration table: search by name or place, filters by
 * type and status, newest first, eight a page, and the add, edit and delete
 * actions. The type and status selectors do not go back to page 1.
 */
module EventTable {
  import opened Wrappers
  import opened Text
  import opened Seqs
  import opened Sorting
  import opened Pagination
  import opened MockData

  const ItemsPerPage := 8

  function StatusLabel(s: EventStatus): string {
    match s
    case Programado => "Programado"
    case EnCurso => "En Curso"
    case Finalizado => "Finalizado"
    case Cancelado => "Cancelado"
  }

  function TypeLabel(t: EventType): string {
    match t
    case Competencia => "Competencia"
    case Seminario => "Seminario"
    case Exhibicion => "Exhibición"
  }

  /** Every status and type has a label of its own. */
  lemma LabelsDistinct(s1: EventStatus, s2: EventStatus, t1: EventType, t2: EventType)
    ensures StatusLabel(s1) == StatusLabel(s2) ==> s1 == s2
    ensures TypeLabel(t1) == TypeLabel(t2) ==> t1 == t2
  {
  }

  function EventId(e: KarateEvent): string {
    e.id
  }

  function DateKey(e: KarateEvent): seq<int> {
    [e.date]
  }

  predicate SearchMatch(e: KarateEvent, searchTerm: string) {
    Contains(ToLower(e.name), ToLower(searchTerm)) || Contains(ToLower(e.location), ToLower(searchTerm))
  }

  predicate Matches(e: KarateEvent, searchTerm: string, statusFilter: string, typeFilter: string) {
    SearchMatch(e, searchTerm) &&
    (statusFilter == "all" || EventStatusName(e.status) == statusFilter) &&
    (typeFilter == "all" || EventTypeName(e.eventType) == typeFilter)
  }

  /** `filteredEvents`: the matching events, newest first. */
  function FilterEvents(events: seq<KarateEvent>, searchTerm: string, statusFilter: string, typeFilter: string): (r: seq<KarateEvent>)
    ensures |r| <= |events|
  {
    SortDesc(Filter(events, (e: KarateEvent) => Matches(e, searchTerm, statusFilter, typeFilter)), DateKey)
  }

  /** The listed events are the matching ones, each as often, with later dates first. */
  lemma FilterEventsSpec(events: seq<KarateEvent>, searchTerm: string, statusFilter: string, typeFilter: string)
    ensures multiset(FilterEvents(events, searchTerm, statusFilter, typeFilter)) ==
      multiset(Filter(events, (e: KarateEvent) => Matches(e, searchTerm, statusFilter, typeFilter)))
    ensures forall i, j :: 0 <= i < j < |FilterEvents(events, searchTerm, statusFilter, typeFilter)| ==>
      FilterEvents(events, searchTerm, statusFilter, typeFilter)[i].date >= FilterEvents(events, searchTerm, statusFilter, typeFilter)[j].date
  {
    var found := Filter(events, (e: KarateEvent) => Matches(e, searchTerm, statusFilter, typeFilter));
    SortDescMultiset(found, DateKey);
    SortDescSorted(found, DateKey);
    SortedDescOneKey(SortDesc(found, DateKey), DateKey, (e: KarateEvent) => e.date);
  }

  /** An event is listed exactly when it matches all three filters. */
  lemma FilterEventsMembership(events: seq<KarateEvent>, searchTerm: string, statusFilter: string, typeFilter: string, e: KarateEvent)
    ensures e in FilterEvents(events, searchTerm, statusFilter, typeFilter) <==> e in events && Matches(e, searchTerm, statusFilter, typeFilter)
  {
    FilterEventsSpec(events, searchTerm, statusFilter, typeFilter);
    var found := Filter(events, (x: KarateEvent) => Matches(x, searchTerm, statusFilter, typeFilter));
    assert e in FilterEvents(events, searchTerm, statusFilter, typeFilter) <==> e in multiset(found);
    if e in events && Matches(e, searchTerm, statusFilter, typeFilter) {
      var i :| 0 <= i < |events| && events[i] == e;
      assert e in found;
    }
  }

  /** The state of the events table. */
  class Table {
    var eventsData: seq<KarateEvent>
    var currentPage: int
    var searchTerm: string
    var statusFilter: string
    var typeFilter: string
    var selectedEvent: Option<KarateEvent>
    var addDialogOpen: bool
    var viewDialogOpen: bool
    var editDialogOpen: bool
    var deleteDialogOpen: bool

    ghost predicate Valid()
      reads this
    {
      currentPage >= 1
    }

    constructor(initialEvents: seq<KarateEvent>)
      ensures Valid()
      ensures eventsData == initialEvents && currentPage == 1
      ensures searchTerm == "" && statusFilter == "all" && typeFilter == "all"
      ensures selectedEvent.None? && !addDialogOpen && !viewDialogOpen && !editDialogOpen && !deleteDialogOpen
    {
      eventsData := initialEvents;
      currentPage := 1;
      searchTerm := "";
      statusFilter := "all";
      typeFilter := "all";
      selectedEvent := None;
      addDialogOpen := false;
      viewDialogOpen := false;
      editDialogOpen := false;
      deleteDialogOpen := false;
    }

    function Filtered(): seq<KarateEvent>
      reads this
    {
      FilterEvents(eventsData, searchTerm, statusFilter, typeFilter)
    }

    function TotalPages(): nat
      reads this
    {
      Pagination.TotalPages(|Filtered()|, ItemsPerPage)
    }

    function Paginated(): seq<KarateEvent>
      reads this
    {
      PageOf(Filtered(), currentPage, ItemsPerPage)
    }

    /** `handleAddSuccess`: the new event goes first. */
    method HandleAddSuccess(newEvent: KarateEvent)
      requires Valid()
      modifies this
      ensures Valid()
      ensures eventsData == [newEvent] + old(eventsData) && !addDialogOpen
      ensures currentPage == old(currentPage) && searchTerm == old(searchTerm)
      ensures statusFilter == old(statusFilter) && typeFilter == old(typeFilter) && selectedEvent == old(selectedEvent)
      ensures viewDialogOpen == old(viewDialogOpen) && editDialogOpen == old(editDialogOpen) && deleteDialogOpen == old(deleteDialogOpen)
    {
      eventsData := [newEvent] + eventsData;
      addDialogOpen := false;
    }

    /** `handleEditSuccess`: the event with that id is replaced. */
    method HandleEditSuccess(updated: KarateEvent)
      requires Valid()
      modifies this
      ensures Valid()
      ensures eventsData == ReplaceById(old(eventsData), EventId, updated) && !editDialogOpen
      ensures currentPage == old(currentPage) && searchTerm == old(searchTerm)
      ensures statusFilter == old(statusFilter) && typeFilter == old(typeFilter) && selectedEvent == old(selectedEvent)
      ensures addDialogOpen == old(addDialogOpen) && viewDialogOpen == old(viewDialogOpen) && deleteDialogOpen == old(deleteDialogOpen)
    {
      eventsData := ReplaceById(eventsData, EventId, updated);
      editDialogOpen := false;
    }

    method HandlePageChange(page: int)
      requires Valid()
      modifies this
      ensures Valid()
      ensures currentPage == GuardedPage(old(currentPage), page, old(TotalPages()))
      ensures eventsData == old(eventsData) && searchTerm == old(searchTerm)
      ensures statusFilter == old(statusFilter) && typeFilter == old(typeFilter) && selectedEvent == old(selectedEvent)
      ensures addDialogOpen == old(addDialogOpen) && viewDialogOpen == old(viewDialogOpen)
      ensures editDialogOpen == old(editDialogOpen) && deleteDialogOpen == old(deleteDialogOpen)
    {
      if page > 0 && page <= TotalPages() {
        currentPage := page;
      }
    }

    /** `handleViewClick`: the event is selected and its details dialog opens. */
    method HandleViewClick(e: KarateEvent)
      requires Valid()
      modifies this
      ensures Valid()
      ensures selectedEvent == Some(e) && viewDialogOpen
      ensures eventsData == old(eventsData) && currentPage == old(currentPage) && searchTerm == old(searchTerm)
      ensures statusFilter == old(statusFilter) && typeFilter == old(typeFilter)
      ensures addDialogOpen == old(addDialogOpen) && editDialogOpen == old(editDialogOpen) && deleteDialogOpen == old(deleteDialogOpen)
    {
      selectedEvent := Some(e);
      viewDialogOpen := true;
    }

    /** `handleEditClick`: the event is selected and the edit dialog opens. */
    method HandleEditClick(e: KarateEvent)
      requires Valid()
      modifies this
      ensures Valid()
      ensures selectedEvent == Some(e) && editDialogOpen
      ensures eventsData == old(eventsData) && currentPage == old(currentPage) && searchTerm == old(searchTerm)
      ensures statusFilter == old(statusFilter) && typeFilter == old(typeFilter)
      ensures addDialogOpen == old(addDialogOpen) && viewDialogOpen == old(viewDialogOpen) && deleteDialogOpen == old(deleteDialogOpen)
    {
      selectedEvent := Some(e);
      editDialogOpen := true;
    }

    /** The search box goes back to page 1. */
    method SetSearchTerm(term: string)
      requires Valid()
      modifies this
      ensures Valid()
      ensures searchTerm == term && currentPage == 1
      ensures eventsData == old(eventsData) && statusFilter == old(statusFilter) && typeFilter == old(typeFilter)
      ensures selectedEvent == old(selectedEvent) && addDialogOpen == old(addDialogOpen) && viewDialogOpen == old(viewDialogOpen)
      ensures editDialogOpen == old(editDialogOpen) && deleteDialogOpen == old(deleteDialogOpen)
    {
      searchTerm := term;
      currentPage := 1;
    }

    /** The type selector as written: the page stays where it was. */
    method SetTypeFilterAsWritten(value: string)
      requires Valid()
      modifies this
      ensures Valid()
      ensures typeFilter == value && currentPage == old(currentPage)
      ensures eventsData == old(eventsData) && searchTerm == old(searchTerm) && statusFilter == old(statusFilter)
      ensures selectedEvent == old(selectedEvent) && addDialogOpen == old(addDialogOpen) && viewDialogOpen == old(viewDialogOpen)
      ensures editDialogOpen == old(editDialogOpen) && deleteDialogOpen == old(deleteDialogOpen)
    {
      typeFilter := value;
    }

    /** The status selector as written: the page stays where it was. */
    method SetStatusFilterAsWritten(value: string)
      requires Valid()
      modifies this
      ensures Valid()
      ensures statusFilter == value && currentPage == old(currentPage)
      ensures eventsData == old(eventsData) && searchTerm == old(searchTerm) && typeFilter == old(typeFilter)
      ensures selectedEvent == old(selectedEvent) && addDialogOpen == old(addDialogOpen) && viewDialogOpen == old(viewDialogOpen)
      ensures editDialogOpen == old(editDialogOpen) && deleteDialogOpen == old(deleteDialogOpen)
    {
      statusFilter := value;
    }

    /** The type selector going back to page 1, as the search box does. */
    method SetTypeFilter(value: string)
      requires Valid()
      modifies this
      ensures Valid()
      ensures typeFilter == value && currentPage == 1
      ensures eventsData == old(eventsData) && searchTerm == old(searchTerm) && statusFilter == old(statusFilter)
      ensures selectedEvent == old(selectedEvent) && addDialogOpen == old(addDialogOpen) && viewDialogOpen == old(viewDialogOpen)
      ensures editDialogOpen == old(editDialogOpen) && deleteDialogOpen == old(deleteDialogOpen)
    {
      typeFilter := value;
      currentPage := 1;
    }

    /** The status selector going back to page 1, as the search box does. */
    method SetStatusFilter(value: string)
      requires Valid()
      modifies this
      ensures Valid()
      ensures statusFilter == value && currentPage == 1
      ensures eventsData == old(eventsData) && searchTerm == old(searchTerm) && typeFilter == old(typeFilter)
      ensures selectedEvent == old(selectedEvent) && addDialogOpen == old(addDialogOpen) && viewDialogOpen == old(viewDialogOpen)
      ensures editDialogOpen == old(editDialogOpen) && deleteDialogOpen == old(deleteDialogOpen)
    {
      statusFilter := value;
      currentPage := 1;
    }

    method HandleDeleteClick(e: KarateEvent)
      requires Valid()
      modifies this
      ensures Valid()
      ensures selectedEvent == Some(e) && deleteDialogOpen
      ensures eventsData == old(eventsData) && currentPage == old(currentPage) && searchTerm == old(searchTerm)
      ensures statusFilter == old(statusFilter) && typeFilter == old(typeFilter)
      ensures addDialogOpen == old(addDialogOpen) && viewDialogOpen == old(viewDialogOpen) && editDialogOpen == old(editDialogOpen)
    {
      selectedEvent := Some(e);
      deleteDialogOpen := true;
    }

    /** `confirmDelete`: the selected event's id leaves the list; with nothing selected nothing happens. */
    method ConfirmDelete()
      requires Valid()
      modifies this
      ensures Valid()
      ensures old(selectedEvent).None? ==> eventsData == old(eventsData) && deleteDialogOpen == old(deleteDialogOpen)
      ensures old(selectedEvent).Some? ==> eventsData == RemoveById(old(eventsData), EventId, old(selectedEvent).value.id) && !deleteDialogOpen
      ensures currentPage == old(currentPage) && selectedEvent == old(selectedEvent)
      ensures searchTerm == old(searchTerm) && statusFilter == old(statusFilter) && typeFilter == old(typeFilter)
      ensures addDialogOpen == old(addDialogOpen) && viewDialogOpen == old(viewDialogOpen) && editDialogOpen == old(editDialogOpen)
    {
      if selectedEvent.None? {
        return;
      }
      eventsData := RemoveById(eventsData, EventId, selectedEvent.value.id);
      deleteDialogOpen := false;
    }
  }

  /**
   * When a selector narrows the list to one page while the table stays on
   * page 2 or later, the table shows no events and no pager to go back with.
   */
  lemma StalePageAfterNarrowing(t: Table)
    requires t.currentPage >= 2 && |t.Filtered()| <= ItemsPerPage
    ensures t.Paginated() == []
    ensures !PagerShown(t.TotalPages())
  {
    PageOfOutOfRange(t.Filtered(), t.currentPage, ItemsPerPage);
  }

  /**
   * The situation arises: nine competitions on a second page of one, and a
   * type filter that keeps eight of them. All nine share a date, place and
   * status, so the filter alone decides.
   */
  lemma StalePageExample(e: KarateEvent, s: KarateEvent)
    requires e.eventType == Competencia && s.eventType == Seminario
    requires e.date == s.date
    ensures |FilterEvents([e, e, e, e, e, e, e, e, s], "", "all", "all")| == 9
    ensures |FilterEvents([e, e, e, e, e, e, e, e, s], "", "all", "competencia")| == 8
  {
    var events := [e, e, e, e, e, e, e, e, s];
    ContainsEmpty(ToLower(e.name));
    ContainsEmpty(ToLower(s.name));
    var all := Filter(events, (x: KarateEvent) => Matches(x, "", "all", "all"));
    FilterAll(events, (x: KarateEvent) => Matches(x, "", "all", "all"));
    var comp := (x: KarateEvent) => Matches(x, "", "all", "competencia");
    FilterLength(events, comp);
    assert events == [e, e, e, e, e, e, e, e] + [s];
    CountConcat([e, e, e, e, e, e, e, e], [s], comp);
    assert Count([s], comp) == 0;
    CountAllEight(e, comp);
  }

  lemma CountAllEight(e: KarateEvent, p: KarateEvent -> bool)
    requires p(e)
    ensures Count([e, e, e, e, e, e, e, e], p) == 8
  {
    var s := [e, e, e, e, e, e, e, e];
    FilterAll(s, p);
    FilterLength(s, p);
  }

  /** With the selectors going back to page 1, the table shows the first events of the new list, never an empty page over a non-empty list. */
  lemma FirstPageAfterSelector(t: Table)
    requires t.currentPage == 1
    ensures t.Paginated() == t.Filtered()[..Min(ItemsPerPage, |t.Filtered()|)]
    ensures |t.Filtered()| > 0 ==> |t.Paginated()| > 0
  {
  }

  /** Adding an event with a new id and then deleting it gives back the list. */
  lemma AddThenDelete(events: seq<KarateEvent>, e: KarateEvent)
    requires FreshId(events, EventId, e.id)
    ensures RemoveById([e] + events, EventId, e.id) == events
  {
    PrependThenRemove(events, EventId, e);
  }
}
