/** The application's route handlers, recast as operations on an in-memory store
    that holds the two tables. A handler that writes ends with a commit; the
    `commitOk` parameter says whether the database accepted it. When it does not,
    the session's pending changes are discarded and the tables stay as they were. */
module Store {

  import opened Results
  import opened Dates
  import opened Records
  import opened Sorting
  import opened Tables
  import opened EventQuery
  import opened Calendar

  /** Tasks are listed by `date_created`. */
  function CreatedKey(t: Todo): int {
    t.dateCreated
  }

  /** The feed built from a scan has an entry for every stored event. */
  lemma BookedDatesCoverTable(rows: seq<Event>, ids: seq<int>, table: map<int, Event>)
    requires ListsTable(rows, ids, table)
    ensures forall id :: id in table ==> EntryFor(table[id]) in BookedDates(rows)
  {
    var feed := BookedDates(rows);
    BookedDatesEntries(rows);
    forall id | id in table ensures EntryFor(table[id]) in feed {
      var i :| 0 <= i < |ids| && ids[i] == id;
      assert feed[i] == EntryFor(rows[i]) && rows[i] == table[id];
    }
  }

  /** Every entry of the feed built from a scan comes from a stored event. */
  lemma BookedDatesFromTable(rows: seq<Event>, ids: seq<int>, table: map<int, Event>)
    requires ListsTable(rows, ids, table)
    ensures forall c :: c in BookedDates(rows) ==> exists id :: id in table && c == EntryFor(table[id])
  {
    var feed := BookedDates(rows);
    BookedDatesEntries(rows);
    forall c | c in feed ensures exists id :: id in table && c == EntryFor(table[id]) {
      var i :| 0 <= i < |feed| && feed[i] == c;
      var id := ids[i];
      assert id in table && rows[i] == table[id];
      assert c == EntryFor(table[id]);
    }
  }

  class Database {
    var todos: map<int, Todo>
    var events: map<int, Event>

    /** Every row is stored under its own id. */
    ghost predicate Valid()
      reads this
    {
      && (forall id :: id in todos ==> todos[id].id == id)
      && (forall id :: id in events ==> events[id].id == id)
    }

    constructor ()
      ensures Valid() && todos == map[] && events == map[]
    {
      todos, events := map[], map[];
    }

    // -------------------------------------------------------------------------
    // The `todo` table

    /** POST to the task list: insert a task with the posted content, created at `now`. */
    method AddTask(content: Option<string>, now: Timestamp, commitOk: bool) returns (r: Result<int>)
      requires Valid()
      modifies this
      ensures Valid() && events == old(events)
      ensures content.None? ==> r == Err(BadRequest) && todos == old(todos)
      ensures content.Some? && !commitOk ==> r == Err(CommitFailed) && todos == old(todos)
      ensures content.Some? && commitOk ==>
                && r.Ok? && r.value !in old(todos)
                && (forall k :: k in old(todos) ==> k < r.value)
                && todos == old(todos)[r.value := Todo(r.value, content.value, now)]
    {
      if content.None? {
        return Err(BadRequest);
      }
      var id := NextRowId(todos.Keys);
      if !commitOk {
        return Err(CommitFailed);
      }
      todos := todos[id := Todo(id, content.value, now)];
      r := Ok(id);
    }

    /** GET of the task list: every stored task, oldest first. Tasks created at
        the same instant may come in any order. */
    method ListTasks() returns (tasks: seq<Todo>, ghost rows: seq<Todo>)
      requires Valid()
      ensures IsScanOf(rows, todos) && multiset(tasks) == multiset(rows)
      ensures |tasks| == |todos|
      ensures forall t :: multiset(tasks)[t] == if t.id in todos && todos[t.id] == t then 1 else 0
      ensures SortedBy(tasks, CreatedKey)
    {
      var scanned;
      ghost var ids;
      scanned, ids := Scan(todos);
      rows := scanned;
      tasks := SortBy(scanned, CreatedKey);
      forall t ensures multiset(tasks)[t] == if t.id in todos && todos[t.id] == t then 1 else 0 {
        KeyedByOwnId(todos, (t: Todo) => t.id, t);
        ScanCounts(rows, ids, todos, t);
      }
    }

    /** `get_or_404` on the `todo` table. */
    method FindTask(id: int) returns (r: Result<Todo>)
      requires Valid()
      ensures r.Ok? <==> id in todos
      ensures r.Ok? ==> r.value == todos[id] && r.value.id == id
      ensures r.Err? ==> r.error == NotFound
    {
      if id in todos {
        r := Ok(todos[id]);
      } else {
        r := Err(NotFound);
      }
    }

    /** Delete a task; an id that is not in the table is reported as not found. */
    method DeleteTask(id: int, commitOk: bool) returns (r: Outcome)
      requires Valid()
      modifies this
      ensures Valid() && events == old(events)
      ensures id !in old(todos) ==> r == Failed(NotFound) && todos == old(todos)
      ensures id in old(todos) && !commitOk ==> r == Failed(CommitFailed) && todos == old(todos)
      ensures id in old(todos) && commitOk ==> r == Done && todos == old(todos) - {id}
    {
      var found := FindTask(id);
      if found.Err? {
        return Failed(NotFound);
      }
      if !commitOk {
        return Failed(CommitFailed);
      }
      todos := todos - {id};
      r := Done;
    }

    /** POST to a task's edit page: replace its content and nothing else. */
    method UpdateTask(id: int, content: Option<string>, commitOk: bool) returns (r: Outcome)
      requires Valid()
      modifies this
      ensures Valid() && events == old(events)
      ensures id !in old(todos) ==> r == Failed(NotFound) && todos == old(todos)
      ensures id in old(todos) && content.None? ==> r == Failed(BadRequest) && todos == old(todos)
      ensures id in old(todos) && content.Some? && !commitOk ==>
                r == Failed(CommitFailed) && todos == old(todos)
      ensures id in old(todos) && content.Some? && commitOk ==>
                && r == Done
                && todos == old(todos)[id := old(todos)[id].(content := content.value)]
                && todos[id].id == id && todos[id].dateCreated == old(todos)[id].dateCreated
    {
      var found := FindTask(id);
      if found.Err? {
        return Failed(NotFound);
      }
      if content.None? {
        return Failed(BadRequest);
      }
      if !commitOk {
        return Failed(CommitFailed);
      }
      todos := todos[id := found.value.(content := content.value)];
      r := Done;
    }

    // -------------------------------------------------------------------------
    // The `event` table

    /** POST to the event list: insert the event the form describes. */
    method AddEvent(form: EventForm, commitOk: bool) returns (r: Result<int>)
      requires Valid()
      modifies this
      ensures Valid() && todos == old(todos)
      ensures !HasRequiredKeys(form) ==> r == Err(BadRequest) && events == old(events)
      ensures HasRequiredKeys(form) && !commitOk ==> r == Err(CommitFailed) && events == old(events)
      ensures HasRequiredKeys(form) && commitOk ==>
                && r.Ok? && r.value !in old(events)
                && (forall k :: k in old(events) ==> k < r.value)
                && events == old(events)[r.value := EventFromForm(r.value, form).value]
    {
      var id := NextRowId(events.Keys);
      var made := EventFromForm(id, form);
      if made.Err? {
        return Err(BadRequest);
      }
      if !commitOk {
        return Err(CommitFailed);
      }
      events := events[id := made.value];
      r := Ok(id);
    }

    /** GET of the event list: the stored events, filtered by `filter_full_day`
        and then sorted by `sort_date`, the query being built one step at a time. */
    method ListEvents(filterParam: Option<string>, sortParam: Option<string>)
      returns (listing: seq<Event>, ghost rows: seq<Event>)
      requires Valid()
      ensures IsScanOf(rows, events) && IsEventListing(rows, filterParam, sortParam, listing)
      ensures forall e :: multiset(listing)[e] ==
                if e.id in events && events[e.id] == e && Keeps(FullDayFilter(filterParam), e) then 1 else 0
      ensures DateOrder(sortParam) == Some(Ascending) ==> DatesAscending(listing)
      ensures DateOrder(sortParam) == Some(Descending) ==> DatesDescending(listing)
    {
      var scanned;
      ghost var ids;
      scanned, ids := Scan(events);
      rows := scanned;
      var query := scanned;
      var filter := FullDayFilter(filterParam);
      if filter.Some? {
        query := FilterFullDay(query, filter);
      } else {
        FilterFullDayNone(rows);
      }
      match DateOrder(sortParam) {
        case Some(Ascending) =>
          query := SortBy(query, AscendingKey);
          SortedByAscendingKey(query);
        case Some(Descending) =>
          query := SortBy(query, DescendingKey);
          SortedByDescendingKey(query);
        case None =>
      }
      listing := query;
      forall e ensures multiset(listing)[e] ==
                if e.id in events && events[e.id] == e && Keeps(FullDayFilter(filterParam), e) then 1 else 0
      {
        ListingContents(rows, filterParam, sortParam, listing, e);
        KeyedByOwnId(events, (e: Event) => e.id, e);
        ScanCounts(rows, ids, events, e);
      }
    }

    /** `get_or_404` on the `event` table. */
    method FindEvent(id: int) returns (r: Result<Event>)
      requires Valid()
      ensures r.Ok? <==> id in events
      ensures r.Ok? ==> r.value == events[id] && r.value.id == id
      ensures r.Err? ==> r.error == NotFound
    {
      if id in events {
        r := Ok(events[id]);
      } else {
        r := Err(NotFound);
      }
    }

    /** POST to an event's edit page: replace all six fields from the form. A form
        that lacks a required key changes nothing. */
    method UpdateEvent(id: int, form: EventForm, commitOk: bool) returns (r: Outcome)
      requires Valid()
      modifies this
      ensures Valid() && todos == old(todos)
      ensures id !in old(events) ==> r == Failed(NotFound) && events == old(events)
      ensures id in old(events) && !HasRequiredKeys(form) ==>
                r == Failed(BadRequest) && events == old(events)
      ensures id in old(events) && HasRequiredKeys(form) && !commitOk ==>
                r == Failed(CommitFailed) && events == old(events)
      ensures id in old(events) && HasRequiredKeys(form) && commitOk ==>
                && r == Done
                && events == old(events)[id := EventFromForm(id, form).value]
    {
      var found := FindEvent(id);
      if found.Err? {
        return Failed(NotFound);
      }
      var made := EventFromForm(id, form);
      if made.Err? {
        return Failed(BadRequest);
      }
      if !commitOk {
        return Failed(CommitFailed);
      }
      events := events[id := made.value];
      r := Done;
    }

    /** Delete an event. Unlike task deletion, an id that is not in the table is
        no error: nothing happens and the handler still succeeds. The commit is
        not guarded, so its failure surfaces as an error. */
    method DeleteEvent(id: int, commitOk: bool) returns (r: Outcome)
      requires Valid()
      modifies this
      ensures Valid() && todos == old(todos)
      ensures id !in old(events) ==> r == Done && events == old(events)
      ensures id in old(events) && !commitOk ==> r == Failed(CommitFailed) && events == old(events)
      ensures id in old(events) && commitOk ==> r == Done && events == old(events) - {id}
    {
      if id in events {
        if !commitOk {
          return Failed(CommitFailed);
        }
        events := events - {id};
      }
      r := Done;
    }

    /** The home page's calendar feed: one entry per stored event, in the order
        the store hands the events over. */
    method HomePage() returns (bookedDates: seq<CalendarEntry>, ghost rows: seq<Event>)
      requires Valid()
      ensures IsScanOf(rows, events)
      ensures |bookedDates| == |rows| == |events|
      ensures forall i :: 0 <= i < |rows| ==>
                && bookedDates[i].title == rows[i].customerName
                && bookedDates[i].start == FormatIsoDate(rows[i].date)
      ensures forall id :: id in events ==> EntryFor(events[id]) in bookedDates
      ensures forall c :: c in bookedDates ==> exists id :: id in events && c == EntryFor(events[id])
    {
      var scanned;
      ghost var ids;
      scanned, ids := Scan(events);
      rows := scanned;
      bookedDates := BookedDates(scanned);
      BookedDatesEntries(rows);
      BookedDatesCoverTable(rows, ids, events);
      BookedDatesFromTable(rows, ids, events);
    }
  }
}
