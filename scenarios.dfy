/** Clients of the store that replay two request sequences and state what a user
    sees afterwards, using only the handlers' contracts. */
module Scenarios {

  import opened Results
  import opened Dates
  import opened Records
  import opened Sorting
  import opened Store

  /** A task posted later than every stored task is the last one the task list shows. */
  method NewTaskListedLast(db: Database, content: string, now: Timestamp)
    returns (added: Result<int>, tasks: seq<Todo>)
    requires db.Valid()
    requires forall id :: id in db.todos ==> db.todos[id].dateCreated < now
    modifies db
    ensures db.Valid()
    ensures added.Ok? && tasks != [] && tasks[|tasks| - 1] == Todo(added.value, content, now)
  {
    added := db.AddTask(Some(content), now, true);
    ghost var rows;
    tasks, rows := db.ListTasks();
    var newest := Todo(added.value, content, now);
    assert newest in tasks;
    forall t | t in tasks && t != newest ensures CreatedKey(t) < CreatedKey(newest) {
      assert t.id in db.todos && t.id != added.value;
    }
    GreatestKeyIsLast(tasks, CreatedKey, newest);
  }

  /** Posting a booking and then re-posting its form with another total payment
      leaves every other field of the row as it was. */
  method RepostWithNewTotal(db: Database, form: EventForm, newTotal: Amount)
    returns (added: Result<int>, updated: Outcome)
    requires db.Valid() && HasRequiredKeys(form)
    modifies db
    ensures db.Valid() && added.Ok? && updated == Done && added.value in db.events
    ensures added.value !in old(db.events)
    ensures db.todos == old(db.todos)
    ensures db.events == old(db.events)[added.value := db.events[added.value]]
    ensures var e := db.events[added.value];
              && e.totalPayment == newTotal
              && e.id == added.value
              && e.name == form.eventName.value
              && e.customerName == form.customerName.value
              && e.date == form.eventDate.value
              && e.advancePayment == form.advancePayment.value
              && e.fullDay == form.fullDay.Some?
  {
    added := db.AddEvent(form, true);
    updated := db.UpdateEvent(added.value, form.(totalPayment := Some(newTotal)), true);
  }
}
