/** The rows of the two tables, `todo` and `event`, and the event form that fills
    an `event` row. The tables are independent: no row refers to another. */
module Records {

  import opened Results
  import opened Dates

  /** The `date_created` of a task. No clock is modelled: the request that
      creates the task supplies the instant. */
  type Timestamp = int

  /** A payment column. The application only copies these values from the form
      to the row, so the model never computes with them. */
  type Amount = real

  /** A row of the `todo` table. */
  datatype Todo = Todo(id: int, content: string, dateCreated: Timestamp)

  /** A row of the `event` table. */
  datatype Event = Event(
    id: int,
    customerName: string,
    name: string,
    date: Date,
    advancePayment: Amount,
    totalPayment: Amount,
    fullDay: bool)

  /** The form posted to create or to update an event, with the date and the two
      payments already read from their text. `None` is a key the form lacks. */
  datatype EventForm = EventForm(
    eventName: Option<string>,
    customerName: Option<string>,
    eventDate: Option<Date>,
    advancePayment: Option<Amount>,
    totalPayment: Option<Amount>,
    fullDay: Option<string>)

  /** The form has every key the handlers read with `request.form[...]`. */
  predicate HasRequiredKeys(form: EventForm) {
    && form.eventName.Some? && form.customerName.Some? && form.eventDate.Some?
    && form.advancePayment.Some? && form.totalPayment.Some?
  }

  /** The row with id `id` that the form describes. Every key but `full_day`
      is required; `full_day` is a check box, so only its presence counts. */
  function EventFromForm(id: int, form: EventForm): (r: Result<Event>)
    ensures r.Ok? <==> HasRequiredKeys(form)
    ensures r.Err? ==> r.error == BadRequest
    ensures r.Ok? ==> r.value == Event(id, form.customerName.value, form.eventName.value,
                                       form.eventDate.value, form.advancePayment.value,
                                       form.totalPayment.value, form.fullDay.Some?)
  {
    match (form.eventName, form.customerName, form.eventDate, form.advancePayment, form.totalPayment)
    case (Some(name), Some(customer), Some(date), Some(advance), Some(total)) =>
      Ok(Event(id, customer, name, date, advance, total, form.fullDay.Some?))
    case _ => Err(BadRequest)
  }
}
