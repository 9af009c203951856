# Hotel management: task list and event bookings

This project models the route handlers of a small Flask application that keeps
two independent tables in one SQLite database:

- `todo`: tasks with a text `content` and a `date_created` instant.
- `event`: bookings with a customer name, an event name, a calendar date, an
  advance payment, a total payment and a `full_day` flag.

The database is replaced by an in-memory store, the class `Store.Database`. It
holds one map from id to row per table. Each handler becomes a method on the
store. The contract of each write method states the whole new state of both
tables, including every error path. The read methods and the pure parts of the
handlers are proved against independent specifications:

- the event listing: a full-day filter chosen by a case-insensitive word, then
  a case-sensitive `asc`/`desc` sort by date;
- the calendar feed: each event becomes a title and a YYYY-MM-DD start day.
  This is the complete representation, extended format, of section 4.1.2.2 of
  ISO 8601:2004.

Modules, one per file:

- `Results` (results.dfy): `Option`, `Result` and `Outcome`. Also the three ways
  a request can fail: `NotFound` (the 404 of `get_or_404`), `BadRequest` (the 400
  for a missing form key) and `CommitFailed`.
- `Dates` (dates.dfy): valid Gregorian dates, their chronological order, the
  YYYY-MM-DD formatter and its strict inverse.
- `Records` (records.dfy): the `Todo` and `Event` rows and the event form.
- `Sorting` (sorting.dfy): sorting by an integer key, standing in for `ORDER BY`.
- `EventQuery` (event_query.dfy): the filter and sort decisions of the event list
  and the specification of a correct listing.
- `Calendar` (calendar.dfy): the `booked_dates` projection.
- `Tables` (tables.dfy): a full-table scan in an order the store chooses, and the
  id SQLite gives a new row.
- `Store` (store.dfy): the `Database` class and its handlers.
- `Scenarios` (scenarios.dfy): two request sequences replayed against the
  handlers' contracts.

Two behaviours of the handlers worth noting:

- The task handlers do not reject empty content. `nullable=False` only rules out
  a missing value, and the form always supplies a string. `AddTask` and
  `UpdateTask` therefore accept `""`.
- The only input failure the model represents is a missing form key. Flask
  answers it with 400 before anything is written. Malformed numbers or dates
  are left out (see "## Left out").

## Model

| member | source | states |
|---|---|---|
| `Dates.PadDigits` | app.py:50 | `n` written with exactly `width` digits; the digits denote `n` |
| `Dates.PadDigitsOfValue` | app.py:50 | re-padding the value of a digit string gives the same string back |
| `Dates.FormatIsoDate` | app.py:50 | ten characters: four year digits, `-`, two month digits, `-`, two day digits, each group denoting that field |
| `Dates.FormatThenParse` | app.py:50 | the strict YYYY-MM-DD reading of the formatted date is the date itself |
| `Dates.ParseThenFormat` | app.py:50 | any string the strict reading accepts is the formatter's output for its date, so the layout is one-to-one |
| `Dates.DateKeyOrder` | app.py:145-147 | the sort key orders dates exactly as chronological (year, month, day) order does |
| `Sorting.InsertBy` | app.py:71 | inserting into a sorted sequence keeps it sorted and adds exactly one occurrence of the element |
| `Sorting.SortBy` | app.py:71 | the result is sorted by the key and is a permutation of the input |
| `Sorting.GreatestKeyIsLast` | app.py:71 | in a sorted listing, a row whose key beats every other row's is last |
| `Records.EventFromForm` | app.py:105-119 | succeeds exactly when the five required keys are present, otherwise `BadRequest`; the row copies each field; `full_day` is true exactly when its key is present |
| `EventQuery.Lower` | app.py:138 | same length as its input; no upper-case letter is left; each character is either kept or is the lower-case form of the upper-case letter at that position |
| `EventQuery.LowerMatchesIgnoringCase` | app.py:138-140 | lower-casing gives a lower-case word exactly when the input spells it in any mix of cases |
| `EventQuery.FullDayFilter` | app.py:137-141 | no parameter means no filter; a filter on full-day rows comes only from a spelling of "true", and one on other rows only from a spelling of "false", in any mix of cases |
| `EventQuery.FullDayFilterSpelling` | app.py:137-141 | the filter keeps full-day rows exactly for "true" in any case, other rows exactly for "false" in any case, and is off for anything else |
| `EventQuery.FilterFullDay` | app.py:139-141 | `filter_by(full_day=...)`: never more rows than the input, and every row kept is an input row the filter accepts |
| `EventQuery.FilterFullDayCounts` | app.py:139-141 | each row the filter keeps appears as often as in the input; every other row is gone |
| `EventQuery.FilterFullDayNone` | app.py:137 | with no filter the rows come back unchanged and in the same order |
| `EventQuery.DateOrder` | app.py:144-147 | ascending exactly for `"asc"`, descending exactly for `"desc"`, matched case-sensitively |
| `EventQuery.SortedByAscendingKey` | app.py:145 | rows sorted by the ascending key have non-decreasing dates |
| `EventQuery.SortedByDescendingKey` | app.py:147 | rows sorted by the descending key have non-increasing dates |
| `EventQuery.ListingContents` | app.py:136-149 | whatever the sort, a listing holds exactly the rows the filter keeps, each as often as stored |
| `EventQuery.ListingFilterTrue` | app.py:138-139 | a filter spelling "true" in any case lists exactly the stored full-day events |
| `EventQuery.ListingFilterFalse` | app.py:140-141 | a filter spelling "false" in any case lists exactly the stored events that are not full-day |
| `EventQuery.ListingFilterIgnored` | app.py:137-141 | an absent filter, or one spelling neither word, lists every stored event |
| `EventQuery.ListingUnsorted` | app.py:143-147 | a `sort_date` other than exactly "asc" or "desc" (for example "ASC") keeps the filtered rows in store order |
| `Calendar.EntryFor` | app.py:50 | title is the customer name; start reads back, in the YYYY-MM-DD layout, as the event's date |
| `Calendar.BookedDates` | app.py:49-52 | one entry per event, in the same order, each titled with its customer and starting on its date |
| `Calendar.BookedDateStart` | app.py:50 | each start is exactly the YYYY-MM-DD string of its event's date |
| `Calendar.BookedDatesEntries` | app.py:49-52 | the feed's entry at each position is the entry of the event at that position |
| `Calendar.AcmeExample` | app.py:49-52 | customer "Acme" booked on 5 March 2024 yields `{title: "Acme", start: "2024-03-05"}` |
| `Tables.Scan` | app.py:46 | a full scan lists each row of the table exactly once, in an order the store chooses; it is as long as the table and holds exactly the stored rows |
| `Tables.ScanLength` | app.py:46 | a scan has one row per key |
| `Tables.ScanMembers` | app.py:46 | a scan holds exactly the stored rows |
| `Tables.ScanCounts` | app.py:46 | when no two keys hold the same row, each stored row occurs once in a scan and nothing else occurs |
| `Tables.KeyedByOwnId` | app.py:11 | when every row carries its own key as id, no two keys hold the same row, and a row is stored exactly when it sits under its id |
| `Tables.NextRowId` | app.py:11 | a new row gets one more than the largest id in use, or 1 in an empty table; the id is never in use |
| `Store.Database.AddTask` | app.py:59-68 | a missing `content` key is `BadRequest`; a failed commit changes nothing; otherwise exactly one row is added under a fresh id, created at the given instant; `event` is untouched |
| `Store.Database.ListTasks` | app.py:71 | as many tasks as stored, each stored task exactly once and nothing else, in non-decreasing `date_created` order |
| `Store.Database.FindTask` | app.py:87 | the stored task when the id is present, else `NotFound` |
| `Store.Database.DeleteTask` | app.py:74-83 | a missing id is `NotFound` and changes nothing; a failed commit changes nothing; otherwise exactly that row is removed |
| `Store.Database.UpdateTask` | app.py:85-96 | a missing id is `NotFound`, and a missing `content` key is `BadRequest`; otherwise, when the commit succeeds, only that row's `content` changes, keeping its id and `date_created` |
| `Store.Database.AddEvent` | app.py:103-127 | a form missing a required key is `BadRequest`; a failed commit changes nothing; otherwise exactly one row built from the form is added under a fresh id; `todo` is untouched |
| `Store.Database.ListEvents` | app.py:130-150 | each stored event the filter keeps appears exactly once and nothing else does; dates ascend for `asc` and descend for `desc`; for some full scan of the table the listing meets `IsEventListing`, so without a sort the filtered rows keep store order |
| `Store.Database.FindEvent` | app.py:153 | the stored event when the id is present, else `NotFound` |
| `Store.Database.UpdateEvent` | app.py:151-168 | a missing id is `NotFound`; an incomplete form is `BadRequest` and changes nothing; otherwise, when the commit succeeds, all six fields of that row are replaced from the form and no other row changes |
| `Store.Database.DeleteEvent` | app.py:175-183 | a missing id succeeds and changes nothing; otherwise, when the commit succeeds, exactly that row is removed |
| `Store.Database.HomePage` | app.py:41-54 | one calendar entry per stored event, in the order of a full scan, titled with the customer name and starting on the YYYY-MM-DD date; every stored event has its entry and no entry comes from elsewhere |
| `Store.BookedDatesCoverTable` | app.py:46-52 | the feed built from a scan has an entry for every stored event |
| `Store.BookedDatesFromTable` | app.py:46-52 | every entry of the feed built from a scan comes from a stored event |
| `Scenarios.NewTaskListedLast` | app.py:57-72 | a task posted later than every stored task is the last one the task list shows |
| `Scenarios.RepostWithNewTotal` | app.py:151-168 | adding a booking and re-posting its form with a new total payment leaves one new row, under a fresh id, whose fields are the form's except `total_payment`; no other event row and no task changes |

## Left out

- Flask routing, `render_template`, `redirect`/`url_for` and the server start. The
  GET branches of the two edit pages are modelled only as `FindTask` and
  `FindEvent`, which look up the row the page would show.
- Error texts: each handler's error string or message is reduced to an `Error`
  kind, and the event handlers' `print` of the exception to the server console
  is dropped. The model does not capture that the task handlers and the event handlers
  phrase errors differently.
- The SQLAlchemy session and the driver: a commit is one boolean, `commitOk`.
  When it is false, nothing is written. `DeleteEvent` has no `try` around its
  commit, so in the application that failure becomes an HTTP 500; the model
  returns `Failed(CommitFailed)`.
- The clock: `date_created` is the `now` argument of `AddTask`.
- Parsing the form text: `float()` for the payments and `strptime` for the date.
  The form carries values that are already parsed. A malformed date or amount,
  which the application turns into an HTTP 500, is not modelled. Neither is the
  leniency of `strptime`, which accepts single-digit months and days.
  `ParseIsoDate` is the strict inverse of the formatter. It is a partner for
  proofs, not a model of `strptime`.
- Payments are `real` values that are copied and never computed with, so float
  rounding does not arise. Nothing requires `total_payment >= advance_payment`,
  because the application does not require it either.
- The 200-character limit of the text columns, which SQLite does not enforce.
- `Dates.FormatIsoDate`: years below 1000 are written with four zero-padded
  digits, as ISO 8601 requires. Some C libraries behind `strftime` write them
  without padding.
- `EventQuery.Lower`: only ASCII letters are lower-cased, whereas `str.lower`
  maps all of Unicode. No non-ASCII character lower-cases to a letter of "true"
  or "false", so the filter decision is the same either way.
- The order of rows without `ORDER BY`, and the order of rows with equal sort
  keys. SQL fixes neither, so the listings promise only "each row once" and
  sortedness. `SortBy` is one admissible choice.
- SQLite's fallback when the largest rowid is already 2^63-1 (a random unused
  id).
- db.py, the maintenance script that drops and recreates the `event` table.
- Concurrent requests.
