/** The home page's calendar feed: each stored event becomes a title and a start day. */
module Calendar {

  import opened Results
  import opened Dates
  import opened Records

  /** One entry of `booked_dates`: `{'title': ..., 'start': ...}`. */
  datatype CalendarEntry = CalendarEntry(title: string, start: string)

  /** The entry for one event: titled with the customer, starting on the event's
      day written as YYYY-MM-DD. */
  function EntryFor(e: Event): (c: CalendarEntry)
    ensures c.title == e.customerName
    ensures ParseIsoDate(c.start) == Some(e.date)
  {
    FormatThenParse(e.date);
    CalendarEntry(e.customerName, FormatIsoDate(e.date))
  }

  /** The calendar feed for a list of events: one entry per event, in the same order. */
  function BookedDates(events: seq<Event>): (r: seq<CalendarEntry>)
    ensures |r| == |events|
    ensures forall i :: 0 <= i < |events| ==>
              r[i].title == events[i].customerName && ParseIsoDate(r[i].start) == Some(events[i].date)
  {
    if events == [] then [] else [EntryFor(events[0])] + BookedDates(events[1..])
  }

  /** The `start` of an entry is the one YYYY-MM-DD string that denotes the event's day. */
  lemma BookedDateStart(events: seq<Event>, i: int)
    requires 0 <= i < |events|
    ensures BookedDates(events)[i].start == FormatIsoDate(events[i].date)
  {
    ParseThenFormat(BookedDates(events)[i].start);
  }

  /** The feed is the entry of each event, in order. */
  lemma BookedDatesEntries(events: seq<Event>)
    ensures forall i :: 0 <= i < |events| ==> BookedDates(events)[i] == EntryFor(events[i])
  {
    forall i | 0 <= i < |events| ensures BookedDates(events)[i] == EntryFor(events[i]) {
      BookedDateStart(events, i);
    }
  }

  /** A customer "Acme" booked on 5 March 2024 appears as {title: "Acme", start: "2024-03-05"}. */
  lemma AcmeExample(e: Event)
    requires e.customerName == "Acme" && e.date == YMD(2024, 3, 5)
    ensures BookedDates([e]) == [CalendarEntry("Acme", "2024-03-05")]
  {
    assert [e][1..] == [];
    FormatMarchFifth();
    assert BookedDates([e]) == [EntryFor(e)] + BookedDates([]);
  }

  lemma FormatMarchFifth()
    ensures FormatIsoDate(YMD(2024, 3, 5)) == "2024-03-05"
  {
    PadYear2024();
    PadOneDigit(3);
    PadOneDigit(5);
    assert DigitChar(3) == '3' && DigitChar(5) == '5';
    assert "2024" + "-" + ['0', '3'] + "-" + ['0', '5'] == "2024-03-05";
  }

  lemma PadYear2024()
    ensures PadDigits(2024, 4) == "2024"
  {
    assert PadDigits(2, 1) == PadDigits(0, 0) + [DigitChar(2)] == "2";
    assert PadDigits(20, 2) == PadDigits(2, 1) + [DigitChar(0)] == "20";
    assert PadDigits(202, 3) == PadDigits(20, 2) + [DigitChar(2)] == "202";
    assert PadDigits(2024, 4) == PadDigits(202, 3) + [DigitChar(4)];
  }

  lemma PadOneDigit(n: int)
    requires 0 <= n <= 9
    ensures PadDigits(n, 2) == ['0', DigitChar(n)]
  {
    assert n / 10 == 0 && n % 10 == n;
    assert PadDigits(0, 1) == PadDigits(0, 0) + [DigitChar(0)] == "0";
    assert PadDigits(n, 2) == PadDigits(0, 1) + [DigitChar(n)];
  }
}
