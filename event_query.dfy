/** The listing of the `event` table: an optional full-day filter read from the
    query string, then an optional sort by date. */
module EventQuery {

  import opened Results
  import opened Dates
  import opened Records
  import opened Sorting

  // ---------------------------------------------------------------------------
  // The full-day filter

  function LowerChar(c: char): char {
    if 'A' <= c <= 'Z' then (c as int + 32) as char else c
  }

  /** The string lower-cased letter by letter: no upper-case letter is left, and
      each character is either kept or is the lower-case form of its letter. */
  function Lower(s: string): (r: string)
    ensures |r| == |s|
    ensures forall i :: 0 <= i < |s| ==> !('A' <= r[i] <= 'Z')
    ensures forall i :: 0 <= i < |s| ==>
              r[i] == s[i] || ('a' <= r[i] <= 'z' && s[i] as int == r[i] as int - 32)
  {
    seq(|s|, i requires 0 <= i < |s| => LowerChar(s[i]))
  }

  /** `p` is `word` written with each letter in either case; `word` is lower-case. */
  predicate SpellsIgnoringCase(p: string, word: string) {
    && |p| == |word|
    && forall i :: 0 <= i < |p| ==>
         p[i] == word[i] || ('a' <= word[i] <= 'z' && p[i] as int == word[i] as int - 32)
  }

  predicate IsLowerWord(word: string) {
    forall i :: 0 <= i < |word| ==> 'a' <= word[i] <= 'z'
  }

  /** Lower-casing a string gives a lower-case word exactly when the string spells it in any mix of cases. */
  lemma LowerMatchesIgnoringCase(p: string, word: string)
    requires IsLowerWord(word)
    ensures Lower(p) == word <==> SpellsIgnoringCase(p, word)
  {
    if SpellsIgnoringCase(p, word) {
      assert forall i :: 0 <= i < |p| ==> Lower(p)[i] == word[i];
    }
  }

  /** The filter the `filter_full_day` parameter asks for: `Some(b)` keeps the rows
      whose `full_day` is `b`; `None` keeps every row. */
  function FullDayFilter(param: Option<string>): (r: Option<bool>)
    ensures param.None? ==> r.None?
    ensures r == Some(true) ==> SpellsIgnoringCase(param.value, "true")
    ensures r == Some(false) ==> SpellsIgnoringCase(param.value, "false")
  {
    match param
    case None => None
    case Some(p) =>
      LowerMatchesIgnoringCase(p, "true");
      LowerMatchesIgnoringCase(p, "false");
      if Lower(p) == "true" then Some(true)
      else if Lower(p) == "false" then Some(false)
      else None
  }

  /** The filter is on exactly for the two words, in any mix of cases, and ignores anything else. */
  lemma FullDayFilterSpelling(p: string)
    ensures FullDayFilter(Some(p)) == Some(true) <==> SpellsIgnoringCase(p, "true")
    ensures FullDayFilter(Some(p)) == Some(false) <==> SpellsIgnoringCase(p, "false")
    ensures FullDayFilter(Some(p)) == None <==>
              !SpellsIgnoringCase(p, "true") && !SpellsIgnoringCase(p, "false")
  {
    LowerMatchesIgnoringCase(p, "true");
    LowerMatchesIgnoringCase(p, "false");
  }

  predicate Keeps(filter: Option<bool>, e: Event) {
    filter.None? || e.fullDay == filter.value
  }

  /** The rows the filter keeps, in their order: never more rows than the input,
      and each one an input row the filter keeps. */
  function FilterFullDay(rows: seq<Event>, filter: Option<bool>): (r: seq<Event>)
    ensures |r| <= |rows|
    ensures forall e :: e in r ==> e in rows && Keeps(filter, e)
  {
    if rows == [] then []
    else (if Keeps(filter, rows[0]) then [rows[0]] else []) + FilterFullDay(rows[1..], filter)
  }

  /** Each row the filter keeps appears as often as in the input; every other row is gone. */
  lemma {:induction false} FilterFullDayCounts(rows: seq<Event>, filter: Option<bool>, e: Event)
    ensures multiset(FilterFullDay(rows, filter))[e] ==
              if Keeps(filter, e) then multiset(rows)[e] else 0
  {
    if rows != [] {
      FilterFullDayCounts(rows[1..], filter, e);
      assert rows == [rows[0]] + rows[1..];
    }
  }

  /** Without a filter nothing is removed and the order is untouched. */
  lemma {:induction false} FilterFullDayNone(rows: seq<Event>)
    ensures FilterFullDay(rows, None) == rows
  {
    if rows != [] {
      FilterFullDayNone(rows[1..]);
      assert rows == [rows[0]] + rows[1..];
    }
  }

  // ---------------------------------------------------------------------------
  // The date sort

  datatype SortOrder = Ascending | Descending

  /** The order the `sort_date` parameter asks for; the match is case-sensitive. */
  function DateOrder(param: Option<string>): (r: Option<SortOrder>)
    ensures r == Some(Ascending) <==> param == Some("asc")
    ensures r == Some(Descending) <==> param == Some("desc")
  {
    if param == Some("asc") then Some(Ascending)
    else if param == Some("desc") then Some(Descending)
    else None
  }

  function AscendingKey(e: Event): int {
    DateKey(e.date)
  }

  function DescendingKey(e: Event): int {
    -DateKey(e.date)
  }

  predicate DatesAscending(s: seq<Event>) {
    forall i, j :: 0 <= i < j < |s| ==> NotAfter(s[i].date, s[j].date)
  }

  predicate DatesDescending(s: seq<Event>) {
    forall i, j :: 0 <= i < j < |s| ==> NotAfter(s[j].date, s[i].date)
  }

  lemma SortedByAscendingKey(s: seq<Event>)
    requires SortedBy(s, AscendingKey)
    ensures DatesAscending(s)
  {
    forall i, j | 0 <= i < j < |s| ensures NotAfter(s[i].date, s[j].date) {
      DateKeyOrder(s[i].date, s[j].date);
    }
  }

  lemma SortedByDescendingKey(s: seq<Event>)
    requires SortedBy(s, DescendingKey)
    ensures DatesDescending(s)
  {
    forall i, j | 0 <= i < j < |s| ensures NotAfter(s[j].date, s[i].date) {
      DateKeyOrder(s[j].date, s[i].date);
    }
  }

  // ---------------------------------------------------------------------------
  // The listing

  /** `out` is a listing the handler may show for the stored rows `rows` (in the
      store's own order) and the two query parameters: the filtered rows, in the
      store's order when no sort applies, otherwise a permutation of them in the
      requested date order. Rows with equal dates may come in any order. */
  ghost predicate IsEventListing(rows: seq<Event>, filterParam: Option<string>,
                                 sortParam: Option<string>, out: seq<Event>)
  {
    var kept := FilterFullDay(rows, FullDayFilter(filterParam));
    match DateOrder(sortParam)
    case None => out == kept
    case Some(Ascending) => multiset(out) == multiset(kept) && DatesAscending(out)
    case Some(Descending) => multiset(out) == multiset(kept) && DatesDescending(out)
  }

  /** Whatever the sort, a listing holds exactly the rows the filter keeps, each as often as stored. */
  lemma ListingContents(rows: seq<Event>, filterParam: Option<string>, sortParam: Option<string>,
                        out: seq<Event>, e: Event)
    requires IsEventListing(rows, filterParam, sortParam, out)
    ensures multiset(out)[e] == if Keeps(FullDayFilter(filterParam), e) then multiset(rows)[e] else 0
  {
    FilterFullDayCounts(rows, FullDayFilter(filterParam), e);
  }

  /** `filter_full_day` spelling "true" in any case keeps exactly the full-day rows. */
  lemma ListingFilterTrue(rows: seq<Event>, p: string, sortParam: Option<string>, out: seq<Event>)
    requires IsEventListing(rows, Some(p), sortParam, out)
    requires SpellsIgnoringCase(p, "true")
    ensures forall e :: e in out ==> e.fullDay && e in rows
    ensures forall e :: e in rows && e.fullDay ==> e in out
  {
    FullDayFilterSpelling(p);
    forall e ensures multiset(out)[e] == if e.fullDay then multiset(rows)[e] else 0 {
      ListingContents(rows, Some(p), sortParam, out, e);
    }
  }

  /** `filter_full_day` spelling "false" in any case keeps exactly the rows that are not full-day. */
  lemma ListingFilterFalse(rows: seq<Event>, p: string, sortParam: Option<string>, out: seq<Event>)
    requires IsEventListing(rows, Some(p), sortParam, out)
    requires SpellsIgnoringCase(p, "false")
    ensures forall e :: e in out ==> !e.fullDay && e in rows
    ensures forall e :: e in rows && !e.fullDay ==> e in out
  {
    FullDayFilterSpelling(p);
    forall e ensures multiset(out)[e] == if !e.fullDay then multiset(rows)[e] else 0 {
      ListingContents(rows, Some(p), sortParam, out, e);
    }
  }

  /** An absent `filter_full_day`, or one spelling neither word, filters nothing. */
  lemma ListingFilterIgnored(rows: seq<Event>, filterParam: Option<string>, sortParam: Option<string>,
                             out: seq<Event>)
    requires IsEventListing(rows, filterParam, sortParam, out)
    requires filterParam.Some? ==>
               !SpellsIgnoringCase(filterParam.value, "true") && !SpellsIgnoringCase(filterParam.value, "false")
    ensures multiset(out) == multiset(rows)
  {
    if filterParam.Some? {
      FullDayFilterSpelling(filterParam.value);
    }
    FilterFullDayNone(rows);
  }

  /** A `sort_date` other than exactly "asc" or "desc" (say "ASC") leaves the filtered rows in store order. */
  lemma ListingUnsorted(rows: seq<Event>, filterParam: Option<string>, sortParam: Option<string>,
                        out: seq<Event>)
    requires IsEventListing(rows, filterParam, sortParam, out)
    requires sortParam != Some("asc") && sortParam != Some("desc")
    ensures out == FilterFullDay(rows, FullDayFilter(filterParam))
  {
  }
}
