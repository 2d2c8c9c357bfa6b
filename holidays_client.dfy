/**
 * The public-holidays API client: one year's `{date: name}` object shaped
 * into dated records, and the concatenation of every year from a start year
 * to the current one. The GET is a function parameter from the endpoint to
 * the decoded reply or its failure; the current year is a parameter.
 */
module HolidaysClient {
  import opened Wrappers
  import opened Calendar
  import opened IsoTime
  import opened Json
  import opened Tables
  import opened Sorting

  const HolidaysBaseUrl: string := "https://calendrier.api.gouv.fr"
  const DefaultZone: string := "metropole"
  const DefaultStartYear: int := 2023

  /**
   * The decoded reply of one GET: a JSON object's members in document
   * order (a Python dict keeps that order), or anything else.
   */
  datatype HolidaysReply =
    | GetFailed                // `raise_for_status` or the request itself raised
    | NotAnObject              // `.items()` fails on a list, a number, null…
    | Members(entries: seq<(string, Json)>)

  /** One record of `fetch_year`, after the date column became `datetime.date`. */
  datatype HolidayEntry = HolidayEntry(date: Date, name: Json, zone: string, year: int)

  /** Before conversion: the date still as its text. */
  datatype RawEntry = RawEntry(dateText: string, name: Json)

  datatype HolidayError =
    | GetRaised(endpoint: string)
    | ReplyNotAnObject(endpoint: string)
    | NoDateColumn(endpoint: string)       // an empty object makes a frame without `date`; sorting by it raises
    | BadDate(text: string)                // `pd.to_datetime` rejects the text
    | NothingToConcatenate                 // `pd.concat([])` raises when the range is empty

  /** `str(year)`. */
  function IntText(n: int): (s: string)
    ensures |s| >= 1
  {
    if n < 0 then "-" + Decimal(-n) else Decimal(n)
  }

  /** `/jours-feries/{zone}/{year}.json`. */
  function YearEndpoint(zone: string, year: int): string {
    "/jours-feries/" + zone + "/" + IntText(year) + ".json"
  }

  // ---------------------------------------------------------------------------
  // fetch_year
  // ---------------------------------------------------------------------------

  /** Ascending by date text, the order `sort_values("date")` gives a text column. */
  predicate TextLe(a: RawEntry, b: RawEntry) {
    StrLe(a.dateText, b.dateText)
  }

  lemma TextOrder(s: seq<RawEntry>)
    ensures TotalOn(s, TextLe) && TransitiveOn(s, TextLe)
  {
    forall a, b ensures TextLe(a, b) || TextLe(b, a) {
      StrLeTotal(a.dateText, b.dateText);
    }
    forall a, b, c | TextLe(a, b) && TextLe(b, c) ensures TextLe(a, c) {
      StrLeTransitive(a.dateText, b.dateText, c.dateText);
    }
  }

  /** The records of the reply's members, sorted by date text. */
  function SortedRaw(entries: seq<(string, Json)>): (r: seq<RawEntry>)
    ensures multiset(r) == multiset(Map(entries, (e: (string, Json)) => RawEntry(e.0, e.1)))
    ensures |r| == |entries|
    ensures SortedBy(r, TextLe)
  {
    var raw := Map(entries, (e: (string, Json)) => RawEntry(e.0, e.1));
    TextOrder(raw);
    SortLength(raw, TextLe);
    Sort(raw, TextLe)
  }

  /** `pd.to_datetime` on one record's date text, which raises on text it cannot read. */
  function ToDate(zone: string, year: int): RawEntry -> Result<HolidayEntry, HolidayError> {
    (e: RawEntry) =>
      match ParseDate(e.dateText)
      case None => Err(BadDate(e.dateText))
      case Some(dt) => Ok(HolidayEntry(dt, e.name, zone, year))
  }

  /** `pd.to_datetime(df["date"]).dt.date` on the sorted records: all dates read, or the first failure. */
  function ToDates(raw: seq<RawEntry>, zone: string, year: int): (r: Result<seq<HolidayEntry>, HolidayError>)
    ensures r.Ok? <==> forall i :: 0 <= i < |raw| ==> ParseDate(raw[i].dateText).Some?
    ensures r.Ok? ==> |r.value| == |raw|
    ensures r.Ok? ==> forall i :: 0 <= i < |raw| ==>
      r.value[i] == HolidayEntry(ParseDate(raw[i].dateText).value, raw[i].name, zone, year)
    ensures r.Err? ==> exists i :: (0 <= i < |raw| && r.error == BadDate(raw[i].dateText)
      && ParseDate(raw[i].dateText).None?)
  {
    var r := TryMap(raw, ToDate(zone, year));
    assert forall i :: 0 <= i < |raw| ==> (ToDate(zone, year)(raw[i]).Ok? <==> ParseDate(raw[i].dateText).Some?);
    r
  }

  /**
   * `fetch_year`: one record per member of the reply, tagged with the
   * requested zone and year, sorted by date text, dates converted.
   */
  function FetchYear(year: int, zone: string, get: string -> HolidaysReply): (r: Result<seq<HolidayEntry>, HolidayError>)
    ensures var reply := get(YearEndpoint(zone, year));
      && (reply.GetFailed? ==> r == Err(GetRaised(YearEndpoint(zone, year))))
      && (reply.NotAnObject? ==> r == Err(ReplyNotAnObject(YearEndpoint(zone, year))))
      && (reply == Members([]) ==> r == Err(NoDateColumn(YearEndpoint(zone, year))))
      && (reply.Members? && reply.entries != [] ==> r == ToDates(SortedRaw(reply.entries), zone, year))
  {
    var endpoint := YearEndpoint(zone, year);
    match get(endpoint)
    case GetFailed => Err(GetRaised(endpoint))
    case NotAnObject => Err(ReplyNotAnObject(endpoint))
    case Members(entries) =>
      if entries == [] then Err(NoDateColumn(endpoint))
      else ToDates(SortedRaw(entries), zone, year)
  }

  /**
   * A successful `fetch_year` has as many rows as the reply has members,
   * every row tagged with the zone and year asked for, and the rows are the
   * members in ascending date-text order, each date read from its text.
   */
  lemma FetchYearRows(year: int, zone: string, get: string -> HolidaysReply)
    requires FetchYear(year, zone, get).Ok?
    ensures var reply := get(YearEndpoint(zone, year));
      var rows := FetchYear(year, zone, get).value;
      && reply.Members? && |rows| == |reply.entries| > 0
      && (forall x :: x in rows ==> x.zone == zone && x.year == year)
      && (forall i, j :: 0 <= i < j < |rows| ==>
            StrLe(SortedRaw(reply.entries)[i].dateText, SortedRaw(reply.entries)[j].dateText))
      && (forall i :: 0 <= i < |rows| ==>
            ParseDate(SortedRaw(reply.entries)[i].dateText) == Some(rows[i].date)
            && rows[i].name == SortedRaw(reply.entries)[i].name)
  {
    var reply := get(YearEndpoint(zone, year));
    var raw := SortedRaw(reply.entries);
    var rows := FetchYear(year, zone, get).value;
    forall x | x in rows ensures x.zone == zone && x.year == year {
      var i :| 0 <= i < |rows| && rows[i] == x;
    }
  }

  /** Every member of the reply gives a record: sorting loses and adds nothing. */
  lemma FetchYearKeepsMembers(year: int, zone: string, get: string -> HolidaysReply, k: nat)
    requires FetchYear(year, zone, get).Ok?
    requires get(YearEndpoint(zone, year)).Members? && k < |get(YearEndpoint(zone, year)).entries|
    ensures var e := get(YearEndpoint(zone, year)).entries[k];
      exists x :: x in FetchYear(year, zone, get).value
        && ParseDate(e.0) == Some(x.date) && x.name == e.1
  {
    var entries := get(YearEndpoint(zone, year)).entries;
    var raw := Map(entries, (e: (string, Json)) => RawEntry(e.0, e.1));
    var sorted := SortedRaw(entries);
    var rows := FetchYear(year, zone, get).value;
    assert raw[k] in multiset(sorted);
    var i :| 0 <= i < |sorted| && sorted[i] == raw[k];
    assert rows[i] in rows;
  }

  // ---------------------------------------------------------------------------
  // fetch_range_for_training
  // ---------------------------------------------------------------------------

  /** `range(first, last + 1)`. */
  function Years(first: int, last: int): (ys: seq<int>)
    ensures |ys| == if first <= last then last - first + 1 else 0
    ensures forall i :: 0 <= i < |ys| ==> ys[i] == first + i
    decreases last - first
  {
    if first > last then [] else [first] + Years(first + 1, last)
  }

  /** `[fetch_year(y) for y in range(first, last + 1)]`; the first failure stops the comprehension. */
  function YearFrames(first: int, last: int, fetch: int -> Result<seq<HolidayEntry>, HolidayError>)
    : (r: Result<seq<seq<HolidayEntry>>, HolidayError>)
    ensures r.Ok? ==> |r.value| == if first <= last then last - first + 1 else 0
    ensures r.Ok? ==> forall i :: 0 <= i < |r.value| ==> fetch(first + i) == Ok(r.value[i])
    ensures r.Err? ==> exists y :: (first <= y <= last && fetch(y) == Err(r.error)
      && forall z :: first <= z < y ==> fetch(z).Ok?)
  {
    FirstFailingYear(first, last, fetch);
    TryMap(Years(first, last), fetch)
  }

  lemma FirstFailingYear(first: int, last: int, fetch: int -> Result<seq<HolidayEntry>, HolidayError>)
    ensures var r := TryMap(Years(first, last), fetch);
      r.Err? ==> exists y :: (first <= y <= last && fetch(y) == Err(r.error)
        && forall z :: first <= z < y ==> fetch(z).Ok?)
  {
    var ys := Years(first, last);
    var r := TryMap(ys, fetch);
    if r.Err? {
      var k :| 0 <= k < |ys| && fetch(ys[k]) == Err(r.error) && forall m :: 0 <= m < k ==> fetch(ys[m]).Ok?;
      forall z | first <= z < ys[k] ensures fetch(z).Ok? {
        assert ys[z - first] == z;
      }
    }
  }

  /** The yearly fetch of one zone. */
  function FetchZone(zone: string, get: string -> HolidaysReply): int -> Result<seq<HolidayEntry>, HolidayError> {
    (y: int) => FetchYear(y, zone, get)
  }

  /** Earlier in the calendar or the same day, as `datetime.date` compares. */
  predicate EntryLe(a: HolidayEntry, b: HolidayEntry) {
    a.date.year < b.date.year
    || (a.date.year == b.date.year && a.date.month < b.date.month)
    || (a.date.year == b.date.year && a.date.month == b.date.month && a.date.day <= b.date.day)
  }

  lemma EntryOrder(s: seq<HolidayEntry>)
    ensures TotalOn(s, EntryLe) && TransitiveOn(s, EntryLe)
  {
  }

  /**
   * `fetch_range_for_training`: every year from `startYear` to `currentYear`
   * inclusive, concatenated and sorted by date; an empty range has nothing
   * to concatenate.
   */
  function FetchRangeForTraining(startYear: int, zone: string, currentYear: int, get: string -> HolidaysReply)
    : (r: Result<seq<HolidayEntry>, HolidayError>)
    ensures startYear > currentYear ==> r == Err(NothingToConcatenate)
    ensures startYear <= currentYear && YearFrames(startYear, currentYear, FetchZone(zone, get)).Err? ==>
      r == Err(YearFrames(startYear, currentYear, FetchZone(zone, get)).error)
    ensures startYear <= currentYear && YearFrames(startYear, currentYear, FetchZone(zone, get)).Ok? ==> r.Ok?
    ensures r.Ok? ==>
      var frames := YearFrames(startYear, currentYear, FetchZone(zone, get)).value;
      && startYear <= currentYear && YearFrames(startYear, currentYear, FetchZone(zone, get)).Ok?
      && |r.value| == |Flatten(frames)|
      && multiset(r.value) == multiset(Flatten(frames))
      && SortedBy(r.value, EntryLe)
  {
    if startYear > currentYear then Err(NothingToConcatenate)
    else
      match YearFrames(startYear, currentYear, FetchZone(zone, get))
      case Err(e) => Err(e)
      case Ok(frames) =>
        var all := Flatten(frames);
        EntryOrder(all);
        SortLength(all, EntryLe);
        Ok(Sort(all, EntryLe))
  }

  /** The row count of a range is the sum of the yearly row counts. */
  lemma {:induction false} FlattenLength<T>(frames: seq<seq<T>>)
    ensures |Flatten(frames)| == SumLengths(frames)
  {
    if frames != [] {
      FlattenLength(frames[..|frames| - 1]);
    }
  }

  function SumLengths<T>(frames: seq<seq<T>>): nat {
    if frames == [] then 0 else SumLengths(frames[..|frames| - 1]) + |frames[|frames| - 1]|
  }

  /** A successful range has one frame per year of the range and their rows added up. */
  lemma RangeRowCount(startYear: int, zone: string, currentYear: int, get: string -> HolidaysReply)
    requires FetchRangeForTraining(startYear, zone, currentYear, get).Ok?
    ensures var frames := YearFrames(startYear, currentYear, FetchZone(zone, get)).value;
      && |frames| == currentYear - startYear + 1
      && |FetchRangeForTraining(startYear, zone, currentYear, get).value| == SumLengths(frames)
  {
    FlattenLength(YearFrames(startYear, currentYear, FetchZone(zone, get)).value);
  }
}
