/**
 * The EcoCounter API client: the offset-paginated listing of counters and
 * the shaping of one counter's intensity time series. Each GET is a
 * function parameter from what is asked to the decoded reply or the
 * failure `get` raises (`raise_for_status` on a status other than 2xx,
 * or the request itself).
 */
module BikeClient {
  import opened Wrappers
  import opened Calendar
  import opened IsoTime
  import opened Json
  import opened Features
  import opened Tables
  import CsvLoad

  const BikeBaseUrl: string := "https://portail-api-data.montpellier3m.fr"
  const DefaultPageLimit: int := 1000

  // ---------------------------------------------------------------------------
  // Pagination of /ecocounter
  // ---------------------------------------------------------------------------

  /** One GET of `/ecocounter`: the decoded reply, or the exception `get` raised. */
  datatype PageReply =
    | GetFailed
    | Decoded(data: Json)

  /** A reply that is not a list, or an empty list, ends the listing. */
  predicate PageEnds(data: Json) {
    !data.JArr? || data.items == []
  }

  /** The loop stops at a GET that raised and at a reply that ends the listing. */
  predicate PageStops(reply: PageReply) {
    reply.GetFailed? || PageEnds(reply.data)
  }

  /** The reply to the request at page number `k`, i.e. offset `k * limit`. */
  function PageAt(page: int -> PageReply, limit: int, k: nat): PageReply {
    page(k * limit)
  }

  /** The records of pages `0 .. k - 1`, in request order. */
  function Pages(page: int -> PageReply, limit: int, k: nat): seq<Json> {
    if k == 0 then []
    else
      var reply := PageAt(page, limit, k - 1);
      Pages(page, limit, k - 1) + (if reply.Decoded? && reply.data.JArr? then reply.data.items else [])
  }

  /**
   * `fetch_all_counters`: requests offsets 0, limit, 2·limit, … until the
   * first reply that ends the listing, and returns the records of all the
   * earlier replies concatenated; a GET that raises ends the call with
   * `None` instead. The caller's `page` must stop the loop at some offset
   * of that progression, or the loop would not end.
   */
  method FetchAllCounters(limit: int, page: int -> PageReply) returns (records: Option<seq<Json>>, offsets: seq<int>)
    requires exists k: nat :: PageStops(PageAt(page, limit, k))
    ensures |offsets| >= 1
    ensures forall i :: 0 <= i < |offsets| ==> offsets[i] == i * limit
    ensures PageStops(page(offsets[|offsets| - 1]))
    ensures forall i :: 0 <= i < |offsets| - 1 ==> !PageStops(page(offsets[i]))
    ensures records.None? <==> page(offsets[|offsets| - 1]).GetFailed?
    ensures records.Some? ==> records.value == Pages(page, limit, |offsets| - 1)
  {
    ghost var n: nat :| PageStops(PageAt(page, limit, n));
    var offset := 0;
    var i: nat := 0;
    var all: seq<Json> := [];
    offsets := [];
    while true
      invariant i <= n
      invariant offset == i * limit
      invariant |offsets| == i
      invariant forall j :: 0 <= j < i ==> offsets[j] == j * limit && !PageStops(page(offsets[j]))
      invariant all == Pages(page, limit, i)
      decreases n - i
    {
      var reply := page(offset);
      offsets := offsets + [offset];
      if reply.GetFailed? {
        return None, offsets;   // `raise_for_status` or the request raised
      }
      if PageEnds(reply.data) {
        break;
      }
      assert i != n;
      all := all + reply.data.items;
      assert (i + 1) * limit == i * limit + limit;
      offset := offset + limit;
      i := i + 1;
    }
    records := Some(all);
  }

  /** Every record comes from some non-final page, in page order. */
  lemma {:induction false} PagesConcat(page: int -> PageReply, limit: int, k: nat)
    ensures forall r :: r in Pages(page, limit, k) ==>
      exists j :: 0 <= j < k && PageAt(page, limit, j).Decoded? && PageAt(page, limit, j).data.JArr?
        && r in PageAt(page, limit, j).data.items
  {
    if k > 0 {
      PagesConcat(page, limit, k - 1);
    }
  }

  // ---------------------------------------------------------------------------
  // One counter's time series
  // ---------------------------------------------------------------------------

  /** A GET as issued: the endpoint and the `fromDate`/`toDate` parameters. */
  datatype Request = Request(endpoint: string, fromDate: string, toDate: string)

  /**
   * The decoded reply object: `None` for a key the object lacks, the `index`
   * entries still as their text; `RequestFailed` for any exception the GET raised.
   */
  datatype TimeseriesReply =
    | RequestFailed
    | Reply(index: Option<seq<string>>, values: Option<seq<Option<real>>>, entityId: Option<string>)

  /** What `fetch_timeseries` gives: `None`, a frame, or what the frame's construction raises. */
  datatype Timeseries =
    | NoData
    | BadIndex(text: string)   // `pd.to_datetime` rejects an `index` entry
    | LengthMismatch           // `pd.DataFrame` raises when `index` and `values` differ in length
    | Frame(rows: seq<Reading>)

  /** One `index` entry under `pd.to_datetime(..., utc=True)`, or the text it cannot read. */
  function ReadIndexEntry(text: string): (r: Result<Instant, string>)
    ensures r.Ok? <==> CsvLoad.ParseCsvTime(text).Some?
    ensures r.Ok? ==> CsvLoad.ParseCsvTime(text) == Some(r.value)
    ensures r.Err? ==> r.error == text
  {
    match CsvLoad.ParseCsvTime(text)
    case None => Err(text)
    case Some(t) => Ok(t)
  }

  function TimeseriesRequest(counterId: string, start: Instant, end: Instant): Request {
    Request("/ecocounter_timeseries/" + counterId + "/attrs/intensity", Render(start), Render(end))
  }

  /** The query dates read back as the requested interval. */
  lemma RequestDatesReadBack(counterId: string, start: Instant, end: Instant)
    requires YearOfInstant(start) <= 9999 && YearOfInstant(end) <= 9999
    ensures Parse(TimeseriesRequest(counterId, start, end).fromDate) == Some(start)
    ensures Parse(TimeseriesRequest(counterId, start, end).toDate) == Some(end)
  {
    ParseRender(start);
    ParseRender(end);
  }

  /**
   * `fetch_timeseries`: no data on a failed request, a missing `index` or
   * `values`, or an empty `index`. Otherwise the `index` column is converted
   * first, which raises on the first entry it cannot read, and then the frame
   * is built, which raises when the two columns differ in length. A frame has
   * one row per index entry, at that entry's instant, with the reply's
   * `values`, every row carrying `entityId` when the reply has one, else the
   * requested id.
   */
  function FetchTimeseries(counterId: string, start: Instant, end: Instant,
                           get: Request -> TimeseriesReply): (r: Timeseries)
    ensures var reply := get(TimeseriesRequest(counterId, start, end));
      r == NoData <==>
        reply.RequestFailed? || reply.index.None? || reply.values.None? || reply.index.value == []
    ensures var reply := get(TimeseriesRequest(counterId, start, end));
      r.BadIndex? <==> r != NoData && exists i :: (
        0 <= i < |reply.index.value| && CsvLoad.ParseCsvTime(reply.index.value[i]).None?)
    ensures var reply := get(TimeseriesRequest(counterId, start, end));
      r.BadIndex? ==> exists i :: (
        && 0 <= i < |reply.index.value| && r.text == reply.index.value[i]
        && CsvLoad.ParseCsvTime(reply.index.value[i]).None?
        && forall k :: 0 <= k < i ==> CsvLoad.ParseCsvTime(reply.index.value[k]).Some?)
    ensures var reply := get(TimeseriesRequest(counterId, start, end));
      r == LengthMismatch <==> r != NoData && !r.BadIndex? && |reply.index.value| != |reply.values.value|
    ensures var reply := get(TimeseriesRequest(counterId, start, end));
      r.Frame? ==>
        && reply.Reply? && reply.index.Some? && reply.values.Some?
        && r.rows != [] && |r.rows| == |reply.index.value|
        && (forall i :: 0 <= i < |r.rows| ==> CsvLoad.ParseCsvTime(reply.index.value[i]) == Some(r.rows[i].time))
        && Map(r.rows, (x: Reading) => x.intensity) == reply.values.value
        && (forall x :: x in r.rows ==> x.counterId == reply.entityId.GetOr(counterId))
  {
    var reply := get(TimeseriesRequest(counterId, start, end));
    if reply.RequestFailed? || reply.index.None? || reply.values.None? || reply.index.value == [] then NoData
    else
      match TryMap(reply.index.value, ReadIndexEntry)
      case Err(text) => BadIndex(text)
      case Ok(times) =>
        if |times| != |reply.values.value| then LengthMismatch
        else Frame(FrameRows(reply.entityId.GetOr(counterId), times, reply.values.value))
  }

  /** `pd.DataFrame({"timestamp": index, "intensity": values})` with the id column added. */
  function FrameRows(id: string, index: seq<Instant>, values: seq<Option<real>>): (rows: seq<Reading>)
    requires |index| == |values|
    ensures |rows| == |index|
    ensures Map(rows, (x: Reading) => x.time) == index
    ensures Map(rows, (x: Reading) => x.intensity) == values
    ensures forall x :: x in rows ==> x.counterId == id
  {
    var rows := seq(|index|, i requires 0 <= i < |index| => Reading(id, index[i], values[i]));
    assert Map(rows, (x: Reading) => x.time) == index;
    assert Map(rows, (x: Reading) => x.intensity) == values;
    rows
  }
}
