/**
 * The Open-Meteo archive client: the hourly-history request and the shaping
 * of its reply into one row per `time` entry with four weather columns. The
 * GET (with `raise_for_status`) is a function parameter from the request to
 * the decoded reply.
 */
module WeatherClient {
  import opened Wrappers
  import opened Calendar
  import opened IsoTime
  import opened Json
  import opened Tables
  import opened Features

  const ArchiveUrl: string := "https://archive-api.open-meteo.com/v1/archive"

  /** The seven variables the request asks for, in request order. */
  const RequestedVariables: seq<string> := [
    "temperature_2m", "relative_humidity_2m", "precipitation", "wind_speed_10m",
    "wind_gusts_10m", "cloudcover", "shortwave_radiation"
  ]

  /** The four variables copied into the result, in column order. */
  const KeptVariables: seq<string> := ["temperature_2m", "relative_humidity_2m", "precipitation", "wind_speed_10m"]

  /** The GET as issued: `params` and the 60-second timeout. */
  datatype WeatherRequest = WeatherRequest(
    url: string, latitude: real, longitude: real, startDate: string, endDate: string,
    hourly: string, timezone: string, timeoutSeconds: nat)

  /** What the session gives back: an HTTP error status or the decoded body. */
  datatype HttpReply = HttpError(status: int) | Body(data: Json)

  datatype WeatherError =
    | RequestFailed(status: int)      // `raise_for_status`
    | NotAnObject(what: string)       // `.get` on a value that is not a dict
    | ScalarTimes                     // a `time` value that is neither falsy nor a list
    | BadTime(item: Json)             // a `time` entry `pd.to_datetime` is not modelled to read
    | ColumnLength(key: string)       // a column list whose length differs from `time`

  /** `",".join(names)`. */
  function JoinComma(names: seq<string>): string {
    if names == [] then ""
    else if |names| == 1 then names[0]
    else names[0] + "," + JoinComma(names[1..])
  }

  /**
   * The archive GET: all seven `RequestedVariables`, comma-joined, in the UTC
   * zone. Only the first four, `KeptVariables`, reach the rows.
   */
  function HistoryRequest(lat: real, lon: real, startDate: string, endDate: string): WeatherRequest {
    WeatherRequest(ArchiveUrl, lat, lon, startDate, endDate, JoinComma(RequestedVariables), "UTC", 60)
  }

  // ---------------------------------------------------------------------------
  // Reading the reply
  // ---------------------------------------------------------------------------

  /** `dict.get(key, default)` on an object. */
  function GetOr(fields: map<string, Json>, key: string, default: Json): (v: Json)
    ensures key in fields ==> v == fields[key]
    ensures key !in fields ==> v == default
  {
    if key in fields then fields[key] else default
  }

  /** Python truthiness of a decoded JSON value: `not times`. */
  predicate Falsy(j: Json) {
    match j
    case JNull => true
    case JBool(b) => !b
    case JNum(n) => n == 0.0
    case JStr(s) => s == ""
    case JArr(items) => items == []
    case JObj(fields) => fields == map[]
  }

  /**
   * One `time` entry as `pd.to_datetime(..., utc=True)` reads Open-Meteo's
   * text: `YYYY-MM-DDTHH:MM`, or with seconds, taken as UTC.
   */
  function ParseTime(j: Json): Option<Instant> {
    if !j.JStr? then None
    else if |j.s| == 16 then Parse(j.s + ":00")
    else Parse(j.s)
  }

  /** One entry of the conversion, which raises on an entry it cannot read. */
  function ReadTime(j: Json): (r: Result<Instant, WeatherError>)
    ensures r.Ok? <==> ParseTime(j).Some?
    ensures r.Ok? ==> Some(r.value) == ParseTime(j)
  {
    match ParseTime(j)
    case None => Err(BadTime(j))
    case Some(t) => Ok(t)
  }

  /** A cell of a weather column: a number, or null for anything else. */
  function Cell(j: Json): Option<real> {
    if j.JNum? then Some(j.n) else None
  }

  function Nulls(n: nat): (c: seq<Option<real>>)
    ensures |c| == n && forall i :: 0 <= i < n ==> c[i] == None
  {
    seq(n, i => None)
  }

  /**
   * `df[key] = hourly.get(key, [None] * len(times))`: an absent key gives
   * nulls; a list must match the row count; any other value is broadcast.
   */
  function KeptColumn(hourly: map<string, Json>, key: string, n: nat): (r: Result<seq<Option<real>>, WeatherError>)
    ensures r.Ok? ==> |r.value| == n
    ensures key !in hourly ==> r == Ok(Nulls(n))
    ensures key in hourly && hourly[key].JArr? ==>
      (r.Ok? <==> |hourly[key].items| == n)
      && (r.Ok? ==> forall i :: 0 <= i < n ==> r.value[i] == Cell(hourly[key].items[i]))
    ensures key in hourly && hourly[key].JArr? && |hourly[key].items| != n ==> r == Err(ColumnLength(key))
  {
    if key !in hourly then Ok(Nulls(n))
    else
      match hourly[key]
      case JArr(items) =>
        if |items| != n then Err(ColumnLength(key))
        else Ok(Map(items, Cell))
      case _ => Ok(seq(n, i => Cell(hourly[key])))
  }

  /** The assignment of one column, for the loop over the kept variables. */
  function ColumnOf(hourly: map<string, Json>, n: nat): string -> Result<seq<Option<real>>, WeatherError> {
    (key: string) => KeptColumn(hourly, key, n)
  }

  /** The table of the times and the four columns, one row per time. */
  function Assemble(times: seq<Instant>, cols: seq<seq<Option<real>>>): (rows: seq<WeatherRow>)
    requires |cols| == 4 && forall k :: 0 <= k < 4 ==> |cols[k]| == |times|
    ensures |rows| == |times|
    ensures forall i :: 0 <= i < |times| ==>
      rows[i] == WeatherRow(times[i], Weather(cols[0][i], cols[1][i], cols[2][i], cols[3][i]))
  {
    seq(|times|, i requires 0 <= i < |times| =>
      WeatherRow(times[i], Weather(cols[0][i], cols[1][i], cols[2][i], cols[3][i])))
  }

  /** The `hourly` object of a decoded body, `{}` when absent. */
  function HourlyOf(data: Json): Result<map<string, Json>, WeatherError> {
    if !data.JObj? then Err(NotAnObject("response"))
    else
      var hourly := GetOr(data.fields, "hourly", JObj(map[]));
      if hourly.JObj? then Ok(hourly.fields) else Err(NotAnObject("hourly"))
  }

  /** What `fetch_hourly_history` returns for the reply `get` gives. */
  function HourlyHistory(lat: real, lon: real, startDate: string, endDate: string,
                         get: WeatherRequest -> HttpReply): Result<seq<WeatherRow>, WeatherError>
  {
    match get(HistoryRequest(lat, lon, startDate, endDate))
    case HttpError(status) => Err(RequestFailed(status))
    case Body(data) =>
      match HourlyOf(data)
      case Err(e) => Err(e)
      case Ok(hourly) => FromHourly(hourly)
  }

  /** The table built from the `hourly` object: the times, then the four columns. */
  function FromHourly(hourly: map<string, Json>): Result<seq<WeatherRow>, WeatherError> {
    var times := GetOr(hourly, "time", JArr([]));
    if Falsy(times) then Ok([])
    else if !times.JArr? then Err(ScalarTimes)
    else
      match TryMap(times.items, ReadTime)
      case Err(e) => Err(e)
      case Ok(ts) =>
        match TryMap(KeptVariables, ColumnOf(hourly, |ts|))
        case Err(e) => Err(e)
        case Ok(cols) => Ok(Assemble(ts, cols))
  }

  /**
   * `fetch_hourly_history`: the early return on an empty `time`, then the
   * `for key in [...]` loop assigning the four columns.
   */
  method FetchHourlyHistory(lat: real, lon: real, startDate: string, endDate: string,
                            get: WeatherRequest -> HttpReply)
    returns (r: Result<seq<WeatherRow>, WeatherError>)
    ensures r == HourlyHistory(lat, lon, startDate, endDate, get)
  {
    var reply := get(HistoryRequest(lat, lon, startDate, endDate));
    if reply.HttpError? {
      return Err(RequestFailed(reply.status));
    }
    var hourlyOf := HourlyOf(reply.data);
    if hourlyOf.Err? {
      return Err(hourlyOf.error);
    }
    var hourly := hourlyOf.value;
    var times := GetOr(hourly, "time", JArr([]));
    if Falsy(times) {
      return Ok([]);
    }
    if !times.JArr? {
      return Err(ScalarTimes);
    }
    var parsed := TryMap(times.items, ReadTime);
    if parsed.Err? {
      return Err(parsed.error);
    }
    var ts := parsed.value;
    var cols := AssignColumns(hourly, |ts|);
    if cols.Err? {
      return Err(cols.error);
    }
    return Ok(Assemble(ts, cols.value));
  }

  /** The `for key in [...]` loop: each kept variable's column in turn, stopping at the first that raises. */
  method AssignColumns(hourly: map<string, Json>, n: nat) returns (r: Result<seq<seq<Option<real>>>, WeatherError>)
    ensures r == TryMap(KeptVariables, ColumnOf(hourly, n))
  {
    var cols: seq<seq<Option<real>>> := [];
    var columnOf := ColumnOf(hourly, n);
    for k := 0 to |KeptVariables|
      invariant TryMap(KeptVariables[..k], columnOf) == Ok(cols)
    {
      var key := KeptVariables[k];
      var col := columnOf(key);
      TryMapStep(KeptVariables, k, columnOf, cols);
      if col.Err? {
        TryMapErrSticks(KeptVariables, k + 1, columnOf);
        return Err(col.error);
      }
      cols := cols + [col.value];
    }
    assert KeptVariables[..|KeptVariables|] == KeptVariables;
    return Ok(cols);
  }

  // ---------------------------------------------------------------------------
  // What the result holds
  // ---------------------------------------------------------------------------

  /** An absent or empty `time` gives an empty table. */
  lemma EmptyTimes(lat: real, lon: real, startDate: string, endDate: string, get: WeatherRequest -> HttpReply)
    requires get(HistoryRequest(lat, lon, startDate, endDate)).Body?
    requires var data := get(HistoryRequest(lat, lon, startDate, endDate)).data;
      data.JObj? && "hourly" in data.fields && data.fields["hourly"].JObj?
      && ("time" !in data.fields["hourly"].fields || data.fields["hourly"].fields["time"] == JArr([]))
    ensures HourlyHistory(lat, lon, startDate, endDate, get) == Ok([])
  {
  }

  /**
   * A non-empty result has one row per `time` entry, at that entry's
   * instant, and each of the four columns is the reply's list for that
   * variable, or all null when the reply lacks it.
   */
  lemma RowsFollowTimes(lat: real, lon: real, startDate: string, endDate: string, get: WeatherRequest -> HttpReply)
    requires HourlyHistory(lat, lon, startDate, endDate, get).Ok?
    requires HourlyHistory(lat, lon, startDate, endDate, get).value != []
    ensures var data := get(HistoryRequest(lat, lon, startDate, endDate)).data;
      var rows := HourlyHistory(lat, lon, startDate, endDate, get).value;
      var hourly := data.fields["hourly"].fields;
      && data.JObj? && "hourly" in data.fields && data.fields["hourly"].JObj?
      && "time" in hourly && hourly["time"].JArr? && |rows| == |hourly["time"].items|
      && (forall i :: 0 <= i < |rows| ==> ParseTime(hourly["time"].items[i]) == Some(rows[i].time))
      && (forall k :: 0 <= k < 4 ==> KeptColumn(hourly, KeptVariables[k], |rows|).Ok?)
      && (forall i :: 0 <= i < |rows| ==>
            && rows[i].weather.temperature == KeptColumn(hourly, "temperature_2m", |rows|).value[i]
            && rows[i].weather.humidity == KeptColumn(hourly, "relative_humidity_2m", |rows|).value[i]
            && rows[i].weather.precipitation == KeptColumn(hourly, "precipitation", |rows|).value[i]
            && rows[i].weather.windSpeed == KeptColumn(hourly, "wind_speed_10m", |rows|).value[i])
  {
    var data := get(HistoryRequest(lat, lon, startDate, endDate)).data;
    var hourly := HourlyOf(data).value;
    assert HourlyHistory(lat, lon, startDate, endDate, get) == FromHourly(hourly);
    HourlyRows(hourly);
  }

  /** The same facts about the table built from one `hourly` object. */
  lemma HourlyRows(hourly: map<string, Json>)
    requires FromHourly(hourly).Ok? && FromHourly(hourly).value != []
    ensures var rows := FromHourly(hourly).value;
      && "time" in hourly && hourly["time"].JArr? && |rows| == |hourly["time"].items|
      && (forall i :: 0 <= i < |rows| ==> ParseTime(hourly["time"].items[i]) == Some(rows[i].time))
      && (forall k :: 0 <= k < 4 ==> KeptColumn(hourly, KeptVariables[k], |rows|).Ok?)
      && (forall i :: 0 <= i < |rows| ==>
            && rows[i].weather.temperature == KeptColumn(hourly, "temperature_2m", |rows|).value[i]
            && rows[i].weather.humidity == KeptColumn(hourly, "relative_humidity_2m", |rows|).value[i]
            && rows[i].weather.precipitation == KeptColumn(hourly, "precipitation", |rows|).value[i]
            && rows[i].weather.windSpeed == KeptColumn(hourly, "wind_speed_10m", |rows|).value[i])
  {
    var times := GetOr(hourly, "time", JArr([]));
    var ts := TryMap(times.items, ReadTime).value;
    var cols := TryMap(KeptVariables, ColumnOf(hourly, |ts|)).value;
    assert cols[0] == KeptColumn(hourly, "temperature_2m", |ts|).value;
    assert cols[1] == KeptColumn(hourly, "relative_humidity_2m", |ts|).value;
    assert cols[2] == KeptColumn(hourly, "precipitation", |ts|).value;
    assert cols[3] == KeptColumn(hourly, "wind_speed_10m", |ts|).value;
  }

  /** A minute-precision entry reads as the instant it names, at zero seconds. */
  lemma MinuteTextReads(dt: Date, h: nat, mi: nat)
    requires ValidDate(dt) && dt.year <= 9999 && h < 24 && mi < 60
    ensures ParseTime(JStr(RenderDate(dt) + "T" + Padded(h, 2) + ":" + Padded(mi, 2)))
      == Some(InstantAt(DayNumber(dt), h, mi, 0))
  {
    var date, hh, mm := RenderDate(dt), Padded(h, 2), Padded(mi, 2);
    PaddedWidth(dt.year, 4);
    PaddedWidth(dt.month, 2);
    PaddedWidth(dt.day, 2);
    PaddedWidth(h, 2);
    PaddedWidth(mi, 2);
    assert Padded(0, 2) == "00";
    var m := date + "T" + hh + ":" + mm;
    assert |m| == 16;
    assert m + ":00" == date + "T" + ClockText(h, mi, 0);
    ParseFields(dt, h, mi, 0);
  }
}
