/**
 * The rows both predictors read from the store, and the feature derivation
 * they share: a left merge of readings with weather on the exact timestamp,
 * a left merge with holidays on the UTC date, and the `hour`, `dow` and
 * `is_holiday` columns; plus the "tomorrow" filter on stored forecasts.
 */
module Features {
  import opened Wrappers
  import opened Calendar
  import opened Tables
  import opened Sorting

  // ---------------------------------------------------------------------------
  // Stored rows
  // ---------------------------------------------------------------------------

  /** The four weather variables of one hour; each may be null. */
  datatype Weather = Weather(
    temperature: Option<real>,     // temperature_2m
    humidity: Option<real>,        // relative_humidity_2m
    precipitation: Option<real>,   // precipitation
    windSpeed: Option<real>)       // wind_speed_10m

  /** The null-filled columns a left merge gives a row with no match. */
  const NoWeather: Weather := Weather(None, None, None, None)

  /** No weather variable is null. */
  predicate Complete(w: Weather) {
    w.temperature.Some? && w.humidity.Some? && w.precipitation.Some? && w.windSpeed.Some?
  }

  /** A row of `weather_hourly` or `weather_forecast_hourly`. */
  datatype WeatherRow = WeatherRow(time: Instant, weather: Weather)

  /** A row of `bike_hourly` for one counter. */
  datatype Reading = Reading(counterId: string, time: Instant, intensity: Option<real>)

  /** The `date` and `name` columns of a `holidays` row. */
  datatype HolidayRow = HolidayRow(date: Day, name: Option<string>)

  // ---------------------------------------------------------------------------
  // Derived calendar features
  // ---------------------------------------------------------------------------

  /** `hour` and `dow` (0 = Monday ... 6 = Sunday) of the timestamp, and `is_holiday` (0 or 1). */
  datatype CalendarFeatures = CalendarFeatures(hour: nat, dow: nat, isHoliday: nat)

  /** `name.notna().astype(int)` of the holiday row merged in, if any. */
  function HolidayFlag(holiday: Option<HolidayRow>): (flag: nat)
    ensures flag <= 1
    ensures flag == 1 <==> holiday.Some? && holiday.value.name.Some?
  {
    match holiday
    case Some(HolidayRow(_, Some(_))) => 1
    case _ => 0
  }

  /** The features of a row with UTC timestamp `t` and merged holiday `holiday`. */
  function Derive(t: Instant, holiday: Option<HolidayRow>): (c: CalendarFeatures)
    ensures c.hour < 24 && c.dow < 7 && c.isHoliday <= 1
  {
    CalendarFeatures(HourOf(t), Weekday(DayOf(t)), HolidayFlag(holiday))
  }

  /**
   * The weekday is the Unix-day count shifted by three (1970-01-01 was a
   * Thursday), and the hour is the one the instant was built with.
   */
  lemma DeriveClock(d: Day, h: nat, mi: nat, s: nat, holiday: Option<HolidayRow>)
    requires d >= UnixEpochDay && h < 24 && mi < 60 && s < 60
    ensures Derive(InstantAt(d, h, mi, s), holiday).hour == h
    ensures Derive(InstantAt(d, h, mi, s), holiday).dow == (d - UnixEpochDay + 3) % 7
  {
    InstantAtFields(d, h, mi, s);
    WeekdayFromUnixEpoch(d);
  }

  /** 2024-01-01 (a Monday) gets `dow` 0 and 2024-01-07 (a Sunday) gets `dow` 6. */
  lemma DeriveWeekdayExamples(holiday: Option<HolidayRow>)
    ensures ValidDate(Date(2024, 1, 1)) && ValidDate(Date(2024, 1, 7))
    ensures Derive(StartOfDay(DayNumber(Date(2024, 1, 1))), holiday).dow == 0
    ensures Derive(StartOfDay(DayNumber(Date(2024, 1, 7))), holiday).dow == 6
  {
    DaysBeforeYearClosedForm(2024);
    assert ClosedDays(2023) == 738885;
    assert DayNumber(Date(2024, 1, 1)) == 738885;
    assert DayNumber(Date(2024, 1, 7)) == 738891;
    assert DayOf(StartOfDay(738885)) == 738885 && DayOf(StartOfDay(738891)) == 738891;
    assert Weekday(738885) == 0 && Weekday(738891) == 6;
  }

  /**
   * With one holidays row per date, `is_holiday` is 1 exactly when some
   * holidays row has the timestamp's UTC date and a name.
   */
  lemma IsHolidayIff(t: Instant, holidays: seq<HolidayRow>)
    requires UniqueKeys(holidays, (h: HolidayRow) => h.date)
    ensures Derive(t, Lookup(holidays, (h: HolidayRow) => h.date, DayOf(t))).isHoliday == 1
      <==> exists h :: h in holidays && h.date == DayOf(t) && h.name.Some?
  {
    var o := Lookup(holidays, (h: HolidayRow) => h.date, DayOf(t));
    if h :| h in holidays && h.date == DayOf(t) && h.name.Some? {
      var i :| 0 <= i < |holidays| && holidays[i] == h;
      var j :| 0 <= j < |holidays| && holidays[j] == o.value;
      assert i == j;
    }
  }

  // ---------------------------------------------------------------------------
  // The two merges
  // ---------------------------------------------------------------------------

  /** The weather columns a merged row receives. */
  function WeatherOf(m: Option<WeatherRow>): Weather {
    match m
    case Some(w) => w.weather
    case None => NoWeather
  }

  /** `pd.merge(rows, weather, on="timestamp_utc", how="left")`. */
  function MergeWeather<L(!new)>(rows: seq<L>, time: L -> Instant, weather: seq<WeatherRow>): seq<(L, Weather)> {
    Map(LeftJoin(rows, weather, time, (w: WeatherRow) => w.time),
        (p: (L, Option<WeatherRow>)) => (p.0, WeatherOf(p.1)))
  }

  /**
   * `df["date"] = timestamp.dt.date`, the left merge with `holidays[["date", "name"]]`
   * on `date`, and the `is_holiday`, `hour` and `dow` columns.
   */
  function MergeHolidays<L(!new)>(rows: seq<L>, time: L -> Instant, holidays: seq<HolidayRow>): seq<(L, CalendarFeatures)> {
    Map(LeftJoin(rows, holidays, (l: L) => DayOf(time(l)), (h: HolidayRow) => h.date),
        (p: (L, Option<HolidayRow>)) => (p.0, Derive(time(p.0), p.1)))
  }

  /** A reading after both merges. */
  datatype JoinedRow = JoinedRow(reading: Reading, weather: Weather, calendar: CalendarFeatures)

  /** Readings merged with weather, then with holidays, with the derived columns. */
  function Joined(bike: seq<Reading>, weather: seq<WeatherRow>, holidays: seq<HolidayRow>): seq<JoinedRow> {
    Map(MergeHolidays(MergeWeather(bike, (r: Reading) => r.time, weather),
                      (p: (Reading, Weather)) => p.0.time, holidays),
        (q: ((Reading, Weather), CalendarFeatures)) => JoinedRow(q.0.0, q.0.1, q.1))
  }

  /** The weather stored for exactly timestamp `t`, or nulls. */
  function WeatherAt(weather: seq<WeatherRow>, t: Instant): Weather {
    WeatherOf(Lookup(weather, (w: WeatherRow) => w.time, t))
  }

  /** The features of timestamp `t` against the holidays table. */
  function CalendarAt(holidays: seq<HolidayRow>, t: Instant): CalendarFeatures {
    Derive(t, Lookup(holidays, (h: HolidayRow) => h.date, DayOf(t)))
  }

  lemma MergeWeatherUnique<L(!new)>(rows: seq<L>, time: L -> Instant, weather: seq<WeatherRow>)
    requires UniqueKeys(weather, (w: WeatherRow) => w.time)
    ensures |MergeWeather(rows, time, weather)| == |rows|
    ensures forall i :: 0 <= i < |rows| ==>
      MergeWeather(rows, time, weather)[i] == (rows[i], WeatherAt(weather, time(rows[i])))
  {
    LeftJoinUnique(rows, weather, time, (w: WeatherRow) => w.time);
  }

  lemma MergeHolidaysUnique<L(!new)>(rows: seq<L>, time: L -> Instant, holidays: seq<HolidayRow>)
    requires UniqueKeys(holidays, (h: HolidayRow) => h.date)
    ensures |MergeHolidays(rows, time, holidays)| == |rows|
    ensures forall i :: 0 <= i < |rows| ==>
      MergeHolidays(rows, time, holidays)[i] == (rows[i], CalendarAt(holidays, time(rows[i])))
  {
    LeftJoinUnique(rows, holidays, (l: L) => DayOf(time(l)), (h: HolidayRow) => h.date);
  }

  /**
   * With unique weather timestamps and unique holiday dates, both merges keep
   * exactly one row per reading, in order, carrying the weather stored for
   * its identical timestamp and the features of its UTC date.
   */
  lemma JoinedOnePerReading(bike: seq<Reading>, weather: seq<WeatherRow>, holidays: seq<HolidayRow>)
    requires UniqueKeys(weather, (w: WeatherRow) => w.time)
    requires UniqueKeys(holidays, (h: HolidayRow) => h.date)
    ensures |Joined(bike, weather, holidays)| == |bike|
    ensures forall i :: 0 <= i < |bike| ==>
      Joined(bike, weather, holidays)[i]
        == JoinedRow(bike[i], WeatherAt(weather, bike[i].time), CalendarAt(holidays, bike[i].time))
  {
    var mw := MergeWeather(bike, (r: Reading) => r.time, weather);
    MergeWeatherUnique(bike, (r: Reading) => r.time, weather);
    MergeHolidaysUnique(mw, (p: (Reading, Weather)) => p.0.time, holidays);
  }

  /** The merged row of one reading when the weather and holiday keys are unique. */
  function JoinedAt(weather: seq<WeatherRow>, holidays: seq<HolidayRow>): Reading -> JoinedRow {
    (r: Reading) => JoinedRow(r, WeatherAt(weather, r.time), CalendarAt(holidays, r.time))
  }

  /** The same fact as one sequence equation. */
  lemma JoinedIsMap(bike: seq<Reading>, weather: seq<WeatherRow>, holidays: seq<HolidayRow>)
    requires UniqueKeys(weather, (w: WeatherRow) => w.time)
    requires UniqueKeys(holidays, (h: HolidayRow) => h.date)
    ensures Joined(bike, weather, holidays) == Map(bike, JoinedAt(weather, holidays))
  {
    JoinedOnePerReading(bike, weather, holidays);
  }

  /**
   * Whatever the tables: every merged row's weather is the weather of a stored
   * row with the identical timestamp, or all-null when no such row exists.
   */
  lemma MergeWeatherProvenance<L(!new)>(rows: seq<L>, time: L -> Instant, weather: seq<WeatherRow>)
    ensures forall p :: p in MergeWeather(rows, time, weather) ==>
      && p.0 in rows
      && ((exists w :: w in weather && w.time == time(p.0) && w.weather == p.1)
          || (p.1 == NoWeather && forall w :: w in weather ==> w.time != time(p.0)))
  {
    var j := LeftJoin(rows, weather, time, (w: WeatherRow) => w.time);
    LeftJoinRows(rows, weather, time, (w: WeatherRow) => w.time);
    forall p | p in MergeWeather(rows, time, weather)
      ensures p.0 in rows
      ensures (exists w :: w in weather && w.time == time(p.0) && w.weather == p.1)
          || (p.1 == NoWeather && forall w :: w in weather ==> w.time != time(p.0))
    {
      var i :| 0 <= i < |j| && MergeWeather(rows, time, weather)[i] == p;
      assert j[i] in j;
    }
  }

  // ---------------------------------------------------------------------------
  // Future rows
  // ---------------------------------------------------------------------------

  /** A forecast hour with the derived columns: the prediction input. */
  datatype FutureRow = FutureRow(time: Instant, weather: Weather, calendar: CalendarFeatures)

  /** Forecast rows merged with holidays, with the same derivation as training. */
  function FutureJoined(forecast: seq<WeatherRow>, holidays: seq<HolidayRow>): seq<FutureRow> {
    Map(MergeHolidays(forecast, (w: WeatherRow) => w.time, holidays),
        (q: (WeatherRow, CalendarFeatures)) => FutureRow(q.0.time, q.0.weather, q.1))
  }

  /**
   * With unique holiday dates a future frame keeps every forecast row, in
   * order and with its weather untouched, and derives its features exactly
   * as a training row at the same timestamp gets them.
   */
  lemma FutureJoinedOnePerForecastRow(forecast: seq<WeatherRow>, holidays: seq<HolidayRow>)
    requires UniqueKeys(holidays, (h: HolidayRow) => h.date)
    ensures |FutureJoined(forecast, holidays)| == |forecast|
    ensures forall i :: 0 <= i < |forecast| ==>
      FutureJoined(forecast, holidays)[i]
        == FutureRow(forecast[i].time, forecast[i].weather, CalendarAt(holidays, forecast[i].time))
  {
    MergeHolidaysUnique(forecast, (w: WeatherRow) => w.time, holidays);
  }

  // ---------------------------------------------------------------------------
  // The stored-forecast loader's "tomorrow" filter
  // ---------------------------------------------------------------------------

  /** Why a shared load stops a whole prediction run. */
  datatype LoadError =
    | EmptyTable(table: string)     // "No data in <table>"
    | NoForecastForTomorrow         // "No forecast rows for tomorrow in weather_forecast_hourly"

  /** `(now + timedelta(days=1)).date()`: the UTC day after `now`. */
  function Tomorrow(now: Instant): (d: Day)
    ensures d == DayOf(now + SecondsPerDay)
  {
    DayOf(now) + 1
  }

  /** The stored forecast rows whose UTC date is tomorrow, in stored order. */
  function TomorrowRows(forecast: seq<WeatherRow>, now: Instant): (r: seq<WeatherRow>)
    ensures forall w :: w in r <==> w in forecast && DayOf(w.time) == Tomorrow(now)
  {
    Filter(forecast, (w: WeatherRow) => DayOf(w.time) == Tomorrow(now))
  }

  /** Raises on an empty table and on a table with no row for tomorrow. */
  function LoadTomorrowForecast(forecast: seq<WeatherRow>, now: Instant): (r: Result<seq<WeatherRow>, LoadError>)
    ensures forecast == [] ==> r == Err(EmptyTable("weather_forecast_hourly"))
    ensures forecast != [] && TomorrowRows(forecast, now) == [] ==> r == Err(NoForecastForTomorrow)
    ensures forecast != [] && TomorrowRows(forecast, now) != [] ==> r == Ok(TomorrowRows(forecast, now))
    ensures r.Ok? ==> r.value == TomorrowRows(forecast, now) && r.value != []
  {
    if forecast == [] then Err(EmptyTable("weather_forecast_hourly"))
    else
      var rows := TomorrowRows(forecast, now);
      if rows == [] then Err(NoForecastForTomorrow) else Ok(rows)
  }

  /** "Not later than", the order `sort_values("timestamp_utc")` produces. */
  function TimeLe<T>(time: T -> Instant): (T, T) -> bool {
    (a: T, b: T) => time(a) <= time(b)
  }

  lemma TimeOrder<T>(s: seq<T>, time: T -> Instant)
    ensures TotalOn(s, TimeLe(time)) && TransitiveOn(s, TimeLe(time))
  {
  }

  /** `s.sort_values("timestamp_utc")`. */
  function SortByTime<T>(s: seq<T>, time: T -> Instant): (r: seq<T>)
    ensures multiset(r) == multiset(s) && |r| == |s|
    ensures forall i, j :: 0 <= i < j < |r| ==> time(r[i]) <= time(r[j])
  {
    TimeOrder(s, time);
    SortLength(s, TimeLe(time));
    Sort(s, TimeLe(time))
  }
}
