/**
 * The full pipeline: the history ETL (APIs to CSV), the reload of the store
 * from those files, then the two models. Each step is an effect recorded in
 * a log; what the store and the files then hold is the business of the
 * steps' own modules. `today` is a parameter standing for `date.today()`.
 */
module Pipeline {
  import opened Calendar

  /** The lower bound every date-keyed truncation deletes from. */
  const NoLowerBound: string := "1900-01-01T00:00:00+00"

  /** The store's tables the pipeline empties. */
  datatype Table =
    | BikeHourly | WeatherHourly | Counters | WeatherForecastHourly | Holidays
    | ProphetPredictions | XgboostPredictions

  function TableName(t: Table): string {
    match t
    case BikeHourly => "bike_hourly"
    case WeatherHourly => "weather_hourly"
    case Counters => "counters"
    case WeatherForecastHourly => "weather_forecast_hourly"
    case Holidays => "holidays"
    case ProphetPredictions => "bike_predictions_hourly_prophet"
    case XgboostPredictions => "bike_predictions_hourly_xgboost"
  }

  /**
   * The column and bound `truncate_table` is given: every row whose column
   * is at least the bound goes, which for these tables is every row.
   */
  function TruncationFilter(t: Table): (string, string) {
    match t
    case Counters => ("id", "")
    case Holidays => ("date", NoLowerBound)
    case _ => ("timestamp_utc", NoLowerBound)
  }

  /** Distinct tables have distinct names, so the log's table arguments are the calls' table names. */
  lemma TableNamesDistinct(a: Table, b: Table)
    requires TableName(a) == TableName(b)
    ensures a == b
  {
  }

  datatype Step =
    | EtlBike                     // bike_etl's run_bike_etl_for_selected: API to CSV
    | EtlWeather                  // weather_etl main
    | EtlHolidays                 // holidays_etl main
    | Truncate(table: Table)   // truncate_table(TableName(table), TruncationFilter(table)...)
    | LoadCounters
    | LoadWeatherHourly
    | LoadBikeHourly
    | UpdateWeatherForecast
    | LoadHolidays
    | RunProphet
    | RunXgboost

  // ---------------------------------------------------------------------------
  // The holidays rule
  // ---------------------------------------------------------------------------

  /** `should_refresh_holidays` for the day `today`. */
  predicate ShouldRefreshHolidays(today: Date) {
    today.month == 12 && today.day >= 30
  }

  /** On a real date the rule holds on December 30 and 31 and on no other day. */
  lemma RefreshDays(today: Date)
    requires ValidDate(today)
    ensures ShouldRefreshHolidays(today) <==> today.month == 12 && (today.day == 30 || today.day == 31)
  {
  }

  /** Equivalently: the rule holds exactly when the next January 1 is at most two days away. */
  lemma RefreshNearNewYear(today: Date)
    requires ValidDate(today)
    ensures ValidDate(Date(today.year + 1, 1, 1))
    ensures ShouldRefreshHolidays(today) <==> DayNumber(Date(today.year + 1, 1, 1)) - DayNumber(today) <= 2
  {
    DaysToNewYear(today);
    LastTwoDays(today.year, today.month, today.day);
  }

  /** The days from a date to the next January 1, within the date's year. */
  lemma DaysToNewYear(today: Date)
    requires ValidDate(today)
    ensures ValidDate(Date(today.year + 1, 1, 1))
    ensures DayNumber(Date(today.year + 1, 1, 1)) - DayNumber(today)
      == DaysBeforeMonth(today.year, 13) - DaysBeforeMonth(today.year, today.month) - today.day + 1
  {
    var y := today.year;
    var next := Date(y + 1, 1, 1);
    assert DaysInMonth(y + 1, 1) == 31;
    assert DayNumber(next) == DaysBeforeYear(y + 1) + DaysBeforeMonth(y + 1, 1);
    DaysBeforeNextYear(y);
    DaysBeforeNextMonth(y, 12);
  }

  /** At most two days remain in the year exactly on December 30 and 31. */
  lemma LastTwoDays(y: nat, m: nat, d: nat)
    requires 1 <= m <= 12 && 1 <= d <= DaysInMonth(y, m)
    ensures (m == 12 && d >= 30) <==> DaysBeforeMonth(y, 13) - DaysBeforeMonth(y, m) - d + 1 <= 2
  {
    DaysBeforeNextMonth(y, m);
    if m + 1 < 13 {
      DaysBeforeMonthIncreases(y, m + 1, 13);
    }
    if m < 12 {
      DaysBeforeNextMonth(y, 12);
      if m + 1 < 12 {
        DaysBeforeMonthIncreases(y, m + 1, 12);
      }
    }
  }

  // ---------------------------------------------------------------------------
  // The steps each stage runs
  // ---------------------------------------------------------------------------

  const HolidaysTruncation: Step := Truncate(Holidays)

  /** The four history tables, emptied on every run. */
  const HistoryTruncations: seq<Step> :=
    [Truncate(BikeHourly), Truncate(WeatherHourly), Truncate(Counters), Truncate(WeatherForecastHourly)]

  /** The loaders that run on every reload, in order. */
  const HistoryLoaders: seq<Step> := [LoadCounters, LoadWeatherHourly, LoadBikeHourly, UpdateWeatherForecast]

  const PredictionTruncations: seq<Step> := [Truncate(ProphetPredictions), Truncate(XgboostPredictions)]

  /** What `run_etl_history` does on `today`. */
  function EtlHistorySteps(today: Date): seq<Step> {
    [EtlBike, EtlWeather] + (if ShouldRefreshHolidays(today) then [EtlHolidays] else [])
  }

  /** What `reload_data_to_supabase` does on `today`. */
  function ReloadSteps(today: Date): seq<Step> {
    var refresh := ShouldRefreshHolidays(today);
    HistoryTruncations + (if refresh then [HolidaysTruncation] else [])
      + HistoryLoaders + (if refresh then [LoadHolidays] else [])
  }

  /** What `run_models` does. */
  function ModelSteps(): seq<Step> {
    PredictionTruncations + [RunProphet, RunXgboost]
  }

  /** What `main` does on `today`. */
  function PipelineSteps(today: Date): seq<Step> {
    EtlHistorySteps(today) + ReloadSteps(today) + ModelSteps()
  }

  // ---------------------------------------------------------------------------
  // Ordering
  // ---------------------------------------------------------------------------

  /** `x` happens, and every occurrence of `y` comes after an occurrence of `x`. */
  predicate Precedes(steps: seq<Step>, x: Step, y: Step) {
    x in steps && forall j :: 0 <= j < |steps| && steps[j] == y ==> exists i :: 0 <= i < j && steps[i] == x
  }

  /** A step of the first part precedes any step that occurs only in the second. */
  lemma PrecedesAcross(a: seq<Step>, b: seq<Step>, x: Step, y: Step)
    requires x in a && y !in a
    ensures Precedes(a + b, x, y)
  {
    var i :| 0 <= i < |a| && a[i] == x;
    assert forall k :: 0 <= k < |a| ==> (a + b)[k] == a[k] != y;
    forall j | 0 <= j < |a + b| && (a + b)[j] == y
      ensures exists i :: 0 <= i < j && (a + b)[i] == x
    {
      assert (a + b)[i] == x;
    }
  }

  // ---------------------------------------------------------------------------
  // What the stages promise
  // ---------------------------------------------------------------------------

  /** The holidays ETL runs exactly when the rule holds; the other two always run. */
  lemma HolidaysEtlIff(today: Date)
    ensures EtlBike in EtlHistorySteps(today) && EtlWeather in EtlHistorySteps(today)
    ensures EtlHolidays in EtlHistorySteps(today) <==> ShouldRefreshHolidays(today)
  {
    assert EtlHistorySteps(today)[0] == EtlBike && EtlHistorySteps(today)[1] == EtlWeather;
  }

  /** The holidays table is emptied exactly when the rule holds, and reloaded exactly when emptied. */
  lemma HolidaysReloadIff(today: Date)
    ensures HolidaysTruncation in ReloadSteps(today) <==> ShouldRefreshHolidays(today)
    ensures LoadHolidays in ReloadSteps(today) <==> HolidaysTruncation in ReloadSteps(today)
    ensures LoadHolidays in ReloadSteps(today) ==> Precedes(ReloadSteps(today), HolidaysTruncation, LoadHolidays)
  {
    var s := ReloadSteps(today);
    if ShouldRefreshHolidays(today) {
      var a := HistoryTruncations + [HolidaysTruncation];
      assert s == a + (HistoryLoaders + [LoadHolidays]);
      assert a[4] == HolidaysTruncation;
      PrecedesAcross(a, HistoryLoaders + [LoadHolidays], HolidaysTruncation, LoadHolidays);
    } else {
      assert s == HistoryTruncations + HistoryLoaders;
    }
  }

  /**
   * The four history tables are emptied on every run, each before any
   * loader runs, and every loader of the four runs.
   */
  lemma HistoryTruncatedBeforeLoaders(today: Date)
    ensures forall y :: y in HistoryLoaders ==> y in ReloadSteps(today)
    ensures forall x, y :: x in HistoryTruncations && (y in HistoryLoaders || y == LoadHolidays) ==>
      Precedes(ReloadSteps(today), x, y)
  {
    var refresh := ShouldRefreshHolidays(today);
    var a := HistoryTruncations + (if refresh then [HolidaysTruncation] else []);
    var b := HistoryLoaders + (if refresh then [LoadHolidays] else []);
    assert ReloadSteps(today) == a + b;
    forall x, y | x in HistoryTruncations && (y in HistoryLoaders || y == LoadHolidays)
      ensures Precedes(ReloadSteps(today), x, y)
    {
      assert y !in a;
      PrecedesAcross(a, b, x, y);
    }
  }

  /** Both prediction tables are emptied before either model runs, and Prophet runs before XGBoost. */
  lemma PredictionsTruncatedBeforeModels()
    ensures forall x, y :: x in PredictionTruncations && (y == RunProphet || y == RunXgboost) ==>
      Precedes(ModelSteps(), x, y)
    ensures Precedes(ModelSteps(), RunProphet, RunXgboost)
  {
    forall x, y | x in PredictionTruncations && (y == RunProphet || y == RunXgboost)
      ensures Precedes(ModelSteps(), x, y)
    {
      PrecedesAcross(PredictionTruncations, [RunProphet, RunXgboost], x, y);
    }
    PrecedesAcross(PredictionTruncations + [RunProphet], [RunXgboost], RunProphet, RunXgboost);
    assert PredictionTruncations + [RunProphet] + [RunXgboost] == ModelSteps();
  }

  /** Over the whole run, the holidays are reloaded only on a refresh day, and only after they were fetched. */
  lemma HolidaysFetchedBeforeLoaded(today: Date)
    ensures LoadHolidays in PipelineSteps(today) <==> ShouldRefreshHolidays(today)
    ensures ShouldRefreshHolidays(today) ==> Precedes(PipelineSteps(today), EtlHolidays, LoadHolidays)
  {
    var e, r, m := EtlHistorySteps(today), ReloadSteps(today), ModelSteps();
    HolidaysReloadIff(today);
    assert PipelineSteps(today) == e + (r + m);
    assert LoadHolidays !in e && LoadHolidays !in m;
    if ShouldRefreshHolidays(today) {
      assert e[2] == EtlHolidays;
      PrecedesAcross(e, r + m, EtlHolidays, LoadHolidays);
    }
  }

  /** The models run only after the history they train on was loaded. */
  lemma HistoryLoadedBeforeModels(today: Date)
    ensures Precedes(PipelineSteps(today), LoadBikeHourly, RunProphet)
    ensures Precedes(PipelineSteps(today), LoadWeatherHourly, RunXgboost)
    ensures Precedes(PipelineSteps(today), LoadBikeHourly, RunXgboost)
    ensures Precedes(PipelineSteps(today), LoadWeatherHourly, RunProphet)
  {
    var e, r, m := EtlHistorySteps(today), ReloadSteps(today), ModelSteps();
    HistoryTruncatedBeforeLoaders(today);
    assert LoadBikeHourly in HistoryLoaders && LoadWeatherHourly in HistoryLoaders;
    assert LoadBikeHourly in e + r && LoadWeatherHourly in e + r;
    assert RunProphet !in e + r && RunXgboost !in e + r;
    PrecedesAcross(e + r, m, LoadBikeHourly, RunProphet);
    PrecedesAcross(e + r, m, LoadWeatherHourly, RunXgboost);
    PrecedesAcross(e + r, m, LoadBikeHourly, RunXgboost);
    PrecedesAcross(e + r, m, LoadWeatherHourly, RunProphet);
  }

  // ---------------------------------------------------------------------------
  // The pipeline as run
  // ---------------------------------------------------------------------------

  /** The effects issued so far, in order. */
  class Runner {
    var log: seq<Step>

    constructor ()
      ensures log == []
    {
      log := [];
    }

    /** Issues one effect: an ETL or loader `main`, a truncation, or a model run. */
    method Perform(step: Step)
      modifies this
      ensures log == old(log) + [step]
    {
      log := log + [step];
    }

    method RunEtlHistory(today: Date)
      modifies this
      ensures log == old(log) + EtlHistorySteps(today)
    {
      Perform(EtlBike);
      Perform(EtlWeather);
      if ShouldRefreshHolidays(today) {
        Perform(EtlHolidays);
      }
    }

    method ReloadDataToSupabase(today: Date)
      modifies this
      ensures log == old(log) + ReloadSteps(today)
    {
      ghost var before := log;
      Perform(Truncate(BikeHourly));
      Perform(Truncate(WeatherHourly));
      Perform(Truncate(Counters));
      Perform(Truncate(WeatherForecastHourly));
      assert log == before + HistoryTruncations;
      var reloadHolidays: bool;
      if ShouldRefreshHolidays(today) {
        Perform(HolidaysTruncation);
        reloadHolidays := true;
      } else {
        reloadHolidays := false;
      }
      ghost var truncated := log;
      assert reloadHolidays == ShouldRefreshHolidays(today);
      assert truncated == before + HistoryTruncations + (if reloadHolidays then [HolidaysTruncation] else []);
      Perform(LoadCounters);
      Perform(LoadWeatherHourly);
      Perform(LoadBikeHourly);
      Perform(UpdateWeatherForecast);
      assert log == truncated + HistoryLoaders;
      if reloadHolidays {
        Perform(LoadHolidays);
      }
      assert log == before + (HistoryTruncations + (if reloadHolidays then [HolidaysTruncation] else [])
        + HistoryLoaders + (if reloadHolidays then [LoadHolidays] else []));
    }

    method RunModels()
      modifies this
      ensures log == old(log) + ModelSteps()
    {
      Perform(Truncate(ProphetPredictions));
      Perform(Truncate(XgboostPredictions));
      Perform(RunProphet);
      Perform(RunXgboost);
    }

    /** `main`: the three stages in order. */
    method RunPipeline(today: Date)
      modifies this
      ensures log == old(log) + PipelineSteps(today)
    {
      RunEtlHistory(today);
      ReloadDataToSupabase(today);
      RunModels();
    }
  }
}
