/**
 * The Prophet prediction run: the same shared loads (with the forecast left
 * in stored order), a nine-column training frame and an eight-column future
 * frame per counter, a skip on an empty training set, the two errors Prophet
 * itself raises (which end the run), and one upsert of every forecast into
 * `bike_predictions_hourly_prophet`.
 */
module ProphetPredictions {
  import opened Wrappers
  import opened Calendar
  import opened Tables
  import opened IsoTime
  import opened Features
  import Config
  import XgboostPredictions

  const PredictionTable: string := "bike_predictions_hourly_prophet"

  // ---------------------------------------------------------------------------
  // Frames
  // ---------------------------------------------------------------------------

  /**
   * A training row: `ds` (the timestamp with its zone dropped, same UTC clock),
   * `y` (the intensity), the four regressors of weather, then `is_holiday`, `dow`, `hour`.
   */
  datatype TrainingRow = TrainingRow(ds: Instant, y: Option<real>, weather: Weather, isHoliday: nat, dow: nat, hour: nat)

  /** `df[cols]` on a merged row. */
  function Columns(j: JoinedRow): TrainingRow {
    TrainingRow(j.reading.time, j.reading.intensity, j.weather, j.calendar.isHoliday, j.calendar.dow, j.calendar.hour)
  }

  /** `dropna()` over the nine columns; `ds` and the derived columns are never null. */
  predicate NoNulls(r: TrainingRow) {
    r.y.Some? && Complete(r.weather)
  }

  /** `build_training_dataframe`. */
  function BuildTrainingDataframe(bike: seq<Reading>, weather: seq<WeatherRow>, holidays: seq<HolidayRow>): (r: seq<TrainingRow>)
    ensures forall x :: x in r ==> NoNulls(x)
    ensures |r| <= |Joined(bike, weather, holidays)|
  {
    Filter(Map(Joined(bike, weather, holidays), Columns), NoNulls)
  }

  /**
   * The Prophet training frame holds the same rows as the XGBoost training
   * set, in the same order, projected onto the nine columns: both derive the
   * features identically and drop exactly the rows with a null.
   */
  lemma SameRowsAsXgboost(bike: seq<Reading>, weather: seq<WeatherRow>, holidays: seq<HolidayRow>)
    ensures BuildTrainingDataframe(bike, weather, holidays)
      == Map(XgboostPredictions.BuildTrainingDataset(bike, weather, holidays), Columns)
  {
    var j := Joined(bike, weather, holidays);
    FilterMap(j, Columns, NoNulls, XgboostPredictions.TrainingReady);
  }

  /** Each training row's `ds` is a reading's own timestamp and `y` its intensity. */
  lemma TrainingRowsComeFromReadings(bike: seq<Reading>, weather: seq<WeatherRow>, holidays: seq<HolidayRow>)
    requires UniqueKeys(weather, (w: WeatherRow) => w.time)
    requires UniqueKeys(holidays, (h: HolidayRow) => h.date)
    ensures forall x :: x in BuildTrainingDataframe(bike, weather, holidays) ==>
      exists r :: (r in bike && x.ds == r.time && x.y == r.intensity
        && x.weather == WeatherAt(weather, r.time)
        && x.hour == HourOf(r.time) && x.dow == Weekday(DayOf(r.time)))
  {
    JoinedIsMap(bike, weather, holidays);
    var m := Map(Joined(bike, weather, holidays), Columns);
    forall x | x in BuildTrainingDataframe(bike, weather, holidays)
      ensures exists r :: (r in bike && x.ds == r.time && x.y == r.intensity
        && x.weather == WeatherAt(weather, r.time)
        && x.hour == HourOf(r.time) && x.dow == Weekday(DayOf(r.time)))
    {
      var i :| 0 <= i < |m| && m[i] == x;
      assert bike[i] in bike;
    }
  }

  /** `build_future_dataframe`: the eight columns of every forecast row, in stored order. */
  function BuildFutureDataframe(forecast: seq<WeatherRow>, holidays: seq<HolidayRow>): seq<FutureRow> {
    FutureJoined(forecast, holidays)
  }

  /** With unique holiday dates: row `i` of the future frame is forecast row `i` with its features. */
  lemma FutureDataframeInForecastOrder(forecast: seq<WeatherRow>, holidays: seq<HolidayRow>)
    requires UniqueKeys(holidays, (h: HolidayRow) => h.date)
    ensures |BuildFutureDataframe(forecast, holidays)| == |forecast|
    ensures forall i :: 0 <= i < |forecast| ==>
      BuildFutureDataframe(forecast, holidays)[i]
        == FutureRow(forecast[i].time, forecast[i].weather, CalendarAt(holidays, forecast[i].time))
  {
    FutureJoinedOnePerForecastRow(forecast, holidays);
  }

  // ---------------------------------------------------------------------------
  // Predictions
  // ---------------------------------------------------------------------------

  /** The `yhat`, `yhat_lower` and `yhat_upper` columns of one forecast row. */
  datatype Forecast = Forecast(yhat: real, yhatLower: real, yhatUpper: real)

  /** Fitting Prophet with the seven regressors and predicting one future row. */
  type Predictor = (seq<TrainingRow>, FutureRow) -> Forecast

  datatype Prediction = Prediction(counterId: string, time: Instant, forecast: Forecast)

  /** A row of `bike_predictions_hourly_prophet` as sent: the timestamp is text. */
  datatype StoredPrediction = StoredPrediction(counterId: string, timestampUtc: string, yhat: real, yhatLower: real, yhatUpper: real)

  function Store(p: Prediction): StoredPrediction {
    StoredPrediction(p.counterId, Render(p.time), p.forecast.yhat, p.forecast.yhatLower, p.forecast.yhatUpper)
  }

  /** The counter's history loads and its training frame is not empty, so `m.fit` is called on it. */
  predicate Trains(id: string, history: string -> seq<Reading>, weather: seq<WeatherRow>, holidays: seq<HolidayRow>) {
    history(id) != [] && BuildTrainingDataframe(history(id), weather, holidays) != []
  }

  /** Every counter XGBoost trains on, Prophet trains on too, with enough rows for `m.fit`. */
  lemma XgboostTrainsImpliesProphetTrains(id: string, history: string -> seq<Reading>,
                                          weather: seq<WeatherRow>, holidays: seq<HolidayRow>)
    requires XgboostPredictions.Trains(id, history, weather, holidays)
    ensures Trains(id, history, weather, holidays)
    ensures |BuildTrainingDataframe(history(id), weather, holidays)| >= MinFitRows
  {
    SameRowsAsXgboost(history(id), weather, holidays);
  }

  /** One trained counter's frame: one row per future row, with that row's timestamp and forecast. */
  function Batch(id: string, history: string -> seq<Reading>, weather: seq<WeatherRow>, holidays: seq<HolidayRow>,
                 future: seq<FutureRow>, predict: Predictor): (b: seq<Prediction>)
    ensures |b| == |future|
    ensures forall i :: 0 <= i < |b| ==> b[i].counterId == id && b[i].time == future[i].time
  {
    var train := BuildTrainingDataframe(history(id), weather, holidays);
    Map(future, (f: FutureRow) => Prediction(id, f.time, predict(train, f)))
  }

  /** `Prophet.fit` raises on a frame with fewer non-null rows than this. */
  const MinFitRows: nat := 2

  /** The errors Prophet raises; neither is caught, so each ends the whole run. */
  datatype ModelError =
    | TooFewRows(counterId: string)       // `m.fit`: "Dataframe has less than 2 non-NaN rows."
    | NullRegressor(counterId: string)    // `model.predict`: "Found NaN in column ..."

  /** A future frame holds a null regressor when some forecast hour has a null weather variable. */
  predicate HasNullRegressor(future: seq<FutureRow>) {
    exists f :: f in future && !Complete(f.weather)
  }

  /**
   * What Prophet raises for one counter: nothing when the counter is skipped,
   * otherwise `fit` on a frame of one row, then `predict` on a future frame
   * with a null regressor.
   */
  function ErrorOf(id: string, history: string -> seq<Reading>, weather: seq<WeatherRow>, holidays: seq<HolidayRow>,
                   future: seq<FutureRow>): Option<ModelError>
  {
    if !Trains(id, history, weather, holidays) then None
    else if |BuildTrainingDataframe(history(id), weather, holidays)| < MinFitRows then Some(TooFewRows(id))
    else if HasNullRegressor(future) then Some(NullRegressor(id))
    else None
  }

  /** The error that ends the loop over `counters`: the first counter's error, in order. */
  function FirstError(counters: seq<string>, history: string -> seq<Reading>, weather: seq<WeatherRow>,
                      holidays: seq<HolidayRow>, future: seq<FutureRow>): Option<ModelError>
  {
    if counters == [] then None
    else
      match FirstError(counters[..|counters| - 1], history, weather, holidays, future)
      case Some(e) => Some(e)
      case None => ErrorOf(counters[|counters| - 1], history, weather, holidays, future)
  }

  /** A counter raises exactly when it reaches `m.fit` with a one-row frame or a null in the future frame. */
  lemma ErrorOfIff(id: string, history: string -> seq<Reading>, weather: seq<WeatherRow>, holidays: seq<HolidayRow>,
                   future: seq<FutureRow>)
    ensures ErrorOf(id, history, weather, holidays, future).Some? <==>
      Trains(id, history, weather, holidays)
        && (|BuildTrainingDataframe(history(id), weather, holidays)| < MinFitRows || HasNullRegressor(future))
    ensures ErrorOf(id, history, weather, holidays, future).Some? ==>
      ErrorOf(id, history, weather, holidays, future).value.counterId == id
  {
  }

  /** The loop raises exactly when some counter raises. */
  lemma {:induction false} FirstErrorIff(counters: seq<string>, history: string -> seq<Reading>, weather: seq<WeatherRow>,
                                         holidays: seq<HolidayRow>, future: seq<FutureRow>)
    ensures FirstError(counters, history, weather, holidays, future).Some? <==>
      exists id :: id in counters && ErrorOf(id, history, weather, holidays, future).Some?
  {
    if counters != [] {
      var front := counters[..|counters| - 1];
      FirstErrorIff(front, history, weather, holidays, future);
      assert counters == front + [counters[|counters| - 1]];
    }
  }

  /** The error the loop raises is that of the first counter that raises; every counter before it ran cleanly. */
  lemma {:induction false} FirstErrorIsFirst(counters: seq<string>, history: string -> seq<Reading>, weather: seq<WeatherRow>,
                                             holidays: seq<HolidayRow>, future: seq<FutureRow>)
    requires FirstError(counters, history, weather, holidays, future).Some?
    ensures exists k :: (0 <= k < |counters|
      && ErrorOf(counters[k], history, weather, holidays, future) == FirstError(counters, history, weather, holidays, future)
      && forall j :: 0 <= j < k ==> ErrorOf(counters[j], history, weather, holidays, future).None?)
  {
    var front := counters[..|counters| - 1];
    if FirstError(front, history, weather, holidays, future).Some? {
      FirstErrorIsFirst(front, history, weather, holidays, future);
      var k :| 0 <= k < |front|
        && ErrorOf(front[k], history, weather, holidays, future) == FirstError(front, history, weather, holidays, future)
        && forall j :: 0 <= j < k ==> ErrorOf(front[j], history, weather, holidays, future).None?;
      assert counters[k] == front[k];
      assert forall j :: 0 <= j < k ==> counters[j] == front[j];
    } else {
      FirstErrorIff(front, history, weather, holidays, future);
      var k := |counters| - 1;
      forall j | 0 <= j < k
        ensures ErrorOf(counters[j], history, weather, holidays, future).None?
      {
        assert counters[j] == front[j] && front[j] in front;
      }
    }
  }

  /** Once a prefix of the counters raised, the whole loop raised the same error. */
  lemma {:induction false} FirstErrorPrefix(counters: seq<string>, k: nat, history: string -> seq<Reading>,
                                            weather: seq<WeatherRow>, holidays: seq<HolidayRow>, future: seq<FutureRow>)
    requires k <= |counters|
    requires FirstError(counters[..k], history, weather, holidays, future).Some?
    ensures FirstError(counters, history, weather, holidays, future)
      == FirstError(counters[..k], history, weather, holidays, future)
    decreases |counters|
  {
    if k < |counters| {
      var front := counters[..|counters| - 1];
      assert front[..k] == counters[..k];
      FirstErrorPrefix(front, k, history, weather, holidays, future);
    } else {
      assert counters[..k] == counters;
    }
  }

  function Trained(counters: seq<string>, history: string -> seq<Reading>, weather: seq<WeatherRow>,
                   holidays: seq<HolidayRow>): seq<string>
  {
    if counters == [] then []
    else
      var id := counters[|counters| - 1];
      Trained(counters[..|counters| - 1], history, weather, holidays)
        + (if Trains(id, history, weather, holidays) then [id] else [])
  }

  function Frames(counters: seq<string>, history: string -> seq<Reading>, weather: seq<WeatherRow>,
                  holidays: seq<HolidayRow>, future: seq<FutureRow>, predict: Predictor): seq<seq<Prediction>>
  {
    if counters == [] then []
    else
      var id := counters[|counters| - 1];
      Frames(counters[..|counters| - 1], history, weather, holidays, future, predict)
        + (if Trains(id, history, weather, holidays) then [Batch(id, history, weather, holidays, future, predict)] else [])
  }

  /**
   * A counter reaches `m.fit` exactly when its history loads and its training
   * frame has a row. When the loop raises nothing, those are exactly the
   * counters with at least two training rows, and the future frame has no null.
   */
  lemma {:induction false} TrainedIff(counters: seq<string>, history: string -> seq<Reading>,
                                      weather: seq<WeatherRow>, holidays: seq<HolidayRow>, future: seq<FutureRow>)
    ensures forall id :: id in Trained(counters, history, weather, holidays) <==>
      id in counters && history(id) != [] && |BuildTrainingDataframe(history(id), weather, holidays)| > 0
    ensures FirstError(counters, history, weather, holidays, future).None? ==>
      && (forall id :: id in Trained(counters, history, weather, holidays) <==>
            id in counters && history(id) != [] && |BuildTrainingDataframe(history(id), weather, holidays)| >= MinFitRows)
      && (Trained(counters, history, weather, holidays) != [] ==> !HasNullRegressor(future))
  {
    if counters != [] {
      var front := counters[..|counters| - 1];
      TrainedIff(front, history, weather, holidays, future);
      assert counters == front + [counters[|counters| - 1]];
    }
    FirstErrorIff(counters, history, weather, holidays, future);
    forall id | id in counters
      ensures ErrorOf(id, history, weather, holidays, future).Some? <==>
        Trains(id, history, weather, holidays)
          && (|BuildTrainingDataframe(history(id), weather, holidays)| < MinFitRows || HasNullRegressor(future))
    {
      ErrorOfIff(id, history, weather, holidays, future);
    }
  }

  lemma {:induction false} FramesFollowTrained(counters: seq<string>, history: string -> seq<Reading>, weather: seq<WeatherRow>,
                                               holidays: seq<HolidayRow>, future: seq<FutureRow>, predict: Predictor)
    ensures Frames(counters, history, weather, holidays, future, predict)
      == Map(Trained(counters, history, weather, holidays),
             (id: string) => Batch(id, history, weather, holidays, future, predict))
  {
    if counters != [] {
      FramesFollowTrained(counters[..|counters| - 1], history, weather, holidays, future, predict);
    }
  }

  // ---------------------------------------------------------------------------
  // The run
  // ---------------------------------------------------------------------------

  datatype Outcome =
    | Aborted(error: LoadError)
    | Raised(modelError: ModelError)
    | NoPredictions
    | Upserted(table: string, rows: seq<StoredPrediction>)

  /** Weather history, holidays and tomorrow's forecast, loaded in that order before any training. */
  function SharedFuture(weather: seq<WeatherRow>, holidays: seq<HolidayRow>, forecast: seq<WeatherRow>,
                        now: Instant): Result<seq<FutureRow>, LoadError>
  {
    if weather == [] then Err(EmptyTable("weather_hourly"))
    else if holidays == [] then Err(EmptyTable("holidays"))
    else
      match LoadTomorrowForecast(forecast, now)
      case Err(e) => Err(e)
      case Ok(rows) => Ok(BuildFutureDataframe(rows, holidays))
  }

  /** What `predict_for_all_counters` does with the stored rows, the clock and the model. */
  function Run(weather: seq<WeatherRow>, holidays: seq<HolidayRow>, forecast: seq<WeatherRow>,
               history: string -> seq<Reading>, now: Instant, predict: Predictor): Outcome
  {
    match SharedFuture(weather, holidays, forecast, now)
    case Err(e) => Aborted(e)
    case Ok(future) =>
      if FirstError(Config.SelectedCounters, history, weather, holidays, future).Some? then
        Raised(FirstError(Config.SelectedCounters, history, weather, holidays, future).value)
      else
      var frames := Frames(Config.SelectedCounters, history, weather, holidays, future, predict);
      if frames == [] then NoPredictions
      else Upserted(PredictionTable, Map(Flatten(frames), Store))
  }

  /** The loop of `predict_for_all_counters`, with `continue` on each skip. */
  method PredictForAllCounters(weather: seq<WeatherRow>, holidays: seq<HolidayRow>, forecast: seq<WeatherRow>,
                               history: string -> seq<Reading>, now: Instant, predict: Predictor)
    returns (outcome: Outcome, trained: seq<string>)
    ensures outcome == Run(weather, holidays, forecast, history, now, predict)
    ensures SharedFuture(weather, holidays, forecast, now).Err? ==> trained == []
    ensures SharedFuture(weather, holidays, forecast, now).Ok? && !outcome.Raised? ==>
      trained == Trained(Config.SelectedCounters, history, weather, holidays)
  {
    if weather == [] {
      return Aborted(EmptyTable("weather_hourly")), [];
    }
    if holidays == [] {
      return Aborted(EmptyTable("holidays")), [];
    }
    var loaded := LoadTomorrowForecast(forecast, now);
    if loaded.Err? {
      return Aborted(loaded.error), [];
    }
    var future := BuildFutureDataframe(loaded.value, holidays);
    var allPreds, raised;
    allPreds, trained, raised := PredictCounters(Config.SelectedCounters, history, weather, holidays, future, predict);
    if raised.Some? {
      return Raised(raised.value), trained;
    }
    if allPreds == [] {
      return NoPredictions, trained;
    }
    outcome := Upserted(PredictionTable, Map(Flatten(allPreds), Store));
  }

  /**
   * The per-counter loop: skips a counter without history or with an empty
   * training frame, stops at the first error `fit` or `predict` raises, and
   * otherwise appends the counter's frame of predictions for `future`.
   */
  method PredictCounters(counters: seq<string>, history: string -> seq<Reading>, weather: seq<WeatherRow>,
                         holidays: seq<HolidayRow>, future: seq<FutureRow>, predict: Predictor)
    returns (allPreds: seq<seq<Prediction>>, trained: seq<string>, raised: Option<ModelError>)
    ensures raised == FirstError(counters, history, weather, holidays, future)
    ensures raised.None? ==> allPreds == Frames(counters, history, weather, holidays, future, predict)
    ensures raised.None? ==> trained == Trained(counters, history, weather, holidays)
  {
    allPreds := [];
    trained := [];
    for i := 0 to |counters|
      invariant allPreds == Frames(counters[..i], history, weather, holidays, future, predict)
      invariant trained == Trained(counters[..i], history, weather, holidays)
      invariant FirstError(counters[..i], history, weather, holidays, future).None?
    {
      assert counters[..i + 1][..i] == counters[..i];
      var id := counters[i];
      var bike := history(id);
      if bike == [] {
        assert !Trains(id, history, weather, holidays);
        continue;   // load_bike_history raised ValueError
      }
      var train := BuildTrainingDataframe(bike, weather, holidays);
      if train == [] {
        assert !Trains(id, history, weather, holidays);
        continue;
      }
      assert Trains(id, history, weather, holidays);
      if |train| < MinFitRows {
        raised := Some(TooFewRows(id));   // `m.fit` raises ValueError
        assert FirstError(counters[..i + 1], history, weather, holidays, future) == raised;
        FirstErrorPrefix(counters, i + 1, history, weather, holidays, future);
        return;
      }
      if exists f :: f in future && !Complete(f.weather) {
        raised := Some(NullRegressor(id));   // `model.predict` raises ValueError
        assert FirstError(counters[..i + 1], history, weather, holidays, future) == raised;
        FirstErrorPrefix(counters, i + 1, history, weather, holidays, future);
        return;
      }
      assert ErrorOf(id, history, weather, holidays, future).None?;
      var batch := Map(future, (f: FutureRow) => Prediction(id, f.time, predict(train, f)));
      assert batch == Batch(id, history, weather, holidays, future, predict);
      allPreds := allPreds + [batch];
      trained := trained + [id];
    }
    assert counters[..|counters|] == counters;
    raised := None;
  }

  /**
   * After successful shared loads: the run raises exactly when the loop does;
   * otherwise nothing is upserted exactly when no counter trained, and the
   * upsert goes to the Prophet table with one row per future row for each
   * trained counter.
   */
  lemma RunUpsertsTrainedCounters(weather: seq<WeatherRow>, holidays: seq<HolidayRow>, forecast: seq<WeatherRow>,
                                  history: string -> seq<Reading>, now: Instant, predict: Predictor)
    requires SharedFuture(weather, holidays, forecast, now).Ok?
    ensures var future := SharedFuture(weather, holidays, forecast, now).value;
      var trained := Trained(Config.SelectedCounters, history, weather, holidays);
      var outcome := Run(weather, holidays, forecast, history, now, predict);
      var raised := FirstError(Config.SelectedCounters, history, weather, holidays, future);
      && (outcome.Raised? <==> raised.Some?)
      && (outcome.Raised? ==> outcome.modelError == raised.value)
      && (outcome == NoPredictions <==> raised.None? && trained == [])
      && (outcome.Upserted? ==>
            outcome.table == "bike_predictions_hourly_prophet"
            && |outcome.rows| == |trained| * |future|)
  {
    var future := SharedFuture(weather, holidays, forecast, now).value;
    var counters := Config.SelectedCounters;
    FramesFollowTrained(counters, history, weather, holidays, future, predict);
    FlattenUniform(Frames(counters, history, weather, holidays, future, predict), |future|);
  }

  /** A stored row carries the model's three columns for its timestamp, which reads back. */
  lemma StoredRowReadsBack(p: Prediction)
    requires YearOfInstant(p.time) <= 9999
    ensures Parse(Store(p).timestampUtc) == Some(p.time)
    ensures Store(p).yhat == p.forecast.yhat && Store(p).yhatLower == p.forecast.yhatLower
      && Store(p).yhatUpper == p.forecast.yhatUpper
  {
    ParseRender(p.time);
  }
}
