/**
 * The XGBoost prediction run: shared loads, a training set and a sorted
 * future frame per counter, the 100-row training threshold, one prediction
 * per future hour, and a single upsert of everything into
 * `bike_predictions_hourly_xgboost`.
 */
module XgboostPredictions {
  import opened Wrappers
  import opened Calendar
  import opened Tables
  import opened IsoTime
  import opened Features
  import Config

  /** Counters with fewer training rows than this are skipped. */
  const MinTrainingRows: nat := 100

  const PredictionTable: string := "bike_predictions_hourly_xgboost"

  // ---------------------------------------------------------------------------
  // Loaders and frames
  // ---------------------------------------------------------------------------

  /** `load_weather_forecast_for_tomorrow`: tomorrow's stored rows, sorted by timestamp. */
  function LoadWeatherForecastForTomorrow(forecast: seq<WeatherRow>, now: Instant): (r: Result<seq<WeatherRow>, LoadError>)
    ensures forecast == [] ==> r == Err(EmptyTable("weather_forecast_hourly"))
    ensures forecast != [] && TomorrowRows(forecast, now) == [] ==> r == Err(NoForecastForTomorrow)
    ensures forecast != [] && TomorrowRows(forecast, now) != [] ==> r.Ok?
    ensures r.Ok? ==>
      && r.value != []
      && multiset(r.value) == multiset(TomorrowRows(forecast, now))
      && (forall i, j :: 0 <= i < j < |r.value| ==> r.value[i].time <= r.value[j].time)
  {
    match LoadTomorrowForecast(forecast, now)
    case Err(e) => Err(e)
    case Ok(rows) => Ok(SortByTime(rows, (w: WeatherRow) => w.time))
  }

  /** Every row the loader returns falls on the UTC day after `now`. */
  lemma ForecastIsTomorrow(forecast: seq<WeatherRow>, now: Instant)
    requires LoadWeatherForecastForTomorrow(forecast, now).Ok?
    ensures forall w :: w in LoadWeatherForecastForTomorrow(forecast, now).value ==>
      w in forecast && DayOf(w.time) == DayOf(now + SecondsPerDay)
  {
    var r := LoadWeatherForecastForTomorrow(forecast, now).value;
    forall w | w in r ensures w in TomorrowRows(forecast, now) {
      assert w in multiset(r);
    }
  }

  /** `dropna(subset=["intensity"] + FEATURE_COLS)`: the derived columns are never null. */
  predicate TrainingReady(j: JoinedRow) {
    j.reading.intensity.Some? && Complete(j.weather)
  }

  /** `build_training_dataset`: the merged rows with no null target or feature. */
  function BuildTrainingDataset(bike: seq<Reading>, weather: seq<WeatherRow>, holidays: seq<HolidayRow>): (r: seq<JoinedRow>)
    ensures |r| <= |Joined(bike, weather, holidays)|
    ensures forall x :: x in r <==> x in Joined(bike, weather, holidays) && TrainingReady(x)
  {
    Filter(Joined(bike, weather, holidays), TrainingReady)
  }

  /**
   * With unique weather timestamps and holiday dates, the training set is the
   * readings with a non-null intensity whose stored weather is complete, in
   * reading order, each with the weather of its own timestamp.
   */
  lemma TrainingDatasetOfUniqueKeys(bike: seq<Reading>, weather: seq<WeatherRow>, holidays: seq<HolidayRow>)
    requires UniqueKeys(weather, (w: WeatherRow) => w.time)
    requires UniqueKeys(holidays, (h: HolidayRow) => h.date)
    ensures BuildTrainingDataset(bike, weather, holidays)
      == Map(Filter(bike, (r: Reading) => r.intensity.Some? && Complete(WeatherAt(weather, r.time))),
             JoinedAt(weather, holidays))
  {
    JoinedIsMap(bike, weather, holidays);
    FilterMap(bike, JoinedAt(weather, holidays), TrainingReady,
              (r: Reading) => r.intensity.Some? && Complete(WeatherAt(weather, r.time)));
  }

  /** `build_future_features`: every forecast row with its features, sorted by timestamp. */
  function BuildFutureFeatures(forecast: seq<WeatherRow>, holidays: seq<HolidayRow>): (r: seq<FutureRow>)
    ensures multiset(r) == multiset(FutureJoined(forecast, holidays))
    ensures forall i, j :: 0 <= i < j < |r| ==> r[i].time <= r[j].time
  {
    SortByTime(FutureJoined(forecast, holidays), (f: FutureRow) => f.time)
  }

  /**
   * With unique holiday dates, the future frame has one row per forecast row,
   * none dropped, and each row's features are those a training row at the same
   * timestamp gets.
   */
  lemma FutureFeaturesKeepEveryRow(forecast: seq<WeatherRow>, holidays: seq<HolidayRow>)
    requires UniqueKeys(holidays, (h: HolidayRow) => h.date)
    ensures |BuildFutureFeatures(forecast, holidays)| == |forecast|
    ensures forall f :: f in BuildFutureFeatures(forecast, holidays) ==>
      f.calendar == CalendarAt(holidays, f.time)
      && exists w :: w in forecast && w.time == f.time && w.weather == f.weather
  {
    var fj := FutureJoined(forecast, holidays);
    var r := BuildFutureFeatures(forecast, holidays);
    FutureJoinedOnePerForecastRow(forecast, holidays);
    assert |multiset(r)| == |multiset(fj)|;
    forall f | f in r
      ensures f.calendar == CalendarAt(holidays, f.time)
      ensures exists w :: w in forecast && w.time == f.time && w.weather == f.weather
    {
      assert f in multiset(r);
      var i :| 0 <= i < |fj| && fj[i] == f;
      assert forecast[i] in forecast;
    }
  }

  // ---------------------------------------------------------------------------
  // Predictions
  // ---------------------------------------------------------------------------

  /** Fitting `XGBRegressor` on the training set and predicting one future row. */
  type Predictor = (seq<JoinedRow>, FutureRow) -> real

  datatype Prediction = Prediction(counterId: string, time: Instant, yhat: real)

  /** A row of `bike_predictions_hourly_xgboost` as sent: the timestamp is text. */
  datatype StoredPrediction = StoredPrediction(counterId: string, timestampUtc: string, yhat: real)

  function Store(p: Prediction): StoredPrediction {
    StoredPrediction(p.counterId, Render(p.time), p.yhat)
  }

  /** The counter's history loads (a non-empty table) and yields at least 100 training rows. */
  predicate Trains(id: string, history: string -> seq<Reading>, weather: seq<WeatherRow>, holidays: seq<HolidayRow>) {
    history(id) != [] && |BuildTrainingDataset(history(id), weather, holidays)| >= MinTrainingRows
  }

  /** The frame one trained counter contributes: one row per future row, tagged with its id. */
  function Batch(id: string, history: string -> seq<Reading>, weather: seq<WeatherRow>, holidays: seq<HolidayRow>,
                 future: seq<FutureRow>, predict: Predictor): (b: seq<Prediction>)
    ensures |b| == |future|
    ensures forall i :: 0 <= i < |b| ==> b[i].counterId == id && b[i].time == future[i].time
  {
    var train := BuildTrainingDataset(history(id), weather, holidays);
    Map(future, (f: FutureRow) => Prediction(id, f.time, predict(train, f)))
  }

  /** The counters that train, in processing order. */
  function Trained(counters: seq<string>, history: string -> seq<Reading>, weather: seq<WeatherRow>,
                   holidays: seq<HolidayRow>): seq<string>
  {
    if counters == [] then []
    else
      var id := counters[|counters| - 1];
      Trained(counters[..|counters| - 1], history, weather, holidays)
        + (if Trains(id, history, weather, holidays) then [id] else [])
  }

  /** `all_preds` after the loop: the trained counters' frames, in processing order. */
  function Frames(counters: seq<string>, history: string -> seq<Reading>, weather: seq<WeatherRow>,
                  holidays: seq<HolidayRow>, future: seq<FutureRow>, predict: Predictor): seq<seq<Prediction>>
  {
    if counters == [] then []
    else
      var id := counters[|counters| - 1];
      Frames(counters[..|counters| - 1], history, weather, holidays, future, predict)
        + (if Trains(id, history, weather, holidays) then [Batch(id, history, weather, holidays, future, predict)] else [])
  }

  /** A counter trains exactly when it is processed and passes both skip checks. */
  lemma {:induction false} TrainedIff(counters: seq<string>, history: string -> seq<Reading>,
                                      weather: seq<WeatherRow>, holidays: seq<HolidayRow>)
    ensures forall id :: id in Trained(counters, history, weather, holidays) <==>
      id in counters && history(id) != [] && |BuildTrainingDataset(history(id), weather, holidays)| >= 100
  {
    if counters != [] {
      var front := counters[..|counters| - 1];
      TrainedIff(front, history, weather, holidays);
      assert counters == front + [counters[|counters| - 1]];
    }
  }

  /**
   * `all_preds` holds one frame per trained counter, in the same order, each
   * being that counter's predictions for every future row.
   */
  lemma {:induction false} FramesFollowTrained(counters: seq<string>, history: string -> seq<Reading>, weather: seq<WeatherRow>,
                                               holidays: seq<HolidayRow>, future: seq<FutureRow>, predict: Predictor)
    ensures Frames(counters, history, weather, holidays, future, predict)
      == Map(Trained(counters, history, weather, holidays),
             (id: string) => Batch(id, history, weather, holidays, future, predict))
  {
    if counters != [] {
      FramesFollowTrained(counters[..|counters| - 1], history, weather, holidays, future, predict);
    }
  }

  /** The concatenated predictions: `|future|` rows for each trained counter. */
  lemma PredictionCount(counters: seq<string>, history: string -> seq<Reading>, weather: seq<WeatherRow>,
                        holidays: seq<HolidayRow>, future: seq<FutureRow>, predict: Predictor)
    ensures |Flatten(Frames(counters, history, weather, holidays, future, predict))|
      == |Trained(counters, history, weather, holidays)| * |future|
  {
    FramesFollowTrained(counters, history, weather, holidays, future, predict);
    FlattenUniform(Frames(counters, history, weather, holidays, future, predict), |future|);
  }

  // ---------------------------------------------------------------------------
  // The run
  // ---------------------------------------------------------------------------

  /** How a run ends. */
  datatype Outcome =
    | Aborted(error: LoadError)                             // a shared load raised
    | NoPredictions                                         // no counter trained: no upsert
    | Upserted(table: string, rows: seq<StoredPrediction>)  // the one upsert_df call

  /** The shared loads, in source order, and the future frame built from them. */
  function SharedFuture(weather: seq<WeatherRow>, holidays: seq<HolidayRow>, forecast: seq<WeatherRow>,
                        now: Instant): Result<seq<FutureRow>, LoadError>
  {
    if weather == [] then Err(EmptyTable("weather_hourly"))
    else if holidays == [] then Err(EmptyTable("holidays"))
    else
      match LoadWeatherForecastForTomorrow(forecast, now)
      case Err(e) => Err(e)
      case Ok(rows) => Ok(BuildFutureFeatures(rows, holidays))
  }

  /** What `predict_for_all_counters_xgb` does with the stored rows, the clock and the model. */
  function Run(weather: seq<WeatherRow>, holidays: seq<HolidayRow>, forecast: seq<WeatherRow>,
               history: string -> seq<Reading>, now: Instant, predict: Predictor): Outcome
  {
    match SharedFuture(weather, holidays, forecast, now)
    case Err(e) => Aborted(e)
    case Ok(future) =>
      var frames := Frames(Config.SelectedCounters, history, weather, holidays, future, predict);
      if frames == [] then NoPredictions
      else Upserted(PredictionTable, Map(Flatten(frames), Store))
  }

  /**
   * The loop of `predict_for_all_counters_xgb`: loads the shared tables once,
   * then for each selected counter skips it or appends its frame, and upserts
   * the concatenation once. `trained` lists the counters that trained.
   */
  method PredictForAllCounters(weather: seq<WeatherRow>, holidays: seq<HolidayRow>, forecast: seq<WeatherRow>,
                               history: string -> seq<Reading>, now: Instant, predict: Predictor)
    returns (outcome: Outcome, trained: seq<string>)
    ensures outcome == Run(weather, holidays, forecast, history, now, predict)
    ensures SharedFuture(weather, holidays, forecast, now).Err? ==> trained == []
    ensures SharedFuture(weather, holidays, forecast, now).Ok? ==>
      trained == Trained(Config.SelectedCounters, history, weather, holidays)
  {
    if weather == [] {
      return Aborted(EmptyTable("weather_hourly")), [];
    }
    if holidays == [] {
      return Aborted(EmptyTable("holidays")), [];
    }
    var loaded := LoadWeatherForecastForTomorrow(forecast, now);
    if loaded.Err? {
      return Aborted(loaded.error), [];
    }
    var future := BuildFutureFeatures(loaded.value, holidays);
    var allPreds;
    allPreds, trained := PredictCounters(Config.SelectedCounters, history, weather, holidays, future, predict);
    if allPreds == [] {
      return NoPredictions, trained;
    }
    outcome := Upserted(PredictionTable, Map(Flatten(allPreds), Store));
  }

  /**
   * The per-counter loop: skips a counter without history or with too little
   * training data, otherwise appends its frame of predictions for `future`.
   */
  method PredictCounters(counters: seq<string>, history: string -> seq<Reading>, weather: seq<WeatherRow>,
                         holidays: seq<HolidayRow>, future: seq<FutureRow>, predict: Predictor)
    returns (allPreds: seq<seq<Prediction>>, trained: seq<string>)
    ensures allPreds == Frames(counters, history, weather, holidays, future, predict)
    ensures trained == Trained(counters, history, weather, holidays)
  {
    allPreds := [];
    trained := [];
    for i := 0 to |counters|
      invariant allPreds == Frames(counters[..i], history, weather, holidays, future, predict)
      invariant trained == Trained(counters[..i], history, weather, holidays)
    {
      assert counters[..i + 1][..i] == counters[..i];
      var id := counters[i];
      var bike := history(id);
      if bike == [] {
        assert !Trains(id, history, weather, holidays);
        continue;   // load_bike_history raised ValueError
      }
      var train := BuildTrainingDataset(bike, weather, holidays);
      if |train| < MinTrainingRows {
        assert !Trains(id, history, weather, holidays);
        continue;
      }
      assert Trains(id, history, weather, holidays);
      var batch := Map(future, (f: FutureRow) => Prediction(id, f.time, predict(train, f)));
      assert batch == Batch(id, history, weather, holidays, future, predict);
      allPreds := allPreds + [batch];
      trained := trained + [id];
    }
    assert counters[..|counters|] == counters;
  }

  /** No frame is collected exactly when no counter trains. */
  lemma FramesEmptyIff(counters: seq<string>, history: string -> seq<Reading>, weather: seq<WeatherRow>,
                       holidays: seq<HolidayRow>, future: seq<FutureRow>, predict: Predictor)
    ensures Frames(counters, history, weather, holidays, future, predict) == []
      <==> Trained(counters, history, weather, holidays) == []
  {
    FramesFollowTrained(counters, history, weather, holidays, future, predict);
  }

  /** Every collected prediction carries the id of a counter that trained. */
  lemma {:induction false} PredictionIds(counters: seq<string>, history: string -> seq<Reading>, weather: seq<WeatherRow>,
                                         holidays: seq<HolidayRow>, future: seq<FutureRow>, predict: Predictor)
    ensures forall p :: p in Flatten(Frames(counters, history, weather, holidays, future, predict)) ==>
      p.counterId in Trained(counters, history, weather, holidays)
  {
    if counters != [] {
      var front := counters[..|counters| - 1];
      var id := counters[|counters| - 1];
      var before := Frames(front, history, weather, holidays, future, predict);
      var trainedFront := Trained(front, history, weather, holidays);
      PredictionIds(front, history, weather, holidays, future, predict);
      if Trains(id, history, weather, holidays) {
        var batch := Batch(id, history, weather, holidays, future, predict);
        assert Frames(counters, history, weather, holidays, future, predict) == before + [batch];
        assert Trained(counters, history, weather, holidays) == trainedFront + [id];
        FlattenSnoc(before, batch);
        forall p | p in batch ensures p.counterId == id {
          var j :| 0 <= j < |batch| && batch[j] == p;
        }
      } else {
        assert Frames(counters, history, weather, holidays, future, predict) == before + [];
        assert before + [] == before;
        assert Trained(counters, history, weather, holidays) == trainedFront + [];
        assert trainedFront + [] == trainedFront;
      }
    }
  }

  /**
   * After successful shared loads: nothing is upserted exactly when no counter
   * trained; otherwise the one upsert goes to the XGBoost table and carries
   * `|future|` rows per trained counter, each tagged with a trained counter's id.
   */
  lemma RunUpsertsTrainedCounters(weather: seq<WeatherRow>, holidays: seq<HolidayRow>, forecast: seq<WeatherRow>,
                                  history: string -> seq<Reading>, now: Instant, predict: Predictor)
    requires SharedFuture(weather, holidays, forecast, now).Ok?
    ensures var future := SharedFuture(weather, holidays, forecast, now).value;
      var trained := Trained(Config.SelectedCounters, history, weather, holidays);
      var outcome := Run(weather, holidays, forecast, history, now, predict);
      && (outcome == NoPredictions <==> trained == [])
      && (outcome.Upserted? ==>
            outcome.table == "bike_predictions_hourly_xgboost"
            && |outcome.rows| == |trained| * |future|
            && forall r :: r in outcome.rows ==> r.counterId in trained)
  {
    var future := SharedFuture(weather, holidays, forecast, now).value;
    var counters := Config.SelectedCounters;
    var frames := Frames(counters, history, weather, holidays, future, predict);
    FramesEmptyIff(counters, history, weather, holidays, future, predict);
    PredictionCount(counters, history, weather, holidays, future, predict);
    PredictionIds(counters, history, weather, holidays, future, predict);
    var rows := Map(Flatten(frames), Store);
    forall r | r in rows ensures r.counterId in Trained(counters, history, weather, holidays) {
      var k :| 0 <= k < |rows| && rows[k] == r;
      assert Flatten(frames)[k] in Flatten(frames);
    }
  }

  /** The sent timestamps read back as the predicted instants. */
  lemma StoredTimestampsReadBack(p: Prediction)
    requires YearOfInstant(p.time) <= 9999
    ensures Parse(Store(p).timestampUtc) == Some(p.time)
  {
    ParseRender(p.time);
  }
}
