# Montpellier bike prediction — a Dafny model of the data-shaping layer

The Montpellier bike prediction system forecasts, for ten chosen Eco-Counter
bike counters of Montpellier Méditerranée Métropole, the hourly bike traffic
of tomorrow (UTC). It fetches counter readings, Open-Meteo weather and French
public holidays, stores them in Supabase tables, trains one Prophet and one
XGBoost model per counter, and upserts one prediction row per counter and
forecast hour.

This project models the deterministic part between the I/O and the learning
libraries, and proves what that part promises:

- **Time** (`Calendar`, `IsoTime`): UTC instants as whole seconds since
  0001-01-01T00:00:00, the proleptic Gregorian calendar, `.dt.hour`,
  `.dt.weekday` (Monday 0) and `.dt.date`, and the `%Y-%m-%dT%H:%M:%S`
  rendering with its parser and round trip.
- **Tables** (`Tables`, `Sorting`, `Wrappers`, `Json`): frames as sequences of
  rows, the left merge, `drop_duplicates` keeping the first occurrence,
  `sort_values` as a permutation into ascending order, and first-failure
  conversion of a column.
- **API clients** (`BaseClient`, `BikeClient`, `HolidaysClient`,
  `WeatherClient`): URL joining, the offset pagination loop, the timeseries,
  holiday and hourly-weather reply shaping. Each GET is a function parameter
  from the request to its decoded reply or the failure it raised.
- **History ETL** (`BikeEtl`): the yearly request chunks as a loop, their
  partition of the interval, and the counter-by-chunk fetch loop with its
  de-duplication and sort.
- **CSV loaders** (`CsvLoad`, `BikeHourlyLoader`, `WeatherHourlyLoader`,
  `CountersLoader`, `Batching`): column resolution with fallbacks and errors,
  the renames and null fills, de-duplication, the rendering, the NGSI location
  parser of both copies of the counters loader, and the batched upsert loops.
  The batches must partition the rows in order.
- **Forecast and models** (`WeatherForecast`, `Features`,
  `XgboostPredictions`, `ProphetPredictions`): the 24-slot skeleton for
  tomorrow and the merge of the feed onto it, the stored-forecast filter, the
  feature derivation shared by both predictors, and the per-counter loop with
  its skips, the errors Prophet raises, and its single upsert. Fitting and predicting are function
  parameters.
- **Pipeline** (`Pipeline`): the holiday-refresh date rule and the order of
  truncations, loaders and models, recorded as a log of steps by a `Runner`
  class.

The wall clock (`datetime.now`, `date.today`, `utcnow`) is a parameter
everywhere. Stored tables reach an operation as sequences of rows. Every
upsert and truncation is returned as a value or appended to a log rather than
performed.

Two behaviours of the code are worth stating outright:

- `keep_tomorrow_utc_midnight_to_midnight` never raises for an empty window
  (`src/montpellier_bike_prediction/cli/update_weather_forecast.py:57-65`,
  `:83-84`). It left-joins the feed onto the 24 hours of tomorrow, so it
  returns at least 24 rows, null-filled where the feed has no match, and
  exactly 24 when the feed's timestamps are unique.
- Prophet skips a counter whose training frame is empty
  (`src/montpellier_bike_prediction/cli/train_and_predict_prophet.py:268-270`).
  No exception is raised for an empty training set. A frame of one row is not
  skipped: `Prophet.fit` raises on it (`:188`, reached at `:272`), as
  `model.predict` (`:274`) does on a future frame with a null weather value.
  Neither error is caught, so the run ends with nothing upserted.

## Model

| member | source | states |
|---|---|---|
| Config.SelectedCountersDistinct | src/montpellier_bike_prediction/config.py:12-23 | the selection is ten counters with no id listed twice |
| Calendar.StartOfDay | src/montpellier_bike_prediction/cli/train_and_predict_xgboost.py:163 | midnight of a day lies on that day and on a whole-day boundary |
| Calendar.HourOf | src/montpellier_bike_prediction/cli/train_and_predict_xgboost.py:172 | `.dt.hour` is below 24 |
| Calendar.InstantAtFields | src/montpellier_bike_prediction/cli/train_and_predict_xgboost.py:163-173 | an instant built from a day and clock fields gives back that day, hour, minute and second |
| Calendar.FieldsDetermineInstant | src/montpellier_bike_prediction/cli/train_and_predict_xgboost.py:163-173 | an instant is determined by its day and clock fields |
| Calendar.Weekday | src/montpellier_bike_prediction/cli/train_and_predict_xgboost.py:173 | `.dt.weekday` is below 7 |
| Calendar.WeekdayFromUnixEpoch | src/montpellier_bike_prediction/cli/train_and_predict_xgboost.py:173 | the weekday counts from Monday 0, consistently with 1970-01-01 being a Thursday |
| Calendar.DaysBeforeYearClosedForm | src/montpellier_bike_prediction/etl/bike_etl.py:30 | the day count before a year is the proleptic Gregorian closed form: 365 days a year plus the leap days |
| Calendar.YearOf | src/montpellier_bike_prediction/etl/bike_etl.py:30 | `.year` of a day is the unique year whose span holds it |
| Calendar.CivilDate | src/montpellier_bike_prediction/cli/train_and_predict_xgboost.py:163 | `.dt.date` gives a valid date whose day number is the instant's day |
| Calendar.CivilDateOfDayNumber | src/montpellier_bike_prediction/cli/train_and_predict_xgboost.py:163 | a valid date is the civil date of its own day number |
| Calendar.DayNumberInjective | src/montpellier_bike_prediction/cli/train_and_predict_xgboost.py:163-168 | distinct valid dates have distinct day numbers, so a date key is exact |
| Calendar.JanuaryFirst | src/montpellier_bike_prediction/etl/bike_etl.py:30 | `datetime(year, 1, 1)` lies in that year, at midnight |
| Calendar.YearOfInstantBounds | src/montpellier_bike_prediction/etl/bike_etl.py:28-33 | an instant lies between January 1 of its year and January 1 of the next |
| Calendar.InYear | src/montpellier_bike_prediction/etl/bike_etl.py:28-33 | an instant in a year's span has that year |
| IsoTime.PaddedWidth | src/montpellier_bike_prediction/cli/load_bike_hourly.py:64 | zero-padded fields have exactly the width asked for when the value fits it |
| IsoTime.PaddedValue | src/montpellier_bike_prediction/cli/load_bike_hourly.py:64 | a zero-padded field reads back as its value |
| IsoTime.RenderShape | src/montpellier_bike_prediction/cli/load_bike_hourly.py:64 | `strftime("%Y-%m-%dT%H:%M:%S")` of a year up to 9999 has the fixed 19-character shape, digits in every field |
| IsoTime.ParseRenderDate | src/montpellier_bike_prediction/cli/load_holidays.py:21 | a rendered date reads back as that date |
| IsoTime.ParseRender | src/montpellier_bike_prediction/cli/load_bike_hourly.py:64 | a rendered timestamp reads back as the same instant |
| IsoTime.RenderInjective | src/montpellier_bike_prediction/cli/load_bike_hourly.py:61-64 | distinct instants render to distinct text, so keys built from the text stay unique |
| Sorting.Sort | src/montpellier_bike_prediction/etl/holidays_client.py:32 | `sort_values` returns a permutation of its rows in ascending order |
| Sorting.SortLength | src/montpellier_bike_prediction/etl/holidays_client.py:32 | sorting keeps the row count |
| Sorting.StrLeTotal | src/montpellier_bike_prediction/etl/holidays_client.py:32 | text order compares every two strings |
| Sorting.StrLeTransitive | src/montpellier_bike_prediction/etl/holidays_client.py:32 | text order is transitive |
| Sorting.StrLeAntisymmetric | src/montpellier_bike_prediction/etl/holidays_client.py:32 | two strings each not after the other are equal |
| Tables.TryMap | src/montpellier_bike_prediction/cli/load_weather_hourly.py:33-38 | a column conversion succeeds exactly when every cell converts, and then converts each one in place; a failure is the first failing cell's |
| Tables.FirstIndex | src/montpellier_bike_prediction/cli/load_bike_hourly.py:61 | the first row with a key has it and no earlier row does |
| Tables.Lookup | src/montpellier_bike_prediction/cli/train_and_predict_xgboost.py:164-168 | a lookup finds a row of that key exactly when one exists |
| Tables.LeftJoinRows | src/montpellier_bike_prediction/cli/train_and_predict_xgboost.py:155-160 | every merged row is a left row with either a right row of the same key or none because no right row has that key |
| Tables.LeftJoinLength | src/montpellier_bike_prediction/cli/train_and_predict_xgboost.py:155-160 | a left merge never drops a left row, and keeps the row count exactly when no key matches twice |
| Tables.LeftJoinUnique | src/montpellier_bike_prediction/cli/train_and_predict_xgboost.py:164-168 | against a right side with unique keys, the merge pairs each left row, in order, with the lookup of its key |
| Tables.DropDuplicatesSpec | src/montpellier_bike_prediction/cli/load_bike_hourly.py:61 | `drop_duplicates(subset=...)` leaves unique keys and the same key set, keeps each key's first row, in first-occurrence order |
| Tables.DropDuplicatesOfUnique | src/montpellier_bike_prediction/etl/bike_etl.py:72 | on already unique keys de-duplication changes nothing |
| Tables.DedupKeeps | src/montpellier_bike_prediction/cli/load_weather_hourly.py:64 | every key of the table keeps its first row |
| Tables.DedupKeptFirst | src/montpellier_bike_prediction/cli/load_weather_hourly.py:64 | every kept row is the first row of its key |
| Tables.PermutationKeepsUniqueKeys | src/montpellier_bike_prediction/etl/bike_etl.py:72-73 | sorting after de-duplication keeps the keys unique |
| CsvLoad.TimestampSource | src/montpellier_bike_prediction/cli/load_bike_hourly.py:30-35 | `timestamp_utc` is preferred, `timestamp` is the fallback, and there is no source exactly when neither is a column |
| CsvLoad.TimeCell | src/montpellier_bike_prediction/cli/load_bike_hourly.py:31-33 | an empty field is NaT and a field converts exactly when it reads as a timestamp |
| CsvLoad.ReadTimestamps | src/montpellier_bike_prediction/cli/load_bike_hourly.py:30-35 | neither column raises; otherwise the conversion succeeds exactly when every line's field converts, one instant per line |
| CsvLoad.RenderCellInjective | src/montpellier_bike_prediction/cli/load_bike_hourly.py:61-64 | rendered timestamp cells, nulls included, keep distinct values distinct |
| CsvLoad.ReadsRenderedText | src/montpellier_bike_prediction/cli/load_weather_hourly.py:33-38 | the loaders' own output text reads back as the instant it renders |
| CsvLoad.ReadsCsvWrittenText | src/montpellier_bike_prediction/cli/load_bike_hourly.py:31 | the `YYYY-MM-DD HH:MM:SS+00:00` text `to_csv` writes reads back as the same instant |
| BaseClient.NewClient | src/montpellier_bike_prediction/etl/base_client.py:22-23 | a non-empty `base_url` argument becomes the client's base; an omitted or empty one falls back to the class's `BASE_URL` |
| BaseClient.TrimRight | src/montpellier_bike_prediction/etl/base_client.py:29 | `rstrip('/')` gives a prefix of the text that does not end in `/`, and only slashes are removed |
| BaseClient.TrimLeft | src/montpellier_bike_prediction/etl/base_client.py:29 | `lstrip('/')` gives a suffix of the text that does not start with `/`, and only slashes are removed |
| BaseClient.AbsoluteEndpoint | src/montpellier_bike_prediction/etl/base_client.py:27-28 | an endpoint starting with `http` is returned exactly as given |
| BaseClient.JoinHasOneSlash | src/montpellier_bike_prediction/etl/base_client.py:29 | any other endpoint gives the stripped base, one `/` and the stripped endpoint, with no second slash on either side of the join |
| BaseClient.BuildUrlIdempotent | src/montpellier_bike_prediction/etl/base_client.py:26-29 | with an `http…` base, building a URL from an already-built URL leaves it unchanged |
| BikeClient.FetchAllCounters | src/montpellier_bike_prediction/etl/bike_client.py:22-41 | requests offsets 0, limit, 2·limit, … and stops at the first GET that raises or reply that is not a list or is empty; every earlier reply was a non-empty list; a raising GET gives no result, and otherwise the records are the earlier replies concatenated in request order |
| BikeClient.PagesConcat | src/montpellier_bike_prediction/etl/bike_client.py:36-38 | every collected record comes from one of the non-final pages |
| BikeClient.RequestDatesReadBack | src/montpellier_bike_prediction/etl/bike_client.py:58-61 | the `fromDate`/`toDate` texts in `%Y-%m-%dT%H:%M:%S` read back as the requested start and end |
| BikeClient.FetchTimeseries | src/montpellier_bike_prediction/etl/bike_client.py:62-82 | `None` exactly when the GET raised or `index`/`values` is missing or `index` is empty; otherwise `pd.to_datetime` fails exactly when some `index` entry is unreadable, reporting the first one; the frame constructor then fails exactly when the two arrays differ in length; otherwise each row's timestamp is its `index` entry read as an instant, the intensities are `values`, and each row carries `entityId`, or the requested id when the reply has none |
| BikeClient.ReadIndexEntry | src/montpellier_bike_prediction/etl/bike_client.py:77 | an `index` entry converts exactly when the timestamp parser reads it, and then to that instant; otherwise the error is the entry's text |
| BikeClient.FrameRows | src/montpellier_bike_prediction/etl/bike_client.py:75-81 | one row per index entry, whose column values are `index` and `values` in order, each row carrying the same counter id |
| BikeEtl.NextYear | src/montpellier_bike_prediction/etl/bike_etl.py:30 | `datetime(current.year + 1, 1, 1)` lies strictly after `current` |
| BikeEtl.NextYearIsNextYear | src/montpellier_bike_prediction/etl/bike_etl.py:30 | that New Year falls in the calendar year after `current`'s |
| BikeEtl.YearChunksStep | src/montpellier_bike_prediction/etl/bike_etl.py:29-33 | one turn of the loop emits `(current, min(next_year - 1 s, end))` and continues from the next New Year |
| BikeEtl.BuildYearChunks | src/montpellier_bike_prediction/etl/bike_etl.py:22-34 | the `while current < end` loop returns exactly the chunk list `YearChunks(start, end)` |
| BikeEtl.YearChunksBounds | src/montpellier_bike_prediction/etl/bike_etl.py:27-34 | no chunk exactly when `start >= end`; every chunk `(s, e)` has `start <= s <= e <= end`, with `s` and `e` in the same calendar year |
| BikeEtl.YearChunksSuccession | src/montpellier_bike_prediction/etl/bike_etl.py:30-33 | the first chunk starts at `start`; each later chunk starts on the next New Year, one second after the previous chunk ends, so the years go up by one |
| BikeEtl.YearChunksCover | src/montpellier_bike_prediction/etl/bike_etl.py:22-34 | every second of `[start, end)` lies in some chunk |
| BikeEtl.YearChunksDisjoint | src/montpellier_bike_prediction/etl/bike_etl.py:22-34 | no second lies in two different chunks |
| BikeEtl.DefaultEnd | src/montpellier_bike_prediction/etl/bike_etl.py:51-53 | with no `global_end`, the end is `now` truncated to a whole hour: at most `now`, less than an hour before it |
| BikeEtl.DefaultEndFields | src/montpellier_bike_prediction/etl/bike_etl.py:52 | that end keeps `now`'s date and hour and has zero minutes and seconds |
| BikeEtl.Interval | src/montpellier_bike_prediction/etl/bike_etl.py:50-55 | an unreadable `global_start` raises on that text; then an unreadable `global_end` raises on its text; without `global_end` the interval runs from the parsed start to the truncated `now`; with a readable end it runs from the parsed start to the parsed end |
| BikeEtl.IntervalOfRendered | src/montpellier_bike_prediction/etl/bike_etl.py:50-55 | texts rendered `%Y-%m-%dT%H:%M:%S` from two instants give back exactly that interval, and the start alone gives the interval up to the truncated `now` |
| BikeEtl.TasksAreAllPairs | src/montpellier_bike_prediction/etl/bike_etl.py:60-62 | one request per (counter, chunk) pair and no other: the number of counters times the number of chunks |
| BikeEtl.CollectSnoc | src/montpellier_bike_prediction/etl/bike_etl.py:61-64 | one more request folds its reply into the collected frames |
| BikeEtl.CollectErrSticks | src/montpellier_bike_prediction/etl/bike_etl.py:62 | once a reply raises, later requests do not change the outcome |
| BikeEtl.CollectedFrames | src/montpellier_bike_prediction/etl/bike_etl.py:62-64 | every kept frame is non-empty and is the reply to one of the requests |
| BikeEtl.Rejection | src/montpellier_bike_prediction/etl/bike_client.py:75-81 | a reply raises exactly when its `index` is unreadable or its columns differ in length |
| BikeEtl.CollectErrIsFirstRejection | src/montpellier_bike_prediction/etl/bike_etl.py:61-64 | the fetch fails exactly when some reply has an unreadable `index` entry or `index` and `values` of different lengths, and the error is the first such reply's, naming its counter |
| BikeEtl.RowOrder | src/montpellier_bike_prediction/etl/bike_etl.py:73 | ordering by (`ecocounter_id` as text, `timestamp_utc`) is total and transitive |
| BikeEtl.SortRows | src/montpellier_bike_prediction/etl/bike_etl.py:73 | the sorted rows are a permutation of the input, ordered by id then timestamp |
| BikeEtl.FinishSpec | src/montpellier_bike_prediction/etl/bike_etl.py:66-76 | the result holds each fetched (id, timestamp) key exactly once, as the first fetched row with that key, sorted by id then timestamp; no frames give no rows |
| BikeEtl.FetchBikeHistory | src/montpellier_bike_prediction/etl/bike_etl.py:37-76 | the result is the specified history; a bad timestamp makes no request; a successful fetch asks every (counter, chunk) pair in order, and a failed one asks a prefix of them |
| BikeEtl.FetchChunks | src/montpellier_bike_prediction/etl/bike_etl.py:60-64 | the nested loops collect the frames of the (counter, chunk) requests in order, stopping at the first reply that raises |
| BikeEtl.FetchCounter | src/montpellier_bike_prediction/etl/bike_etl.py:61-64 | the inner loop over one counter's chunks asks them in order and stops at the first reply that raises, returning its error |
| BikeEtl.RejectionStops | src/montpellier_bike_prediction/etl/bike_etl.py:60-64 | the calls made before a rejected reply begin the full list of calls, and the outcome is already fixed |
| BikeEtl.CounterDone | src/montpellier_bike_prediction/etl/bike_etl.py:60-61 | after a counter's last chunk, the calls made are those of the counters so far |
| BikeHourlyLoader.IdSource | src/montpellier_bike_prediction/cli/load_bike_hourly.py:39-50 | the id column is `counter_id` if present, else `ecocounter_id`, else `eco_id`, and none only when all three are missing |
| BikeHourlyLoader.IntensityCell | src/montpellier_bike_prediction/cli/load_bike_hourly.py:56 | `astype(int)` fails on an empty field and on text the cast rejects, and otherwise gives the cast value |
| BikeHourlyLoader.Zip | src/montpellier_bike_prediction/cli/load_bike_hourly.py:58 | the three selected columns, line by line |
| BikeHourlyLoader.ParseBikeCsv | src/montpellier_bike_prediction/cli/load_bike_hourly.py:29-58 | the errors come in the source's order (timestamp, then id column, then `intensity`, then the cast), and on success each line gives its id field, its converted timestamp and its cast intensity |
| BikeHourlyLoader.LoadBikeCsv | src/montpellier_bike_prediction/cli/load_bike_hourly.py:14-66 | a missing file raises `FileNotFoundError`; otherwise the parse's error, or its lines de-duplicated and rendered, never more rows than the file |
| BikeHourlyLoader.RecordKeyInjective | src/montpellier_bike_prediction/cli/load_bike_hourly.py:61-64 | rendering the timestamp after de-duplication keeps distinct (counter, timestamp) keys distinct |
| BikeHourlyLoader.PreparedKeysUnique | src/montpellier_bike_prediction/cli/load_bike_hourly.py:61-64 | the rows sent have unique (counter, timestamp) keys, the upsert's conflict key |
| BikeHourlyLoader.PreparedFirstOccurrences | src/montpellier_bike_prediction/cli/load_bike_hourly.py:61 | every parsed line's key is sent, each record sent is the rendering of the first line with its key, and in the order of those first lines |
| BikeHourlyLoader.PrepareDistinct | src/montpellier_bike_prediction/cli/load_bike_hourly.py:61-64 | a file whose pairs are already distinct is sent whole and in order |
| BikeHourlyLoader.UpsertBikeHourly | src/montpellier_bike_prediction/cli/load_bike_hourly.py:69-84 | nothing is sent for no rows; otherwise `ceil(total / 2000)` chunks of 1 to 2000 rows that make up the records in order |
| BikeHourlyLoader.LoadBikeHourly | src/montpellier_bike_prediction/cli/load_bike_hourly.py:87-91 | `main` raises what the load raises, and otherwise upserts exactly the loaded records |
| Batching.CeilDiv | src/montpellier_bike_prediction/cli/update_weather_forecast.py:140 | `math.ceil(total / size)`: the least count of chunks that covers all rows, at least one for a non-empty table |
| Batching.UpsertInBatches | src/montpellier_bike_prediction/cli/update_weather_forecast.py:133-147 | no call for zero rows; otherwise chunk `i` is rows `[i·cs, min((i+1)·cs, total))` for each `i < ceil(total / cs)`, every chunk holds 1 to `cs` rows, and the chunks give back every row once, in order; a zero chunk size raises, a negative one sends nothing |
| Batching.ChunkBounds | src/montpellier_bike_prediction/cli/update_weather_forecast.py:141-143 | for `i < n_chunks` the slice bounds satisfy `i·cs < min((i+1)·cs, total)`, so no chunk is empty |
| Batching.ChunkLength | src/montpellier_bike_prediction/cli/update_weather_forecast.py:142-144 | each slice holds between 1 and `chunk_size` rows |
| WeatherForecast.Skeleton | src/montpellier_bike_prediction/cli/update_weather_forecast.py:73-77 | the expected index has exactly 24 timestamps |
| WeatherForecast.SkeletonHours | src/montpellier_bike_prediction/cli/update_weather_forecast.py:66-77 | the skeleton starts at 00:00:00 UTC on the date of now + 1 day, steps one hour, and slot `i` is hour `i` of that date on the whole hour |
| WeatherForecast.SkeletonAscending | src/montpellier_bike_prediction/cli/update_weather_forecast.py:73-77 | the skeleton strictly ascends |
| WeatherForecast.KeepTomorrowOnlyTomorrow | src/montpellier_bike_prediction/cli/update_weather_forecast.py:83-84 | whatever the feed, there are at least 24 rows and every row is a slot of tomorrow; feed rows of other days never appear |
| WeatherForecast.KeepTomorrowUnique | src/montpellier_bike_prediction/cli/update_weather_forecast.py:57-87 | with unique feed timestamps the result has exactly 24 rows, in ascending skeleton order, each with the feed's weather at that timestamp or nulls |
| WeatherForecast.SlotMatched | src/montpellier_bike_prediction/cli/update_weather_forecast.py:84 | a slot the feed has carries that feed row's four values |
| WeatherForecast.SlotUnmatched | src/montpellier_bike_prediction/cli/update_weather_forecast.py:84 | a slot the feed lacks carries nulls |
| WeatherForecast.PreparedTimestamps | src/montpellier_bike_prediction/cli/update_weather_forecast.py:113-124 | the rendered `timestamp_utc` values that are sent are unique, and every rendered timestamp is sent |
| WeatherForecast.PreparedFirstOccurrence | src/montpellier_bike_prediction/cli/update_weather_forecast.py:118-124 | each record sent is the five columns of the first row with its rendered timestamp |
| WeatherForecast.FirstRecordOf | src/montpellier_bike_prediction/cli/update_weather_forecast.py:124 | a record that is the first with its timestamp comes from the first row that renders to that timestamp |
| WeatherForecast.PrepareDistinct | src/montpellier_bike_prediction/cli/update_weather_forecast.py:110-126 | rows with distinct timestamps are all sent, in order |
| WeatherForecast.UpsertWeatherForecast | src/montpellier_bike_prediction/cli/update_weather_forecast.py:129-147 | nothing is sent for no rows; otherwise `ceil(total / 500)` chunks of 1 to 500 rows that make up the records in order |
| WeatherForecast.TomorrowRecordsUnique | src/montpellier_bike_prediction/cli/update_weather_forecast.py:155-162 | with unique feed timestamps exactly 24 records are prepared, slot by slot, each the rendered hour with the feed's values or nulls |
| WeatherForecast.TomorrowRecordsNonEmpty | src/montpellier_bike_prediction/cli/update_weather_forecast.py:155-162 | even an empty feed gives records for tomorrow, so the empty-table early return never fires after the merge |
| WeatherForecast.SingleChunk | src/montpellier_bike_prediction/cli/update_weather_forecast.py:140-146 | a one-chunk upload that gives back all the rows sends them as that one chunk |
| WeatherForecast.UpdateWeatherForecast | src/montpellier_bike_prediction/cli/update_weather_forecast.py:150-168 | `main` sends the prepared records of tomorrow, never an empty upload; with unique feed timestamps that is 24 records in one chunk |
| WeatherHourlyLoader.NamesDistinct | src/montpellier_bike_prediction/cli/load_weather_hourly.py:41-54 | the four schema names and three short names are pairwise distinct |
| WeatherHourlyLoader.FrameOf | src/montpellier_bike_prediction/cli/load_weather_hourly.py:29 | the frame `read_csv` gives has exactly the header's columns, each holding its fields top to bottom |
| WeatherHourlyLoader.RenameMap | src/montpellier_bike_prediction/cli/load_weather_hourly.py:41-47 | `temperature`, `humidity` and `wind_speed` are renamed to their `_2m`/`_10m` schema names exactly when present, and nothing else is renamed |
| WeatherHourlyLoader.RenameMapKeys | src/montpellier_bike_prediction/cli/load_weather_hourly.py:41-47 | each entry of `rename_map` maps a variable's short name to that variable's schema name |
| WeatherHourlyLoader.RenameMapFits | src/montpellier_bike_prediction/cli/load_weather_hourly.py:41-49 | the renames have distinct targets, no target is itself renamed, and every source is a column |
| WeatherHourlyLoader.FirstClash | src/montpellier_bike_prediction/cli/load_weather_hourly.py:49 | finds the first variable whose short and schema names are both columns, or none when no rename would repeat a column name; the model fails on such a clash, where pandas would keep a duplicate column |
| WeatherHourlyLoader.NoClash | src/montpellier_bike_prediction/cli/load_weather_hourly.py:49 | with no clash, no rename target is already a column |
| WeatherHourlyLoader.Rename | src/montpellier_bike_prediction/cli/load_weather_hourly.py:49 | each renamed column moves, with its fields, to its new name and leaves its old one; the other columns stay unchanged, and no other column appears |
| WeatherHourlyLoader.Kept | src/montpellier_bike_prediction/cli/load_weather_hourly.py:49 | the columns `rename` leaves alone keep their fields |
| WeatherHourlyLoader.Moved | src/montpellier_bike_prediction/cli/load_weather_hourly.py:49 | the renamed columns appear under their new names with their fields |
| WeatherHourlyLoader.Nulls | src/montpellier_bike_prediction/cli/load_weather_hourly.py:54 | `df[col] = None` gives a column of one null per row |
| WeatherHourlyLoader.Filled | src/montpellier_bike_prediction/cli/load_weather_hourly.py:52-54 | after filling, all four schema columns exist; existing columns are unchanged, and every added column is a variable's, all nulls |
| WeatherHourlyLoader.FillMissing | src/montpellier_bike_prediction/cli/load_weather_hourly.py:52-54 | the fill loop gives exactly the filled frame |
| WeatherHourlyLoader.FillStep | src/montpellier_bike_prediction/cli/load_weather_hourly.py:53-54 | one turn of the fill loop adds that variable's column when it is missing and changes nothing else |
| WeatherHourlyLoader.FilledByKeys | src/montpellier_bike_prediction/cli/load_weather_hourly.py:52-54 | after all four turns, the loop's frame is the filled frame |
| WeatherHourlyLoader.CastColumns | src/montpellier_bike_prediction/cli/load_weather_hourly.py:57-58 | the cast loop casts the four columns in order, and the first failing cast raises |
| WeatherHourlyLoader.Select | src/montpellier_bike_prediction/cli/load_weather_hourly.py:60-61 | one row per line, holding the line's timestamp and its four cast values |
| WeatherHourlyLoader.Conform | src/montpellier_bike_prediction/cli/load_weather_hourly.py:40-54 | rename then fill: the model fails exactly when a rename would repeat a column name, naming the first such variable; otherwise all four schema columns exist |
| WeatherHourlyLoader.ConformRectangular | src/montpellier_bike_prediction/cli/load_weather_hourly.py:40-54 | renaming and filling keep every column one field per row |
| WeatherHourlyLoader.RenamedRectangular | src/montpellier_bike_prediction/cli/load_weather_hourly.py:49-54 | the renamed and filled frame has one field per row in every column |
| WeatherHourlyLoader.ParseWeatherCsv | src/montpellier_bike_prediction/cli/load_weather_hourly.py:32-61 | errors in the source's order: the timestamp error, then the model's rename-clash failure, then the cast error; a parsed file has one row per line |
| WeatherHourlyLoader.CastLengths | src/montpellier_bike_prediction/cli/load_weather_hourly.py:57-58 | after filling, every cast column has one value per row |
| WeatherHourlyLoader.SourceOf | src/montpellier_bike_prediction/cli/load_weather_hourly.py:41-54 | the column a variable is read from (its short name if present, else its schema name, else none) is a column of the file |
| WeatherHourlyLoader.ConformedColumn | src/montpellier_bike_prediction/cli/load_weather_hourly.py:40-54 | after rename and fill, each variable's schema column holds its source column's fields, or nulls when the file has neither name |
| WeatherHourlyLoader.RenamedColumn | src/montpellier_bike_prediction/cli/load_weather_hourly.py:41-49 | after the rename, a variable's schema column holds its source column's fields, and is absent when there is no source |
| WeatherHourlyLoader.RenamedShortColumn | src/montpellier_bike_prediction/cli/load_weather_hourly.py:41-49 | for a variable with a short name, the short column is moved onto the schema name |
| WeatherHourlyLoader.ParsedSteps | src/montpellier_bike_prediction/cli/load_weather_hourly.py:32-61 | a parsed file passed the timestamp, rename and cast steps, and its rows are the selection of their results |
| WeatherHourlyLoader.ParsedFields | src/montpellier_bike_prediction/cli/load_weather_hourly.py:32-61 | each parsed row's timestamp is its line's converted timestamp field, and each variable is the float cast of the line's field in that variable's source column, or null |
| WeatherHourlyLoader.ParsedField | src/montpellier_bike_prediction/cli/load_weather_hourly.py:52-61 | the same, for one variable across every row |
| WeatherHourlyLoader.ParsesWhenFieldsCast | src/montpellier_bike_prediction/cli/load_weather_hourly.py:57-58 | the cast raises only on a field that cannot be cast: readable timestamps, no clashing rename and castable fields mean the file parses |
| WeatherHourlyLoader.ColumnCasts | src/montpellier_bike_prediction/cli/load_weather_hourly.py:58 | a variable whose every field casts has a column that casts |
| WeatherHourlyLoader.CastColumnCells | src/montpellier_bike_prediction/cli/load_weather_hourly.py:58 | a cast column has one value per line, each the cast of that line's source field |
| WeatherHourlyLoader.LoadWeatherCsv | src/montpellier_bike_prediction/cli/load_weather_hourly.py:15-69 | a missing file raises `FileNotFoundError`; otherwise the parse's error, or its rows de-duplicated on the timestamp and rendered |
| WeatherHourlyLoader.PreparedKeysUnique | src/montpellier_bike_prediction/cli/load_weather_hourly.py:64-67 | the rows sent have unique rendered timestamps, the upsert's key |
| WeatherHourlyLoader.PreparedFirstOccurrences | src/montpellier_bike_prediction/cli/load_weather_hourly.py:64 | every parsed timestamp is sent, each as the rendering of the first row with it, in the order of those first rows |
| WeatherHourlyLoader.PrepareDistinct | src/montpellier_bike_prediction/cli/load_weather_hourly.py:64-67 | a file with distinct timestamps is sent whole and in order |
| WeatherHourlyLoader.UpsertWeatherHourly | src/montpellier_bike_prediction/cli/load_weather_hourly.py:72-87 | nothing is sent for no rows; otherwise `ceil(total / 2000)` chunks of 1 to 2000 rows that make up the records in order |
| WeatherHourlyLoader.LoadWeatherHourly | src/montpellier_bike_prediction/cli/load_weather_hourly.py:90-94 | `main`, step by step with the fill and cast loops, fails exactly when the loader raises and otherwise upserts exactly the loaded records |
| Features.HolidayFlag | src/montpellier_bike_prediction/cli/train_and_predict_xgboost.py:171 | `name.notna().astype(int)` is 0 or 1, and 1 exactly when a holiday row with a name was merged in |
| Features.Derive | src/montpellier_bike_prediction/cli/train_and_predict_xgboost.py:171-173 | `hour` is below 24, `dow` below 7 and `is_holiday` at most 1 |
| Features.DeriveClock | src/montpellier_bike_prediction/cli/train_and_predict_xgboost.py:172-173 | `hour` is the hour the timestamp was built with, and `dow` is the Unix day count shifted by three, modulo 7 (Monday is 0) |
| Features.DeriveWeekdayExamples | src/montpellier_bike_prediction/cli/train_and_predict_xgboost.py:173 | 2024-01-01, a Monday, gets `dow` 0, and 2024-01-07, a Sunday, gets `dow` 6 |
| Features.IsHolidayIff | src/montpellier_bike_prediction/cli/train_and_predict_xgboost.py:162-171 | with one holidays row per date, `is_holiday` is 1 exactly when a holidays row has the timestamp's UTC date and a name |
| Features.MergeWeatherUnique | src/montpellier_bike_prediction/cli/train_and_predict_xgboost.py:155-160 | with unique weather timestamps the left merge keeps one row per input row, in order, with the weather of its identical timestamp or nulls |
| Features.MergeHolidaysUnique | src/montpellier_bike_prediction/cli/train_and_predict_xgboost.py:163-173 | with unique holiday dates the merge on the UTC date keeps one row per input row, in order, with that timestamp's derived features |
| Features.JoinedOnePerReading | src/montpellier_bike_prediction/cli/train_and_predict_xgboost.py:155-173 | with unique weather timestamps and holiday dates, both merges give exactly one row per reading, in order, with its own timestamp's weather and its UTC date's features |
| Features.JoinedIsMap | src/montpellier_bike_prediction/cli/train_and_predict_xgboost.py:155-173 | the same fact as one equation: the merged table is the readings mapped row by row |
| Features.MergeWeatherProvenance | src/montpellier_bike_prediction/cli/train_and_predict_xgboost.py:155-160 | whatever the tables, each merged row comes from an input row, and its weather is a stored row's with the identical timestamp, or all nulls when none exists |
| Features.FutureJoinedOnePerForecastRow | src/montpellier_bike_prediction/cli/train_and_predict_xgboost.py:191-202 | with unique holiday dates the future merge keeps every forecast row, in order and with its weather, and derives the same features as training |
| Features.Tomorrow | src/montpellier_bike_prediction/cli/train_and_predict_xgboost.py:112-113 | tomorrow is the UTC date of `now` plus one day |
| Features.TomorrowRows | src/montpellier_bike_prediction/cli/train_and_predict_xgboost.py:114-115 | the filter keeps exactly the stored rows whose UTC date is tomorrow |
| Features.LoadTomorrowForecast | src/montpellier_bike_prediction/cli/train_and_predict_xgboost.py:102-118 | an empty table raises, a table with no row for tomorrow raises, and a non-empty table with rows for tomorrow returns exactly tomorrow's rows, in stored order |
| Features.TimeOrder | src/montpellier_bike_prediction/cli/train_and_predict_xgboost.py:121 | ordering by timestamp is total and transitive |
| Features.SortByTime | src/montpellier_bike_prediction/cli/train_and_predict_xgboost.py:121 | `sort_values("timestamp_utc")` returns a permutation of its input, in ascending timestamp order |
| XgboostPredictions.LoadWeatherForecastForTomorrow | src/montpellier_bike_prediction/cli/train_and_predict_xgboost.py:87-122 | raises on an empty table and on a table with no row for tomorrow; a non-empty table with rows for tomorrow succeeds, and a success is a non-empty permutation of tomorrow's rows, sorted by timestamp |
| XgboostPredictions.ForecastIsTomorrow | src/montpellier_bike_prediction/cli/train_and_predict_xgboost.py:112-115 | every returned row is a stored row on the UTC date of now + 1 day |
| XgboostPredictions.BuildTrainingDataset | src/montpellier_bike_prediction/cli/train_and_predict_xgboost.py:139-179 | the training rows are exactly the merged rows with no null in `intensity` or in the seven feature columns |
| XgboostPredictions.TrainingDatasetOfUniqueKeys | src/montpellier_bike_prediction/cli/train_and_predict_xgboost.py:155-176 | with unique weather timestamps and holiday dates, the training set is the readings with an intensity and complete weather, in reading order, each merged with its own timestamp's weather and features |
| XgboostPredictions.BuildFutureFeatures | src/montpellier_bike_prediction/cli/train_and_predict_xgboost.py:182-205 | the future frame is a permutation of the merged forecast rows, sorted by timestamp |
| XgboostPredictions.FutureFeaturesKeepEveryRow | src/montpellier_bike_prediction/cli/train_and_predict_xgboost.py:191-204 | with unique holiday dates no forecast row is dropped; each future row has a forecast row's timestamp and weather, and the features a training row at that timestamp gets |
| XgboostPredictions.Batch | src/montpellier_bike_prediction/cli/train_and_predict_xgboost.py:277-283 | a trained counter contributes one prediction per future row, tagged with its id and that row's timestamp |
| XgboostPredictions.TrainedIff | src/montpellier_bike_prediction/cli/train_and_predict_xgboost.py:257-270 | a counter trains exactly when it is selected, its history loads and it has at least 100 training rows |
| XgboostPredictions.FramesFollowTrained | src/montpellier_bike_prediction/cli/train_and_predict_xgboost.py:255-285 | `all_preds` holds one frame per trained counter, in `SELECTED_COUNTERS` order, each that counter's predictions for every future row |
| XgboostPredictions.PredictionCount | src/montpellier_bike_prediction/cli/train_and_predict_xgboost.py:291 | the concatenation has one row per future row for each trained counter |
| XgboostPredictions.PredictForAllCounters | src/montpellier_bike_prediction/cli/train_and_predict_xgboost.py:233-303 | the shared loads come first, so a failed load aborts before any training; then the run is the specified outcome, and the counters trained are those that pass both checks |
| XgboostPredictions.PredictCounters | src/montpellier_bike_prediction/cli/train_and_predict_xgboost.py:257-285 | the loop skips a counter with no history or fewer than 100 training rows and otherwise appends its batch, in order |
| XgboostPredictions.FramesEmptyIff | src/montpellier_bike_prediction/cli/train_and_predict_xgboost.py:287-289 | no frame is collected exactly when no counter trains |
| XgboostPredictions.PredictionIds | src/montpellier_bike_prediction/cli/train_and_predict_xgboost.py:279-291 | every collected prediction carries a trained counter's id |
| XgboostPredictions.RunUpsertsTrainedCounters | src/montpellier_bike_prediction/cli/train_and_predict_xgboost.py:287-302 | after the shared loads, nothing is upserted exactly when no counter trained; otherwise one upsert into `bike_predictions_hourly_xgboost` carries one row per future row for each trained counter, each with a trained counter's id |
| XgboostPredictions.StoredTimestampsReadBack | src/montpellier_bike_prediction/cli/train_and_predict_xgboost.py:294-296 | the sent timestamp text reads back as the predicted instant |
| ProphetPredictions.BuildTrainingDataframe | src/montpellier_bike_prediction/cli/train_and_predict_prophet.py:108-162 | every training row has no null in its nine columns, and there are never more rows than merged readings |
| ProphetPredictions.SameRowsAsXgboost | src/montpellier_bike_prediction/cli/train_and_predict_prophet.py:122-159 | the training frame is the XGBoost training set, in the same order, projected onto `ds`, `y`, the four weather regressors, `is_holiday`, `dow` and `hour`: both derive the features the same way and drop exactly the rows with a null |
| ProphetPredictions.TrainingRowsComeFromReadings | src/montpellier_bike_prediction/cli/train_and_predict_prophet.py:131-146 | with unique weather timestamps and holiday dates, each training row's `ds` is a reading's own UTC timestamp and `y` its intensity, with that timestamp's weather, hour and weekday |
| ProphetPredictions.FutureDataframeInForecastOrder | src/montpellier_bike_prediction/cli/train_and_predict_prophet.py:192-230 | with unique holiday dates, row `i` of the future frame is forecast row `i`, with its weather and the same derived features as training, so there is one row per forecast row in the forecast's order |
| ProphetPredictions.XgboostTrainsImpliesProphetTrains | src/montpellier_bike_prediction/cli/train_and_predict_prophet.py:268-272 | every counter that XGBoost trains on, Prophet trains on too, with at least the two rows `m.fit` needs |
| ProphetPredictions.Batch | src/montpellier_bike_prediction/cli/train_and_predict_prophet.py:274-282 | a trained counter contributes one prediction per future row, tagged with its id and that row's `ds` |
| ProphetPredictions.ErrorOfIff | src/montpellier_bike_prediction/cli/train_and_predict_prophet.py:258-274 | a counter raises exactly when it reaches `m.fit` (line 188) with fewer than two rows, or `model.predict` with a null weather value in the future frame, and the error names that counter |
| ProphetPredictions.FirstErrorIff | src/montpellier_bike_prediction/cli/train_and_predict_prophet.py:255-274 | the loop raises exactly when some selected counter raises |
| ProphetPredictions.FirstErrorIsFirst | src/montpellier_bike_prediction/cli/train_and_predict_prophet.py:255-274 | the error the loop raises is that of the first counter that raises, and every counter before it ran without error |
| ProphetPredictions.FirstErrorPrefix | src/montpellier_bike_prediction/cli/train_and_predict_prophet.py:255-274 | once the counters so far have raised, the whole loop has raised the same error, since nothing catches it |
| ProphetPredictions.TrainedIff | src/montpellier_bike_prediction/cli/train_and_predict_prophet.py:255-274 | a counter reaches `m.fit` exactly when it is selected, its history loads and its training frame has a row; when the loop raises nothing, those are exactly the counters with at least two training rows and the future frame has no null |
| ProphetPredictions.FramesFollowTrained | src/montpellier_bike_prediction/cli/train_and_predict_prophet.py:253-284 | `all_preds` holds one frame per trained counter, in `SELECTED_COUNTERS` order |
| ProphetPredictions.PredictForAllCounters | src/montpellier_bike_prediction/cli/train_and_predict_prophet.py:236-301 | the shared loads come first, with the forecast left in stored order, so a failed load aborts before any training; then the run is the specified outcome, including the uncaught `fit`/`predict` errors that end it with nothing upserted |
| ProphetPredictions.PredictCounters | src/montpellier_bike_prediction/cli/train_and_predict_prophet.py:255-284 | the loop skips a counter with no history or an empty training frame, stops with the first error `fit` or `predict` raises, and otherwise appends each counter's batch, in order |
| ProphetPredictions.RunUpsertsTrainedCounters | src/montpellier_bike_prediction/cli/train_and_predict_prophet.py:255-300 | after the shared loads, the run ends with the loop's error exactly when the loop raises; otherwise nothing is upserted exactly when no counter trained, and an upsert goes to `bike_predictions_hourly_prophet` with one row per future row for each trained counter |
| ProphetPredictions.StoredRowReadsBack | src/montpellier_bike_prediction/cli/train_and_predict_prophet.py:276-295 | a stored row carries the model's `yhat`, `yhat_lower` and `yhat_upper`, and its timestamp text reads back as the predicted instant |
| HolidaysClient.IntText | src/montpellier_bike_prediction/etl/holidays_client.py:26 | the year's text in the endpoint is never empty |
| HolidaysClient.TextOrder | src/montpellier_bike_prediction/etl/holidays_client.py:32 | date-text order, which `sort_values("date")` uses on the text column, is total and transitive |
| HolidaysClient.SortedRaw | src/montpellier_bike_prediction/etl/holidays_client.py:28-32 | the records are the reply's members with nothing lost or added (same multiset, same count), in ascending date-text order |
| HolidaysClient.ToDates | src/montpellier_bike_prediction/etl/holidays_client.py:33 | the conversion succeeds exactly when every date text reads as a date, then keeps each record's position, name, zone and year; a failure names a text that does not read |
| HolidaysClient.FetchYear | src/montpellier_bike_prediction/etl/holidays_client.py:21-34 | a GET that raises fails with the endpoint, a reply that is not an object fails, an empty object fails for lack of a `date` column, and otherwise the result is the sorted records with their dates converted |
| HolidaysClient.FetchYearRows | src/montpellier_bike_prediction/etl/holidays_client.py:21-34 | a successful year has one row per member, all tagged with the zone and year asked for, in ascending date-text order, each date read from its text |
| HolidaysClient.FetchYearKeepsMembers | src/montpellier_bike_prediction/etl/holidays_client.py:28-33 | every member of the reply appears among the rows with its date and name |
| HolidaysClient.Years | src/montpellier_bike_prediction/etl/holidays_client.py:44 | `range(start_year, current_year + 1)` has one entry per year, ascending from the start year, and is empty when the start is after the current year |
| HolidaysClient.YearFrames | src/montpellier_bike_prediction/etl/holidays_client.py:44 | all years fetched gives one frame per year in order; otherwise the error is the first failing year's |
| HolidaysClient.FirstFailingYear | src/montpellier_bike_prediction/etl/holidays_client.py:44 | the comprehension's failure comes from a year in the range before which every year succeeded |
| HolidaysClient.EntryOrder | src/montpellier_bike_prediction/etl/holidays_client.py:45 | calendar order on `datetime.date` is total and transitive |
| HolidaysClient.FetchRangeForTraining | src/montpellier_bike_prediction/etl/holidays_client.py:36-46 | an empty range fails with nothing to concatenate, a failing year's error is passed on, a range whose years all fetch succeeds, and a success is every year's rows, none lost or added, sorted by date |
| HolidaysClient.FlattenLength | src/montpellier_bike_prediction/etl/holidays_client.py:45 | the concatenation has as many rows as the frames together |
| HolidaysClient.RangeRowCount | src/montpellier_bike_prediction/etl/holidays_client.py:43-46 | a successful range has one frame per year from the start to the current year, and its row count is their sum |
| WeatherClient.GetOr | src/montpellier_bike_prediction/etl/weather_client.py:66-67 | `dict.get` gives the member when the key is present and the default otherwise |
| WeatherClient.ReadTime | src/montpellier_bike_prediction/etl/weather_client.py:71 | a `time` entry converts exactly when it reads as an instant, and then to that instant |
| WeatherClient.Nulls | src/montpellier_bike_prediction/etl/weather_client.py:78 | the default `[None] * len(times)` has one null per time |
| WeatherClient.KeptColumn | src/montpellier_bike_prediction/etl/weather_client.py:78 | a missing key gives nulls; a list gives one cell per time and fails when its length differs from the row count; a successful column always has that count |
| WeatherClient.Assemble | src/montpellier_bike_prediction/etl/weather_client.py:71-78 | one row per time, holding that time and the four columns' cells at its position |
| WeatherClient.FetchHourlyHistory | src/montpellier_bike_prediction/etl/weather_client.py:24-80 | the method, with its early return and column loop, computes the specified history: a failed request or a non-object reply errs, an empty `time` gives an empty table, otherwise times then columns |
| WeatherClient.AssignColumns | src/montpellier_bike_prediction/etl/weather_client.py:72-78 | the loop assigns the four kept columns in order and stops at the first that raises |
| WeatherClient.EmptyTimes | src/montpellier_bike_prediction/etl/weather_client.py:66-69 | an absent or empty `time` list gives an empty table |
| WeatherClient.RowsFollowTimes | src/montpellier_bike_prediction/etl/weather_client.py:66-80 | a non-empty result has one row per `time` entry, at its instant, and each kept column is the reply's list for that variable, or nulls when it is absent |
| WeatherClient.HourlyRows | src/montpellier_bike_prediction/etl/weather_client.py:67-78 | the same facts for the table built from one `hourly` object |
| WeatherClient.MinuteTextReads | src/montpellier_bike_prediction/etl/weather_client.py:71 | Open-Meteo's minute-precision text reads as the instant it names, at zero seconds |
| CountersLoader.NgsiLocation | src/montpellier_bike_prediction/cli/load_counters.py:14 | the NGSI location built from `[lon, lat, ...]` has exactly that list at `value.coordinates` |
| CountersLoader.LatLonOfNgsiLocation | src/montpellier_bike_prediction/cli/load_counters.py:11-26 | a well-formed NGSI location gives `(lat, lon)`: the first two coordinates, swapped |
| CountersLoader.LatLonFromCoordinates | src/montpellier_bike_prediction/cli/load_counters.py:16-26 | conversely, any pair other than two nulls is the swapped head of a coordinate list of at least two entries |
| CountersLoader.LatLonOfMalformed | src/montpellier_bike_prediction/cli/load_counters.py:16-26 | every way the path can be broken (not an object, no `value`, `value` not an object, no `coordinates`, not a list, fewer than two entries) gives two nulls |
| CountersLoader.NameOf | src/montpellier_bike_prediction/cli/load_counters.py:39-41 | an object name gives its inner `value`, anything else a null |
| CountersLoader.CliCounters | src/montpellier_bike_prediction/cli/load_counters.py:29-50 | without an `id` column the filter raises, without `location` the extraction raises, an empty selection fails at the unpacking, and otherwise there is one row per selected record |
| CountersLoader.NoNameColumn | src/montpellier_bike_prediction/cli/load_counters.py:42-43 | without a `name` column every selected row's name is null |
| CountersLoader.NameBranchesAgree | src/montpellier_bike_prediction/cli/load_counters.py:38-43 | both branches give every selected row the name its own record carries |
| CountersLoader.CliRows | src/montpellier_bike_prediction/cli/load_counters.py:35-50 | row `i` is the `i`-th selected record's id, the inner value of its name and its location's `(lat, lon)` |
| CountersLoader.KeepsExactlySelected | src/montpellier_bike_prediction/cli/load_counters.py:35 | every row's id is a selected counter and every listed record with a selected id has a row |
| CountersLoader.ScriptCounters | scripts/load_counters.py:30-52 | the script copy also fails with a `KeyError` on a listing without `id` |
| CountersLoader.ScriptAgreesWithCli | scripts/load_counters.py:30-52 | building the name under `name_col` and renaming it gives the same rows as the command-line copy on every listing, errors included |
| CountersLoader.RunCli | src/montpellier_bike_prediction/cli/load_counters.py:29-56 | the listing is read page by page up to the first page that raises or ends it; a raising GET ends the run with its offset and no upsert; otherwise one upsert into `counters` carries exactly the built rows, or the build's error is returned |
| Pipeline.TableNamesDistinct | src/montpellier_bike_prediction/pipeline.py:87-131 | the seven table names passed to `truncate_table` are pairwise distinct, so the log's tables are the calls' tables |
| Pipeline.RefreshDays | src/montpellier_bike_prediction/pipeline.py:41-49 | holidays are refreshed exactly on December 30 and 31 |
| Pipeline.RefreshNearNewYear | src/montpellier_bike_prediction/pipeline.py:41-49 | equivalently, exactly when the next January 1 is at most two days away |
| Pipeline.DaysToNewYear | src/montpellier_bike_prediction/pipeline.py:46-49 | the distance to the next January 1 is the days left in the current year |
| Pipeline.LastTwoDays | src/montpellier_bike_prediction/pipeline.py:49 | within a year, a day is in the last two days of December exactly when at most two days remain up to the next year |
| Pipeline.PrecedesAcross | src/montpellier_bike_prediction/pipeline.py:145-155 | a step of an earlier stage comes before every occurrence of a step that only a later stage runs |
| Pipeline.HolidaysEtlIff | src/montpellier_bike_prediction/pipeline.py:57-72 | the bike and weather ETL always run; the holidays ETL runs exactly when holidays are to be refreshed |
| Pipeline.HolidaysReloadIff | src/montpellier_bike_prediction/pipeline.py:93-111 | the holidays table is emptied exactly when holidays are refreshed, reloaded exactly when it was emptied, and emptied before it is reloaded |
| Pipeline.HistoryTruncatedBeforeLoaders | src/montpellier_bike_prediction/pipeline.py:86-111 | all four loaders run, and the four history tables are emptied before any loader, the holidays loader included |
| Pipeline.PredictionsTruncatedBeforeModels | src/montpellier_bike_prediction/pipeline.py:119-137 | both prediction tables are emptied before either model runs, and Prophet runs before XGBoost |
| Pipeline.HolidaysFetchedBeforeLoaded | src/montpellier_bike_prediction/pipeline.py:145-155 | holidays are loaded exactly when they are refreshed, and then only after they were fetched into the CSV |
| Pipeline.HistoryLoadedBeforeModels | src/montpellier_bike_prediction/pipeline.py:145-155 | the bike and weather history are loaded before either model runs |
| Pipeline.Runner.Perform | src/montpellier_bike_prediction/pipeline.py:63-137 | one step appends one entry to the log and changes nothing else |
| Pipeline.Runner.RunEtlHistory | src/montpellier_bike_prediction/pipeline.py:57-72 | the log grows by the ETL steps for `today` |
| Pipeline.Runner.ReloadDataToSupabase | src/montpellier_bike_prediction/pipeline.py:80-111 | the log grows by the truncations, then the loaders, with the holidays pair only on refresh days |
| Pipeline.Runner.RunModels | src/montpellier_bike_prediction/pipeline.py:119-137 | the log grows by the two truncations, then Prophet, then XGBoost |
| Pipeline.Runner.RunPipeline | src/montpellier_bike_prediction/pipeline.py:145-157 | the whole run is the ETL, then the reload, then the models, all on one `today` |

## Left out

- Model fitting and prediction (`Prophet`, `XGBRegressor`, `train_prophet_with_regressors`, `train_xgb_regressor`): floating-point numerics in foreign libraries. They are function parameters returning one value, or one `yhat`/`yhat_lower`/`yhat_upper` triple, per future row. Nothing is claimed about the order of the three Prophet values. The model has two errors Prophet raises on the frames this code gives it: `fit` on fewer than two rows and `predict` with a null regressor. Any other failure inside either library is not modelled; `XGBRegressor` reads null features as missing, so its predictions need no such case. An error the Prophet run raises would also stop `run_models` before XGBoost (`pipeline.py:133-137`); the pipeline's log does not model step failures.
- Supabase access (`get_supabase_client`, `upsert_df`, the `load_*` table queries): network I/O. Stored tables are parameters, and each upsert is a returned value or a logged step.
- `truncate_table`: `src/montpellier_bike_prediction/db_supabase.py` does not define it. It is a logged pipeline step, with the column and bound it is given.
- HTTP (`BaseAPIClient.get`, `session.get`, `requests.get`, `raise_for_status`): I/O. Each GET is a function parameter from the request to its decoded reply or its failure: `BikeClient.PageReply.GetFailed`, `HolidaysClient.HolidaysReply.GetFailed`, `BikeClient.TimeseriesReply.RequestFailed` and `WeatherClient.HttpReply.HttpError` stand for the exception the GET raises (`raise_for_status` on a status other than 2xx, as at `base_client.py:38`). Request timeouts and retries are not modelled.
- `fetch_hourly_forecast_utc` in `update_weather_forecast.py`: HTTP plus the frame built from the reply. The forecast feed enters the model as rows.
- CSV reading and writing, and directory creation: a file is a parameter holding its header and lines. `run_bike_etl_for_selected`, `weather_etl.py`, `holidays_etl.py` and `cli/load_holidays.py` are not part of this model, because they only read or write files.
- pandas text parsing: `pd.to_datetime` and `fromisoformat` are modelled cell by cell, by one parser per call site, and any other text is an error. pandas' column-wide format inference is not modelled.
- CSV and bike API timestamps (`CsvLoad.ParseCsvTime`) are read as `YYYY-MM-DD` (as midnight) and 19-character `YYYY-MM-DDTHH:MM:SS` stamps, with a `T` or a space, optionally followed by `Z` or a `±HH:MM` offset, which is converted to UTC. The minute-only form `YYYY-MM-DDTHH:MM`, fractional seconds and other offset spellings are not read.
- Open-Meteo `time` entries (`WeatherClient.ParseTime`) are read only as `YYYY-MM-DDTHH:MM` and `YYYY-MM-DDTHH:MM:SS`, with a `T`, as Open-Meteo writes them. No other shape is read.
- WeatherClient.ReadTime: a JSON null `time` entry, which `pd.to_datetime` reads as `NaT`, is an error in the model, because every weather row carries a definite instant.
- Holiday dates (`HolidaysClient.ToDate`) are read only as `YYYY-MM-DD`, the shape the holidays API returns.
- BikeEtl.Interval: reads `global_start` and `global_end` only as `YYYY-MM-DDTHH:MM:SS`. The date-only, space-separated, minute-only, fractional-second and offset forms that `fromisoformat` also accepts are errors in the model. For an offset, `.replace(tzinfo=utc)` would relabel the time without converting it, and that is not modelled either. The one caller, `run_bike_etl_for_selected` (`bike_etl.py:79-88`), passes the default `"2023-01-01T00:00:00"`.
- BikeClient.FetchTimeseries: the decoded reply is taken to be a JSON object whose `index` entries are text. Other reply shapes are not modelled: `None` or a number makes the `in` test at `bike_client.py:72` raise `TypeError`, and a list or a string would be searched for the key. Non-text `index` entries are not modelled either.
- Numeric casts (`astype(float)`, `astype(int)`) are function parameters from the field text to an optional number. Weather magnitudes are opaque optional values, and a non-numeric API cell reads as null.
- Counter ids read from CSV are compared as text.
- Sort ties: `Sorting.Sort` is a stable insertion sort. On equal keys pandas' default sort may order rows differently. The model proves only what any correct sort gives: the same rows, in ascending order.
- WeatherHourlyLoader.Conform: a file with both a short name and its schema name (`temperature` and `temperature_2m`, say) makes `df.rename` (`load_weather_hourly.py:49`) give pandas two columns of the same name. pandas goes on: the casts and the selection at lines 57-61 keep both columns, and `to_dict(orient="records")` (`db_supabase.py:34`) keeps the last of them in each record. The model fails on such a clash instead (`WeatherHourlyLoader.FirstClash`, `WeatherHourlyLoader.ParseWeatherCsv`).
- The counters listing is taken to hold JSON objects, and a record without a key reads as null in that column. pandas' column union over mixed record shapes is not modelled further.
- BikeClient.FetchAllCounters: requires that the listing eventually returns a page that ends it or a GET that raises. Without one the source loops forever.
- CountersLoader.RunCli: requires that the listing eventually returns a page that ends it or a GET that raises. Without one the source loops forever.
- BikeEtl.BuildYearChunks: `dt.datetime(current.year + 1, 1, 1)` (`bike_etl.py:30`) raises `ValueError` once a chunk starts in year 9999, Python's last `datetime` year. The model's calendar is unbounded, so it returns the chunks instead, the next start being 10000-01-01. `BikeEtl.NextYear` has the same unbounded year.
- IsoTime.ParseRender: requires years up to 9999, which is Python's own `datetime` limit; the calendar itself is unbounded.
- IsoTime.RenderInjective: requires years up to 9999, which is Python's own `datetime` limit; the calendar itself is unbounded.
- CsvLoad.ReadsRenderedText: requires years up to 9999, which is Python's own `datetime` limit; the calendar itself is unbounded.
- CsvLoad.ReadsCsvWrittenText: requires years up to 9999, which is Python's own `datetime` limit; the calendar itself is unbounded.
- CsvLoad.RenderCellInjective: requires years up to 9999, which is Python's own `datetime` limit; the calendar itself is unbounded.
- BikeClient.RequestDatesReadBack: requires years up to 9999, which is Python's own `datetime` limit; the calendar itself is unbounded.
- Wall-clock reads (`datetime.now`, `date.today`, `utcnow`) are parameters. The pipeline's two `date.today()` calls (`pipeline.py:68` and `:94`) are modelled as one `today`. The two could disagree across midnight.
- Pipeline.Runner.RunPipeline: `pipeline.py:10` imports `main` from `etl/bike_etl.py`, which defines no `main` (only the functions at lines 22, 37 and 79), and line 7 imports the undefined `truncate_table`. So the module raises `ImportError` on import and none of its steps can run. The step `EtlBike` stands for `run_bike_etl_for_selected`, and the ordering lemmas describe the order the code lays out, not a run that can happen.
- Root `pipeline.py`: argparse and the `_delete_all_rows` calls are command-line plumbing around network deletes.
- `config.py`: dotenv and environment lookups. `SELECTED_COUNTERS` is a constant.
- `scripts/load_counters.py:7` imports from a package path that does not exist in the layout. Only the script's logic is modelled.
- `print`, logging and `tqdm` progress bars.
- Some source loops are split across a method and a helper method of their own, one per loop nest, with the same effect.
