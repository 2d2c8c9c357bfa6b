/**
 * The forecast update: the 24 hours of tomorrow (UTC) as a fixed skeleton,
 * the forecast feed left-joined onto it, the rows prepared for
 * `weather_forecast_hourly` and upserted in chunks of 500.
 */
module WeatherForecast {
  import opened Wrappers
  import opened Calendar
  import opened Tables
  import opened IsoTime
  import opened Features
  import opened Batching

  const ForecastTable: string := "weather_forecast_hourly"
  const ForecastChunkSize: nat := 500

  // ---------------------------------------------------------------------------
  // Tomorrow's skeleton and the merge
  // ---------------------------------------------------------------------------

  /** `pd.date_range(tomorrow 00:00 UTC, periods=24, freq="H")`. */
  function Skeleton(now: Instant): (hours: seq<Instant>)
    ensures |hours| == 24
  {
    seq(24, i requires 0 <= i < 24 => InstantAt(Tomorrow(now), i, 0, 0))
  }

  /**
   * The skeleton starts at tomorrow 00:00:00, steps one hour, and slot `i` is
   * hour `i` of tomorrow on the whole hour.
   */
  lemma SkeletonHours(now: Instant)
    ensures Skeleton(now)[0] == StartOfDay(Tomorrow(now))
    ensures forall i :: 0 < i < 24 ==> Skeleton(now)[i] == Skeleton(now)[i - 1] + SecondsPerHour
    ensures forall i :: 0 <= i < 24 ==>
      && DayOf(Skeleton(now)[i]) == Tomorrow(now)
      && HourOf(Skeleton(now)[i]) == i
      && MinuteOf(Skeleton(now)[i]) == 0
      && SecondOf(Skeleton(now)[i]) == 0
  {
    forall i | 0 <= i < 24
      ensures DayOf(Skeleton(now)[i]) == Tomorrow(now) && HourOf(Skeleton(now)[i]) == i
      ensures MinuteOf(Skeleton(now)[i]) == 0 && SecondOf(Skeleton(now)[i]) == 0
    {
      InstantAtFields(Tomorrow(now), i, 0, 0);
    }
  }

  /** The skeleton ascends strictly. */
  lemma SkeletonAscending(now: Instant)
    ensures forall i, j :: 0 <= i < j < 24 ==> Skeleton(now)[i] < Skeleton(now)[j]
  {
    SkeletonHours(now);
    forall i, j | 0 <= i < j < 24 ensures Skeleton(now)[i] < Skeleton(now)[j] {
      var k := i;
      while k < j
        invariant i <= k <= j
        invariant Skeleton(now)[i] <= Skeleton(now)[k]
        invariant k > i ==> Skeleton(now)[i] < Skeleton(now)[k]
      {
        k := k + 1;
      }
    }
  }

  /** `keep_tomorrow_utc_midnight_to_midnight`: the skeleton merged with the feed on `time_utc`. */
  function KeepTomorrow(feed: seq<WeatherRow>, now: Instant): seq<WeatherRow> {
    Map(MergeWeather(Skeleton(now), (t: Instant) => t, feed),
        (p: (Instant, Weather)) => WeatherRow(p.0, p.1))
  }

  /**
   * However long or short the feed, every kept row is a slot of tomorrow, and
   * there are at least 24 rows; a feed row of another day never appears.
   */
  lemma KeepTomorrowOnlyTomorrow(feed: seq<WeatherRow>, now: Instant)
    ensures |KeepTomorrow(feed, now)| >= 24
    ensures forall r :: r in KeepTomorrow(feed, now) ==>
      r.time in Skeleton(now) && DayOf(r.time) == Tomorrow(now)
  {
    var sk := Skeleton(now);
    var m := MergeWeather(sk, (t: Instant) => t, feed);
    LeftJoinLength(sk, feed, (t: Instant) => t, (w: WeatherRow) => w.time);
    MergeWeatherProvenance(sk, (t: Instant) => t, feed);
    SkeletonHours(now);
    forall r | r in KeepTomorrow(feed, now) ensures r.time in sk && DayOf(r.time) == Tomorrow(now) {
      var i :| 0 <= i < |m| && KeepTomorrow(feed, now)[i] == r;
      assert m[i] in m;
      var k :| 0 <= k < 24 && sk[k] == r.time;
    }
  }

  /**
   * With unique feed timestamps the result is exactly 24 rows, in skeleton
   * order, each with the weather of the feed row at that timestamp or nulls.
   */
  lemma KeepTomorrowUnique(feed: seq<WeatherRow>, now: Instant)
    requires UniqueKeys(feed, (w: WeatherRow) => w.time)
    ensures |KeepTomorrow(feed, now)| == 24
    ensures forall i :: 0 <= i < 24 ==>
      KeepTomorrow(feed, now)[i] == WeatherRow(Skeleton(now)[i], WeatherAt(feed, Skeleton(now)[i]))
    ensures forall i, j :: 0 <= i < j < 24 ==> KeepTomorrow(feed, now)[i].time < KeepTomorrow(feed, now)[j].time
  {
    MergeWeatherUnique(Skeleton(now), (t: Instant) => t, feed);
    SkeletonAscending(now);
  }

  /** A slot that the feed has carries that feed row's four values. */
  lemma SlotMatched(feed: seq<WeatherRow>, w: WeatherRow)
    requires UniqueKeys(feed, (w: WeatherRow) => w.time)
    requires w in feed
    ensures WeatherAt(feed, w.time) == w.weather
  {
    var o := Lookup(feed, (x: WeatherRow) => x.time, w.time);
    var i :| 0 <= i < |feed| && feed[i] == o.value;
    var j :| 0 <= j < |feed| && feed[j] == w;
    assert i == j;
  }

  /** A slot the feed does not have carries nulls. */
  lemma SlotUnmatched(feed: seq<WeatherRow>, t: Instant)
    requires forall w :: w in feed ==> w.time != t
    ensures WeatherAt(feed, t) == NoWeather
  {
  }

  // ---------------------------------------------------------------------------
  // Preparing the rows
  // ---------------------------------------------------------------------------

  /** One row of `weather_forecast_hourly` as sent: the five columns. */
  datatype ForecastRecord = ForecastRecord(timestampUtc: string, weather: Weather)

  function Record(r: WeatherRow): ForecastRecord {
    ForecastRecord(Render(r.time), r.weather)
  }

  /** The upsert key, `timestamp_utc`. */
  function Timestamp(f: ForecastRecord): string {
    f.timestampUtc
  }

  /** `prepare_for_supabase`: render `timestamp_utc`, keep five columns, drop repeated timestamps. */
  function PrepareForSupabase(rows: seq<WeatherRow>): seq<ForecastRecord> {
    DropDuplicates(Map(rows, Record), Timestamp)
  }

  /** The prepared timestamps are unique, and no rendered timestamp is lost. */
  lemma PreparedTimestamps(rows: seq<WeatherRow>)
    ensures UniqueKeys(PrepareForSupabase(rows), Timestamp)
    ensures forall i :: 0 <= i < |rows| ==> HasKey(PrepareForSupabase(rows), Timestamp, Render(rows[i].time))
  {
    var recs := Map(rows, Record);
    DropDuplicatesSpec(recs, Timestamp);
    forall i | 0 <= i < |rows| ensures HasKey(PrepareForSupabase(rows), Timestamp, Render(rows[i].time)) {
      HasKeyAt(recs, Timestamp, i);
    }
  }

  /** Each prepared record is the first row with its rendered timestamp. */
  lemma PreparedFirstOccurrence(rows: seq<WeatherRow>)
    ensures forall f :: f in PrepareForSupabase(rows) ==>
      exists k :: (0 <= k < |rows| && f == Record(rows[k])
        && forall j :: 0 <= j < k ==> Render(rows[j].time) != f.timestampUtc)
  {
    var recs := Map(rows, Record);
    var out := PrepareForSupabase(rows);
    DropDuplicatesSpec(recs, Timestamp);
    forall f | f in out ensures exists k :: (0 <= k < |rows| && f == Record(rows[k])
      && forall j :: 0 <= j < k ==> Render(rows[j].time) != f.timestampUtc)
    {
      var i :| 0 <= i < |out| && out[i] == f;
      FirstRecordOf(rows, f);
    }
  }

  /** A record that is the first with its timestamp comes from the first row rendering to it. */
  lemma FirstRecordOf(rows: seq<WeatherRow>, f: ForecastRecord)
    requires FirstIndex(Map(rows, Record), Timestamp, f.timestampUtc) < |rows|
    requires f == Map(rows, Record)[FirstIndex(Map(rows, Record), Timestamp, f.timestampUtc)]
    ensures exists k :: (0 <= k < |rows| && f == Record(rows[k])
      && forall j :: 0 <= j < k ==> Render(rows[j].time) != f.timestampUtc)
  {
    var recs := Map(rows, Record);
    var k := FirstIndex(recs, Timestamp, f.timestampUtc);
    forall j | 0 <= j < k ensures Render(rows[j].time) != f.timestampUtc {
      assert Timestamp(recs[j]) != f.timestampUtc;
    }
  }

  /** Rows with distinct timestamps within years up to 9999 are all kept, in order. */
  lemma PrepareDistinct(rows: seq<WeatherRow>)
    requires UniqueKeys(rows, (r: WeatherRow) => r.time)
    requires forall i :: 0 <= i < |rows| ==> YearOfInstant(rows[i].time) <= 9999
    ensures PrepareForSupabase(rows) == Map(rows, Record)
  {
    var recs := Map(rows, Record);
    forall i, j | 0 <= i < j < |recs| ensures recs[i].timestampUtc != recs[j].timestampUtc {
      if recs[i].timestampUtc == recs[j].timestampUtc {
        RenderInjective(rows[i].time, rows[j].time);
      }
    }
    DropDuplicatesOfUnique(recs, Timestamp);
  }

  // ---------------------------------------------------------------------------
  // Upsert and the whole update
  // ---------------------------------------------------------------------------

  /** `upsert_weather_forecast` with its default chunk size of 500. */
  method UpsertWeatherForecast(records: seq<ForecastRecord>) returns (upload: Upload<ForecastRecord>)
    ensures records == [] <==> upload == NoRows
    ensures records != [] ==>
      && upload.Sent?
      && |upload.chunks| == CeilDiv(|records|, ForecastChunkSize)
      && (forall i :: 0 <= i < |upload.chunks| ==> 0 < |upload.chunks[i]| <= ForecastChunkSize)
      && Flatten(upload.chunks) == records
  {
    upload := UpsertInBatches(records, ForecastChunkSize);
  }

  /** The records written for tomorrow. */
  function TomorrowRecords(feed: seq<WeatherRow>, now: Instant): seq<ForecastRecord> {
    PrepareForSupabase(KeepTomorrow(feed, now))
  }

  /**
   * With unique feed timestamps (and tomorrow within year 9999) exactly 24
   * records are written, slot by slot in order, each with the feed's values at
   * that hour or nulls.
   */
  lemma TomorrowRecordsUnique(feed: seq<WeatherRow>, now: Instant)
    requires UniqueKeys(feed, (w: WeatherRow) => w.time)
    requires YearOf(Tomorrow(now)) <= 9999
    ensures |TomorrowRecords(feed, now)| == 24
    ensures forall i :: 0 <= i < 24 ==>
      TomorrowRecords(feed, now)[i] == ForecastRecord(Render(Skeleton(now)[i]), WeatherAt(feed, Skeleton(now)[i]))
  {
    var kept := KeepTomorrow(feed, now);
    KeepTomorrowUnique(feed, now);
    SkeletonHours(now);
    forall i | 0 <= i < |kept| ensures YearOfInstant(kept[i].time) <= 9999 {
      YearOfInstantBounds(kept[i].time);
    }
    PrepareDistinct(kept);
  }

  /** The feed can be empty, but tomorrow always gets records. */
  lemma TomorrowRecordsNonEmpty(feed: seq<WeatherRow>, now: Instant)
    ensures TomorrowRecords(feed, now) != []
  {
    var kept := KeepTomorrow(feed, now);
    KeepTomorrowOnlyTomorrow(feed, now);
    PreparedTimestamps(kept);
    assert HasKey(TomorrowRecords(feed, now), Timestamp, Render(kept[0].time));
  }

  /** An upload of one chunk that gives back all the rows sends them as that chunk. */
  lemma SingleChunk<T>(rows: seq<T>, chunks: seq<seq<T>>)
    requires |chunks| == 1 && Flatten(chunks) == rows
    ensures chunks == [rows]
  {
    var empty: seq<seq<T>> := [];
    assert chunks[..0] == empty && Flatten(empty) == [];
    assert Flatten(chunks) == chunks[0];
    assert chunks == [chunks[0]];
  }

  /** `main`: merge onto tomorrow, prepare, upsert. */
  method UpdateWeatherForecast(feed: seq<WeatherRow>, now: Instant)
    returns (records: seq<ForecastRecord>, upload: Upload<ForecastRecord>)
    ensures records == TomorrowRecords(feed, now)
    ensures records != [] && upload.Sent? && Flatten(upload.chunks) == records
    ensures UniqueKeys(feed, (w: WeatherRow) => w.time) && YearOf(Tomorrow(now)) <= 9999 ==>
      |records| == 24 && upload == Sent([records])
  {
    var kept := KeepTomorrow(feed, now);
    records := PrepareForSupabase(kept);
    TomorrowRecordsNonEmpty(feed, now);
    upload := UpsertWeatherForecast(records);
    if UniqueKeys(feed, (w: WeatherRow) => w.time) && YearOf(Tomorrow(now)) <= 9999 {
      TomorrowRecordsUnique(feed, now);
      assert CeilDiv(24, ForecastChunkSize) == 1;
      SingleChunk(records, upload.chunks);
    }
  }
}
