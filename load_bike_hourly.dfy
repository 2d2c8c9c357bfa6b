/**
 * `load_bike_hourly`: the processed bike CSV adapted to the `bike_hourly`
 * schema (counter id, UTC timestamp, integer intensity), de-duplicated on
 * (counter, timestamp), rendered as ISO text and upserted in chunks of 2000.
 */
module BikeHourlyLoader {
  import opened Wrappers
  import opened Calendar
  import opened IsoTime
  import opened Tables
  import opened Batching
  import opened CsvLoad

  const BikeTable := "bike_hourly"
  const BikeChunkSize := 2000

  /** The counter id column: `counter_id`, else `ecocounter_id`, else `eco_id`. */
  function IdSource(columns: seq<string>): (c: Option<string>)
    ensures c.Some? ==> c.value in columns
    ensures c == Some("counter_id") <==> "counter_id" in columns
    ensures c == Some("ecocounter_id") <==> "counter_id" !in columns && "ecocounter_id" in columns
    ensures c == Some("eco_id") <==>
      "counter_id" !in columns && "ecocounter_id" !in columns && "eco_id" in columns
    ensures c.None? <==> "counter_id" !in columns && "ecocounter_id" !in columns && "eco_id" !in columns
  {
    if "counter_id" in columns then Some("counter_id")
    else if "ecocounter_id" in columns then Some("ecocounter_id")
    else if "eco_id" in columns then Some("eco_id")
    else None
  }

  /**
   * `astype(int)` on one intensity field: an empty field cannot be cast, and
   * `toInt` is pandas' cast of a field's text (None when it raises).
   */
  function IntensityCell(toInt: string -> Option<int>, cell: Option<string>): (r: Result<int, CsvError>)
    ensures cell.None? ==> r == Err(NullIntensity)
    ensures cell.Some? ==> (r.Ok? <==> toInt(cell.value).Some?)
    ensures r.Ok? ==> cell.Some? && r.value == toInt(cell.value).value
  {
    match cell
    case None => Err(NullIntensity)
    case Some(text) =>
      match toInt(text)
      case None => Err(BadNumber("intensity", text))
      case Some(n) => Ok(n)
  }

  function IntensityOfRow(toInt: string -> Option<int>): map<string, string> -> Result<int, CsvError> {
    (row: map<string, string>) => IntensityCell(toInt, CellAt(row, "intensity"))
  }

  /** One line after the column steps, before de-duplication. */
  datatype ParsedBike = ParsedBike(counterId: Option<string>, time: Option<Instant>, intensity: int)

  /** The `drop_duplicates` subset: counter and timestamp (NaN equals NaN there). */
  function BikeKey(p: ParsedBike): (Option<string>, Option<Instant>) {
    (p.counterId, p.time)
  }

  /** The selected three columns, line by line. */
  function Zip(rows: seq<map<string, string>>, idColumn: string,
               times: seq<Option<Instant>>, intensities: seq<int>): (z: seq<ParsedBike>)
    requires |times| == |rows| && |intensities| == |rows|
    ensures |z| == |rows|
    ensures forall i :: 0 <= i < |rows| ==>
      z[i] == ParsedBike(CellAt(rows[i], idColumn), times[i], intensities[i])
  {
    seq(|rows|, i requires 0 <= i < |rows| => ParsedBike(CellAt(rows[i], idColumn), times[i], intensities[i]))
  }

  /**
   * `load_bike_csv` up to the column selection: the timestamp column is converted first,
   * then the id column is chosen, then `intensity` must exist and is cast.
   */
  function ParseBikeCsv(csv: Csv, toInt: string -> Option<int>): (r: Result<seq<ParsedBike>, CsvError>)
    ensures ReadTimestamps(csv).Err? ==> r == Err(ReadTimestamps(csv).error)
    ensures ReadTimestamps(csv).Ok? && IdSource(csv.columns).None? ==> r == Err(MissingColumn("counter_id"))
    ensures ReadTimestamps(csv).Ok? && IdSource(csv.columns).Some? && "intensity" !in csv.columns ==>
      r == Err(MissingColumn("intensity"))
    ensures r.Ok? <==>
      && ReadTimestamps(csv).Ok? && IdSource(csv.columns).Some? && "intensity" in csv.columns
      && forall i :: 0 <= i < |csv.rows| ==> IntensityCell(toInt, CellAt(csv.rows[i], "intensity")).Ok?
    ensures r.Ok? ==> |r.value| == |csv.rows| && forall i :: 0 <= i < |csv.rows| ==>
      && r.value[i].counterId == CellAt(csv.rows[i], IdSource(csv.columns).value)
      && TimeCell(CellAt(csv.rows[i], TimestampSource(csv.columns).value)) == Ok(r.value[i].time)
      && IntensityCell(toInt, CellAt(csv.rows[i], "intensity")) == Ok(r.value[i].intensity)
  {
    match ReadTimestamps(csv)
    case Err(e) => Err(e)
    case Ok(times) =>
      match IdSource(csv.columns)
      case None => Err(MissingColumn("counter_id"))
      case Some(idColumn) =>
        if "intensity" !in csv.columns then Err(MissingColumn("intensity"))
        else
          match TryMap(csv.rows, IntensityOfRow(toInt))
          case Err(e) => Err(e)
          case Ok(intensities) => Ok(Zip(csv.rows, idColumn, times, intensities))
  }

  /** One row of `bike_hourly` as sent, its timestamp rendered (a NaT stays null). */
  datatype BikeRecord = BikeRecord(counterId: Option<string>, timestampUtc: Option<string>, intensity: int)

  function ToRecord(p: ParsedBike): BikeRecord {
    BikeRecord(p.counterId, RenderCell(p.time), p.intensity)
  }

  /** The upsert key of `bike_hourly`. */
  function RecordKey(b: BikeRecord): (Option<string>, Option<string>) {
    (b.counterId, b.timestampUtc)
  }

  /** `load_bike_csv`: a missing file raises; otherwise parse, de-duplicate, render. */
  function LoadBikeCsv(file: Option<Csv>, toInt: string -> Option<int>): (r: Result<seq<BikeRecord>, CsvError>)
    ensures file.None? ==> r == Err(FileNotFound)
    ensures file.Some? ==> (r.Ok? <==> ParseBikeCsv(file.value, toInt).Ok?)
    ensures file.Some? && r.Err? ==> r.error == ParseBikeCsv(file.value, toInt).error
    ensures r.Ok? ==> r.value == PrepareBike(ParseBikeCsv(file.value, toInt).value)
    ensures r.Ok? ==> |r.value| <= |file.value.rows|
  {
    match file
    case None => Err(FileNotFound)
    case Some(csv) =>
      match ParseBikeCsv(csv, toInt)
      case Err(e) => Err(e)
      case Ok(parsed) =>
        DropDuplicatesSpec(parsed, BikeKey);
        Ok(PrepareBike(parsed))
  }

  /** The tail of `load_bike_csv`: keep the first line of each (counter, timestamp), then render. */
  function PrepareBike(parsed: seq<ParsedBike>): seq<BikeRecord> {
    Map(DropDuplicates(parsed, BikeKey), ToRecord)
  }

  /** Every parsed timestamp lies within years up to 9999 (where rendering is one-to-one). */
  ghost predicate WithinYear9999(rows: seq<ParsedBike>) {
    forall p :: p in rows ==> p.time.Some? ==> YearOfInstant(p.time.value) <= 9999
  }

  /** Rendering the timestamps keeps distinct de-duplication keys distinct. */
  lemma RecordKeyInjective(a: ParsedBike, b: ParsedBike)
    requires a.time.Some? ==> YearOfInstant(a.time.value) <= 9999
    requires b.time.Some? ==> YearOfInstant(b.time.value) <= 9999
    requires RecordKey(ToRecord(a)) == RecordKey(ToRecord(b))
    ensures BikeKey(a) == BikeKey(b)
  {
    RenderCellInjective(a.time, b.time);
  }

  /** The rows sent have unique (counter, timestamp) keys, the key of the upsert. */
  lemma PreparedKeysUnique(parsed: seq<ParsedBike>)
    requires WithinYear9999(parsed)
    ensures UniqueKeys(PrepareBike(parsed), RecordKey)
  {
    forall a, b | a in parsed && b in parsed && RecordKey(ToRecord(a)) == RecordKey(ToRecord(b))
      ensures BikeKey(a) == BikeKey(b)
    {
      RecordKeyInjective(a, b);
    }
    DedupMappedUnique(parsed, BikeKey, ToRecord, RecordKey);
  }

  /**
   * Nothing is lost but repeats: every parsed line's key is sent, and each
   * record sent is the rendering of the first line with its key.
   */
  lemma PreparedFirstOccurrences(parsed: seq<ParsedBike>)
    ensures FirstOccurrences(parsed, BikeKey, ToRecord, PrepareBike(parsed))
  {
    DedupMappedFirst(parsed, BikeKey, ToRecord);
  }

  /** A file whose (counter, timestamp) pairs are already distinct is sent whole, in order. */
  lemma PrepareDistinct(parsed: seq<ParsedBike>)
    requires UniqueKeys(parsed, BikeKey)
    ensures PrepareBike(parsed) == Map(parsed, ToRecord)
  {
    DropDuplicatesOfUnique(parsed, BikeKey);
  }

  /** `upsert_bike_hourly` with its default chunk size. */
  method UpsertBikeHourly(records: seq<BikeRecord>) returns (upload: Upload<BikeRecord>)
    ensures records == [] <==> upload == NoRows
    ensures records != [] ==>
      && upload.Sent?
      && |upload.chunks| == CeilDiv(|records|, BikeChunkSize)
      && (forall i :: 0 <= i < |upload.chunks| ==> 0 < |upload.chunks[i]| <= BikeChunkSize)
      && Flatten(upload.chunks) == records
  {
    upload := UpsertInBatches(records, BikeChunkSize);
  }

  /** `main`: load the CSV (raising on its errors), then upsert what it gives. */
  method LoadBikeHourly(file: Option<Csv>, toInt: string -> Option<int>)
    returns (r: Result<Upload<BikeRecord>, CsvError>)
    ensures LoadBikeCsv(file, toInt).Err? <==> r.Err?
    ensures r.Err? ==> r.error == LoadBikeCsv(file, toInt).error
    ensures r.Ok? ==> var records := LoadBikeCsv(file, toInt).value;
      (records == [] <==> r.value == NoRows)
      && (records != [] ==> r.value.Sent? && Flatten(r.value.chunks) == records)
  {
    var loaded := LoadBikeCsv(file, toInt);
    if loaded.Err? {
      return Err(loaded.error);
    }
    var upload := UpsertBikeHourly(loaded.value);
    return Ok(upload);
  }
}
