/**
 * What the two CSV loaders share: a table as `pd.read_csv` gives it, the
 * timestamp column chosen from `timestamp_utc` or `timestamp`, and
 * `pd.to_datetime(..., utc=True)` on the text forms the project writes.
 */
module CsvLoad {
  import opened Wrappers
  import opened Calendar
  import opened IsoTime
  import opened Tables

  /**
   * A CSV file as read: its header and one map per line from column name to
   * the field's text; a column a line has no entry for is an empty (NaN) field.
   */
  datatype Csv = Csv(columns: seq<string>, rows: seq<map<string, string>>)

  /** A field of a line: `None` for an empty field. */
  function CellAt(row: map<string, string>, column: string): Option<string> {
    if column in row then Some(row[column]) else None
  }

  datatype CsvError =
    | FileNotFound                     // the processed CSV is not on disk
    | MissingColumn(column: string)    // the `ValueError` naming the first column it lacks
    | BadTimestamp(text: string)       // `pd.to_datetime` rejects the field
    | BadNumber(column: string, text: string)   // `astype` cannot cast the field
    | NullIntensity                    // `astype(int)` on an empty field
    | DuplicateColumn(column: string)  // a rename onto a column that is already there

  // ---------------------------------------------------------------------------
  // Timestamps
  // ---------------------------------------------------------------------------

  /** `timestamp_utc` if present, else `timestamp`, else no source. */
  function TimestampSource(columns: seq<string>): (c: Option<string>)
    ensures c.Some? ==> c.value in columns
    ensures c.None? <==> "timestamp_utc" !in columns && "timestamp" !in columns
  {
    if "timestamp_utc" in columns then Some("timestamp_utc")
    else if "timestamp" in columns then Some("timestamp")
    else None
  }

  /** `YYYY-MM-DD?HH:MM:SS` with `T` or a space between date and clock. */
  function ParseStamp(s: string): Option<Instant>
    requires |s| == 19
  {
    if s[10] == 'T' || s[10] == ' ' then Parse(s[..10] + "T" + s[11..]) else None
  }

  /** A `±HH:MM` offset in seconds east of UTC. */
  function ParseOffset(s: string): Option<int>
    requires |s| == 6
  {
    if (s[0] == '+' || s[0] == '-') && s[3] == ':' && AllDigits(s[1..3]) && AllDigits(s[4..]) then
      var h, m := DigitsValue(s[1..3]), DigitsValue(s[4..]);
      if h < 24 && m < 60 then Some(if s[0] == '+' then h * SecondsPerHour + m * SecondsPerMinute
                                    else -(h * SecondsPerHour + m * SecondsPerMinute))
      else None
    else None
  }

  /**
   * One field under `pd.to_datetime(..., utc=True)`: a naive stamp is read as
   * UTC, a `Z` or `±HH:MM` suffix is converted to UTC, and a bare date is its
   * midnight.
   */
  function ParseCsvTime(s: string): Option<Instant> {
    if |s| == 10 then
      match ParseDate(s)
      case None => None
      case Some(dt) => Some(InstantAt(DayNumber(dt), 0, 0, 0))
    else if |s| == 19 then ParseStamp(s)
    else if |s| == 20 && s[19] == 'Z' then ParseStamp(s[..19])
    else if |s| == 25 then
      match (ParseStamp(s[..19]), ParseOffset(s[19..]))
      case (Some(local), Some(off)) => if local - off >= 0 then Some(local - off) else None
      case _ => None
    else None
  }

  /** The timestamp column of one line: empty is NaT, anything unreadable raises. */
  function TimeCell(cell: Option<string>): (r: Result<Option<Instant>, CsvError>)
    ensures cell.None? ==> r == Ok(None)
    ensures cell.Some? ==> (r.Ok? <==> ParseCsvTime(cell.value).Some?)
    ensures cell.Some? && r.Ok? ==> r.value == ParseCsvTime(cell.value)
  {
    match cell
    case None => Ok(None)
    case Some(text) =>
      match ParseCsvTime(text)
      case None => Err(BadTimestamp(text))
      case Some(t) => Ok(Some(t))
  }

  function TimeOfRow(column: string): map<string, string> -> Result<Option<Instant>, CsvError> {
    (row: map<string, string>) => TimeCell(CellAt(row, column))
  }

  /**
   * The timestamp step of both loaders: the chosen source column converted
   * line by line, or the `ValueError` when neither column is there.
   */
  function ReadTimestamps(csv: Csv): (r: Result<seq<Option<Instant>>, CsvError>)
    ensures TimestampSource(csv.columns).None? ==> r == Err(MissingColumn("timestamp_utc"))
    ensures r.Ok? ==> TimestampSource(csv.columns).Some? && |r.value| == |csv.rows|
    ensures r.Ok? ==> forall i :: 0 <= i < |csv.rows| ==>
      TimeCell(CellAt(csv.rows[i], TimestampSource(csv.columns).value)) == Ok(r.value[i])
    ensures TimestampSource(csv.columns).Some? ==>
      (r.Ok? <==> forall i :: 0 <= i < |csv.rows| ==>
         TimeCell(CellAt(csv.rows[i], TimestampSource(csv.columns).value)).Ok?)
  {
    match TimestampSource(csv.columns)
    case None => Err(MissingColumn("timestamp_utc"))
    case Some(c) => TryMap(csv.rows, TimeOfRow(c))
  }

  /** `.dt.strftime("%Y-%m-%dT%H:%M:%S")`, which leaves NaT as a null. */
  function RenderCell(t: Option<Instant>): Option<string> {
    match t
    case None => None
    case Some(x) => Some(Render(x))
  }

  /** Within years up to 9999 the rendering keeps distinct timestamps distinct. */
  lemma RenderCellInjective(a: Option<Instant>, b: Option<Instant>)
    requires a.Some? ==> YearOfInstant(a.value) <= 9999
    requires b.Some? ==> YearOfInstant(b.value) <= 9999
    requires RenderCell(a) == RenderCell(b)
    ensures a == b
  {
    if a.Some? && b.Some? {
      RenderInjective(a.value, b.value);
    }
  }

  /** The loaders' own output text reads back as the instant it renders. */
  lemma ReadsRenderedText(t: Instant)
    requires YearOfInstant(t) <= 9999
    ensures ParseCsvTime(Render(t)) == Some(t)
  {
    RenderShape(t);
    var s := Render(t);
    assert s[..10] + "T" + s[11..] == s;
    ParseRender(t);
  }

  /**
   * `to_csv` writes a UTC timestamp as `YYYY-MM-DD HH:MM:SS+00:00`; that text
   * reads back as the same instant.
   */
  lemma ReadsCsvWrittenText(t: Instant)
    requires YearOfInstant(t) <= 9999
    ensures var dt := DateOf(t);
      ParseCsvTime(RenderDate(dt) + " " + ClockText(HourOf(t), MinuteOf(t), SecondOf(t)) + "+00:00") == Some(t)
  {
    var date, clock := RenderDate(DateOf(t)), ClockText(HourOf(t), MinuteOf(t), SecondOf(t));
    RenderShape(t);
    SpacedText(date, clock);
    SpacedStamp(date, clock);
    UtcOffset();
    ParseRender(t);
  }

  lemma UtcOffset()
    ensures ParseOffset("+00:00") == Some(0)
  {
    assert "+00:00"[1..3] == "00" && "+00:00"[4..] == "00";
    assert DigitsValue("00") == 0;
  }

  /** The parts of `date + " " + clock + "+00:00"`. */
  lemma SpacedText(date: string, clock: string)
    requires |date| == 10 && |clock| == 8
    ensures var s := date + " " + clock + "+00:00";
      |s| == 25 && s[..19] == date + " " + clock && s[19..] == "+00:00"
  {
    var s := date + " " + clock + "+00:00";
    assert s[..19] == date + " " + clock;
    assert s[19..] == "+00:00";
  }

  /** A space between date and clock reads as the `T`. */
  lemma SpacedStamp(date: string, clock: string)
    requires |date| == 10 && |clock| == 8
    ensures ParseStamp(date + " " + clock) == Parse(date + "T" + clock)
  {
    var s := date + " " + clock;
    assert s[..10] == date && s[11..] == clock;
  }
}
