/**
 * `load_weather_hourly`: the processed hourly weather CSV adapted to the
 * `weather_hourly` schema. Short column names are renamed to the schema's,
 * missing variables are filled with nulls, the four variables are cast to
 * float, repeated timestamps are dropped, and the rows are upserted in
 * chunks of 2000.
 */
module WeatherHourlyLoader {
  import opened Wrappers
  import opened Calendar
  import opened IsoTime
  import opened Tables
  import opened Batching
  import opened Features
  import opened CsvLoad

  const WeatherTable := "weather_hourly"
  const WeatherChunkSize := 2000

  // ---------------------------------------------------------------------------
  // The four variables and their column names
  // ---------------------------------------------------------------------------

  datatype Variable = Temperature | Humidity | Precipitation | WindSpeed

  /** The variables in the order they are filled, cast and selected. */
  const Variables: seq<Variable> := [Temperature, Humidity, Precipitation, WindSpeed]

  /** The schema's column name of a variable. */
  function Name(v: Variable): string {
    match v
    case Temperature => "temperature_2m"
    case Humidity => "relative_humidity_2m"
    case Precipitation => "precipitation"
    case WindSpeed => "wind_speed_10m"
  }

  /** The short name the loader renames, if the variable has one. */
  function Short(v: Variable): Option<string> {
    match v
    case Temperature => Some("temperature")
    case Humidity => Some("humidity")
    case Precipitation => None
    case WindSpeed => Some("wind_speed")
  }

  /** The seven names are distinct. */
  lemma NamesDistinct()
    ensures forall a: Variable, b: Variable :: Name(a) == Name(b) ==> a == b
    ensures forall a: Variable, b: Variable :: Short(a).Some? ==> Short(a).value != Name(b)
    ensures forall a: Variable, b: Variable :: Short(a).Some? && Short(a) == Short(b) ==> a == b
  {
  }

  /** The index of a variable in `Variables`. */
  function Position(v: Variable): (k: nat)
    ensures k < 4 && Variables[k] == v
  {
    match v
    case Temperature => 0
    case Humidity => 1
    case Precipitation => 2
    case WindSpeed => 3
  }

  /** The value of one variable in a row. */
  function Get(w: Weather, v: Variable): Option<real> {
    match v
    case Temperature => w.temperature
    case Humidity => w.humidity
    case Precipitation => w.precipitation
    case WindSpeed => w.windSpeed
  }

  // ---------------------------------------------------------------------------
  // The frame and its renaming
  // ---------------------------------------------------------------------------

  /** A table held by column: each column's fields from top to bottom (`None` is NaN). */
  type Frame = map<string, seq<Option<string>>>

  /** The frame `read_csv` gives. */
  function FrameOf(csv: Csv): (f: Frame)
    ensures forall c :: c in f <==> c in csv.columns
    ensures forall c :: c in f ==> f[c] == Map(csv.rows, (row: map<string, string>) => CellAt(row, c))
  {
    map c | c in csv.columns :: Map(csv.rows, (row: map<string, string>) => CellAt(row, c))
  }

  /** `rename_map`: each short name present in the file, mapped to its schema name. */
  function RenameMap(columns: set<string>): (rm: map<string, string>)
    ensures forall v :: Short(v).Some? ==> (Short(v).value in rm <==> Short(v).value in columns)
    ensures forall v :: Short(v).Some? && Short(v).value in rm ==> rm[Short(v).value] == Name(v)
    ensures forall k :: k in rm ==> k == Short(Temperature).value || k == Short(Humidity).value || k == Short(WindSpeed).value
  {
    var m0: map<string, string> := map[];
    var m1 := if "temperature" in columns then m0["temperature" := "temperature_2m"] else m0;
    var m2 := if "humidity" in columns then m1["humidity" := "relative_humidity_2m"] else m1;
    if "wind_speed" in columns then m2["wind_speed" := "wind_speed_10m"] else m2
  }

  /** Each key of `rename_map` is the short name of a variable, mapped to its schema name. */
  lemma RenameMapKeys(columns: set<string>, k: string)
    requires k in RenameMap(columns)
    ensures exists v :: Short(v) == Some(k) && RenameMap(columns)[k] == Name(v)
  {
    if k == Short(Temperature).value {
      assert Short(Temperature) == Some(k);
    } else if k == Short(Humidity).value {
      assert Short(Humidity) == Some(k);
    } else {
      assert Short(WindSpeed) == Some(k);
    }
  }

  /** The renames fit `df.rename`: distinct targets, none of them a source, each source a column. */
  ghost predicate Renaming(frame: Frame, rm: map<string, string>) {
    && (forall k :: k in rm ==> k in frame && rm[k] !in rm)
    && (forall a, b :: a in rm && b in rm && rm[a] == rm[b] ==> a == b)
  }

  lemma RenameMapFits(frame: Frame)
    ensures Renaming(frame, RenameMap(frame.Keys))
  {
    var rm := RenameMap(frame.Keys);
    NamesDistinct();
    forall k | k in rm ensures k in frame && rm[k] !in rm {
      RenameMapKeys(frame.Keys, k);
      var v :| Short(v) == Some(k) && rm[k] == Name(v);
      if rm[k] in rm {
        RenameMapKeys(frame.Keys, rm[k]);
      }
    }
    forall a, b | a in rm && b in rm && rm[a] == rm[b] ensures a == b {
      RenameMapKeys(frame.Keys, a);
      RenameMapKeys(frame.Keys, b);
    }
  }

  /** A variable whose short name and schema name are both columns: renaming it would repeat a name. */
  predicate Clashes(columns: set<string>, v: Variable) {
    Short(v).Some? && Short(v).value in columns && Name(v) in columns
  }

  /** The first variable, in order, whose rename would repeat a column name. */
  function FirstClash(columns: set<string>, vs: seq<Variable>): (c: Option<Variable>)
    ensures c.None? <==> forall i :: 0 <= i < |vs| ==> !Clashes(columns, vs[i])
    ensures c.Some? ==> c.value in vs && Clashes(columns, c.value)
  {
    if vs == [] then None
    else if Clashes(columns, vs[0]) then Some(vs[0])
    else FirstClash(columns, vs[1..])
  }

  /** No variable clashes exactly when no rename target is already a column. */
  lemma NoClash(frame: Frame)
    requires FirstClash(frame.Keys, Variables).None?
    ensures forall k :: k in RenameMap(frame.Keys) ==> RenameMap(frame.Keys)[k] !in frame
  {
    forall k | k in RenameMap(frame.Keys) ensures RenameMap(frame.Keys)[k] !in frame {
      RenameMapKeys(frame.Keys, k);
      var v :| Short(v) == Some(k) && RenameMap(frame.Keys)[k] == Name(v);
      assert !Clashes(frame.Keys, Variables[Position(v)]);
    }
  }

  /**
   * `df.rename(columns=rename_map)` when no target is taken: each renamed
   * column moves, with its fields, to its new name; the rest stay.
   */
  function Rename(frame: Frame, rm: map<string, string>): (r: Frame)
    requires Renaming(frame, rm)
    requires forall k :: k in rm ==> rm[k] !in frame
    ensures forall k :: k in rm ==> k !in r && rm[k] in r && r[rm[k]] == frame[k]
    ensures forall c :: c in frame && c !in rm ==> c in r && r[c] == frame[c]
    ensures forall c :: c in r ==> (c in frame && c !in rm) || (exists k :: k in rm && rm[k] == c)
  {
    Kept(frame, rm) + Moved(frame, rm)
  }

  /** The columns `df.rename` leaves alone. */
  function Kept(frame: Frame, rm: map<string, string>): (r: Frame)
    ensures forall c :: c in r <==> c in frame && c !in rm
    ensures forall c :: c in r ==> r[c] == frame[c]
  {
    map c | c in frame && c !in rm :: frame[c]
  }

  /** The renamed columns, each under its new name. */
  function Moved(frame: Frame, rm: map<string, string>): (r: Frame)
    requires Renaming(frame, rm)
    ensures forall k :: k in rm ==> rm[k] in r && r[rm[k]] == frame[k]
    ensures forall c :: c in r ==> exists k :: k in rm && rm[k] == c
  {
    map k | k in rm :: rm[k] := frame[k]
  }

  // ---------------------------------------------------------------------------
  // Filling and casting
  // ---------------------------------------------------------------------------

  /** A column of `n` nulls, as `df[col] = None` gives. */
  function Nulls(n: nat): (s: seq<Option<string>>)
    ensures |s| == n && forall i :: 0 <= i < n ==> s[i].None?
  {
    seq(n, i => None)
  }

  /** The schema names of some variables. */
  function NamesOf(vs: seq<Variable>): set<string> {
    set v | v in vs :: Name(v)
  }

  /** The null fill: every variable the frame lacks is added as nulls; nothing else changes. */
  function Filled(frame: Frame, n: nat): (r: Frame)
    ensures forall v :: Name(v) in r
    ensures forall c :: c in frame ==> c in r && r[c] == frame[c]
    ensures forall c :: c in r && c !in frame ==> (exists v :: Name(v) == c) && r[c] == Nulls(n)
  {
    assert forall v :: Name(v) in NamesOf(Variables) by {
      forall v ensures Name(v) in NamesOf(Variables) {
        assert Variables[Position(v)] == v;
      }
    }
    map c | c in frame.Keys + NamesOf(Variables) :: if c in frame then frame[c] else Nulls(n)
  }

  /** The `for col in ...` loop of the null fill. */
  method FillMissing(frame: Frame, n: nat) returns (r: Frame)
    ensures r == Filled(frame, n)
  {
    r := frame;
    for k := 0 to |Variables|
      invariant FilledUpTo(frame, n, r, k)
    {
      var col := Name(Variables[k]);
      ghost var before := r;
      if col !in r {
        r := r[col := Nulls(n)];
      }
      FillStep(frame, n, before, k, r);
    }
    FilledByKeys(frame, n, r);
  }

  /** After the first `k` variables: their columns are added, and every column is the old one or nulls. */
  ghost predicate FilledUpTo(frame: Frame, n: nat, r: Frame, k: nat)
    requires k <= |Variables|
  {
    && r.Keys == frame.Keys + NamesOf(Variables[..k])
    && forall c :: c in r ==> r[c] == if c in frame then frame[c] else Nulls(n)
  }

  /** Filling one more variable's column keeps the loop's invariant. */
  lemma FillStep(frame: Frame, n: nat, r: Frame, k: nat, r': Frame)
    requires k < |Variables| && FilledUpTo(frame, n, r, k)
    requires r' == if Name(Variables[k]) in r then r else r[Name(Variables[k]) := Nulls(n)]
    ensures FilledUpTo(frame, n, r', k + 1)
  {
    NamesOfStep(k);
  }

  lemma NamesOfStep(k: nat)
    requires k < |Variables|
    ensures NamesOf(Variables[..k + 1]) == NamesOf(Variables[..k]) + {Name(Variables[k])}
  {
    assert Variables[..k + 1] == Variables[..k] + [Variables[k]];
  }

  /** A frame with the filled keys, holding the old columns and nulls elsewhere, is the filled frame. */
  lemma FilledByKeys(frame: Frame, n: nat, r: Frame)
    requires FilledUpTo(frame, n, r, |Variables|)
    ensures r == Filled(frame, n)
  {
    assert Variables[..|Variables|] == Variables;
  }

  /**
   * `astype(float)` on one field: NaN stays NaN, and `toFloat` is pandas' cast
   * of a field's text (None when it raises).
   */
  function FloatCell(toFloat: string -> Option<real>, column: string): Option<string> -> Result<Option<real>, CsvError> {
    (cell: Option<string>) =>
      match cell
      case None => Ok(None)
      case Some(text) =>
        match toFloat(text)
        case None => Err(BadNumber(column, text))
        case Some(x) => Ok(Some(x))
  }

  /** One variable's column cast, or the `KeyError` of a column that is not there. */
  function CastColumn(frame: Frame, toFloat: string -> Option<real>): Variable -> Result<seq<Option<real>>, CsvError> {
    (v: Variable) =>
      if Name(v) in frame then TryMap(frame[Name(v)], FloatCell(toFloat, Name(v))) else Err(MissingColumn(Name(v)))
  }

  /** The `astype(float)` loop: the columns are cast in order and the first failure raises. */
  method CastColumns(frame: Frame, toFloat: string -> Option<real>) returns (r: Result<seq<seq<Option<real>>>, CsvError>)
    ensures r == TryMap(Variables, CastColumn(frame, toFloat))
  {
    var cols: seq<seq<Option<real>>> := [];
    var castColumn := CastColumn(frame, toFloat);
    for k := 0 to |Variables|
      invariant TryMap(Variables[..k], castColumn) == Ok(cols)
    {
      var cast := castColumn(Variables[k]);
      TryMapStep(Variables, k, castColumn, cols);
      if cast.Err? {
        TryMapErrSticks(Variables, k + 1, castColumn);
        return Err(cast.error);
      }
      cols := cols + [cast.value];
    }
    assert Variables[..|Variables|] == Variables;
    return Ok(cols);
  }

  // ---------------------------------------------------------------------------
  // The steps of `load_weather_csv` before de-duplication
  // ---------------------------------------------------------------------------

  /** One row after the column steps, before de-duplication. */
  datatype ParsedWeather = ParsedWeather(time: Option<Instant>, weather: Weather)

  function TimeKey(p: ParsedWeather): Option<Instant> {
    p.time
  }

  /** The column selection: the timestamp and the four variables, row by row. */
  function Select(times: seq<Option<Instant>>, cols: seq<seq<Option<real>>>): (z: seq<ParsedWeather>)
    requires |cols| == 4 && forall c :: 0 <= c < 4 ==> |cols[c]| == |times|
    ensures |z| == |times|
    ensures forall i, v :: 0 <= i < |times| ==> z[i].time == times[i] && Get(z[i].weather, v) == cols[Position(v)][i]
  {
    seq(|times|, i requires 0 <= i < |times| =>
      ParsedWeather(times[i], Weather(cols[0][i], cols[1][i], cols[2][i], cols[3][i])))
  }

  /** Every column has one field per row. */
  ghost predicate Rectangular(frame: Frame, n: nat) {
    forall c :: c in frame ==> |frame[c]| == n
  }

  /** The `rename_map` step: rename the short names, then fill the missing variables with nulls. */
  function Conform(frame: Frame, n: nat): (r: Result<Frame, CsvError>)
    ensures FirstClash(frame.Keys, Variables).Some? <==> r.Err?
    ensures r.Err? ==> r.error == DuplicateColumn(Name(FirstClash(frame.Keys, Variables).value))
    ensures r.Ok? ==> forall v :: Name(v) in r.value
  {
    match FirstClash(frame.Keys, Variables)
    case Some(v) => Err(DuplicateColumn(Name(v)))
    case None =>
      RenameMapFits(frame);
      NoClash(frame);
      Ok(Filled(Rename(frame, RenameMap(frame.Keys)), n))
  }

  /** Conforming keeps every column `n` fields long. */
  lemma ConformRectangular(frame: Frame, n: nat)
    requires Rectangular(frame, n) && Conform(frame, n).Ok?
    ensures Rectangular(Conform(frame, n).value, n)
  {
    RenameMapFits(frame);
    NoClash(frame);
    RenamedRectangular(frame, RenameMap(frame.Keys), n);
  }

  /** Renaming and filling keep every column `n` fields long. */
  lemma RenamedRectangular(frame: Frame, rm: map<string, string>, n: nat)
    requires Renaming(frame, rm) && forall k :: k in rm ==> rm[k] !in frame
    requires Rectangular(frame, n)
    ensures Rectangular(Filled(Rename(frame, rm), n), n)
  {
    var r := Rename(frame, rm);
    forall c | c in r ensures |r[c]| == n {
      if !(c in frame && c !in rm) {
        var k :| k in rm && rm[k] == c;
        assert r[c] == frame[k];
      }
    }
  }

  lemma FrameRectangular(csv: Csv)
    ensures Rectangular(FrameOf(csv), |csv.rows|)
  {
  }

  /** `load_weather_csv` before de-duplication. */
  function ParseWeatherCsv(csv: Csv, toFloat: string -> Option<real>): (r: Result<seq<ParsedWeather>, CsvError>)
    ensures ReadTimestamps(csv).Err? ==> r == Err(ReadTimestamps(csv).error)
    ensures ReadTimestamps(csv).Ok? && Conform(FrameOf(csv), |csv.rows|).Err? ==>
      r == Err(Conform(FrameOf(csv), |csv.rows|).error)
    ensures r.Ok? ==> |r.value| == |csv.rows|
  {
    match ReadTimestamps(csv)
    case Err(e) => Err(e)
    case Ok(times) =>
      match Conform(FrameOf(csv), |csv.rows|)
      case Err(e) => Err(e)
      case Ok(frame) =>
        match TryMap(Variables, CastColumn(frame, toFloat))
        case Err(e) => Err(e)
        case Ok(cols) =>
          FrameRectangular(csv);
          ConformRectangular(FrameOf(csv), |csv.rows|);
          CastLengths(frame, toFloat, cols, |csv.rows|);
          Ok(Select(times, cols))
  }

  /** After filling, every cast column has one value per row. */
  lemma CastLengths(frame: Frame, toFloat: string -> Option<real>, cols: seq<seq<Option<real>>>, n: nat)
    requires forall v :: Name(v) in frame
    requires Rectangular(frame, n)
    requires TryMap(Variables, CastColumn(frame, toFloat)) == Ok(cols)
    ensures |cols| == 4 && forall c :: 0 <= c < 4 ==> |cols[c]| == n
  {
    forall c | 0 <= c < 4 ensures |cols[c]| == n {
      assert CastColumn(frame, toFloat)(Variables[c]) == Ok(cols[c]);
    }
  }

  // ---------------------------------------------------------------------------
  // Where each value comes from
  // ---------------------------------------------------------------------------

  /**
   * The file column a variable is read from: its short name when the file
   * has it, else its schema name, else none (filled with nulls).
   */
  function SourceOf(columns: set<string>, v: Variable): (src: Option<string>)
    ensures src.Some? ==> src.value in columns
  {
    if Short(v).Some? && Short(v).value in columns then Short(v)
    else if Name(v) in columns then Some(Name(v))
    else None
  }

  /** The column a variable holds after conforming: its source column, or nulls. */
  ghost predicate HoldsSource(frame: Frame, n: nat, v: Variable, r: Frame) {
    && Name(v) in r
    && (SourceOf(frame.Keys, v).None? ==> r[Name(v)] == Nulls(n))
    && (SourceOf(frame.Keys, v).Some? ==> r[Name(v)] == frame[SourceOf(frame.Keys, v).value])
  }

  /** After conforming, each variable holds its source column's fields, or nulls. */
  lemma ConformedColumn(frame: Frame, n: nat, v: Variable)
    requires Conform(frame, n).Ok?
    ensures HoldsSource(frame, n, v, Conform(frame, n).value)
  {
    RenameMapFits(frame);
    NoClash(frame);
    var r := Rename(frame, RenameMap(frame.Keys));
    assert Conform(frame, n).value == Filled(r, n);
    RenamedColumn(frame, v);
  }

  /** After the rename alone, a variable's schema name holds its source column, if it has one. */
  lemma RenamedColumn(frame: Frame, v: Variable)
    requires Renaming(frame, RenameMap(frame.Keys))
    requires forall k :: k in RenameMap(frame.Keys) ==> RenameMap(frame.Keys)[k] !in frame
    ensures var r := Rename(frame, RenameMap(frame.Keys));
      && (SourceOf(frame.Keys, v).Some? ==> Name(v) in r && r[Name(v)] == frame[SourceOf(frame.Keys, v).value])
      && (SourceOf(frame.Keys, v).None? ==> Name(v) !in r)
  {
    NamesDistinct();
    var rm := RenameMap(frame.Keys);
    assert Name(v) !in rm by {
      if Name(v) in rm {
        RenameMapKeys(frame.Keys, Name(v));
      }
    }
    if Short(v).Some? {
      RenamedShortColumn(frame, v);
    } else {
      forall k | k in rm ensures rm[k] != Name(v) {
        RenameMapKeys(frame.Keys, k);
      }
    }
  }

  /** The case of a variable with a short name: the short column wins over the schema one. */
  lemma RenamedShortColumn(frame: Frame, v: Variable)
    requires Short(v).Some?
    requires Renaming(frame, RenameMap(frame.Keys))
    requires forall k :: k in RenameMap(frame.Keys) ==> RenameMap(frame.Keys)[k] !in frame
    ensures var r := Rename(frame, RenameMap(frame.Keys));
      && (SourceOf(frame.Keys, v).Some? ==> Name(v) in r && r[Name(v)] == frame[SourceOf(frame.Keys, v).value])
      && (SourceOf(frame.Keys, v).None? ==> Name(v) !in r)
  {
    NamesDistinct();
    var rm := RenameMap(frame.Keys);
    var r := Rename(frame, rm);
    var short := Short(v).value;
    forall k | k in rm && rm[k] == Name(v) ensures k == short {
      RenameMapKeys(frame.Keys, k);
    }
    assert Name(v) !in rm by {
      if Name(v) in rm {
        RenameMapKeys(frame.Keys, Name(v));
      }
    }
    if short in frame {
      assert r[Name(v)] == frame[short];
    }
  }

  /** One variable of one line as the loader reads it: cast from its source column, or null. */
  function FieldFrom(csv: Csv, toFloat: string -> Option<real>, v: Variable, i: nat): Result<Option<real>, CsvError>
    requires i < |csv.rows|
  {
    match SourceOf(FrameOf(csv).Keys, v)
    case None => Ok(None)
    case Some(src) => FloatCell(toFloat, Name(v))(CellAt(csv.rows[i], src))
  }

  /** The steps a parsed file went through. */
  lemma ParsedSteps(csv: Csv, toFloat: string -> Option<real>)
    requires ParseWeatherCsv(csv, toFloat).Ok?
    ensures ReadTimestamps(csv).Ok? && Conform(FrameOf(csv), |csv.rows|).Ok?
    ensures var frame := Conform(FrameOf(csv), |csv.rows|).value;
      var cols := TryMap(Variables, CastColumn(frame, toFloat));
      && cols.Ok? && |cols.value| == 4 && (forall c :: 0 <= c < 4 ==> |cols.value[c]| == |csv.rows|)
      && ParseWeatherCsv(csv, toFloat).value == Select(ReadTimestamps(csv).value, cols.value)
  {
    var frame := Conform(FrameOf(csv), |csv.rows|).value;
    var cols := TryMap(Variables, CastColumn(frame, toFloat)).value;
    FrameRectangular(csv);
    ConformRectangular(FrameOf(csv), |csv.rows|);
    CastLengths(frame, toFloat, cols, |csv.rows|);
  }

  /**
   * A parsed file has one row per line: its timestamp is the line's
   * timestamp field and each variable the cast of the line's field in that
   * variable's source column (null when the file has neither name).
   */
  lemma ParsedFields(csv: Csv, toFloat: string -> Option<real>)
    requires ParseWeatherCsv(csv, toFloat).Ok?
    ensures var p := ParseWeatherCsv(csv, toFloat).value;
      forall i :: 0 <= i < |csv.rows| ==>
        TimeCell(CellAt(csv.rows[i], TimestampSource(csv.columns).value)) == Ok(p[i].time)
    ensures var p := ParseWeatherCsv(csv, toFloat).value;
      forall i, v :: 0 <= i < |csv.rows| ==> FieldFrom(csv, toFloat, v, i) == Ok(Get(p[i].weather, v))
  {
    ParsedSteps(csv, toFloat);
    var p := ParseWeatherCsv(csv, toFloat).value;
    forall i, v | 0 <= i < |csv.rows| ensures FieldFrom(csv, toFloat, v, i) == Ok(Get(p[i].weather, v)) {
      ParsedField(csv, toFloat, v);
    }
  }

  /** One variable of every parsed row. */
  lemma ParsedField(csv: Csv, toFloat: string -> Option<real>, v: Variable)
    requires ParseWeatherCsv(csv, toFloat).Ok?
    ensures var p := ParseWeatherCsv(csv, toFloat).value;
      forall i :: 0 <= i < |csv.rows| ==> FieldFrom(csv, toFloat, v, i) == Ok(Get(p[i].weather, v))
  {
    ParsedSteps(csv, toFloat);
    var frame := Conform(FrameOf(csv), |csv.rows|).value;
    var castColumn := CastColumn(frame, toFloat);
    var cols := TryMap(Variables, castColumn).value;
    assert castColumn(Variables[Position(v)]) == Ok(cols[Position(v)]);
    CastColumnCells(csv, toFloat, frame, v, cols[Position(v)]);
  }

  /**
   * The cast raises only on a field that cannot be cast: when the timestamps
   * read, no rename repeats a name and every field casts, the file parses.
   */
  lemma ParsesWhenFieldsCast(csv: Csv, toFloat: string -> Option<real>)
    requires ReadTimestamps(csv).Ok? && Conform(FrameOf(csv), |csv.rows|).Ok?
    requires forall i, v :: 0 <= i < |csv.rows| ==> FieldFrom(csv, toFloat, v, i).Ok?
    ensures ParseWeatherCsv(csv, toFloat).Ok?
  {
    var frame := Conform(FrameOf(csv), |csv.rows|).value;
    FrameRectangular(csv);
    ConformRectangular(FrameOf(csv), |csv.rows|);
    forall k | 0 <= k < |Variables| ensures CastColumn(frame, toFloat)(Variables[k]).Ok? {
      ColumnCasts(csv, toFloat, frame, Variables[k]);
    }
  }

  /** A variable whose every field casts has a column that casts. */
  lemma ColumnCasts(csv: Csv, toFloat: string -> Option<real>, frame: Frame, v: Variable)
    requires Conform(FrameOf(csv), |csv.rows|) == Ok(frame)
    requires forall i :: 0 <= i < |csv.rows| ==> FieldFrom(csv, toFloat, v, i).Ok?
    ensures CastColumn(frame, toFloat)(v).Ok?
  {
    ConformedColumn(FrameOf(csv), |csv.rows|, v);
    var col := frame[Name(v)];
    forall i | 0 <= i < |col| ensures FloatCell(toFloat, Name(v))(col[i]).Ok? {
      assert FieldFrom(csv, toFloat, v, i).Ok?;
    }
  }

  /** The cells of one cast column are the casts of its source column's fields. */
  lemma CastColumnCells(csv: Csv, toFloat: string -> Option<real>, frame: Frame, v: Variable, cast: seq<Option<real>>)
    requires Conform(FrameOf(csv), |csv.rows|) == Ok(frame)
    requires CastColumn(frame, toFloat)(v) == Ok(cast)
    ensures |cast| == |csv.rows|
    ensures forall i :: 0 <= i < |csv.rows| ==> FieldFrom(csv, toFloat, v, i) == Ok(cast[i])
  {
    ConformedColumn(FrameOf(csv), |csv.rows|, v);
    FrameRectangular(csv);
    ConformRectangular(FrameOf(csv), |csv.rows|);
    assert TryMap(frame[Name(v)], FloatCell(toFloat, Name(v))) == Ok(cast);
  }

  // ---------------------------------------------------------------------------
  // De-duplication, rendering and upsert
  // ---------------------------------------------------------------------------

  /** One row of `weather_hourly` as sent, its timestamp rendered (a NaT stays null). */
  datatype WeatherRecord = WeatherRecord(timestampUtc: Option<string>, weather: Weather)

  function ToRecord(p: ParsedWeather): WeatherRecord {
    WeatherRecord(RenderCell(p.time), p.weather)
  }

  /** The upsert key of `weather_hourly`. */
  function RecordKey(w: WeatherRecord): Option<string> {
    w.timestampUtc
  }

  /** The tail of `load_weather_csv`: keep the first row of each timestamp, then render. */
  function PrepareWeather(parsed: seq<ParsedWeather>): seq<WeatherRecord> {
    Map(DropDuplicates(parsed, TimeKey), ToRecord)
  }

  /** `load_weather_csv`: a missing file raises; otherwise parse, de-duplicate, render. */
  function LoadWeatherCsv(file: Option<Csv>, toFloat: string -> Option<real>): (r: Result<seq<WeatherRecord>, CsvError>)
    ensures file.None? ==> r == Err(FileNotFound)
    ensures file.Some? ==> (r.Ok? <==> ParseWeatherCsv(file.value, toFloat).Ok?)
    ensures file.Some? && r.Err? ==> r.error == ParseWeatherCsv(file.value, toFloat).error
    ensures r.Ok? ==> r.value == PrepareWeather(ParseWeatherCsv(file.value, toFloat).value)
  {
    match file
    case None => Err(FileNotFound)
    case Some(csv) =>
      match ParseWeatherCsv(csv, toFloat)
      case Err(e) => Err(e)
      case Ok(parsed) => Ok(PrepareWeather(parsed))
  }

  /** Every parsed timestamp lies within years up to 9999 (where rendering is one-to-one). */
  ghost predicate WithinYear9999(rows: seq<ParsedWeather>) {
    forall p :: p in rows ==> p.time.Some? ==> YearOfInstant(p.time.value) <= 9999
  }

  /** The rows sent have unique timestamps, the key of the upsert. */
  lemma PreparedKeysUnique(parsed: seq<ParsedWeather>)
    requires WithinYear9999(parsed)
    ensures UniqueKeys(PrepareWeather(parsed), RecordKey)
  {
    forall a, b | a in parsed && b in parsed && RecordKey(ToRecord(a)) == RecordKey(ToRecord(b))
      ensures TimeKey(a) == TimeKey(b)
    {
      RenderCellInjective(a.time, b.time);
    }
    DedupMappedUnique(parsed, TimeKey, ToRecord, RecordKey);
  }

  /** Nothing is lost but repeated timestamps, and the first row of each timestamp is the one sent. */
  lemma PreparedFirstOccurrences(parsed: seq<ParsedWeather>)
    ensures FirstOccurrences(parsed, TimeKey, ToRecord, PrepareWeather(parsed))
  {
    DedupMappedFirst(parsed, TimeKey, ToRecord);
  }

  /** A file whose timestamps are already distinct is sent whole, in order. */
  lemma PrepareDistinct(parsed: seq<ParsedWeather>)
    requires UniqueKeys(parsed, TimeKey)
    ensures PrepareWeather(parsed) == Map(parsed, ToRecord)
  {
    DropDuplicatesOfUnique(parsed, TimeKey);
  }

  /** `upsert_weather_hourly` with its default chunk size. */
  method UpsertWeatherHourly(records: seq<WeatherRecord>) returns (upload: Upload<WeatherRecord>)
    ensures records == [] <==> upload == NoRows
    ensures records != [] ==>
      && upload.Sent?
      && |upload.chunks| == CeilDiv(|records|, WeatherChunkSize)
      && (forall i :: 0 <= i < |upload.chunks| ==> 0 < |upload.chunks[i]| <= WeatherChunkSize)
      && Flatten(upload.chunks) == records
  {
    upload := UpsertInBatches(records, WeatherChunkSize);
  }

  /**
   * `main`: the steps of `load_weather_csv` in order, with the fill and cast
   * loops, then the upsert; it fails exactly when the loader raises.
   */
  method LoadWeatherHourly(file: Option<Csv>, toFloat: string -> Option<real>)
    returns (r: Result<Upload<WeatherRecord>, CsvError>)
    ensures LoadWeatherCsv(file, toFloat).Err? <==> r.Err?
    ensures r.Err? ==> r.error == LoadWeatherCsv(file, toFloat).error
    ensures r.Ok? ==> var records := LoadWeatherCsv(file, toFloat).value;
      (records == [] <==> r.value == NoRows)
      && (records != [] ==> r.value.Sent? && Flatten(r.value.chunks) == records)
  {
    if file.None? {
      return Err(FileNotFound);
    }
    var csv := file.value;
    var times := ReadTimestamps(csv);
    if times.Err? {
      return Err(times.error);
    }
    var frame := FrameOf(csv);
    var clash := FirstClash(frame.Keys, Variables);
    if clash.Some? {
      return Err(DuplicateColumn(Name(clash.value)));
    }
    var rm := RenameMap(frame.Keys);
    RenameMapFits(frame);
    NoClash(frame);
    var filled := FillMissing(Rename(frame, rm), |csv.rows|);
    assert Conform(frame, |csv.rows|) == Ok(filled);
    var cols := CastColumns(filled, toFloat);
    if cols.Err? {
      return Err(cols.error);
    }
    FrameRectangular(csv);
    ConformRectangular(frame, |csv.rows|);
    CastLengths(filled, toFloat, cols.value, |csv.rows|);
    var records := PrepareWeather(Select(times.value, cols.value));
    assert records == LoadWeatherCsv(file, toFloat).value;
    var upload := UpsertWeatherHourly(records);
    return Ok(upload);
  }
}
