/**
 * The counters loader: the `/ecocounter` listing narrowed to the selected
 * counters, each reduced to its id, readable name and coordinates, and sent
 * to the `counters` table in one upsert. The repository has two copies of
 * it, the command-line one and an older script that builds the name under a
 * temporary column; both are modelled and proved to produce the same rows.
 */
module CountersLoader {
  import opened Wrappers
  import opened Json
  import opened Tables
  import opened Config
  import opened BikeClient

  const CountersTable: string := "counters"

  // ---------------------------------------------------------------------------
  // extract_lat_lon
  // ---------------------------------------------------------------------------

  /** `location.value.coordinates`, when each step of that path is there. */
  function Coordinates(location: Json): Option<Json> {
    if location.JObj? && "value" in location.fields && location.fields["value"].JObj?
       && "coordinates" in location.fields["value"].fields
    then Some(location.fields["value"].fields["coordinates"])
    else None
  }

  /**
   * An NGSI location holds `[lon, lat, ...]`; the pair comes back as
   * `(lat, lon)`, and anything that is not at least a two-element list
   * gives two nulls.
   */
  function ExtractLatLon(location: Json): (r: (Json, Json)) {
    match Coordinates(location)
    case Some(JArr(coords)) => if |coords| >= 2 then (coords[1], coords[0]) else (JNull, JNull)
    case _ => (JNull, JNull)
  }

  /** The NGSI location with coordinates `[lon, lat] + rest`, beside any other members. */
  function NgsiLocation(lon: Json, lat: Json, rest: seq<Json>,
                        outer: map<string, Json>, inner: map<string, Json>): (location: Json)
    ensures Coordinates(location) == Some(JArr([lon, lat] + rest))
  {
    JObj(outer["value" := JObj(inner["coordinates" := JArr([lon, lat] + rest)])])
  }

  /** The swap, whatever follows the first two coordinates and whatever else the location holds. */
  lemma LatLonOfNgsiLocation(lon: Json, lat: Json, rest: seq<Json>,
                             outer: map<string, Json>, inner: map<string, Json>)
    ensures ExtractLatLon(NgsiLocation(lon, lat, rest, outer, inner)) == (lat, lon)
  {
    assert ([lon, lat] + rest)[0] == lon && ([lon, lat] + rest)[1] == lat;
  }

  /** Conversely, a pair other than two nulls is the swapped head of the coordinate list. */
  lemma LatLonFromCoordinates(location: Json)
    ensures var r := ExtractLatLon(location);
      r == (JNull, JNull) ||
      exists lon, lat, rest :: Coordinates(location) == Some(JArr([lon, lat] + rest)) && r == (lat, lon)
  {
    var r := ExtractLatLon(location);
    if r != (JNull, JNull) {
      assert Coordinates(location).Some? && Coordinates(location).value.JArr?;
      var coords := Coordinates(location).value.items;
      assert |coords| >= 2 && r == (coords[1], coords[0]);
      assert [coords[0], coords[1]] + coords[2..] == coords;
      assert Coordinates(location) == Some(JArr([coords[0], coords[1]] + coords[2..]));
    }
  }

  /** Every malformed location gives `(None, None)`. */
  lemma LatLonOfMalformed(location: Json)
    ensures !location.JObj? ==> ExtractLatLon(location) == (JNull, JNull)
    ensures location.JObj? && "value" !in location.fields ==> ExtractLatLon(location) == (JNull, JNull)
    ensures location.JObj? && "value" in location.fields && !location.fields["value"].JObj? ==>
      ExtractLatLon(location) == (JNull, JNull)
    ensures (location.JObj? && "value" in location.fields && location.fields["value"].JObj? &&
             "coordinates" !in location.fields["value"].fields) ==>
      ExtractLatLon(location) == (JNull, JNull)
    ensures Coordinates(location).Some? && !Coordinates(location).value.JArr? ==>
      ExtractLatLon(location) == (JNull, JNull)
    ensures (Coordinates(location).Some? && Coordinates(location).value.JArr? &&
             |Coordinates(location).value.items| < 2) ==>
      ExtractLatLon(location) == (JNull, JNull)
  {
  }

  // ---------------------------------------------------------------------------
  // run
  // ---------------------------------------------------------------------------

  /** One output row: the columns `id`, `name`, `lat`, `lon`. */
  datatype CounterRow = CounterRow(id: Json, name: Json, lat: Json, lon: Json)

  datatype CountersError =
    | KeyError(column: string)   // `df_sel[column]` on a listing without that key
    | NothingToUnpack            // `lats, lons = zip(*...)` over no selected counter
    | GetRaised(offset: int)     // the listing's GET at this offset raised

  /**
   * `pd.DataFrame(records)` has the column `c` when some record has that key;
   * a record without it holds NaN there, which reads as `Get`'s null.
   */
  predicate HasColumn(records: seq<Json>, c: string) {
    exists i :: 0 <= i < |records| && records[i].JObj? && c in records[i].fields
  }

  /** `df_all["id"].isin(SELECTED_COUNTERS)`. */
  predicate IsSelected(record: Json) {
    Get(record, "id").JStr? && Get(record, "id").s in SelectedCounters
  }

  /** The `name` lambda: the inner `value` of an object, else None. */
  function NameOf(name: Json): (v: Json)
    ensures !name.JObj? ==> v == JNull
    ensures name.JObj? && "value" in name.fields ==> v == name.fields["value"]
  {
    if name.JObj? then Get(name, "value") else JNull
  }

  function NameField(record: Json): Json {
    NameOf(Get(record, "name"))
  }

  function NoName(record: Json): Json {
    JNull
  }

  function LocationLatLon(record: Json): (Json, Json) {
    ExtractLatLon(Get(record, "location"))
  }

  /** The `name` column of the selected rows, by the branch the listing's columns choose. */
  function NameColumn(records: seq<Json>, selected: seq<Json>): seq<Json> {
    if HasColumn(records, "name") then Map(selected, NameField) else Map(selected, NoName)
  }

  /** The rows `[id, name, lat, lon]` assembled from the selected rows and the three derived columns. */
  function Assemble(selected: seq<Json>, names: seq<Json>, latLon: seq<(Json, Json)>): (rows: seq<CounterRow>)
    requires |names| == |selected| && |latLon| == |selected|
    ensures |rows| == |selected|
  {
    seq(|selected|, i requires 0 <= i < |selected| =>
      CounterRow(Get(selected[i], "id"), names[i], latLon[i].0, latLon[i].1))
  }

  /**
   * `run` of the command-line loader up to `df_counters`: the selection,
   * the name column, the coordinates, then the four columns.
   */
  function CliCounters(records: seq<Json>): (r: Result<seq<CounterRow>, CountersError>)
    ensures !HasColumn(records, "id") ==> r == Err(KeyError("id"))
    ensures HasColumn(records, "id") && !HasColumn(records, "location") ==> r == Err(KeyError("location"))
    ensures HasColumn(records, "id") && HasColumn(records, "location") ==>
      (r == Err(NothingToUnpack) <==> Filter(records, IsSelected) == [])
    ensures r.Ok? ==> |r.value| == |Filter(records, IsSelected)| > 0
  {
    if !HasColumn(records, "id") then Err(KeyError("id"))
    else
      var selected := Filter(records, IsSelected);
      var names := NameColumn(records, selected);
      if !HasColumn(records, "location") then Err(KeyError("location"))
      else if selected == [] then Err(NothingToUnpack)
      else Ok(Assemble(selected, names, Map(selected, LocationLatLon)))
  }

  /** A selected row lacks `name` whenever the listing has no `name` column. */
  lemma NoNameColumn(records: seq<Json>)
    requires !HasColumn(records, "name")
    ensures forall x :: x in Filter(records, IsSelected) ==> NameField(x) == JNull
  {
    forall x | x in Filter(records, IsSelected)
      ensures NameField(x) == JNull
    {
      var i :| 0 <= i < |records| && records[i] == x;
      assert !(records[i].JObj? && "name" in records[i].fields);
    }
  }

  /** Both name branches give every row the name its own record carries. */
  lemma NameBranchesAgree(records: seq<Json>)
    ensures NameColumn(records, Filter(records, IsSelected)) == Map(Filter(records, IsSelected), NameField)
  {
    if !HasColumn(records, "name") {
      NoNameColumn(records);
    }
  }

  /**
   * What each output row holds: the `i`-th selected record's id, the inner
   * value of its name, and its location's `(lat, lon)`.
   */
  lemma CliRows(records: seq<Json>)
    requires CliCounters(records).Ok?
    ensures var rows, selected := CliCounters(records).value, Filter(records, IsSelected);
      |rows| == |selected| &&
      forall i :: 0 <= i < |rows| ==>
        && rows[i].id == Get(selected[i], "id")
        && rows[i].name == NameOf(Get(selected[i], "name"))
        && (rows[i].lat, rows[i].lon) == ExtractLatLon(Get(selected[i], "location"))
  {
    NameBranchesAgree(records);
  }

  /** Exactly the selected counters are kept: each row's id is listed, and each listed record has a row. */
  lemma KeepsExactlySelected(records: seq<Json>)
    requires CliCounters(records).Ok?
    ensures var rows := CliCounters(records).value;
      (forall i :: 0 <= i < |rows| ==> rows[i].id.JStr? && rows[i].id.s in SelectedCounters) &&
      (forall x :: x in records && IsSelected(x) ==> exists i :: 0 <= i < |rows| && rows[i].id == Get(x, "id"))
  {
    var rows, selected := CliCounters(records).value, Filter(records, IsSelected);
    CliRows(records);
    forall i | 0 <= i < |rows|
      ensures rows[i].id.JStr? && rows[i].id.s in SelectedCounters
    {
      assert selected[i] in selected;
    }
    forall x | x in records && IsSelected(x)
      ensures exists i :: 0 <= i < |rows| && rows[i].id == Get(x, "id")
    {
      var i :| 0 <= i < |selected| && selected[i] == x;
      assert rows[i].id == Get(x, "id");
    }
  }

  // ---------------------------------------------------------------------------
  // The script copy
  // ---------------------------------------------------------------------------

  /** A selected row of the script, after `name_col`, `lat` and `lon` are added. */
  datatype ScriptRow = ScriptRow(id: Json, name: Json, nameCol: Json, lat: Json, lon: Json)

  /** `df_sel[["id", "name_col", "lat", "lon"]].rename(columns={"name_col": "name"})`. */
  function SelectRenamed(row: ScriptRow): CounterRow {
    CounterRow(row.id, row.nameCol, row.lat, row.lon)
  }

  /** `run` of the script: the name goes to `name_col`, the original `name` column stays. */
  function ScriptCounters(records: seq<Json>): (r: Result<seq<CounterRow>, CountersError>)
    ensures !HasColumn(records, "id") ==> r == Err(KeyError("id"))
  {
    if !HasColumn(records, "id") then Err(KeyError("id"))
    else
      var selected := Filter(records, IsSelected);
      var nameCol := NameColumn(records, selected);
      if !HasColumn(records, "location") then Err(KeyError("location"))
      else if selected == [] then Err(NothingToUnpack)
      else
        var latLon := Map(selected, LocationLatLon);
        var wide := seq(|selected|, i requires 0 <= i < |selected| =>
          ScriptRow(Get(selected[i], "id"), Get(selected[i], "name"), nameCol[i], latLon[i].0, latLon[i].1));
        Ok(Map(wide, SelectRenamed))
  }

  /** The two copies of the loader agree on every listing, errors included. */
  lemma ScriptAgreesWithCli(records: seq<Json>)
    ensures ScriptCounters(records) == CliCounters(records)
  {
    if HasColumn(records, "id") && HasColumn(records, "location") && Filter(records, IsSelected) != [] {
      var a, b := ScriptCounters(records).value, CliCounters(records).value;
      assert |a| == |b|;
      forall i | 0 <= i < |a|
        ensures a[i] == b[i]
      {
      }
      assert a == b;
    }
  }

  // ---------------------------------------------------------------------------
  // The run as a whole
  // ---------------------------------------------------------------------------

  /** The single `upsert_df` call. */
  datatype UpsertCall = UpsertCall(table: string, rows: seq<CounterRow>)

  /**
   * `run`: fetches the whole listing page by page, builds the rows, and
   * upserts them into `counters` in one call. `pagesRead` is the number of
   * non-empty pages before the reply that stopped the listing; a GET that
   * raised ends the run with its offset and no upsert.
   */
  method RunCli(page: int -> PageReply) returns (pagesRead: nat, r: Result<UpsertCall, CountersError>)
    requires exists k: nat :: PageStops(PageAt(page, DefaultPageLimit, k))
    ensures PageStops(PageAt(page, DefaultPageLimit, pagesRead))
    ensures forall j :: 0 <= j < pagesRead ==> !PageStops(PageAt(page, DefaultPageLimit, j))
    ensures PageAt(page, DefaultPageLimit, pagesRead).GetFailed? ==>
      r == Err(GetRaised(pagesRead * DefaultPageLimit))
    ensures PageAt(page, DefaultPageLimit, pagesRead).Decoded? ==>
      match CliCounters(Pages(page, DefaultPageLimit, pagesRead))
      case Ok(rows) => r == Ok(UpsertCall(CountersTable, rows)) && rows != []
      case Err(e) => r == Err(e)
  {
    var fetched, offsets := FetchAllCounters(DefaultPageLimit, page);
    pagesRead := |offsets| - 1;
    forall j | 0 <= j < pagesRead
      ensures !PageStops(PageAt(page, DefaultPageLimit, j))
    {
      assert offsets[j] == j * DefaultPageLimit;
    }
    assert offsets[pagesRead] == pagesRead * DefaultPageLimit;
    if fetched.None? {
      return pagesRead, Err(GetRaised(offsets[pagesRead]));
    }
    var records := fetched.value;
    match CliCounters(records)
    case Ok(rows) =>
      r := Ok(UpsertCall(CountersTable, rows));
    case Err(e) =>
      r := Err(e);
  }
}
