/**
 * The bike history ETL: a UTC interval cut at year boundaries, one time
 * series request per (counter, year chunk), and the fetched rows
 * de-duplicated on (counter, timestamp) and sorted by that pair.
 */
module BikeEtl {
  import opened Wrappers
  import opened Calendar
  import opened IsoTime
  import opened Tables
  import opened Sorting
  import opened Features
  import opened BikeClient

  const DefaultGlobalStart: string := "2023-01-01T00:00:00"

  // ---------------------------------------------------------------------------
  // Year chunks
  // ---------------------------------------------------------------------------

  /** `datetime(current.year + 1, 1, 1)`: the next New Year after `t`. */
  function NextYear(t: Instant): (n: Instant)
    ensures t < n
  {
    YearOfInstantBounds(t);
    JanuaryFirst(YearOfInstant(t) + 1)
  }

  /** The next New Year is in the following calendar year. */
  lemma NextYearIsNextYear(t: Instant)
    ensures YearOfInstant(NextYear(t)) == YearOfInstant(t) + 1
  {
  }

  /** `min(next_year - 1 s, end)`. */
  function ChunkEnd(current: Instant, end: Instant): Instant {
    var next := NextYear(current);
    if next - 1 <= end then next - 1 else end
  }

  /** What `build_year_chunks(current, end)` returns. */
  function YearChunks(current: Instant, end: Instant): seq<(Instant, Instant)>
    decreases end - current
  {
    if current >= end then []
    else [(current, ChunkEnd(current, end))] + YearChunks(NextYear(current), end)
  }

  /** One turn of the loop: the chunk from `current`, then the chunks from the next New Year. */
  lemma YearChunksStep(current: Instant, end: Instant)
    requires current < end
    ensures YearChunks(current, end) == [(current, ChunkEnd(current, end))] + YearChunks(NextYear(current), end)
  {
  }

  /** `build_year_chunks`: the `while current < end` loop. */
  method BuildYearChunks(start: Instant, end: Instant) returns (chunks: seq<(Instant, Instant)>)
    ensures chunks == YearChunks(start, end)
  {
    chunks := [];
    var current: Instant := start;
    while current < end
      invariant chunks + YearChunks(current, end) == YearChunks(start, end)
      decreases end - current
    {
      var nextYear: Instant := NextYear(current);
      var chunkEnd: Instant := ChunkEnd(current, end);
      YearChunksStep(current, end);
      SnocAssoc(chunks, (current, chunkEnd), YearChunks(nextYear, end));
      chunks := chunks + [(current, chunkEnd)];
      current := nextYear;
    }
  }

  /**
   * No chunk when `current >= end`; otherwise every chunk `(s, e)` has
   * `current <= s <= e <= end` with `s` and `e` in the same calendar year.
   */
  lemma {:induction false} YearChunksBounds(current: Instant, end: Instant)
    ensures YearChunks(current, end) == [] <==> current >= end
    ensures forall i :: 0 <= i < |YearChunks(current, end)| ==>
      var c := YearChunks(current, end)[i];
      current <= c.0 <= c.1 <= end && YearOfInstant(c.0) == YearOfInstant(c.1)
    decreases end - current
  {
    if current < end {
      var next := NextYear(current);
      var e := ChunkEnd(current, end);
      var rest := YearChunks(next, end);
      YearChunksBounds(next, end);
      YearOfInstantBounds(current);
      InYear(e, YearOfInstant(current));
      assert YearChunks(current, end) == [(current, e)] + rest;
    }
  }

  /**
   * The first chunk starts at `current`; each later chunk starts on New Year
   * of the year after the previous chunk's start, one second after the
   * previous chunk's end, so the years strictly increase.
   */
  lemma {:induction false} YearChunksSuccession(current: Instant, end: Instant)
    ensures YearChunks(current, end) != [] ==> YearChunks(current, end)[0].0 == current
    ensures forall i :: 0 <= i < |YearChunks(current, end)| - 1 ==>
      var c := YearChunks(current, end);
      && c[i + 1].0 == NextYear(c[i].0)
      && c[i + 1].0 == c[i].1 + 1
      && YearOfInstant(c[i + 1].0) == YearOfInstant(c[i].0) + 1
    decreases end - current
  {
    if current < end {
      var next := NextYear(current);
      var rest := YearChunks(next, end);
      YearChunksSuccession(next, end);
      YearChunksBounds(next, end);
      NextYearIsNextYear(current);
      var c := YearChunks(current, end);
      assert c == [(current, ChunkEnd(current, end))] + rest;
      if rest != [] {
        assert next < end;
        assert c[1].0 == next;
      }
    }
  }

  /** Chunk `c` covers second `t`. */
  predicate Covers(c: (Instant, Instant), t: Instant) {
    c.0 <= t <= c.1
  }

  /** Every whole second of `[current, end)` lies in some chunk. */
  lemma {:induction false} YearChunksCover(current: Instant, end: Instant, t: Instant)
    requires current <= t < end
    ensures exists i :: 0 <= i < |YearChunks(current, end)| && Covers(YearChunks(current, end)[i], t)
    decreases end - current
  {
    var next := NextYear(current);
    var e := ChunkEnd(current, end);
    var rest := YearChunks(next, end);
    var c := YearChunks(current, end);
    assert c == [(current, e)] + rest;
    if t <= e {
      assert Covers(c[0], t);
    } else {
      assert e == next - 1;
      YearChunksCover(next, end, t);
      var k :| 0 <= k < |rest| && Covers(rest[k], t);
      assert c[k + 1] == rest[k];
    }
  }

  /** No second lies in two chunks. */
  lemma YearChunksDisjoint(current: Instant, end: Instant, t: Instant, i: nat, j: nat)
    requires i < |YearChunks(current, end)| && j < |YearChunks(current, end)|
    requires Covers(YearChunks(current, end)[i], t) && Covers(YearChunks(current, end)[j], t)
    ensures i == j
  {
    var c := YearChunks(current, end);
    YearChunksBounds(current, end);
    YearChunksSuccession(current, end);
    if i < j {
      ChainOrdered(c, i, j);
    } else if j < i {
      ChainOrdered(c, j, i);
    }
  }

  /** In a chain of intervals each starting one second after the last ends, earlier ones end first. */
  lemma {:induction false} ChainOrdered(c: seq<(Instant, Instant)>, i: nat, j: nat)
    requires forall k :: 0 <= k < |c| ==> c[k].0 <= c[k].1
    requires forall k :: 0 <= k < |c| - 1 ==> c[k + 1].0 == c[k].1 + 1
    requires i < j < |c|
    ensures c[i].1 < c[j].0
    decreases j - i
  {
    if i + 1 < j {
      ChainOrdered(c, i + 1, j);
    }
  }

  // ---------------------------------------------------------------------------
  // The interval
  // ---------------------------------------------------------------------------

  datatype EtlError =
    | BadTimestamp(text: string)      // `fromisoformat` raised
    | UnreadableIndex(counterId: string, text: string)  // `pd.to_datetime` raised on an `index` entry
    | MalformedReply(counterId: string)  // the frame constructor raised

  /**
   * `global_end` omitted: now truncated to the hour, i.e. the same day and
   * hour with minutes and seconds zeroed.
   */
  function DefaultEnd(now: Instant): (e: Instant)
    ensures e <= now < e + SecondsPerHour && e % SecondsPerHour == 0
  {
    now - now % SecondsPerHour
  }

  lemma DefaultEndFields(now: Instant)
    ensures DayOf(DefaultEnd(now)) == DayOf(now) && HourOf(DefaultEnd(now)) == HourOf(now)
    ensures MinuteOf(DefaultEnd(now)) == 0 && SecondOf(DefaultEnd(now)) == 0
  {
    var d, h := DayOf(now), HourOf(now);
    var r := MinuteOf(now) * SecondsPerMinute + SecondOf(now);
    FieldsDetermineInstant(now);
    assert now == (24 * d + h) * SecondsPerHour + r;
    HourRemainder(24 * d + h, r);
    assert DefaultEnd(now) == InstantAt(d, h, 0, 0);
    InstantAtFields(d, h, 0, 0);
  }

  /** Euclidean division by the hour. */
  lemma HourRemainder(q: nat, r: nat)
    requires r < SecondsPerHour
    ensures (q * SecondsPerHour + r) % SecondsPerHour == r
  {
  }

  /** The UTC interval the ETL covers, or the error `fromisoformat` raises. */
  function Interval(globalStart: string, globalEnd: Option<string>, now: Instant): (r: Result<(Instant, Instant), EtlError>)
    ensures Parse(globalStart).None? ==> r == Err(BadTimestamp(globalStart))
    ensures globalEnd.None? && Parse(globalStart).Some? ==> r == Ok((Parse(globalStart).value, DefaultEnd(now)))
    ensures Parse(globalStart).Some? && globalEnd.Some? && Parse(globalEnd.value).None? ==>
      r == Err(BadTimestamp(globalEnd.value))
    ensures Parse(globalStart).Some? && globalEnd.Some? && Parse(globalEnd.value).Some? ==>
      r == Ok((Parse(globalStart).value, Parse(globalEnd.value).value))
  {
    match Parse(globalStart)
    case None => Err(BadTimestamp(globalStart))
    case Some(start) =>
      match globalEnd
      case None => Ok((start, DefaultEnd(now)))
      case Some(text) =>
        match Parse(text)
        case None => Err(BadTimestamp(text))
        case Some(end) => Ok((start, end))
  }

  /** Texts rendered `%Y-%m-%dT%H:%M:%S` give back the interval they were rendered from. */
  lemma IntervalOfRendered(start: Instant, end: Instant, now: Instant)
    requires YearOfInstant(start) <= 9999 && YearOfInstant(end) <= 9999
    ensures Interval(Render(start), Some(Render(end)), now) == Ok((start, end))
    ensures Interval(Render(start), None, now) == Ok((start, DefaultEnd(now)))
  {
    ParseRender(start);
    ParseRender(end);
  }

  // ---------------------------------------------------------------------------
  // Requests
  // ---------------------------------------------------------------------------

  /** One `fetch_timeseries` call: a counter and a chunk. */
  type Task = (string, (Instant, Instant))

  function CounterTasks(cid: string, chunks: seq<(Instant, Instant)>): seq<Task> {
    Map(chunks, (c: (Instant, Instant)) => (cid, c))
  }

  /** Counters outer, chunks inner. */
  function Tasks(counters: seq<string>, chunks: seq<(Instant, Instant)>): seq<Task> {
    if counters == [] then []
    else Tasks(counters[..|counters| - 1], chunks) + CounterTasks(counters[|counters| - 1], chunks)
  }

  /** Every (counter, chunk) pair is requested, and nothing else. */
  lemma {:induction false} TasksAreAllPairs(counters: seq<string>, chunks: seq<(Instant, Instant)>)
    ensures |Tasks(counters, chunks)| == |counters| * |chunks|
    ensures forall t :: t in Tasks(counters, chunks) <==> t.0 in counters && t.1 in chunks
  {
    if counters != [] {
      var front := counters[..|counters| - 1];
      var cid := counters[|counters| - 1];
      TasksAreAllPairs(front, chunks);
      assert |counters| * |chunks| == |front| * |chunks| + |chunks|;
      assert counters == front + [cid];
      forall t ensures t in CounterTasks(cid, chunks) <==> t.0 == cid && t.1 in chunks {
        if t.0 == cid && t.1 in chunks {
          var k :| 0 <= k < |chunks| && chunks[k] == t.1;
          assert CounterTasks(cid, chunks)[k] == t;
        }
      }
    }
  }

  /** The `fetch_timeseries` call a task makes. */
  function FetchTask(get: Request -> TimeseriesReply): Task -> Timeseries {
    (t: Task) => FetchTimeseries(t.0, t.1.0, t.1.1, get)
  }

  /**
   * The frames that the tasks' replies give, in task order, up to the first
   * reply the frame constructor rejects; empty frames are not kept.
   */
  function Collect(tasks: seq<Task>, fetch: Task -> Timeseries): Result<seq<seq<Reading>>, EtlError> {
    if tasks == [] then Ok([])
    else CollectStep(Collect(tasks[..|tasks| - 1], fetch), tasks[|tasks| - 1], fetch)
  }

  /** The error a counter's reply raises out of `fetch_timeseries`, if any. */
  function Rejection(cid: string, ts: Timeseries): (e: Option<EtlError>)
    ensures e.Some? <==> ts.BadIndex? || ts.LengthMismatch?
  {
    match ts
    case BadIndex(text) => Some(UnreadableIndex(cid, text))
    case LengthMismatch => Some(MalformedReply(cid))
    case _ => None
  }

  /** One more task: a rejected reply raises, an empty reply or frame adds nothing. */
  function CollectStep(acc: Result<seq<seq<Reading>>, EtlError>, t: Task, fetch: Task -> Timeseries)
    : Result<seq<seq<Reading>>, EtlError>
  {
    match acc
    case Err(e) => Err(e)
    case Ok(frames) =>
      match fetch(t)
      case BadIndex(text) => Err(UnreadableIndex(t.0, text))
      case LengthMismatch => Err(MalformedReply(t.0))
      case NoData => Ok(frames)
      case Frame(rows) => Ok(frames + (if rows == [] then [] else [rows]))
  }

  lemma CollectSnoc(tasks: seq<Task>, t: Task, fetch: Task -> Timeseries)
    ensures Collect(tasks + [t], fetch) == CollectStep(Collect(tasks, fetch), t, fetch)
  {
    assert (tasks + [t])[..|tasks|] == tasks;
  }

  /** Once an error is raised, later tasks do not change it. */
  lemma {:induction false} CollectErrSticks(a: seq<Task>, b: seq<Task>, fetch: Task -> Timeseries)
    requires Collect(a, fetch).Err?
    ensures Collect(a + b, fetch) == Collect(a, fetch)
  {
    if b != [] {
      var ab := a + b;
      CollectErrSticks(a, b[..|b| - 1], fetch);
      assert ab[..|ab| - 1] == a + b[..|b| - 1];
    } else {
      assert a + b == a;
    }
  }

  /** Every collected frame is a non-empty reply to one of the tasks. */
  lemma {:induction false} CollectedFrames(tasks: seq<Task>, fetch: Task -> Timeseries)
    requires Collect(tasks, fetch).Ok?
    ensures forall f :: f in Collect(tasks, fetch).value ==>
      (f != [] && exists t :: t in tasks && fetch(t) == Frame(f))
  {
    if tasks != [] {
      CollectedFrames(tasks[..|tasks| - 1], fetch);
      assert tasks[|tasks| - 1] in tasks;
      forall t | t in tasks[..|tasks| - 1] ensures t in tasks {
      }
    }
  }

  /**
   * The fetch fails exactly when some reply is rejected, either for an
   * unreadable `index` entry or for columns of different lengths, and the
   * error is the first rejected reply's, naming its counter.
   */
  lemma {:induction false} CollectErrIsFirstRejection(tasks: seq<Task>, fetch: Task -> Timeseries)
    ensures Collect(tasks, fetch).Err? <==>
      exists i :: 0 <= i < |tasks| && Rejection(tasks[i].0, fetch(tasks[i])).Some?
    ensures Collect(tasks, fetch).Err? ==> exists i :: (
      && 0 <= i < |tasks| && Rejection(tasks[i].0, fetch(tasks[i])).Some?
      && Collect(tasks, fetch) == Err(Rejection(tasks[i].0, fetch(tasks[i])).value)
      && forall k :: 0 <= k < i ==> Rejection(tasks[k].0, fetch(tasks[k])).None?)
  {
    if tasks != [] {
      var front := tasks[..|tasks| - 1];
      CollectErrIsFirstRejection(front, fetch);
      if Collect(front, fetch).Err? {
        var i :| 0 <= i < |front| && Rejection(front[i].0, fetch(front[i])).Some?
          && Collect(front, fetch) == Err(Rejection(front[i].0, fetch(front[i])).value)
          && forall k :: 0 <= k < i ==> Rejection(front[k].0, fetch(front[k])).None?;
        assert tasks[i] == front[i];
      } else {
        forall i | 0 <= i < |front| ensures Rejection(tasks[i].0, fetch(tasks[i])).None? {
          assert tasks[i] == front[i];
        }
      }
    }
  }

  // ---------------------------------------------------------------------------
  // De-duplication and order
  // ---------------------------------------------------------------------------

  /** The key `["ecocounter_id", "timestamp_utc"]`. */
  function RowKey(r: Reading): (string, Instant) {
    (r.counterId, r.time)
  }

  /** `sort_values(["ecocounter_id", "timestamp_utc"])`: by id as text, then by time. */
  predicate RowLe(a: Reading, b: Reading) {
    if a.counterId != b.counterId then StrLe(a.counterId, b.counterId) else a.time <= b.time
  }

  lemma RowOrder(s: seq<Reading>)
    ensures TotalOn(s, RowLe) && TransitiveOn(s, RowLe)
  {
    forall a, b ensures RowLe(a, b) || RowLe(b, a) {
      StrLeTotal(a.counterId, b.counterId);
    }
    forall a, b, c | RowLe(a, b) && RowLe(b, c) ensures RowLe(a, c) {
      if a.counterId != b.counterId && b.counterId != c.counterId {
        StrLeTransitive(a.counterId, b.counterId, c.counterId);
        if a.counterId == c.counterId {
          StrLeAntisymmetric(a.counterId, b.counterId);
        }
      }
    }
  }

  function SortRows(s: seq<Reading>): (r: seq<Reading>)
    ensures multiset(r) == multiset(s) && SortedBy(r, RowLe)
  {
    RowOrder(s);
    Sort(s, RowLe)
  }

  /** The concatenated frames, de-duplicated keeping the first row, then sorted; empty without frames. */
  function Finish(frames: seq<seq<Reading>>): seq<Reading> {
    if frames == [] then [] else SortRows(DropDuplicates(Flatten(frames), RowKey))
  }

  /**
   * The result holds each fetched (id, timestamp) key exactly once, as the
   * first fetched row with that key, sorted by id then timestamp.
   */
  lemma FinishSpec(frames: seq<seq<Reading>>)
    ensures var r := Finish(frames);
      var all := Flatten(frames);
      && UniqueKeys(r, RowKey)
      && SortedBy(r, RowLe)
      && (forall k :: HasKey(r, RowKey, k) <==> HasKey(all, RowKey, k))
      && (forall x :: x in r ==>
            (FirstIndex(all, RowKey, RowKey(x)) < |all| && x == all[FirstIndex(all, RowKey, RowKey(x))]))
  {
    if frames != [] {
      var all := Flatten(frames);
      var d := DropDuplicates(all, RowKey);
      var r := SortRows(d);
      DropDuplicatesSpec(all, RowKey);
      PermutationKeepsUniqueKeys(d, r, RowKey);
      forall k ensures HasKey(r, RowKey, k) <==> HasKey(d, RowKey, k) {
        SameElementsSameKeys(d, r, RowKey, k);
      }
      forall x | x in r ensures FirstIndex(all, RowKey, RowKey(x)) < |all|
        && x == all[FirstIndex(all, RowKey, RowKey(x))]
      {
        assert x in multiset(r);
        var i :| 0 <= i < |d| && d[i] == x;
      }
    }
  }

  // ---------------------------------------------------------------------------
  // The fetch
  // ---------------------------------------------------------------------------

  /** What `fetch_bike_history_for_counters` returns. */
  function History(counters: seq<string>, globalStart: string, globalEnd: Option<string>, now: Instant,
                   get: Request -> TimeseriesReply): Result<seq<Reading>, EtlError>
  {
    match Interval(globalStart, globalEnd, now)
    case Err(e) => Err(e)
    case Ok(interval) =>
      match Collect(Tasks(counters, YearChunks(interval.0, interval.1)), FetchTask(get))
      case Err(e) => Err(e)
      case Ok(frames) => Ok(Finish(frames))
  }

  /**
   * `fetch_bike_history_for_counters`: the nested loop over counters and
   * chunks; `asked` lists the calls made, which are every (counter, chunk)
   * pair in order when the fetch succeeds.
   */
  method FetchBikeHistory(counters: seq<string>, globalStart: string, globalEnd: Option<string>, now: Instant,
                          get: Request -> TimeseriesReply)
    returns (result: Result<seq<Reading>, EtlError>, asked: seq<Task>)
    ensures result == History(counters, globalStart, globalEnd, now, get)
    ensures Interval(globalStart, globalEnd, now).Err? ==> asked == []
    ensures Interval(globalStart, globalEnd, now).Ok? ==>
      var interval := Interval(globalStart, globalEnd, now).value;
      var all := Tasks(counters, YearChunks(interval.0, interval.1));
      && asked <= all
      && (result.Ok? ==> asked == all)
  {
    var interval := Interval(globalStart, globalEnd, now);
    if interval.Err? {
      return Err(interval.error), [];
    }
    var start, end := interval.value.0, interval.value.1;
    var chunks := BuildYearChunks(start, end);
    var collected;
    collected, asked := FetchChunks(counters, chunks, FetchTask(get));
    if collected.Err? {
      return Err(collected.error), asked;
    }
    result := Ok(Finish(collected.value));
  }

  /**
   * The nested `for` loops of `fetch_bike_history_for_counters`: counters
   * outer, chunks inner, stopping at the first reply whose `index` cannot be
   * read or whose columns the frame constructor rejects; `asked` lists the calls made. `fetch` is the client's
   * `fetch_timeseries`.
   */
  method FetchChunks(counters: seq<string>, chunks: seq<(Instant, Instant)>, fetch: Task -> Timeseries)
    returns (collected: Result<seq<seq<Reading>>, EtlError>, asked: seq<Task>)
    ensures collected == Collect(Tasks(counters, chunks), fetch)
    ensures asked <= Tasks(counters, chunks)
    ensures collected.Ok? ==> asked == Tasks(counters, chunks)
  {
    var frames: seq<seq<Reading>> := [];
    asked := [];
    for i := 0 to |counters|
      invariant asked == Tasks(counters[..i], chunks)
      invariant Collect(asked, fetch) == Ok(frames)
    {
      var rejected, called;
      rejected, frames, called := FetchCounter(counters[i], chunks, fetch, asked, frames);
      if rejected.Some? {
        RejectionStops(counters, chunks, i, |called|, fetch);
        collected, asked := Err(rejected.value), asked + called;
        return;
      }
      CounterDone(counters, i, chunks);
      asked := asked + called;
    }
    assert counters[..|counters|] == counters;
    collected := Ok(frames);
  }

  /**
   * The inner loop over one counter's chunks, after the calls `before` that
   * collected `frames0`: it stops at the first rejected reply, returning the
   * error it raises in `rejected`, and `called` lists its own calls.
   */
  method FetchCounter(cid: string, chunks: seq<(Instant, Instant)>, fetch: Task -> Timeseries,
                      ghost before: seq<Task>, frames0: seq<seq<Reading>>)
    returns (rejected: Option<EtlError>, frames: seq<seq<Reading>>, called: seq<Task>)
    requires Collect(before, fetch) == Ok(frames0)
    ensures |called| <= |chunks| && called == CounterTasks(cid, chunks[..|called|])
    ensures rejected.Some? ==> Collect(before + called, fetch) == Err(rejected.value)
    ensures rejected.None? ==> called == CounterTasks(cid, chunks) && Collect(before + called, fetch) == Ok(frames)
  {
    frames := frames0;
    called := [];
    assert before + called == before;
    for j := 0 to |chunks|
      invariant called == CounterTasks(cid, chunks[..j])
      invariant Collect(before + called, fetch) == Ok(frames)
    {
      var ts := fetch((cid, chunks[j]));
      CounterTasksSnoc(cid, chunks, j);
      CollectSnoc(before + called, (cid, chunks[j]), fetch);
      assert (before + called) + [(cid, chunks[j])] == before + (called + [(cid, chunks[j])]);
      called := called + [(cid, chunks[j])];
      if Rejection(cid, ts).Some? {
        return Rejection(cid, ts), frames, called;
      }
      if ts.Frame? && ts.rows != [] {
        frames := frames + [ts.rows];
      } else {
        assert frames + [] == frames;
      }
    }
    assert chunks[..|chunks|] == chunks;
    rejected := None;
  }

  lemma CounterTasksSnoc(cid: string, chunks: seq<(Instant, Instant)>, j: nat)
    requires j < |chunks|
    ensures CounterTasks(cid, chunks[..j + 1]) == CounterTasks(cid, chunks[..j]) + [(cid, chunks[j])]
  {
  }

  /** A rejected reply at chunk `j - 1` of counter `i` is the outcome of all the calls. */
  lemma RejectionStops(counters: seq<string>, chunks: seq<(Instant, Instant)>, i: nat, j: nat, fetch: Task -> Timeseries)
    requires i < |counters| && j <= |chunks|
    requires Collect(Tasks(counters[..i], chunks) + CounterTasks(counters[i], chunks[..j]), fetch).Err?
    ensures var asked := Tasks(counters[..i], chunks) + CounterTasks(counters[i], chunks[..j]);
      && asked <= Tasks(counters, chunks)
      && Collect(Tasks(counters, chunks), fetch) == Collect(asked, fetch)
  {
    var asked := Tasks(counters[..i], chunks) + CounterTasks(counters[i], chunks[..j]);
    var all := Tasks(counters, chunks);
    AskedPrefix(counters, chunks, i, j);
    CollectErrSticks(asked, all[|asked|..], fetch);
    PrefixThenRest(asked, all);
  }

  /** After the last chunk of counter `i`, the calls made are those of the first `i + 1` counters. */
  lemma CounterDone(counters: seq<string>, i: nat, chunks: seq<(Instant, Instant)>)
    requires i < |counters|
    ensures Tasks(counters[..i], chunks) + CounterTasks(counters[i], chunks) == Tasks(counters[..i + 1], chunks)
  {
    TasksPrefix(counters, i + 1, chunks);
    assert counters[..i + 1][..i] == counters[..i];
  }

  /** The calls made up to chunk `j` of counter `i` begin the full list of calls. */
  lemma AskedPrefix(counters: seq<string>, chunks: seq<(Instant, Instant)>, i: nat, j: nat)
    requires i < |counters| && j <= |chunks|
    ensures Tasks(counters[..i], chunks) + CounterTasks(counters[i], chunks[..j]) <= Tasks(counters, chunks)
  {
    TasksPrefix(counters, i + 1, chunks);
    assert counters[..i + 1][..i] == counters[..i];
    var m := Map(chunks, (c: (Instant, Instant)) => (counters[i], c));
    assert CounterTasks(counters[i], chunks[..j]) == m[..j];
  }

  lemma TasksPrefix(counters: seq<string>, i: nat, chunks: seq<(Instant, Instant)>)
    requires 0 < i <= |counters|
    ensures Tasks(counters[..i], chunks) <= Tasks(counters, chunks)
    ensures Tasks(counters[..i], chunks) == Tasks(counters[..i - 1], chunks) + CounterTasks(counters[i - 1], chunks)
    decreases |counters|
  {
    assert counters[..i][..i - 1] == counters[..i - 1];
    if i < |counters| {
      TasksPrefix(counters[..|counters| - 1], i, chunks);
      assert counters[..|counters| - 1][..i] == counters[..i];
    }
  }
}
