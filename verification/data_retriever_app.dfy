/** The BigQuery stats job: for one container and a time window given in
    Unix milliseconds it counts the collected hits per combination of the
    nine page/event dimensions and stores them, with the window, in one JSON
    document whose object name carries the run time, the window and an
    optional suffix. */
module DataRetrieverApp {
  import opened Wrappers
  import opened Calendar

  /** `datetime.fromtimestamp(int(ms / 1000))`: whole seconds toward zero
      (the clock is taken as UTC). */
  function FromMs(ms: int): (t: DateTime)
    ensures ValidDateTime(t)
  {
    FromEpochSeconds(TruncDiv(ms, 1000))
  }

  /** `target_prefix + now + '_' + stime + '_' + etime + '_' + [suffix + '_'] + uuid4 + '.json'`,
      every time as `%Y%m%d%H%M%S`; an empty suffix is left out like a missing one. */
  function TargetName(prefix: string, now: DateTime, stime: int, etime: int,
                      suffix: Option<string>, uuid: string): (name: string)
    ensures prefix <= name
  {
    prefix + TargetFile(Stamp14(now), Stamp14(FromMs(stime)), Stamp14(FromMs(etime)), suffix, uuid)
  }

  /** The file part after the prefix, from the three stamps. */
  function TargetFile(now: string, start: string, end: string, suffix: Option<string>, uuid: string): string
  {
    now + "_" + start + "_" + end + "_" + SuffixPart(suffix) + uuid + ".json"
  }

  function SuffixPart(suffix: Option<string>): string
  {
    if suffix.Some? && suffix.value != [] then suffix.value + "_" else ""
  }

  // ---------------------------------------------------------------- the query

  /** The daily tables read: from the day of an hour before the start to the
      day of the end, both included. */
  function TableRange(stime: int, etime: int): (Date, Date)
  {
    (FromMs(stime - 3600000).date, FromMs(etime).date)
  }

  /** The values a hit carries: url, p_url, title, state, p_state, label,
      xpath, a_id and class, each possibly missing. */
  datatype Dims = Dims(url: Option<string>, pUrl: Option<string>, title: Option<string>,
                       state: Option<string>, pState: Option<string>, eventLabel: Option<string>,
                       xpath: Option<string>, aId: Option<string>, klass: Option<string>)

  /** One collected hit: its container (`qs_json.tid`), its time and its dimensions. */
  datatype Hit = Hit(tid: Option<string>, ms: int, dims: Dims)

  /** The `WHERE` clause: the container matches and `stime <= datetime < etime`. */
  predicate InWindow(h: Hit, tid: string, stime: int, etime: int)
  {
    h.tid == Some(tid) && stime <= h.ms < etime
  }

  /** The hits the query counts, in order. */
  function Selected(hits: seq<Hit>, tid: string, stime: int, etime: int): (r: seq<Hit>)
    ensures forall h :: h in r <==> h in hits && InWindow(h, tid, stime, etime)
  {
    if hits == [] then []
    else
      var rest := Selected(hits[1..], tid, stime, etime);
      assert hits == [hits[0]] + hits[1..];
      if InWindow(hits[0], tid, stime, etime) then [hits[0]] + rest else rest
  }

  /** Windows are half open: two adjacent windows together count every hit
      of their union once. */
  lemma {:induction false} WindowSplit(hits: seq<Hit>, tid: string, a: int, b: int, c: int)
    requires a <= b <= c
    ensures |Selected(hits, tid, a, c)| == |Selected(hits, tid, a, b)| + |Selected(hits, tid, b, c)|
    decreases |hits|
  {
    if hits != [] {
      WindowSplit(hits[1..], tid, a, b, c);
    }
  }

  lemma TruncDivMonotone(a: int, b: int)
    requires a <= b
    ensures TruncDiv(a, 1000) <= TruncDiv(b, 1000)
  {
    if a < 0 && b >= 0 {
    } else if a < 0 {
      assert (-b) / 1000 <= (-a) / 1000;
    }
  }

  lemma DayMonotone(a: int, b: int)
    requires a <= b
    ensures !Before(FromMs(b).date, FromMs(a).date)
  {
    TruncDivMonotone(a, b);
    var sa, sb := TruncDiv(a, 1000), TruncDiv(b, 1000);
    assert sa / SecondsPerDay <= sb / SecondsPerDay;
    AddDaysMonotone(Epoch, sa / SecondsPerDay, sb / SecondsPerDay);
  }

  /** Every hit in the window falls on a day of the tables read. */
  lemma RangeCovers(stime: int, etime: int, ms: int)
    requires stime <= ms < etime
    ensures var (first, last) := TableRange(stime, etime);
      !Before(FromMs(ms).date, first) && !Before(last, FromMs(ms).date)
  {
    DayMonotone(stime - 3600000, ms);
    DayMonotone(ms, etime);
  }

  // ---------------------------------------------------------------- the document

  /** One result row of the query: the dimensions and `COUNT(qs_json) AS c`. */
  datatype QueryRow = QueryRow(dims: Dims, c: int)

  /** One stored record: the dimensions and `count`. */
  datatype StatRecord = StatRecord(dims: Dims, count: int)

  datatype Meta = Meta(stime: int, etime: int, tid: string)

  /** `{'meta': {'stime', 'etime', 'tid'}, 'result': [...]}`. */
  datatype StatDocument = StatDocument(meta: Meta, result: seq<StatRecord>)

  function RecordOf(r: QueryRow): StatRecord { StatRecord(r.dims, r.c) }

  /** The document the job writes: the window echoed and one record per row in query order. */
  function Document(tid: string, stime: int, etime: int, rows: seq<QueryRow>): (d: StatDocument)
    ensures d.meta == Meta(stime, etime, tid)
    ensures |d.result| == |rows|
    ensures forall i :: 0 <= i < |rows| ==> d.result[i].dims == rows[i].dims && d.result[i].count == rows[i].c
  {
    StatDocument(Meta(stime, etime, tid), seq(|rows|, i requires 0 <= i < |rows| => RecordOf(rows[i])))
  }

  /** The total count stored is the total the query returned. */
  function TotalCount(rs: seq<StatRecord>): int
  {
    if rs == [] then 0 else TotalCount(rs[..|rs| - 1]) + rs[|rs| - 1].count
  }

  function TotalC(rows: seq<QueryRow>): int
  {
    if rows == [] then 0 else TotalC(rows[..|rows| - 1]) + rows[|rows| - 1].c
  }

  lemma {:induction false} DocumentKeepsTotal(tid: string, stime: int, etime: int, rows: seq<QueryRow>)
    ensures TotalCount(Document(tid, stime, etime, rows).result) == TotalC(rows)
    decreases |rows|
  {
    if rows != [] {
      var init := rows[..|rows| - 1];
      DocumentKeepsTotal(tid, stime, etime, init);
      assert Document(tid, stime, etime, rows).result[..|rows| - 1] == Document(tid, stime, etime, init).result;
    }
  }
}
