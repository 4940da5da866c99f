/** The admin API's container-user routes: the bounds written into the
    user queries, the paging of their results (the first page carries the
    header row and files the usage report), the row transforms, and the
    lookup that supplies the verification key to the per-user query. */
module ContainerUsers {
  import opened Wrappers
  import opened Strings
  import opened Calendar
  import JsonData

  // ---------------------------------------------------------------- query bounds

  /** `datetime.utcfromtimestamp(ms / 1000)` truncated to whole seconds,
      as `strftime` prints it. */
  function AtMs(ms: int): DateTime
  {
    FromEpochSeconds(ms / 1000)
  }

  /** The four bounds both user queries embed: partition days as `%Y%m%d`
      and event times as `%Y-%m-%d %H:%M:%S`, all in UTC. */
  datatype Bounds = Bounds(dayFrom: string, dayTo: string, timeFrom: string, timeTo: string)

  /** The bounds of one instant, as the query compares them: for a four-digit
      year the day bound is a digit string whose value is
      `year * 10000 + month * 100 + day`, and it is the date part of the time
      bound with its dashes removed, so both bounds name the same day. */
  function QueryBounds(stime: int, etime: int): (b: Bounds)
    ensures b.timeFrom == SqlTimestamp(AtMs(stime)) && b.timeTo == SqlTimestamp(AtMs(etime))
    ensures b.dayFrom == CompactDate(AtMs(stime).date) && b.dayTo == CompactDate(AtMs(etime).date)
    ensures FourDigitYear(AtMs(stime).date) ==>
      var d := AtMs(stime).date;
      AllDigits(b.dayFrom) && ParseDecimal(b.dayFrom) == d.year * 10000 + d.month * 100 + d.day &&
      |b.timeFrom| == 19 && b.dayFrom == b.timeFrom[0..4] + b.timeFrom[5..7] + b.timeFrom[8..10]
    ensures FourDigitYear(AtMs(etime).date) ==>
      var d := AtMs(etime).date;
      AllDigits(b.dayTo) && ParseDecimal(b.dayTo) == d.year * 10000 + d.month * 100 + d.day &&
      |b.timeTo| == 19 && b.dayTo == b.timeTo[0..4] + b.timeTo[5..7] + b.timeTo[8..10]
  {
    DayBound(stime);
    DayBound(etime);
    var s := AtMs(stime);
    var e := AtMs(etime);
    Bounds(CompactDate(s.date), CompactDate(e.date), SqlTimestamp(s), SqlTimestamp(e))
  }

  lemma DayBound(ms: int)
    ensures var t := AtMs(ms);
      FourDigitYear(t.date) ==>
        AllDigits(CompactDate(t.date)) &&
        ParseDecimal(CompactDate(t.date)) == t.date.year * 10000 + t.date.month * 100 + t.date.day &&
        |SqlTimestamp(t)| == 19 &&
        CompactDate(t.date) == SqlTimestamp(t)[0..4] + SqlTimestamp(t)[5..7] + SqlTimestamp(t)[8..10]
  {
    if FourDigitYear(AtMs(ms).date) {
      CompactDateValue(AtMs(ms).date);
      DayMatchesTime(ms);
    }
  }

  /** A `%Y%m%d` bound reads as the number the query compares the partition
      columns with: `year * 10000 + month * 100 + day`. */
  lemma CompactDateValue(d: Date)
    requires ValidDate(d) && FourDigitYear(d)
    ensures AllDigits(CompactDate(d))
    ensures ParseDecimal(CompactDate(d)) == d.year * 10000 + d.month * 100 + d.day
  {
    YearSpec(d.year);
    TwoSpec(d.month);
    TwoSpec(d.day);
    assert Pow10(2) == 100 by { assert Pow10(1) == 10; }
    var y, m, dd := YearText(d.year), Two(d.month), Two(d.day);
    ParseDecimalAppend(y, m);
    ParseDecimalAppend(y + m, dd);
    assert CompactDate(d) == (y + m) + dd;
  }

  /** The `%Y%m%d` text of an instant is the date of its `%Y-%m-%d %H:%M:%S`
      text with the dashes removed. */
  lemma DayMatchesTime(ms: int)
    requires FourDigitYear(AtMs(ms).date)
    ensures var t := AtMs(ms);
      |SqlTimestamp(t)| == 19 &&
      CompactDate(t.date) == SqlTimestamp(t)[0..4] + SqlTimestamp(t)[5..7] + SqlTimestamp(t)[8..10]
  {
    var t := AtMs(ms);
    YearSpec(t.date.year);
    TwoSpec(t.date.month);
    TwoSpec(t.date.day);
    TwoSpec(t.hour);
    TwoSpec(t.minute);
    TwoSpec(t.second);
    var y, m, d := YearText(t.date.year), Two(t.date.month), Two(t.date.day);
    var ts := SqlTimestamp(t);
    assert ts == y + "-" + m + "-" + d + " " + Two(t.hour) + ":" + Two(t.minute) + ":" + Two(t.second);
    assert ts[0..4] == y && ts[5..7] == m && ts[8..10] == d;
  }

  // ---------------------------------------------------------------- result pages

  /** A result cell: `{}` for SQL null (`None`), else its `VarCharValue`. */
  type Cell = Option<string>

  type ResultRow = seq<Cell>

  predicate Truthy(o: Option<string>) { o.Some? && o.value != "" }

  /** `athena_result_args`: the execution id, and the paging token only
      when the request carried a non-empty one. */
  function ResultArgs(executionId: string, nextKey: Option<string>): (a: (string, Option<string>))
    ensures a.0 == executionId
    ensures a.1.Some? <==> Truthy(nextKey)
    ensures a.1.Some? ==> a.1 == nextKey
  {
    (executionId, if Truthy(nextKey) then nextKey else None)
  }

  /** Applies a row transform to every row; one failing row (a missing
      column or an unparsable number raises) fails the page. */
  function TransformAll<I>(rows: seq<ResultRow>, f: ResultRow -> Option<I>): (r: Option<seq<I>>)
    ensures r.Some? <==> forall i :: 0 <= i < |rows| ==> f(rows[i]).Some?
    ensures r.Some? ==> |r.value| == |rows| && forall i :: 0 <= i < |rows| ==> f(rows[i]) == Some(r.value[i])
  {
    if rows == [] then Some([])
    else
      var rest := TransformAll(rows[1..], f);
      assert forall i :: 1 <= i < |rows| ==> rows[i] == rows[1..][i - 1];
      match f(rows[0])
      case None => None
      case Some(x) => if rest.None? then None else Some([x] + rest.value)
  }

  const Succeeded := "SUCCEEDED"

  /** A page as the route returns it, with whether the usage report was
      filed; `Raised`: a row transform failed (after any usage report). */
  datatype Page<I> =
    | Page(state: string, items: seq<I>, next: Option<string>, usageSaved: bool)
    | Raised(usageSaved: bool)

  /** The rows a page reads: the first page (no paging token) starts with
      the header row, which is dropped. */
  function DataRows(rows: seq<ResultRow>, nextKey: Option<string>): (d: seq<ResultRow>)
    ensures Truthy(nextKey) ==> d == rows
    ensures !Truthy(nextKey) && rows != [] ==> d == rows[1..]
    ensures !Truthy(nextKey) && rows == [] ==> d == []
  {
    if Truthy(nextKey) then rows else if rows == [] then [] else rows[1..]
  }

  /** `GET /query_result/{execution_id}` (both variants): no items unless
      the query SUCCEEDED; the first page files the usage report once; the
      `next` token is the result's `NextToken`. */
  function ResultPage<I>(state: string, nextKey: Option<string>, rows: seq<ResultRow>,
                         nextToken: Option<string>, f: ResultRow -> Option<I>): (p: Page<I>)
    ensures state != Succeeded ==> p == Page(state, [], None, false)
    ensures state == Succeeded ==> p.usageSaved == !Truthy(nextKey)
    ensures p.Page? && state == Succeeded ==> p.next == nextToken && p.state == state
    ensures p.Raised? <==> state == Succeeded && exists i :: 0 <= i < |DataRows(rows, nextKey)| && f(DataRows(rows, nextKey)[i]).None?
  {
    if state != Succeeded then Page(state, [], None, false)
    else
      var first := !Truthy(nextKey);
      match TransformAll(DataRows(rows, nextKey), f)
      case None => Raised(first)
      case Some(items) => Page(state, items, nextToken, first)
  }

  /** The first page has one item per row after the header; every later
      page has one item per row, each the transform of its row. */
  lemma PageItems<I>(state: string, nextKey: Option<string>, rows: seq<ResultRow>,
                     nextToken: Option<string>, f: ResultRow -> Option<I>)
    requires state == Succeeded && ResultPage(state, nextKey, rows, nextToken, f).Page?
    ensures var p := ResultPage(state, nextKey, rows, nextToken, f);
      && (!Truthy(nextKey) && rows != [] ==>
            |p.items| == |rows| - 1 && forall i :: 1 <= i < |rows| ==> f(rows[i]) == Some(p.items[i - 1]))
      && (Truthy(nextKey) ==>
            |p.items| == |rows| && forall i :: 0 <= i < |rows| ==> f(rows[i]) == Some(p.items[i]))
  {
    var p := ResultPage(state, nextKey, rows, nextToken, f);
    if !Truthy(nextKey) && rows != [] {
      forall i | 1 <= i < |rows| ensures f(rows[i]) == Some(p.items[i - 1])
      {
        assert rows[i] == DataRows(rows, nextKey)[i - 1];
      }
    }
  }

  /** The usage report is filed by exactly the successful requests that fetch
      results without a paging token: on every such request, so fetching the
      first page twice files it twice. */
  lemma UsageOnFirstPageOnly<I>(state: string, nextKey: Option<string>, rows: seq<ResultRow>,
                                nextToken: Option<string>, f: ResultRow -> Option<I>, executionId: string)
    ensures ResultPage(state, nextKey, rows, nextToken, f).usageSaved <==>
              state == Succeeded && ResultArgs(executionId, nextKey).1.None?
  {
  }

  // ---------------------------------------------------------------- row transforms

  /** A row of the users query: client id, user id (null kept), count. */
  datatype UserItem = UserItem(cid: string, uid: Option<string>, c: nat)

  /** `int(s)` on the non-negative decimal counts the query returns. */
  predicate IsCount(s: string) { s != [] && AllDigits(s) }

  /** The users-query row transform: `cid` must be present, `c` must be a
      count, and `uid` is null when its cell is. */
  function UserItemOf(row: ResultRow): (u: Option<UserItem>)
    ensures u.Some? <==> |row| >= 3 && row[0].Some? && row[2].Some? && IsCount(row[2].value)
    ensures u.Some? ==> u.value.cid == row[0].value && u.value.uid == row[1] &&
                        Decimal(u.value.c) != [] && u.value.c == ParseDecimal(row[2].value)
  {
    if |row| >= 3 && row[0].Some? && row[2].Some? && IsCount(row[2].value)
    then Some(UserItem(row[0].value, row[1], ParseDecimal(row[2].value)))
    else None
  }

  /** `is_verified`: the reported text, or `False` for a null cell. */
  datatype Verified = Reported(text: string) | DefaultFalse

  /** A row of the per-user query; every column but `datetime` may be null. */
  datatype DetailItem = DetailItem(datetime: string, state: Option<string>, dt: Option<string>, dl: Option<string>,
                                   psid: Option<string>, uid: Option<string>, uhash: Option<string>,
                                   isVerified: Verified, userAgent: Option<string>)

  function DetailItemOf(row: ResultRow): (d: Option<DetailItem>)
    ensures d.Some? <==> |row| >= 9 && row[0].Some?
    ensures d.Some? ==> d.value.datetime == row[0].value && d.value.state == row[1] &&
                        d.value.userAgent == row[8] &&
                        (d.value.isVerified == DefaultFalse <==> row[7].None?)
  {
    if |row| >= 9 && row[0].Some? then
      Some(DetailItem(row[0].value, row[1], row[2], row[3], row[4], row[5], row[6],
                      if row[7].Some? then Reported(row[7].value) else DefaultFalse, row[8]))
    else None
  }

  // ---------------------------------------------------------------- per-user query

  /** What the per-user start embeds: the verification key and the bounds. */
  datatype UserQuery = UserQuery(hashKey: string, cid: string, bounds: Bounds)

  /** The container's `hash_key` as the start route reads it: from the
      top level of the `get_item` response (`hash_key or ''`). */
  function HashKeyAsWritten(response: JsonData.Object): string
  {
    if "hash_key" in response && response["hash_key"].JStr? then response["hash_key"].s else ""
  }

  /** The container's `hash_key` read from the record itself. */
  function ItemHashKey(response: JsonData.Object): string
  {
    if "Item" in response && response["Item"].JObject? && "hash_key" in response["Item"].fields &&
       response["Item"].fields["hash_key"].JStr?
    then response["Item"].fields["hash_key"].s
    else ""
  }

  /** A `get_item` response: the record under `Item` and nothing else of it. */
  predicate GetItemShape(response: JsonData.Object)
  {
    forall k :: k in response ==> k == "Item" || k == "ResponseMetadata"
  }

  /** As written, a `get_item` response never yields the key: the query
      always verifies against the empty key, whatever the record holds. */
  lemma AsWrittenIgnoresRecordKey(response: JsonData.Object)
    requires GetItemShape(response)
    ensures HashKeyAsWritten(response) == ""
  {
  }

  /** A record with key `k` for which the two readings differ. */
  lemma AsWrittenMissesKey(k: string)
    requires k != ""
    ensures var response := map["Item" := JsonData.JObject(map["hash_key" := JsonData.JStr(k)])];
      GetItemShape(response) && HashKeyAsWritten(response) == "" && ItemHashKey(response) == k
  {
  }

  /** `POST /{cid}/start_query` as written: 404 without a record. */
  function StartUserQueryAsWritten(response: JsonData.Object, cid: string, stime: int, etime: int): (q: Option<UserQuery>)
    ensures q.Some? <==> "Item" in response
    ensures q.Some? ==> q.value.hashKey == HashKeyAsWritten(response)
  {
    if "Item" !in response then None
    else Some(UserQuery(HashKeyAsWritten(response), cid, QueryBounds(stime, etime)))
  }

  /** The start route reading the key from the record: the query verifies
      user hashes against the container's own key. */
  function StartUserQuery(response: JsonData.Object, cid: string, stime: int, etime: int): (q: Option<UserQuery>)
    ensures q.Some? <==> "Item" in response
    ensures q.Some? ==> q.value.hashKey == ItemHashKey(response) && q.value.bounds == QueryBounds(stime, etime)
  {
    if "Item" !in response then None
    else Some(UserQuery(ItemHashKey(response), cid, QueryBounds(stime, etime)))
  }
}
