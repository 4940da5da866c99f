/** The client API's stat routes: the URL view of a finished stats document,
    optionally narrowed to the edges whose (normalized) url or p_url matches a
    route template, merged per edge and enriched with the details of the click
    that led to an edge; and the time range of a new stats job. */
module ClientStats {
  import opened Wrappers
  import opened Grouping
  import opened Calendar
  import opened DataRetrieverApp
  import opened GraphUtil
  import Url

  const Complete := "COMPLETE"
  const ClickPrefix := "click_"

  /** The stat table item of a stats file; only its status is read here. */
  datatype FileInfo = FileInfo(status: string)

  /** The stored document: `meta`, `result` and, when present, `event_table`. */
  datatype Doc<E> = Doc(meta: Meta, result: seq<StatRecord>, eventTable: Option<E>)

  /** `p_title`, `p_label`, `p_xpath`, `p_a_id` and `p_class` set by the enrichment. */
  datatype Parent = Parent(pTitle: Option<string>, pLabel: Option<string>, pXpath: Option<string>,
                           pAId: Option<string>, pClass: Option<string>)

  /** One returned row: the record, and the parent details when they were set. */
  datatype Node = Node(record: StatRecord, parent: Option<Parent>)

  /** The route's answer: 404, or the document as returned. */
  datatype UrlView<E> = Missing | Ok(meta: Meta, result: seq<Node>, eventTable: Option<E>)

  // ---------------------------------------------------------------- the filter

  /** `_match_url(url_filter, _normalizeUrl(url)) or _match_url(url_filter, _normalizeUrl(p_url))`. */
  predicate Passes(filter: string, r: StatRecord)
  {
    Url.MatchUrl(filter, Url.NormalizeUrl(r.dims.url)) || Url.MatchUrl(filter, Url.NormalizeUrl(r.dims.pUrl))
  }

  /** A passing row carries its normalized URLs from then on. */
  function Normalized(r: StatRecord): StatRecord
  {
    r.(dims := r.dims.(url := Url.NormalizeUrl(r.dims.url), pUrl := Url.NormalizeUrl(r.dims.pUrl)))
  }

  /** The rows that pass the filter, normalized, in order. */
  function Kept(filter: string, rows: seq<StatRecord>): (ks: seq<StatRecord>)
    ensures |ks| <= |rows|
    ensures forall k :: k in ks ==> Url.MatchUrl(filter, k.dims.url) || Url.MatchUrl(filter, k.dims.pUrl)
    ensures forall r :: r in rows && Passes(filter, r) ==> Normalized(r) in ks
    ensures forall k :: k in ks ==> exists r :: r in rows && Passes(filter, r) && k == Normalized(r)
  {
    if rows == [] then []
    else
      var rest := Kept(filter, rows[1..]);
      assert forall r :: r in rows[1..] ==> r in rows;
      if Passes(filter, rows[0]) then [Normalized(rows[0])] + rest else rest
  }

  // ---------------------------------------------------------------- enrichment

  /** A click state some merged edge leaves from but no merged edge arrives at:
      `set(p_states) - set(states)`, minus None, kept when it starts with "click_". */
  predicate Orphan(groups: seq<StatRecord>, st: string)
  {
    && ClickPrefix <= st
    && (exists g :: 0 <= g < |groups| && groups[g].dims.pState == Some(st))
    && (forall g :: 0 <= g < |groups| ==> groups[g].dims.state != Some(st))
  }

  /** Index of the first raw row arriving at `st`, or `|raw|`. */
  function FindState(raw: seq<StatRecord>, st: string): (i: nat)
    ensures i <= |raw|
    ensures i < |raw| ==> raw[i].dims.state == Some(st)
    ensures forall j :: 0 <= j < i ==> raw[j].dims.state != Some(st)
  {
    if raw == [] then 0
    else if raw[0].dims.state == Some(st) then 0
    else 1 + FindState(raw[1..], st)
  }

  /** The details copied from the click row: its label is both title and label. */
  function ParentFrom(r: StatRecord): Parent
  {
    Parent(r.dims.eventLabel, r.dims.eventLabel, r.dims.xpath, r.dims.aId, r.dims.klass)
  }

  function EnrichOne(groups: seq<StatRecord>, raw: seq<StatRecord>, g: StatRecord): Node
  {
    var ps := g.dims.pState;
    if ps.Some? && Orphan(groups, ps.value) && FindState(raw, ps.value) < |raw|
    then Node(g, Some(ParentFrom(raw[FindState(raw, ps.value)])))
    else Node(g, None)
  }

  /** The loop over `diff_states`: each orphan click state with a raw row
      gives every merged edge leaving it the details of the first raw row
      arriving at it. The states are distinct, so the set's order does not
      matter. */
  function Enrich(groups: seq<StatRecord>, raw: seq<StatRecord>): (ns: seq<Node>)
    ensures |ns| == |groups|
    ensures forall i :: 0 <= i < |groups| ==> ns[i].record == groups[i]
    ensures forall i :: 0 <= i < |groups| ==> (ns[i].parent.Some? <==>
              groups[i].dims.pState.Some? && Orphan(groups, groups[i].dims.pState.value) &&
              exists j :: 0 <= j < |raw| && raw[j].dims.state == groups[i].dims.pState)
    ensures forall i :: 0 <= i < |groups| && ns[i].parent.Some? ==>
              exists j :: 0 <= j < |raw| && raw[j].dims.state == groups[i].dims.pState &&
                (forall k :: 0 <= k < j ==> raw[k].dims.state != groups[i].dims.pState) &&
                ns[i].parent.value == ParentFrom(raw[j])
  {
    seq(|groups|, i requires 0 <= i < |groups| => EnrichOne(groups, raw, groups[i]))
  }

  // ---------------------------------------------------------------- the route

  function Plain(rows: seq<StatRecord>): (ns: seq<Node>)
    ensures |ns| == |rows|
    ensures forall i :: 0 <= i < |rows| ==> ns[i] == Node(rows[i], None)
  {
    seq(|rows|, i requires 0 <= i < |rows| => Node(rows[i], None))
  }

  /** `get_container_stats_url_data`: `record` is the stat table item (if
      any) and `doc` the stored document it points at. */
  function UrlData<E>(record: Option<FileInfo>, filter: Option<string>, doc: Doc<E>): (v: UrlView<E>)
    ensures v.Missing? <==> record.None? || record.value.status != Complete
    ensures v.Ok? && !Truthy(filter) ==> v == Ok(doc.meta, Plain(doc.result), doc.eventTable)
    ensures v.Ok? && Truthy(filter) ==> v.meta == doc.meta && v.eventTable.None?
  {
    if record.None? || record.value.status != Complete then Missing
    else if !Truthy(filter) then Ok(doc.meta, Plain(doc.result), doc.eventTable)
    else
      var groups := MergeSameId(Kept(filter.value, doc.result));
      Ok(doc.meta, Enrich(groups, doc.result), None)
  }

  /** The merged passing rows: one per edge, each with normalized URLs of
      which one matches the filter, each carrying its edge's total count. */
  lemma MergedKept(filter: string, rows: seq<StatRecord>)
    ensures var kept := Kept(filter, rows);
            var g := MergeSameId(kept);
      && (forall i, j :: 0 <= i < j < |g| ==> KeyOf(g[i]) != KeyOf(g[j]))
      && (forall i :: 0 <= i < |g| ==> Url.MatchUrl(filter, g[i].dims.url) || Url.MatchUrl(filter, g[i].dims.pUrl))
      && (forall i :: 0 <= i < |g| ==> g[i].count == SumOf(Select(kept, KeyOf, KeyOf(g[i])), CountOf))
  {
    var kept := Kept(filter, rows);
    var g := MergeSameId(kept);
    MergeSameIdSpec(kept);
    forall i, j | 0 <= i < j < |g| ensures KeyOf(g[i]) != KeyOf(g[j])
    {
      assert Keys(g, KeyOf)[i] != Keys(g, KeyOf)[j];
    }
    forall i | 0 <= i < |g|
      ensures Url.MatchUrl(filter, g[i].dims.url) || Url.MatchUrl(filter, g[i].dims.pUrl)
    {
      var s := Select(kept, KeyOf, KeyOf(g[i]));
      SelectIn(kept, KeyOf, KeyOf(g[i]));
      assert s[0] in s;
    }
  }

  /** With a filter, the route returns exactly those merged rows, in order. */
  lemma FilteredRows<E>(record: FileInfo, filter: string, doc: Doc<E>)
    requires record.status == Complete && filter != []
    ensures var v := UrlData(Some(record), Some(filter), doc);
            var kept := Kept(filter, doc.result);
      && v.Ok?
      && (forall i, j :: 0 <= i < j < |v.result| ==> KeyOf(v.result[i].record) != KeyOf(v.result[j].record))
      && (forall i :: 0 <= i < |v.result| ==>
            Url.MatchUrl(filter, v.result[i].record.dims.url) || Url.MatchUrl(filter, v.result[i].record.dims.pUrl))
      && (forall i :: 0 <= i < |v.result| ==>
            v.result[i].record.count == SumOf(Select(kept, KeyOf, KeyOf(v.result[i].record)), CountOf))
  {
    var g := MergeSameId(Kept(filter, doc.result));
    var v := UrlData(Some(record), Some(filter), doc);
    FilteredIsEnriched(record, filter, doc);
    MergedKept(filter, doc.result);
    EnrichKeepsRecords(g, doc.result);
    forall i | 0 <= i < |v.result| ensures v.result[i].record == g[i]
    {
      assert RecordsOf(v.result)[i] == v.result[i].record;
    }
  }

  lemma FilteredIsEnriched<E>(record: FileInfo, filter: string, doc: Doc<E>)
    requires record.status == Complete && filter != []
    ensures var v := UrlData(Some(record), Some(filter), doc);
      v.Ok? && v.result == Enrich(MergeSameId(Kept(filter, doc.result)), doc.result)
  {
  }

  lemma EnrichKeepsRecords(groups: seq<StatRecord>, raw: seq<StatRecord>)
    ensures RecordsOf(Enrich(groups, raw)) == groups
  {
  }

  /** Merging keeps every passing row's count. */
  lemma FilteredTotal<E>(record: FileInfo, filter: string, doc: Doc<E>)
    requires record.status == Complete && filter != []
    ensures var v := UrlData(Some(record), Some(filter), doc);
      v.Ok? && SumOf(RecordsOf(v.result), CountOf) == SumOf(Kept(filter, doc.result), CountOf)
  {
    var groups := MergeSameId(Kept(filter, doc.result));
    MergeSameIdSpec(Kept(filter, doc.result));
    assert RecordsOf(Enrich(groups, doc.result)) == groups;
  }

  function RecordsOf(ns: seq<Node>): (rs: seq<StatRecord>)
    ensures |rs| == |ns|
    ensures forall i :: 0 <= i < |ns| ==> rs[i] == ns[i].record
  {
    seq(|ns|, i requires 0 <= i < |ns| => ns[i].record)
  }

  // ---------------------------------------------------------------- new stats job

  /** A bound of a new stats job: midnight from the clock, or the request's value. */
  datatype Bound = Clock(at: DateTime) | Given(ms: int)

  /** `make_container_stats`: by default yesterday 00:00 to today 00:00; the
      body's `stime` and `etime` each replace their default on their own. */
  function JobRange(today: Date, bodyStime: Option<int>, bodyEtime: Option<int>): (r: (Bound, Bound))
    requires ValidDate(today)
    ensures r.0.Given? <==> bodyStime.Some?
    ensures r.1.Given? <==> bodyEtime.Some?
    ensures bodyStime.Some? ==> r.0 == Given(bodyStime.value)
    ensures bodyEtime.Some? ==> r.1 == Given(bodyEtime.value)
  {
    var stime := if bodyStime.Some? then Given(bodyStime.value) else Clock(StartOfDay(PrevDay(today)));
    var etime := if bodyEtime.Some? then Given(bodyEtime.value) else Clock(StartOfDay(today));
    (stime, etime)
  }

  /** The default range is one whole day: two consecutive midnights. */
  lemma DefaultRangeOneDay(today: Date)
    requires ValidDate(today)
    ensures var r := JobRange(today, None, None);
      r.0.Clock? && r.1.Clock? && ValidDate(r.0.at.date) &&
      NextDay(r.0.at.date) == r.1.at.date && r.0.at.hour == 0 && r.1.at.hour == 0 &&
      r.0.at.minute == 0 && r.0.at.second == 0 && r.1.at.minute == 0 && r.1.at.second == 0
  {
    StepInverse(today);
  }
}
