/** The post-query merges of the admin report routes: the URL list and
    URL-link graph, the hourly URL table, and the event table. Each route reads
    the query's result rows in order, normalizes their URLs, and folds rows that
    share a grouping key into the first such row (the `Grouping` loop). The
    stored report is written under `ObjectName`. */
module AdminStats {
  import opened Wrappers
  import opened Strings
  import opened Grouping
  import opened Url
  import opened Calendar
  import opened Naming

  // ---------------------------------------------------------------- object names

  /** `generate_object_name`: `[org/]tid/<stime>_<etime>_<suffix>.json`. */
  function ObjectName(org: string, tid: string, stime: DateTime, etime: DateTime, suffix: string): string
  {
    OrgPrefix(org) + tid + "/" + Stamp14(stime) + "_" + Stamp14(etime) + "_" + suffix + ".json"
  }

  lemma ObjectNameShape(pre: string, a: string, b: string, suffix: string)
    requires |a| == 14 && |b| == 14
    ensures var n := pre + "/" + a + "_" + b + "_" + suffix + ".json";
      n[|pre| + 1..|pre| + 15] == a && n[|pre| + 16..|pre| + 30] == b &&
      n[|pre| + 31..|n| - 5] == suffix
  {
  }

  /** The name depends on the range only through its two stamps, and different
      ranges (of valid times with four-digit years) give different names, so
      re-running a range overwrites its own report and no other. */
  lemma ObjectNameInjective(org: string, tid: string, s1: DateTime, e1: DateTime,
                            s2: DateTime, e2: DateTime, suffix: string)
    requires ValidDateTime(s1) && FourDigitYear(s1.date) && ValidDateTime(e1) && FourDigitYear(e1.date)
    requires ValidDateTime(s2) && FourDigitYear(s2.date) && ValidDateTime(e2) && FourDigitYear(e2.date)
    requires ObjectName(org, tid, s1, e1, suffix) == ObjectName(org, tid, s2, e2, suffix)
    ensures s1 == s2 && e1 == e2
  {
    StampRoundTrip(s1);
    StampRoundTrip(e1);
    StampRoundTrip(s2);
    StampRoundTrip(e2);
    var pre := OrgPrefix(org) + tid;
    ObjectNameShape(pre, Stamp14(s1), Stamp14(e1), suffix);
    ObjectNameShape(pre, Stamp14(s2), Stamp14(e2), suffix);
    assert ObjectName(org, tid, s1, e1, suffix) == pre + "/" + Stamp14(s1) + "_" + Stamp14(e1) + "_" + suffix + ".json";
    assert ObjectName(org, tid, s2, e2, suffix) == pre + "/" + Stamp14(s2) + "_" + Stamp14(e2) + "_" + suffix + ".json";
    StampInjective(s1, s2);
    StampInjective(e1, e2);
  }

  // ---------------------------------------------------------------- url_links

  /** A row of the URL-link query: the grouping columns the merge reads and the count. */
  datatype LinkRow = LinkRow(url: Option<string>, p_url: Option<string>, title: Option<string>, count: int)

  /** One entry of `url_links`: normalized endpoints, the first row's title, the summed count. */
  datatype Link = Link(url: Option<string>, p_url: Option<string>, title: Option<string>, count: int)

  function ToLink(r: LinkRow): Link
  {
    Link(NormalizeUrl(r.url), NormalizeUrl(r.p_url), r.title, r.count)
  }

  function ToLinks(rows: seq<LinkRow>): (ls: seq<Link>)
    ensures |ls| == |rows|
    ensures forall i :: 0 <= i < |rows| ==> ls[i] == ToLink(rows[i])
  {
    seq(|rows|, i requires 0 <= i < |rows| => ToLink(rows[i]))
  }

  function Present(u: Option<string>): (us: seq<string>)
    ensures forall x :: x in us <==> u == Some(x)
  {
    if u.Some? then [u.value] else []
  }

  /** The normalized URLs a row mentions, url before p_url, missing ones left out. */
  function Mentioned(l: Link): (us: seq<string>)
    ensures forall x :: x in us <==> l.url == Some(x) || l.p_url == Some(x)
  {
    Present(l.url) + Present(l.p_url)
  }

  function AllMentioned(ls: seq<Link>): seq<string>
  {
    FlatMap(ls, Mentioned)
  }

  /** One iteration of the route's first loop: `url`, then `p_url`, each appended unless present. */
  function AddMentioned(urls: seq<string>, l: Link): seq<string>
  {
    AddPresent(AddPresent(urls, l.url), l.p_url)
  }

  function AddPresent(urls: seq<string>, u: Option<string>): seq<string>
  {
    if u.Some? && u.value !in urls then urls + [u.value] else urls
  }

  lemma DistinctAppendPresent(xs: seq<string>, u: Option<string>)
    ensures Distinct(xs + Present(u)) == AddPresent(Distinct(xs), u)
  {
    if u.Some? {
      DistinctSnoc(xs, u.value);
    } else {
      assert xs + Present(u) == xs;
    }
  }

  lemma AddMentionedStep(seen: seq<string>, l: Link)
    ensures AddMentioned(Distinct(seen), l) == Distinct(seen + Mentioned(l))
  {
    DistinctAppendPresent(seen, l.url);
    DistinctAppendPresent(seen + Present(l.url), l.p_url);
    assert seen + Mentioned(l) == seen + Present(l.url) + Present(l.p_url);
  }

  /** The `urls` list of the URL-link report, built by the route's first loop. */
  method CollectUrls(rows: seq<LinkRow>) returns (urls: seq<string>)
    ensures urls == Distinct(AllMentioned(ToLinks(rows)))
    ensures NoDup(urls)
    ensures forall u :: u in urls <==> exists i :: 0 <= i < |rows| && u in Mentioned(ToLink(rows[i]))
  {
    var ls := ToLinks(rows);
    urls := [];
    var i := 0;
    while i < |rows|
      invariant 0 <= i <= |rows|
      invariant urls == Distinct(AllMentioned(ls[..i]))
    {
      assert ls[..i + 1][..i] == ls[..i];
      assert AllMentioned(ls[..i + 1]) == AllMentioned(ls[..i]) + Mentioned(ls[i]);
      AddMentionedStep(AllMentioned(ls[..i]), ls[i]);
      urls := AddMentioned(urls, ToLink(rows[i]));
      i := i + 1;
    }
    assert ls[..|rows|] == ls;
    DistinctSpec(AllMentioned(ls));
    forall u ensures u in urls <==> exists i :: 0 <= i < |rows| && u in Mentioned(ToLink(rows[i])) {
      DistinctMember(AllMentioned(ls), u);
      MentionedMember(ls, u);
    }
  }

  lemma MentionedMember(ls: seq<Link>, u: string)
    ensures u in AllMentioned(ls) <==> exists i :: 0 <= i < |ls| && u in Mentioned(ls[i])
  {
    FlatMapSpec(ls, Mentioned, u);
  }

  /** Folding a row into an entry adds its count and keeps everything else. */
  function MergeLink(acc: Link, r: Link): Link
  {
    acc.(count := acc.count + r.count)
  }

  /** The grouping key as the route spells it: `"{0}-{1}".format(url, p_url)`. */
  function ShowUrl(u: Option<string>): string
  {
    match u
    case None => "None"
    case Some(s) => s
  }

  function LinkKeyAsWritten(l: Link): string
  {
    ShowUrl(l.url) + "-" + ShowUrl(l.p_url)
  }

  /** The pair of endpoints the key stands for. */
  function LinkKey(l: Link): (Option<string>, Option<string>)
  {
    (l.url, l.p_url)
  }

  /** `url_links` as the route computes it, grouping on the formatted string key. */
  function UrlLinksAsWritten(rows: seq<LinkRow>): seq<Link>
  {
    Group(ToLinks(rows), LinkKeyAsWritten, MergeLink)
  }

  /** `url_links` grouped on the endpoint pair itself. */
  function UrlLinks(rows: seq<LinkRow>): seq<Link>
  {
    Group(ToLinks(rows), LinkKey, MergeLink)
  }

  /** One entry per distinct (url, p_url) pair in first-seen order; each entry is
      the first row of its pair with the pair's counts summed, so the total count
      is conserved. */
  lemma UrlLinksSpec(rows: seq<LinkRow>)
    ensures Grouped(ToLinks(rows), UrlLinks(rows), LinkKey, MergeLink)
    ensures NoDup(Keys(UrlLinks(rows), LinkKey))
    ensures SumOf(UrlLinks(rows), (l: Link) => l.count) == SumOf(ToLinks(rows), (l: Link) => l.count)
    ensures forall i :: 0 <= i < |UrlLinks(rows)| ==>
              UrlLinks(rows)[i].title == Select(ToLinks(rows), LinkKey, LinkKey(UrlLinks(rows)[i]))[0].title
  {
    var ls := ToLinks(rows);
    var g := UrlLinks(rows);
    GroupSpec(ls, LinkKey, MergeLink);
    GroupKeysUnique(ls, LinkKey, MergeLink);
    GroupTotal(ls, LinkKey, MergeLink, (l: Link) => l.count);
    forall i | 0 <= i < |g|
      ensures g[i].title == Select(ls, LinkKey, LinkKey(g[i]))[0].title
    {
      CollapseKeeps(Select(ls, LinkKey, LinkKey(g[i])), (l: Link) => l.title, MergeLink);
    }
  }

  /** Two different endpoint pairs whose formatted keys coincide: with a '-' in
      the URLs, `x-y` + `-` + `z` and `x` + `-` + `y-z` are the same string, so
      the route merges two rows that `UrlLinks` keeps apart. */
  lemma LinkKeyCollision(s: string, h: string, b: string, h2: string, t1: Option<string>, t2: Option<string>)
    returns (r1: LinkRow, r2: LinkRow)
    requires ValidScheme(s) && Lower(s) == s
    requires ValidScheme(b) && Lower(b) == b
    requires '?' !in h && '#' !in h && ';' !in h
    requires '?' !in h2 && '#' !in h2 && ';' !in h2
    ensures r1 == LinkRow(Some((s + "://" + h) + "-" + b), Some(s + "://" + h2), t1, 1)
    ensures r2 == LinkRow(Some(s + "://" + h), Some(b + "-" + (s + "://" + h2)), t2, 1)
    ensures LinkKey(ToLink(r1)) != LinkKey(ToLink(r2))
    ensures |UrlLinksAsWritten([r1, r2])| == 1 && |UrlLinks([r1, r2])| == 2
  {
    CollisionFixedPoints(s, h, b, h2);
    CollisionParts(s, h, b, h2);
    r1, r2 := CollidingRows(s + "://" + h, b, s + "://" + h2, t1, t2);
  }

  /** The collision for any already-normalized URLs `x-y`, `z`, `x` and `y-z`. */
  lemma CollidingRows(x: string, y: string, z: string, t1: Option<string>, t2: Option<string>)
    returns (r1: LinkRow, r2: LinkRow)
    requires NormalizeUrl(Some(x + "-" + y)) == Some(x + "-" + y)
    requires NormalizeUrl(Some(z)) == Some(z)
    requires NormalizeUrl(Some(x)) == Some(x)
    requires NormalizeUrl(Some(y + "-" + z)) == Some(y + "-" + z)
    ensures r1 == LinkRow(Some(x + "-" + y), Some(z), t1, 1)
    ensures r2 == LinkRow(Some(x), Some(y + "-" + z), t2, 1)
    ensures LinkKey(ToLink(r1)) != LinkKey(ToLink(r2))
    ensures |UrlLinksAsWritten([r1, r2])| == 1 && |UrlLinks([r1, r2])| == 2
  {
    r1 := LinkRow(Some(x + "-" + y), Some(z), t1, 1);
    r2 := LinkRow(Some(x), Some(y + "-" + z), t2, 1);
    var l1 := Link(Some(x + "-" + y), Some(z), t1, 1);
    var l2 := Link(Some(x), Some(y + "-" + z), t2, 1);
    assert ToLink(r1) == l1 && ToLink(r2) == l2;
    LinksOfPair(r1, r2);
    assert |x + "-" + y| > |x|;
    CollisionKeys(x, y, z);
    KeyCollisionMerges(l1, l2);
  }

  lemma LinksOfPair(r1: LinkRow, r2: LinkRow)
    ensures ToLinks([r1, r2]) == [ToLink(r1), ToLink(r2)]
  {
  }

  /** Rows whose formatted keys agree are merged even when their endpoints differ. */
  lemma KeyCollisionMerges(l1: Link, l2: Link)
    requires LinkKeyAsWritten(l1) == LinkKeyAsWritten(l2)
    requires LinkKey(l1) != LinkKey(l2)
    ensures |Group([l1, l2], LinkKeyAsWritten, MergeLink)| == 1
    ensures |Group([l1, l2], LinkKey, MergeLink)| == 2
  {
    GroupPair(l1, l2, LinkKeyAsWritten, MergeLink);
    GroupPair(l1, l2, LinkKey, MergeLink);
  }

  lemma CollisionParts(s: string, h: string, b: string, h2: string)
    ensures s + "://" + h + "-" + b == (s + "://" + h) + "-" + b
    ensures b + "-" + s + "://" + h2 == b + "-" + (s + "://" + h2)
  {
  }

  lemma CollisionKeys(a: string, b: string, c: string)
    ensures (a + "-" + b) + "-" + c == a + "-" + (b + "-" + c)
  {
  }

  /** The four URLs of the collision are already normalized. */
  lemma CollisionFixedPoints(s: string, h: string, b: string, h2: string)
    requires ValidScheme(s) && Lower(s) == s
    requires ValidScheme(b) && Lower(b) == b
    requires '?' !in h && '#' !in h && ';' !in h
    requires '?' !in h2 && '#' !in h2 && ';' !in h2
    ensures NormalizeUrl(Some(s + "://" + h + "-" + b)) == Some(s + "://" + h + "-" + b)
    ensures NormalizeUrl(Some(s + "://" + h)) == Some(s + "://" + h)
    ensures NormalizeUrl(Some(s + "://" + h2)) == Some(s + "://" + h2)
    ensures NormalizeUrl(Some(b + "-" + s + "://" + h2)) == Some(b + "-" + s + "://" + h2)
  {
    var hb := h + "-" + b;
    assert '?' !in hb && '#' !in hb && ';' !in hb by {
      forall j | 0 <= j < |hb| ensures hb[j] != '?' && hb[j] != '#' && hb[j] != ';' {
        if j < |h| { assert hb[j] == h[j]; }
        else if j > |h| { assert hb[j] == b[j - |h| - 1]; assert IsSchemeChar(b[j - |h| - 1]); }
      }
    }
    NormalizeFixedPoint(s, hb);
    assert s + "://" + h + "-" + b == s + "://" + hb;
    NormalizeFixedPoint(s, h);
    NormalizeFixedPoint(s, h2);
    var bs := b + "-" + s;
    SchemeJoin(b, s);
    NormalizeFixedPoint(bs, h2);
  }

  /** Two lower-case schemes joined by '-' form a lower-case scheme. */
  lemma SchemeJoin(b: string, s: string)
    requires ValidScheme(b) && Lower(b) == b
    requires ValidScheme(s) && Lower(s) == s
    ensures ValidScheme(b + "-" + s) && Lower(b + "-" + s) == b + "-" + s
  {
    var bs := b + "-" + s;
    assert bs[0] == b[0];
    forall j | 0 <= j < |bs| ensures IsSchemeChar(bs[j]) && LowerChar(bs[j]) == bs[j] {
      if j < |b| {
        assert bs[j] == b[j] && Lower(b)[j] == LowerChar(b[j]);
      } else if j > |b| {
        assert bs[j] == s[j - |b| - 1] && Lower(s)[j - |b| - 1] == LowerChar(s[j - |b| - 1]);
      }
    }
  }

  /** The schemes and hosts of one colliding pair: `http://a-b` with parent
      `http://c`, and `http://a` with parent `b-http://c`. */
  lemma LinkKeyCollisionWitness()
    ensures ValidScheme("http") && Lower("http") == "http"
    ensures ValidScheme("b") && Lower("b") == "b"
    ensures '?' !in "a" && '#' !in "a" && ';' !in "a"
    ensures '?' !in "c" && '#' !in "c" && ';' !in "c"
  {
  }

  // ---------------------------------------------------------------- url_table

  /** A row of the hourly URL-table query; every counter may be missing (a
      LEFT OUTER JOIN with no partner). */
  datatype TableRow = TableRow(
    datetime: Option<string>, url: Option<string>, p_url: Option<string>, title: Option<string>,
    count: Option<int>, session_count: Option<int>, user_count: Option<int>,
    s_count: Option<int>, sum_scroll_y: Option<real>, max_scroll_y: Option<real>,
    event_count: Option<int>, w_click_count: Option<int>, t_click_count: Option<int>,
    plt_count: Option<int>, sum_plt: Option<real>, max_plt: Option<real>)

  /** A merged row of the URL table: URLs normalized and missing counters read as 0. */
  datatype TableEntry = TableEntry(
    datetime: Option<string>, url: Option<string>, p_url: Option<string>, title: Option<string>,
    count: int, session_count: int, user_count: int,
    s_count: int, sum_scroll_y: real, max_scroll_y: real,
    event_count: int, w_click_count: int, t_click_count: int,
    plt_count: int, sum_plt: real, max_plt: real)

  /** The "initialize data" branch: the first row of a group as it is stored. */
  function ToEntry(r: TableRow): TableEntry
  {
    TableEntry(r.datetime, NormalizeUrl(r.url), NormalizeUrl(r.p_url), r.title,
               IntOrZero(r.count), IntOrZero(r.session_count), IntOrZero(r.user_count),
               IntOrZero(r.s_count), RealOrZero(r.sum_scroll_y), RealOrZero(r.max_scroll_y),
               IntOrZero(r.event_count), IntOrZero(r.w_click_count), IntOrZero(r.t_click_count),
               IntOrZero(r.plt_count), RealOrZero(r.sum_plt), RealOrZero(r.max_plt))
  }

  function ToEntries(rows: seq<TableRow>): (es: seq<TableEntry>)
    ensures |es| == |rows|
    ensures forall i :: 0 <= i < |rows| ==> es[i] == ToEntry(rows[i])
  {
    seq(|rows|, i requires 0 <= i < |rows| => ToEntry(rows[i]))
  }

  /** The (normalized url, normalized p_url, datetime) key of the merge. */
  function TableKey(e: TableEntry): (Option<string>, Option<string>, Option<string>)
  {
    (e.url, e.p_url, e.datetime)
  }

  /** The "merge data" branch as written: counters and sums added, max_scroll_y
      maximised, and max_plt added like a counter. */
  function MergeEntryAsWritten(a: TableEntry, r: TableEntry): TableEntry
  {
    MergeEntry(a, r).(max_plt := a.max_plt + r.max_plt)
  }

  /** The "merge data" branch with max_plt maximised like max_scroll_y. */
  function MergeEntry(a: TableEntry, r: TableEntry): TableEntry
  {
    a.(count := a.count + r.count,
       session_count := a.session_count + r.session_count,
       user_count := a.user_count + r.user_count,
       s_count := a.s_count + r.s_count,
       sum_scroll_y := a.sum_scroll_y + r.sum_scroll_y,
       max_scroll_y := MaxReal(a.max_scroll_y, r.max_scroll_y),
       event_count := a.event_count + r.event_count,
       w_click_count := a.w_click_count + r.w_click_count,
       t_click_count := a.t_click_count + r.t_click_count,
       plt_count := a.plt_count + r.plt_count,
       sum_plt := a.sum_plt + r.sum_plt,
       max_plt := MaxReal(a.max_plt, r.max_plt))
  }

  function UrlTableMergeAsWritten(rows: seq<TableRow>): seq<TableEntry>
  {
    Group(ToEntries(rows), TableKey, MergeEntryAsWritten)
  }

  function UrlTableMerge(rows: seq<TableRow>): seq<TableEntry>
  {
    Group(ToEntries(rows), TableKey, MergeEntry)
  }

  /** The merge loop of the URL-table route, one absorbed row per iteration. */
  method MergeTable(rows: seq<TableRow>) returns (table: seq<TableEntry>)
    ensures table == UrlTableMerge(rows)
    ensures Grouped(ToEntries(rows), table, TableKey, MergeEntry)
    ensures NoDup(Keys(table, TableKey))
  {
    table := [];
    var i := 0;
    while i < |rows|
      invariant 0 <= i <= |rows|
      invariant table == Group(ToEntries(rows[..i]), TableKey, MergeEntry)
    {
      assert ToEntries(rows[..i + 1])[..i] == ToEntries(rows[..i]);
      table := Absorb(table, ToEntry(rows[i]), TableKey, MergeEntry);
      i := i + 1;
    }
    assert rows[..|rows|] == rows;
    GroupSpec(ToEntries(rows), TableKey, MergeEntry);
    GroupKeysUnique(ToEntries(rows), TableKey, MergeEntry);
  }

  /** Every counter of a merged row is the sum of its group's counters (a missing
      counter counting 0) and max_scroll_y and max_plt are the group's maxima. */
  lemma UrlTableMeasures(rows: seq<TableRow>, i: nat)
    requires i < |UrlTableMerge(rows)|
    ensures var g := UrlTableMerge(rows)[i];
            var s := Select(ToEntries(rows), TableKey, TableKey(g));
            |s| > 0 &&
            g.count == SumOf(s, (e: TableEntry) => e.count) &&
            g.session_count == SumOf(s, (e: TableEntry) => e.session_count) &&
            g.user_count == SumOf(s, (e: TableEntry) => e.user_count) &&
            g.s_count == SumOf(s, (e: TableEntry) => e.s_count) &&
            g.plt_count == SumOf(s, (e: TableEntry) => e.plt_count) &&
            g.event_count == SumOf(s, (e: TableEntry) => e.event_count) &&
            g.w_click_count == SumOf(s, (e: TableEntry) => e.w_click_count) &&
            g.t_click_count == SumOf(s, (e: TableEntry) => e.t_click_count) &&
            g.sum_scroll_y == RealSumOf(s, (e: TableEntry) => e.sum_scroll_y) &&
            g.sum_plt == RealSumOf(s, (e: TableEntry) => e.sum_plt) &&
            g.max_scroll_y == MaxOf(s, (e: TableEntry) => e.max_scroll_y) &&
            g.max_plt == MaxOf(s, (e: TableEntry) => e.max_plt) &&
            g.title == s[0].title
  {
    var es := ToEntries(rows);
    var g := UrlTableMerge(rows)[i];
    GroupSpec(es, TableKey, MergeEntry);
    var s := Select(es, TableKey, TableKey(g));
    CollapseSum(s, (e: TableEntry) => e.count, MergeEntry);
    CollapseSum(s, (e: TableEntry) => e.session_count, MergeEntry);
    CollapseSum(s, (e: TableEntry) => e.user_count, MergeEntry);
    CollapseSum(s, (e: TableEntry) => e.s_count, MergeEntry);
    CollapseSum(s, (e: TableEntry) => e.plt_count, MergeEntry);
    CollapseSum(s, (e: TableEntry) => e.event_count, MergeEntry);
    CollapseSum(s, (e: TableEntry) => e.w_click_count, MergeEntry);
    CollapseSum(s, (e: TableEntry) => e.t_click_count, MergeEntry);
    CollapseRealSum(s, (e: TableEntry) => e.sum_scroll_y, MergeEntry);
    CollapseRealSum(s, (e: TableEntry) => e.sum_plt, MergeEntry);
    CollapseMax(s, (e: TableEntry) => e.max_scroll_y, MergeEntry);
    CollapseMax(s, (e: TableEntry) => e.max_plt, MergeEntry);
    CollapseKeeps(s, (e: TableEntry) => e.title, MergeEntry);
  }

  /** As written, a merged row's max_plt is the sum of its group's maxima. */
  lemma UrlTableMaxPltAsWritten(rows: seq<TableRow>, i: nat)
    requires i < |UrlTableMergeAsWritten(rows)|
    ensures var g := UrlTableMergeAsWritten(rows)[i];
            var s := Select(ToEntries(rows), TableKey, TableKey(g));
            |s| > 0 && g.max_plt == RealSumOf(s, (e: TableEntry) => e.max_plt)
  {
    var es := ToEntries(rows);
    var g := UrlTableMergeAsWritten(rows)[i];
    GroupSpec(es, TableKey, MergeEntryAsWritten);
    CollapseRealSum(Select(es, TableKey, TableKey(g)), (e: TableEntry) => e.max_plt, MergeEntryAsWritten);
  }

  /** Two page views of one URL in one hour, with slowest loads of 100 ms and
      200 ms, are reported as written with a "maximum" of 300 ms. */
  lemma UrlTableMaxPltCounterexample(r: TableRow)
    requires r.max_plt == Some(100.0)
    ensures var r2 := r.(max_plt := Some(200.0));
            UrlTableMergeAsWritten([r, r2])[0].max_plt == 300.0 &&
            UrlTableMerge([r, r2])[0].max_plt == 200.0
  {
    var r2 := r.(max_plt := Some(200.0));
    var e1 := ToEntry(r);
    var e2 := ToEntry(r2);
    assert ToEntries([r, r2]) == [e1, e2];
    assert TableKey(e2) == TableKey(e1);
    GroupPair(e1, e2, TableKey, MergeEntryAsWritten);
    GroupPair(e1, e2, TableKey, MergeEntry);
  }

  /** `sum / count` when the count is positive, missing otherwise (avg_scroll_y, avg_plt). */
  function Average(sum: real, count: int): (a: Option<real>)
    ensures a.Some? <==> count > 0
    ensures a.Some? ==> a.value * (count as real) == sum
  {
    if count > 0 then Some(sum / count as real) else None
  }

  /** A stored URL-table row: the merged entry with its two averages. */
  datatype TableReportRow = TableReportRow(entry: TableEntry, avg_scroll_y: Option<real>, avg_plt: Option<real>)

  function WithAverages(e: TableEntry): (t: TableReportRow)
    ensures t.entry == e
    ensures t.avg_scroll_y.Some? <==> e.s_count > 0
    ensures t.avg_plt.Some? <==> e.plt_count > 0
    ensures t.avg_scroll_y.Some? ==> t.avg_scroll_y.value * (e.s_count as real) == e.sum_scroll_y
    ensures t.avg_plt.Some? ==> t.avg_plt.value * (e.plt_count as real) == e.sum_plt
  {
    TableReportRow(e, Average(e.sum_scroll_y, e.s_count), Average(e.sum_plt, e.plt_count))
  }

  /** The `table` of the URL-table report. */
  function UrlTable(rows: seq<TableRow>): (t: seq<TableReportRow>)
    ensures |t| == |UrlTableMerge(rows)|
    ensures forall i :: 0 <= i < |t| ==> t[i] == WithAverages(UrlTableMerge(rows)[i])
  {
    var m := UrlTableMerge(rows);
    seq(|m|, i requires 0 <= i < |m| => WithAverages(m[i]))
  }

  // ---------------------------------------------------------------- event_table

  datatype EventRow = EventRow(url: Option<string>, title: Option<string>, state: Option<string>,
                               labelText: Option<string>, count: int)

  function ToEvent(r: EventRow): EventRow { r.(url := NormalizeUrl(r.url)) }

  function ToEvents(rows: seq<EventRow>): (es: seq<EventRow>)
    ensures |es| == |rows|
    ensures forall i :: 0 <= i < |rows| ==> es[i] == ToEvent(rows[i])
  {
    seq(|rows|, i requires 0 <= i < |rows| => ToEvent(rows[i]))
  }

  function EventKey(e: EventRow): (Option<string>, Option<string>) { (e.url, e.state) }

  function MergeEvent(a: EventRow, r: EventRow): EventRow { a.(count := a.count + r.count) }

  /** The `table` of the event-table report. */
  function EventTable(rows: seq<EventRow>): seq<EventRow>
  {
    Group(ToEvents(rows), EventKey, MergeEvent)
  }

  /** One row per (normalized url, state) in first-seen order, holding the first
      row's title and label and the group's summed count; no count is lost. */
  lemma EventTableSpec(rows: seq<EventRow>)
    ensures Grouped(ToEvents(rows), EventTable(rows), EventKey, MergeEvent)
    ensures NoDup(Keys(EventTable(rows), EventKey))
    ensures SumOf(EventTable(rows), (e: EventRow) => e.count) == SumOf(rows, (e: EventRow) => e.count)
    ensures forall i :: 0 <= i < |EventTable(rows)| ==>
              var s := Select(ToEvents(rows), EventKey, EventKey(EventTable(rows)[i]));
              |s| > 0 && EventTable(rows)[i].title == s[0].title && EventTable(rows)[i].labelText == s[0].labelText
  {
    var es := ToEvents(rows);
    var g := EventTable(rows);
    GroupSpec(es, EventKey, MergeEvent);
    GroupKeysUnique(es, EventKey, MergeEvent);
    GroupTotal(es, EventKey, MergeEvent, (e: EventRow) => e.count);
    SumOfMapCount(rows);
    forall i | 0 <= i < |g|
      ensures var s := Select(es, EventKey, EventKey(g[i]));
              |s| > 0 && g[i].title == s[0].title && g[i].labelText == s[0].labelText
    {
      var s := Select(es, EventKey, EventKey(g[i]));
      CollapseKeeps(s, (e: EventRow) => e.title, MergeEvent);
      CollapseKeeps(s, (e: EventRow) => e.labelText, MergeEvent);
    }
  }

  lemma {:induction false} SumOfMapCount(rows: seq<EventRow>)
    ensures SumOf(ToEvents(rows), (e: EventRow) => e.count) == SumOf(rows, (e: EventRow) => e.count)
  {
    if rows != [] {
      SumOfMapCount(rows[..|rows| - 1]);
      assert ToEvents(rows)[..|rows| - 1] == ToEvents(rows[..|rows| - 1]);
    }
  }
}
