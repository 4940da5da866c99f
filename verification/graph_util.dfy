/** The graph helpers of the client's flow view: the rows are the stored stat
    records (nine dimensions and a count) and each row is an edge from
    `p_url`/`p_state` to `url`/`state`. This module covers the distinct URL
    list, the URL filter, the merge of rows with the same edge, and the
    rewriting of concrete URLs into API path templates; the skip-state
    contraction is in `GraphSkip`.

    JavaScript's `null` and `undefined` are both `None`; a helper that would
    dereference `null` (and so throw a TypeError) yields `Thrown` or `None`
    as its documentation says. */
module GraphUtil {
  import opened Wrappers
  import opened Grouping
  import opened DataRetrieverApp
  import Url

  /** JavaScript truthiness of a nullable string: present and not empty. */
  predicate Truthy(s: Option<string>)
  {
    s.Some? && s.value != []
  }

  // ---------------------------------------------------------------- getUrls

  function TruthyPart(s: Option<string>): (us: seq<string>)
    ensures forall x :: x in us <==> Truthy(s) && s.value == x
  {
    if Truthy(s) then [s.value] else []
  }

  /** The URLs a row names, url before p_url, falsy ones left out. */
  function UrlsOf(d: StatRecord): (us: seq<string>)
    ensures forall x :: x in us <==>
              (Truthy(d.dims.url) && d.dims.url.value == x) || (Truthy(d.dims.pUrl) && d.dims.pUrl.value == x)
  {
    TruthyPart(d.dims.url) + TruthyPart(d.dims.pUrl)
  }

  /** Every URL the rows name, in row order, repetitions included. */
  function AllUrls(data: seq<StatRecord>): seq<string>
  {
    if data == [] then [] else AllUrls(data[..|data| - 1]) + UrlsOf(data[|data| - 1])
  }

  function AddTruthy(urls: seq<string>, s: Option<string>): seq<string>
  {
    if Truthy(s) && s.value !in urls then urls + [s.value] else urls
  }

  lemma DistinctAddTruthy(xs: seq<string>, s: Option<string>)
    ensures Distinct(xs + TruthyPart(s)) == AddTruthy(Distinct(xs), s)
  {
    if Truthy(s) {
      DistinctSnoc(xs, s.value);
    } else {
      assert xs + TruthyPart(s) == xs;
    }
  }

  lemma AddUrlsStep(seen: seq<string>, d: StatRecord)
    ensures AddTruthy(AddTruthy(Distinct(seen), d.dims.url), d.dims.pUrl) == Distinct(seen + UrlsOf(d))
  {
    DistinctAddTruthy(seen, d.dims.url);
    DistinctAddTruthy(seen + TruthyPart(d.dims.url), d.dims.pUrl);
    assert seen + UrlsOf(d) == seen + TruthyPart(d.dims.url) + TruthyPart(d.dims.pUrl);
  }

  lemma {:induction false} AllUrlsMember(data: seq<StatRecord>, u: string)
    ensures u in AllUrls(data) <==> exists i :: 0 <= i < |data| && u in UrlsOf(data[i])
  {
    if data != [] {
      var p := data[..|data| - 1];
      var n := |data| - 1;
      assert AllUrls(data) == AllUrls(p) + UrlsOf(data[n]);
      AllUrlsMember(p, u);
      if u in AllUrls(p) {
        var i :| 0 <= i < |p| && u in UrlsOf(p[i]);
        assert data[i] == p[i];
      } else if u !in UrlsOf(data[n]) {
        forall i | 0 <= i < |data| ensures u !in UrlsOf(data[i]) {
          if i < n {
            assert data[i] == p[i];
          }
        }
      }
    }
  }

  /** `getUrls`: each truthy url and p_url once, in the order first met. */
  method GetUrls(data: seq<StatRecord>) returns (urls: seq<string>)
    ensures urls == Distinct(AllUrls(data))
    ensures NoDup(urls)
    ensures forall u :: u in urls <==> exists i :: 0 <= i < |data| && u in UrlsOf(data[i])
    ensures forall i, j :: 0 <= i < j < |urls| ==> FirstIndex(AllUrls(data), urls[i]) < FirstIndex(AllUrls(data), urls[j])
  {
    urls := [];
    var i := 0;
    while i < |data|
      invariant 0 <= i <= |data|
      invariant urls == Distinct(AllUrls(data[..i]))
    {
      assert data[..i + 1][..i] == data[..i];
      AddUrlsStep(AllUrls(data[..i]), data[i]);
      urls := AddTruthy(AddTruthy(urls, data[i].dims.url), data[i].dims.pUrl);
      i := i + 1;
    }
    assert data[..|data|] == data;
    DistinctSpec(AllUrls(data));
    forall u ensures u in urls <==> exists i :: 0 <= i < |data| && u in UrlsOf(data[i]) {
      DistinctMember(AllUrls(data), u);
      AllUrlsMember(data, u);
    }
  }

  // ---------------------------------------------------------------- filterByUrl

  /** The elements of `xs` that satisfy `p`, in order: each as often as in `xs`. */
  function Filter<T(!new)>(xs: seq<T>, p: T -> bool): (r: seq<T>)
    ensures forall x :: x in r ==> p(x) && x in xs
    ensures forall x :: multiset(r)[x] == if p(x) then multiset(xs)[x] else 0
  {
    if xs == [] then []
    else
      var init := xs[..|xs| - 1];
      var last := xs[|xs| - 1];
      assert xs == init + [last];
      Filter(init, p) + (if p(last) then [last] else [])
  }

  /** `filterByUrl`: the rows whose url is `u`, then the other rows whose p_url is `u`. */
  function FilterByUrl(data: seq<StatRecord>, u: Option<string>): (r: seq<StatRecord>)
    ensures forall d :: multiset(r)[d] ==
              if d.dims.url == u || d.dims.pUrl == u then multiset(data)[d] else 0
    ensures forall i, j :: 0 <= i < j < |r| && r[j].dims.url == u ==> r[i].dims.url == u
  {
    var heads := Filter(data, (d: StatRecord) => d.dims.url == u);
    var tails := Filter(data, (d: StatRecord) => d.dims.url != u && d.dims.pUrl == u);
    HeadsFirst(heads, tails, u);
    heads + tails
  }

  lemma HeadsFirst(heads: seq<StatRecord>, tails: seq<StatRecord>, u: Option<string>)
    requires forall d :: d in heads ==> d.dims.url == u
    requires forall d :: d in tails ==> d.dims.url != u
    ensures forall i, j :: 0 <= i < j < |heads + tails| && (heads + tails)[j].dims.url == u ==>
              (heads + tails)[i].dims.url == u
  {
    var r := heads + tails;
    forall i, j | 0 <= i < j < |r| && r[j].dims.url == u
      ensures r[i].dims.url == u
    {
      if i < |heads| {
        assert r[i] in heads;
      }
    }
  }

  // ---------------------------------------------------------------- mergeSameId

  /** The edge a row stands for: `(url, p_url, state, p_state)`. */
  function KeyOf(d: StatRecord): (Option<string>, Option<string>, Option<string>, Option<string>)
  {
    (d.dims.url, d.dims.pUrl, d.dims.state, d.dims.pState)
  }

  function CountOf(d: StatRecord): int { d.count }

  function DimsOf(d: StatRecord): Dims { d.dims }

  /** Folding a row into its group's row adds the count and keeps the rest. */
  function AddCount(a: StatRecord, b: StatRecord): StatRecord
  {
    a.(count := a.count + b.count)
  }

  lemma AddCountLaws()
    ensures KeyPreserving(KeyOf, AddCount)
    ensures Additive(CountOf, AddCount)
    ensures Keeps(DimsOf, AddCount)
  {
  }

  /** `mergeSameId`. The loop marks every member of a group of two or more as
      deleted when it meets the group's first row and pushes that row with the
      group's total; later members are skipped. That is the first-seen merge
      loop with `AddCount`. */
  function MergeSameId(data: seq<StatRecord>): seq<StatRecord>
  {
    Group(data, KeyOf, AddCount)
  }

  /** Each group of rows with the same edge leaves one row: the group's first
      row with the group's total count; groups appear in first-seen order and
      the total count is conserved. */
  lemma MergeSameIdSpec(data: seq<StatRecord>)
    ensures Keys(MergeSameId(data), KeyOf) == Distinct(Keys(data, KeyOf))
    ensures NoDup(Keys(MergeSameId(data), KeyOf))
    ensures forall i :: 0 <= i < |MergeSameId(data)| ==>
              var s := Select(data, KeyOf, KeyOf(MergeSameId(data)[i]));
              s != [] && MergeSameId(data)[i].dims == s[0].dims && MergeSameId(data)[i].count == SumOf(s, CountOf)
    ensures SumOf(MergeSameId(data), CountOf) == SumOf(data, CountOf)
  {
    AddCountLaws();
    GroupSpec(data, KeyOf, AddCount);
    GroupKeysUnique(data, KeyOf, AddCount);
    GroupTotal(data, KeyOf, AddCount, CountOf);
    var g := MergeSameId(data);
    forall i | 0 <= i < |g|
      ensures var s := Select(data, KeyOf, KeyOf(g[i]));
              s != [] && g[i].dims == s[0].dims && g[i].count == SumOf(s, CountOf)
    {
      var s := Select(data, KeyOf, KeyOf(g[i]));
      CollapseKeeps(s, DimsOf, AddCount);
      CollapseSum(s, CountOf, AddCount);
    }
  }

  // ---------------------------------------------------------------- lookupPath

  /** What `url.parse` gives for the parts read here; a missing part is `None`. */
  datatype ParsedUrl = ParsedUrl(protocol: Option<string>, host: Option<string>, path: Option<string>,
                                 pathname: Option<string>, query: Option<string>, hash: Option<string>)

  /** Node's `url.parse` and `querystring.parse`, taken as given. A parsed
      query value is the text a RegExp sees when it is tested. */
  datatype UrlLib = UrlLib(parse: string -> ParsedUrl, parseQuery: string -> map<string, string>)

  /** The outcome of `lookupPath`: a rewritten URL, `null`, or a TypeError. */
  datatype Lookup = Found(url: string) | NotFound | Thrown

  /** A template literal renders `null` as "null". */
  function JsText(s: Option<string>): string
  {
    if s.Some? then s.value else "null"
  }

  predicate IsLineTerminator(c: char)
  {
    c == '\n' || c == '\r' || c == ' ' || c == ' '
  }

  /** `s` up to its first line terminator: what `.*` can cover. */
  function LineHead(s: string): (r: string)
    ensures r <= s
    ensures forall i :: 0 <= i < |r| ==> !IsLineTerminator(r[i])
    ensures |r| < |s| ==> IsLineTerminator(s[|r|])
  {
    if s == [] || IsLineTerminator(s[0]) then []
    else [s[0]] + LineHead(s[1..])
  }

  /** `hash.match(/^#!(\/.*)/)` succeeds. */
  predicate HashBang(h: string)
  {
    |h| >= 3 && h[..3] == "#!/"
  }

  /** `path.match(/^(.*)\/$/)`: one trailing '/' is dropped when no line
      terminator comes before it. */
  function StripSlash(p: string): (r: string)
    ensures r == p || r + "/" == p
    ensures |p| > 0 && p[|p| - 1] == '/' && (forall i :: 0 <= i < |p| - 1 ==> !IsLineTerminator(p[i])) ==> r + "/" == p
  {
    if |p| > 0 && p[|p| - 1] == '/' && LineHead(p[..|p| - 1]) == p[..|p| - 1] then p[..|p| - 1] else p
  }

  /** The template's path, with each `{name}` matching `[^/]*`, matches `name` in full. */
  predicate PathFits(template: string, name: string)
  {
    Url.Matches(Url.Tokenize(template, 0), name, 0)
  }

  /** `targetQs[qd]`: a missing key is `undefined`, which a RegExp reads as "undefined". */
  function QueryValue(qs: map<string, string>, k: string): string
  {
    if k in qs then qs[k] else "undefined"
  }

  /** Every query constraint of a template matches the target's value for its key. */
  predicate QueryFits(constraints: map<string, string>, qs: map<string, string>)
  {
    forall k :: k in constraints ==> PathFits(constraints[k], QueryValue(qs, k))
  }

  /** A template whose parse has no pathname makes `.replace` throw. */
  predicate Broken(lib: UrlLib, p: string)
  {
    lib.parse(p).pathname.None?
  }

  /** Template `p` accepts the target path `name` with query `qs`. */
  predicate Fits(lib: UrlLib, p: string, name: string, qs: map<string, string>)
  {
    var u := lib.parse(p);
    && u.pathname.Some?
    && PathFits(u.pathname.value, name)
    && (Truthy(u.query) ==> QueryFits(lib.parseQuery(u.query.value), qs))
  }

  /** The loop over the templates: the first that accepts the target wins. */
  function FirstFit(lib: UrlLib, ps: seq<string>, name: string, qs: map<string, string>, origin: string): (r: Lookup)
    ensures r.Found? ==> exists i :: 0 <= i < |ps| && r.url == origin + ps[i] && Fits(lib, ps[i], name, qs) &&
                          forall j :: 0 <= j < i ==> !Fits(lib, ps[j], name, qs)
    ensures r.NotFound? <==> forall i :: 0 <= i < |ps| ==> !Broken(lib, ps[i]) && !Fits(lib, ps[i], name, qs)
    ensures r.Thrown? ==> exists i :: 0 <= i < |ps| && Broken(lib, ps[i])
  {
    if ps == [] then NotFound
    else if Broken(lib, ps[0]) then Thrown
    else if Fits(lib, ps[0], name, qs) then Found(origin + ps[0])
    else
      var r := FirstFit(lib, ps[1..], name, qs, origin);
      assert forall i :: 0 < i < |ps| ==> ps[i] == ps[1..][i - 1];
      r
  }

  /** The path looked up: the `#!` hash path when there is one, else the
      URL's path; `None` when the hash path is missing (and `.match` throws). */
  function LookupTarget(lib: UrlLib, parsed: ParsedUrl): Option<string>
    requires Truthy(parsed.path)
  {
    if Truthy(parsed.hash) && HashBang(parsed.hash.value) then lib.parse(LineHead(parsed.hash.value[2..])).path
    else parsed.path
  }

  /** `lookupPath(paths, parsedUrl)` over the template keys in order. */
  function LookupPath(lib: UrlLib, paths: seq<string>, parsed: ParsedUrl): (r: Lookup)
    ensures !Truthy(parsed.path) ==> r == NotFound
    ensures r.Found? ==> exists i :: 0 <= i < |paths| &&
                          r.url == JsText(parsed.protocol) + "//" + JsText(parsed.host) + paths[i]
  {
    if !Truthy(parsed.path) then NotFound
    else
      var path := LookupTarget(lib, parsed);
      if path.None? then Thrown
      else
        var target := lib.parse(StripSlash(path.value));
        var qs := if target.query.Some? then lib.parseQuery(target.query.value) else map[];
        FirstFit(lib, paths, JsText(target.pathname), qs, JsText(parsed.protocol) + "//" + JsText(parsed.host))
  }

  /** '/a/' and '/a' look up the same templates. */
  lemma LookupTrailingSlash(lib: UrlLib, paths: seq<string>, parsed: ParsedUrl, p: string)
    requires p != [] && p[|p| - 1] != '/' && forall i :: 0 <= i < |p| ==> !IsLineTerminator(p[i])
    requires !Truthy(parsed.hash)
    ensures LookupPath(lib, paths, parsed.(path := Some(p + "/"))) == LookupPath(lib, paths, parsed.(path := Some(p)))
  {
    var q := p + "/";
    assert q[..|q| - 1] == p;
    assert StripSlash(q) == p;
    assert StripSlash(p) == p;
  }

  /** A `#!/` hash decides the path looked up: the URL's own path no longer matters. */
  lemma LookupPrefersHash(lib: UrlLib, paths: seq<string>, parsed: ParsedUrl, other: string)
    requires Truthy(parsed.path) && other != []
    requires Truthy(parsed.hash) && HashBang(parsed.hash.value)
    ensures LookupPath(lib, paths, parsed.(path := Some(other))) == LookupPath(lib, paths, parsed)
  {
  }

  /** A template without braces accepts exactly its own text. */
  lemma {:induction false} LiteralTemplate(t: string, s: string)
    requires '{' !in t
    ensures PathFits(t, s) <==> s == t
    decreases |t|
  {
    if t != [] {
      assert !Url.StartsHole(t, 0);
      assert Url.Tokenize(t, 0) == [Url.Lit(t[0])] + Url.Tokenize(t[1..], 0);
      assert '{' !in t[1..];
      if |s| > 0 {
        LiteralTemplate(t[1..], s[1..]);
        assert s == [s[0]] + s[1..];
        assert t == [t[0]] + t[1..];
      }
    }
  }

  /** Each `{name}` of a template accepts any text without '/', the empty text included. */
  lemma TemplateFill(t: string, vals: seq<string>)
    requires |vals| == Url.HoleCount(Url.Tokenize(t, 0))
    requires forall i :: 0 <= i < |vals| ==> '/' !in vals[i]
    ensures PathFits(t, Url.Fill(Url.Tokenize(t, 0), vals))
  {
    Url.FillMatches(Url.Tokenize(t, 0), vals, 0);
  }

  // ---------------------------------------------------------------- rewriting rows

  /** `lookupPath(paths, url.parse(u)) || u`; `None` when the lookup throws. */
  function NewUrl(lib: UrlLib, paths: seq<string>, u: string): (r: Option<string>)
    ensures r.None? <==> LookupPath(lib, paths, lib.parse(u)).Thrown?
    ensures r.Some? ==> r.value == u || LookupPath(lib, paths, lib.parse(u)) == Found(r.value)
  {
    match LookupPath(lib, paths, lib.parse(u))
    case Found(x) => Some(x)
    case NotFound => Some(u)
    case Thrown => None
  }

  /** One row of `convertUrlForTableData`: only url is rewritten; `url.parse`
      of a missing url throws. */
  function TableRow(lib: UrlLib, paths: seq<string>, d: StatRecord): (r: Option<StatRecord>)
    ensures r.Some? <==> d.dims.url.Some? && NewUrl(lib, paths, d.dims.url.value).Some?
    ensures r.Some? ==> r.value == d.(dims := d.dims.(url := NewUrl(lib, paths, d.dims.url.value)))
  {
    if d.dims.url.None? then None
    else
      var nu := NewUrl(lib, paths, d.dims.url.value);
      if nu.None? then None else Some(d.(dims := d.dims.(url := nu)))
  }

  function TableRows(lib: UrlLib, paths: seq<string>, data: seq<StatRecord>): (r: Option<seq<StatRecord>>)
    ensures r.Some? <==> forall i :: 0 <= i < |data| ==> TableRow(lib, paths, data[i]).Some?
    ensures r.Some? ==> (|r.value| == |data| &&
              forall i :: 0 <= i < |data| ==> Some(r.value[i]) == TableRow(lib, paths, data[i]))
  {
    if data == [] then Some([])
    else
      var init := data[..|data| - 1];
      var rest := TableRows(lib, paths, init);
      var last := TableRow(lib, paths, data[|data| - 1]);
      assert forall i :: 0 <= i < |init| ==> data[i] == init[i];
      if rest.None? || last.None? then None else Some(rest.value + [last.value])
  }

  /** `convertUrlForTableData(data, swaggerDoc)`; `paths` is `None` when there
      is no document or it has no `paths`, and the result is `None` when a
      TypeError is thrown. */
  function ConvertUrlForTableData(lib: UrlLib, paths: Option<seq<string>>, data: seq<StatRecord>): (r: Option<seq<StatRecord>>)
    ensures paths.None? ==> r == Some(data)
    ensures r.Some? ==> |r.value| == |data|
    ensures r.Some? ==> forall i :: 0 <= i < |data| ==>
              r.value[i].count == data[i].count && r.value[i].dims.(url := None) == data[i].dims.(url := None)
    ensures paths.Some? ==> (r.Some? <==> forall i :: 0 <= i < |data| ==> TableRow(lib, paths.value, data[i]).Some?)
  {
    if paths.None? then Some(data) else TableRows(lib, paths.value, data)
  }

  /** Rewriting for the table changes urls only: a row whose url fits no
      template is returned as it was, and the total count is unchanged. */
  lemma {:induction false} TableDataKeepsRows(lib: UrlLib, paths: seq<string>, data: seq<StatRecord>)
    requires ConvertUrlForTableData(lib, Some(paths), data).Some?
    ensures var r := ConvertUrlForTableData(lib, Some(paths), data).value;
      SumOf(r, CountOf) == SumOf(data, CountOf) &&
      forall i :: 0 <= i < |data| && LookupPath(lib, paths, lib.parse(data[i].dims.url.value)).NotFound? ==> r[i] == data[i]
    decreases |data|
  {
    var r := ConvertUrlForTableData(lib, Some(paths), data).value;
    if data != [] {
      var init := data[..|data| - 1];
      assert forall i :: 0 <= i < |init| ==> data[i] == init[i];
      TableDataKeepsRows(lib, paths, init);
      assert r[..|r| - 1] == TableRows(lib, paths, init).value;
    }
  }

  /** One row of `convertUrl`: url rewritten, p_url rewritten when truthy and
      set to `null` otherwise. */
  function ConvertRow(lib: UrlLib, paths: seq<string>, d: StatRecord): (r: Option<StatRecord>)
    ensures r.Some? ==> r.value.count == d.count && r.value.dims.(url := None, pUrl := None) == d.dims.(url := None, pUrl := None)
    ensures r.Some? ==> (Truthy(d.dims.pUrl) <==> r.value.dims.pUrl.Some?)
  {
    if d.dims.url.None? then None
    else
      var nu := NewUrl(lib, paths, d.dims.url.value);
      if nu.None? then None
      else if !Truthy(d.dims.pUrl) then Some(d.(dims := d.dims.(url := nu, pUrl := None)))
      else
        var np := NewUrl(lib, paths, d.dims.pUrl.value);
        if np.None? then None else Some(d.(dims := d.dims.(url := nu, pUrl := np)))
  }

  function ConvertRows(lib: UrlLib, paths: seq<string>, data: seq<StatRecord>): (r: Option<seq<StatRecord>>)
    ensures r.Some? ==> (|r.value| == |data| &&
              forall i :: 0 <= i < |data| ==> Some(r.value[i]) == ConvertRow(lib, paths, data[i]))
    ensures r.Some? ==> SumOf(r.value, CountOf) == SumOf(data, CountOf)
  {
    if data == [] then Some([])
    else
      var init := data[..|data| - 1];
      var rest := ConvertRows(lib, paths, init);
      var last := ConvertRow(lib, paths, data[|data| - 1]);
      assert forall i :: 0 <= i < |init| ==> data[i] == init[i];
      if rest.None? || last.None? then None
      else
        var r := rest.value + [last.value];
        assert r[..|r| - 1] == rest.value;
        Some(r)
  }

  /** `convertUrl(data, swaggerDoc)`: the rows are rewritten in order and a
      row whose rewritten edge equals an earlier kept row's is folded into it
      (count added) and dropped. */
  function ConvertUrl(lib: UrlLib, paths: Option<seq<string>>, data: seq<StatRecord>): (r: Option<seq<StatRecord>>)
    ensures paths.None? ==> r == Some(data)
  {
    if paths.None? then Some(data)
    else
      var rows := ConvertRows(lib, paths.value, data);
      if rows.None? then None else Some(Group(rows.value, KeyOf, AddCount))
  }

  /** The rewritten rows keep one row per rewritten edge, the first of its
      group with the group's total, and the total count is conserved. */
  lemma ConvertUrlSpec(lib: UrlLib, paths: seq<string>, data: seq<StatRecord>)
    requires ConvertUrl(lib, Some(paths), data).Some?
    ensures var r := ConvertUrl(lib, Some(paths), data).value;
            var rows := ConvertRows(lib, paths, data).value;
      && SumOf(r, CountOf) == SumOf(data, CountOf)
      && NoDup(Keys(r, KeyOf))
      && (forall i :: 0 <= i < |r| ==>
            var s := Select(rows, KeyOf, KeyOf(r[i]));
            s != [] && r[i].dims == s[0].dims && r[i].count == SumOf(s, CountOf))
  {
    var rows := ConvertRows(lib, paths, data).value;
    MergeSameIdSpec(rows);
  }
}
