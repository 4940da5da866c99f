/** The hit filter of a goal. Every goal retriever turns a goal into the
    WHERE clause of one query over the hit table: the partition bounds, the
    container (and, except in the plugin retriever, the organisation), then a
    test on the event state, and optional tests on the page location and the
    event label. This module keeps the tests as data, renders the text each
    test embeds between the quotes of its SQL literal, and gives every test a
    meaning over one hit. Regular expressions written by users stay abstract:
    their meaning is the parameter `search(pattern, text)`, the engine's
    `regexp_like`. A pattern built from `re.escape` output is read
    literally, as every escaped character is a literal one to the engine. */
module GoalQuery {
  import opened Wrappers
  import opened Strings
  import opened Grouping

  /** The hit fields a goal tests: `$.o_s` (event state), `$.dl` (page
      location), `$.el` (event label). */
  datatype Field = EventState | Location | EventLabel

  datatype Mode = Eq | Prefix | Regex

  /** `'prefix'` and `'regex'` select those modes; every other setting is equality. */
  function ModeOf(setting: string): Mode
  {
    if setting == "prefix" then Prefix else if setting == "regex" then Regex else Eq
  }

  /** A goal as the container record stores it. */
  datatype Goal = Goal(id: string, target: string, targetMatch: string,
                       path: Option<string>, pathMatch: string,
                       eventLabel: Option<string>, labelMatch: string)

  /** Python truthiness of an optional string: present and non-empty. */
  predicate Truthy(o: Option<string>) { o.Some? && o.value != "" }

  /** The scheme part of a location regex: `https?` in the container
      retrievers, `http?` in the plugin retrievers. */
  datatype SchemeRe = HttpOrHttps | HttOrHttp

  function SchemeText(s: SchemeRe): string
  {
    match s
    case HttpOrHttps => "https?"
    case HttOrHttp => "http?"
  }

  /** The two leads `scheme://` the regex admits: `?` makes the letter before it optional. */
  function Leads(s: SchemeRe): (string, string)
  {
    match s
    case HttpOrHttps => ("http://", "https://")
    case HttOrHttp => ("htt://", "http://")
  }

  /** One test of the WHERE clause. */
  datatype Test =
      /** `field = 'value'` */
    | Equals(field: Field, value: string)
      /** `regexp_like(field, '^' + re.escape(lit))` */
    | StartsWith(field: Field, lit: string)
      /** `regexp_like(field, pattern)` with the user's pattern */
    | Search(field: Field, pattern: string)
      /** `regexp_like($.dl, '^<scheme>://[^/]+' + path [+ '$'])`, the path
          regex-escaped or not */
    | HostThen(scheme: SchemeRe, path: string, whole: bool, escaped: bool)
      /** `regexp_like(regexp_replace($.dl, '^https?://[^/]+', ''), pattern)` */
    | PathSearch(pattern: string)

  function TestField(t: Test): Field
  {
    match t
    case Equals(f, _) => f
    case StartsWith(f, _) => f
    case Search(f, _) => f
    case HostThen(_, _, _, _) => Location
    case PathSearch(_) => Location
  }

  function TestMode(t: Test): Mode
  {
    match t
    case Equals(_, _) => Eq
    case StartsWith(_, _) => Prefix
    case Search(_, _) => Regex
    case HostThen(_, _, whole, _) => if whole then Eq else Prefix
    case PathSearch(_) => Regex
  }

  /** The goal's own string inside the test. */
  function TestValue(t: Test): string
  {
    match t
    case Equals(_, v) => v
    case StartsWith(_, v) => v
    case Search(_, v) => v
    case HostThen(_, v, _, _) => v
    case PathSearch(v) => v
  }

  // ------------------------------------------------------------ SQL literal

  /** The regex or value a test hands to the engine. */
  function PatternOf(t: Test): string
  {
    match t
    case Equals(_, v) => v
    case StartsWith(_, lit) => "^" + ReEscape(lit)
    case Search(_, p) => p
    case HostThen(s, p, whole, escaped) =>
      "^" + SchemeText(s) + "://[^/]+" + (if escaped then ReEscape(p) else p) + (if whole then "$" else "")
    case PathSearch(p) => p
  }

  /** The text between the quotes of the test's SQL literal, assembled as the
      retrievers assemble it: quotes are doubled in the goal's part only. */
  function Embedded(t: Test): string
  {
    match t
    case Equals(_, v) => DoubleQuotes(v)
    case StartsWith(_, lit) => "^" + DoubleQuotes(ReEscape(lit))
    case Search(_, p) => DoubleQuotes(p)
    case HostThen(s, p, whole, escaped) =>
      "^" + SchemeText(s) + "://[^/]+" + DoubleQuotes(if escaped then ReEscape(p) else p) + (if whole then "$" else "")
    case PathSearch(p) => DoubleQuotes(p)
  }

  lemma NoQuoteFixed(s: string)
    requires '\'' !in s
    ensures DoubleQuotes(s) == s
  {
    DoubleQuotesNoQuote(s);
  }

  lemma DoubledAround(a: string, b: string, c: string)
    requires '\'' !in a && '\'' !in c
    ensures a + DoubleQuotes(b) + c == DoubleQuotes(a + b + c)
  {
    DoubleQuotesAppend(a + b, c);
    DoubleQuotesAppend(a, b);
    NoQuoteFixed(a);
    NoQuoteFixed(c);
  }

  /** The retrievers' piecewise doubling doubles the whole pattern: the
      fixed regex text around the goal's string holds no quote. */
  lemma EmbeddedIsDoubled(t: Test)
    ensures Embedded(t) == DoubleQuotes(PatternOf(t))
  {
    match t
    case Equals(_, v) =>
    case StartsWith(_, lit) =>
      DoubledAround("^", ReEscape(lit), "");
      assert "^" + ReEscape(lit) + "" == PatternOf(t);
      assert "^" + DoubleQuotes(ReEscape(lit)) + "" == Embedded(t);
    case Search(_, p) =>
    case HostThen(s, p, whole, escaped) =>
      HostThenDoubled(s, if escaped then ReEscape(p) else p, if whole then "$" else "");
    case PathSearch(p) =>
  }

  lemma HostThenDoubled(s: SchemeRe, body: string, tail: string)
    requires tail == "$" || tail == ""
    ensures "^" + SchemeText(s) + "://[^/]+" + DoubleQuotes(body) + tail ==
            DoubleQuotes("^" + SchemeText(s) + "://[^/]+" + body + tail)
  {
    var head := "^" + SchemeText(s) + "://[^/]+";
    assert '\'' !in head by {
      assert head == "^https?://[^/]+" || head == "^http?://[^/]+";
    }
    DoubledAround(head, body, tail);
  }

  /** Every literal is well formed (each quote is half of a `''` pair, so the
      goal's text cannot close the literal) and reads back as the pattern:
      the engine sees exactly the goal's string. */
  lemma EmbeddedDenotes(t: Test)
    ensures QuotesPaired(Embedded(t))
    ensures UndoubleQuotes(Embedded(t)) == PatternOf(t)
  {
    EmbeddedIsDoubled(t);
    DoubleQuotesRoundTrip(PatternOf(t));
  }

  // ------------------------------------------------------------- builders

  /** The event-state test of every container retriever. */
  function TargetTest(g: Goal): (t: Test)
    ensures TestField(t) == EventState && TestValue(t) == g.target
    ensures TestMode(t) == ModeOf(g.targetMatch)
  {
    match ModeOf(g.targetMatch)
    case Prefix => StartsWith(EventState, g.target)
    case Regex => Search(EventState, g.target)
    case Eq => Equals(EventState, g.target)
  }

  /** The location test as written: the prefix branch follows `path_match`,
      but the regex branch follows `target_match`. */
  function PathTestAsWritten(g: Goal): (t: Test)
    requires Truthy(g.path)
    ensures TestField(t) == Location && TestValue(t) == g.path.value
    ensures TestMode(t) == Prefix <==> g.pathMatch == "prefix"
    ensures TestMode(t) == Regex <==> g.pathMatch != "prefix" && g.targetMatch == "regex"
  {
    if g.pathMatch == "prefix" then HostThen(HttpOrHttps, g.path.value, false, true)
    else if g.targetMatch == "regex" then PathSearch(g.path.value)
    else HostThen(HttpOrHttps, g.path.value, true, true)
  }

  /** The label test as written, with the same `target_match` regex branch. */
  function LabelTestAsWritten(g: Goal): (t: Test)
    requires Truthy(g.eventLabel)
    ensures TestField(t) == EventLabel && TestValue(t) == g.eventLabel.value
    ensures TestMode(t) == Prefix <==> g.labelMatch == "prefix"
    ensures TestMode(t) == Regex <==> g.labelMatch != "prefix" && g.targetMatch == "regex"
  {
    if g.labelMatch == "prefix" then StartsWith(EventLabel, g.eventLabel.value)
    else if g.targetMatch == "regex" then Search(EventLabel, g.eventLabel.value)
    else Equals(EventLabel, g.eventLabel.value)
  }

  /** The location test with every branch following `path_match`. */
  function PathTest(g: Goal): (t: Test)
    requires Truthy(g.path)
    ensures TestField(t) == Location && TestValue(t) == g.path.value
    ensures TestMode(t) == ModeOf(g.pathMatch)
  {
    match ModeOf(g.pathMatch)
    case Prefix => HostThen(HttpOrHttps, g.path.value, false, true)
    case Regex => PathSearch(g.path.value)
    case Eq => HostThen(HttpOrHttps, g.path.value, true, true)
  }

  /** The label test with every branch following `label_match`. */
  function LabelTest(g: Goal): (t: Test)
    requires Truthy(g.eventLabel)
    ensures TestField(t) == EventLabel && TestValue(t) == g.eventLabel.value
    ensures TestMode(t) == ModeOf(g.labelMatch)
  {
    match ModeOf(g.labelMatch)
    case Prefix => StartsWith(EventLabel, g.eventLabel.value)
    case Regex => Search(EventLabel, g.eventLabel.value)
    case Eq => Equals(EventLabel, g.eventLabel.value)
  }

  /** The setting that names a field's mode. */
  function SettingFor(g: Goal, f: Field): string
  {
    match f
    case EventState => g.targetMatch
    case Location => g.pathMatch
    case EventLabel => g.labelMatch
  }

  /** The goal tests of the container retrievers as written. */
  function TestsAsWritten(g: Goal): (ts: seq<Test>)
    ensures |ts| == 1 + (if Truthy(g.path) then 1 else 0) + (if Truthy(g.eventLabel) then 1 else 0)
    ensures ts[0] == TargetTest(g)
  {
    [TargetTest(g)]
    + (if Truthy(g.path) then [PathTestAsWritten(g)] else [])
    + (if Truthy(g.eventLabel) then [LabelTestAsWritten(g)] else [])
  }

  /** The goal tests with each test in the mode its own setting names: one
      event-state test, a location test iff the goal has a path, a label test
      iff it has a label, each carrying the goal's own string. */
  function Tests(g: Goal): (ts: seq<Test>)
    ensures |ts| == 1 + (if Truthy(g.path) then 1 else 0) + (if Truthy(g.eventLabel) then 1 else 0)
    ensures ts[0] == TargetTest(g)
    ensures forall i :: 0 <= i < |ts| ==> TestMode(ts[i]) == ModeOf(SettingFor(g, TestField(ts[i])))
    ensures (exists i :: 0 <= i < |ts| && TestField(ts[i]) == Location) <==> Truthy(g.path)
    ensures (exists i :: 0 <= i < |ts| && TestField(ts[i]) == EventLabel) <==> Truthy(g.eventLabel)
    ensures forall i :: 0 <= i < |ts| && TestField(ts[i]) == Location ==> TestValue(ts[i]) == g.path.value
    ensures forall i :: 0 <= i < |ts| && TestField(ts[i]) == EventLabel ==> TestValue(ts[i]) == g.eventLabel.value
  {
    var ts := [TargetTest(g)]
      + (if Truthy(g.path) then [PathTest(g)] else [])
      + (if Truthy(g.eventLabel) then [LabelTest(g)] else []);
    assert Truthy(g.path) ==> TestField(ts[1]) == Location;
    assert Truthy(g.eventLabel) ==> TestField(ts[|ts| - 1]) == EventLabel;
    ts
  }

  /** A location or label setting agrees with the as-written branch choice
      when it is `'prefix'`, or when it and `target_match` are both or
      neither `'regex'`. */
  predicate Agrees(setting: string, targetMatch: string)
  {
    setting == "prefix" || (setting == "regex" <==> targetMatch == "regex")
  }

  /** The as-written tests are the intended ones exactly when every present
      location or label setting agrees with `target_match`. */
  lemma AsWrittenAgrees(g: Goal)
    ensures TestsAsWritten(g) == Tests(g) <==>
      (Truthy(g.path) ==> Agrees(g.pathMatch, g.targetMatch)) &&
      (Truthy(g.eventLabel) ==> Agrees(g.labelMatch, g.targetMatch))
  {
    var a := TestsAsWritten(g);
    var b := Tests(g);
    if Truthy(g.path) && !Agrees(g.pathMatch, g.targetMatch) {
      assert a[1] == PathTestAsWritten(g) && b[1] == PathTest(g);
      assert TestMode(a[1]) != TestMode(b[1]);
    } else if Truthy(g.eventLabel) && !Agrees(g.labelMatch, g.targetMatch) {
      assert a[|a| - 1] == LabelTestAsWritten(g) && b[|b| - 1] == LabelTest(g);
      assert TestMode(a[|a| - 1]) != TestMode(b[|b| - 1]);
    }
  }

  /** A goal whose location setting is `'regex'` while its target is matched
      by equality gets an escaped, anchored equality test on its path: the
      path is not read as a regex. */
  lemma AsWrittenMisreadsPathMode() returns (g: Goal)
    ensures Truthy(g.path) && ModeOf(g.pathMatch) == Regex
    ensures TestsAsWritten(g)[1] == HostThen(HttpOrHttps, g.path.value, true, true)
    ensures TestMode(TestsAsWritten(g)[1]) != ModeOf(g.pathMatch)
    ensures TestMode(Tests(g)[1]) == ModeOf(g.pathMatch)
  {
    g := Goal("g1", "click_buy", "eq", Some("/item/.*"), "regex", None, "eq");
    assert TestsAsWritten(g)[1] == PathTestAsWritten(g);
    assert Tests(g)[1] == PathTest(g);
  }

  // ---------------------------------------------------------------- plugin

  /** A goal of the plugin's `goals.json`: it names its organisation and container. */
  datatype PluginGoal = PluginGoal(id: string, org: string, container: string,
                                   target: string, path: Option<string>)

  /** The plugin tests as written (the plugin retriever and the `goals.py`
      stub): state equality, and for a path the unescaped `http?` pattern. */
  function PluginTestsAsWritten(g: PluginGoal): (ts: seq<Test>)
    ensures |ts| == if Truthy(g.path) then 2 else 1
    ensures ts[0] == Equals(EventState, g.target)
  {
    [Equals(EventState, g.target)]
    + (if Truthy(g.path) then [HostThen(HttOrHttp, g.path.value, true, false)] else [])
  }

  /** The plugin tests with the scheme regex the container retrievers use. */
  function PluginTests(g: PluginGoal): (ts: seq<Test>)
    ensures |ts| == if Truthy(g.path) then 2 else 1
    ensures ts[0] == Equals(EventState, g.target)
    ensures forall i :: 0 <= i < |ts| ==> TestMode(ts[i]) == Eq
  {
    [Equals(EventState, g.target)]
    + (if Truthy(g.path) then [HostThen(HttpOrHttps, g.path.value, true, false)] else [])
  }

  // --------------------------------------------------------------- meaning

  /** The three tested fields of one hit; `None` is a missing JSON member. */
  datatype Hit = Hit(state: Option<string>, location: Option<string>, eventLabel: Option<string>)

  function FieldValue(h: Hit, f: Field): Option<string>
  {
    match f
    case EventState => h.state
    case Location => h.location
    case EventLabel => h.eventLabel
  }

  /** Text without regex-special characters reads as itself. */
  predicate Plain(p: string)
  {
    forall i :: 0 <= i < |p| ==> p[i] !in RegexSpecial
  }

  /** After `<scheme>://`: a non-empty run of non-'/' characters, then the
      path, then the end of the text when `whole`. The run may stop anywhere
      before the first '/', as the regex backtracks. */
  predicate AfterHost(rest: string, path: string, whole: bool)
  {
    exists k :: 1 <= k <= FirstIndex(rest, '/') && (if whole then rest[k..] == path else path <= rest[k..])
  }

  /** `x` starts with `lead`, then a host, then the path (and ends there when `whole`). */
  predicate LeadThen(lead: string, path: string, whole: bool, x: string)
  {
    lead <= x && AfterHost(x[|lead|..], path, whole)
  }

  /** `regexp_like(x, '^<scheme>://[^/]+' + path [+ '$'])` for a literal path. */
  predicate HostThenMatch(s: SchemeRe, path: string, whole: bool, x: string)
  {
    LeadThen(Leads(s).0, path, whole, x) || LeadThen(Leads(s).1, path, whole, x)
  }

  /** `regexp_replace(x, '^https?://[^/]+', '')`: drop the scheme and the
      host when both are there. */
  function StripHost(x: string): (r: string)
    ensures |r| <= |x|
  {
    var n := if "https://" <= x then 8 else if "http://" <= x then 7 else 0;
    if n == 0 then x
    else
      var k := FirstIndex(x[n..], '/');
      if k == 0 then x else x[n..][k..]
  }

  /** Whether one hit passes one test; a missing field fails every test. */
  predicate Holds(t: Test, h: Hit, search: (string, string) -> bool)
  {
    match t
    case Equals(f, v) => FieldValue(h, f) == Some(v)
    case StartsWith(f, lit) => FieldValue(h, f).Some? && lit <= FieldValue(h, f).value
    case Search(f, p) => FieldValue(h, f).Some? && search(p, FieldValue(h, f).value)
    case HostThen(s, p, whole, escaped) =>
      h.location.Some? &&
      if escaped || Plain(p) then HostThenMatch(s, p, whole, h.location.value)
      else search(PatternOf(t), h.location.value)
    case PathSearch(p) => h.location.Some? && search(p, StripHost(h.location.value))
  }

  predicate Selects(ts: seq<Test>, h: Hit, search: (string, string) -> bool)
  {
    forall i :: 0 <= i < |ts| ==> Holds(ts[i], h, search)
  }

  /** `http?` admits the schemes `htt` and `http`: no https page ever passes. */
  lemma HttOrHttpMissesHttps(path: string, whole: bool, x: string)
    requires "https://" <= x
    ensures !HostThenMatch(HttOrHttp, path, whole, x)
  {
    assert x[3] == 'p' && x[4] == 's';
    assert "htt://"[3] == ':' && "http://"[4] == ':';
  }

  /** A host free of '/' runs up to the first '/' after it. */
  lemma HostRun(host: string, path: string)
    requires '/' !in host
    ensures FirstIndex(host + path, '/') >= |host|
    ensures path != [] && path[0] == '/' ==> FirstIndex(host + path, '/') == |host|
  {
    var x := host + path;
    var i := FirstIndex(x, '/');
    if path != [] && path[0] == '/' {
      assert x[|host|] == '/';
    }
  }

  /** A page at `lead` + host + path, with a non-empty host free of '/'. */
  lemma PageMatches(lead: string, host: string, path: string)
    requires host != [] && '/' !in host
    ensures LeadThen(lead, path, true, lead + host + path)
  {
    var x := lead + host + path;
    assert x == lead + (host + path);
    var rest := x[|lead|..];
    assert rest == host + path;
    HostRun(host, path);
    assert rest[|host|..] == path;
  }

  /** The plugin as written never counts a visit to an https page, however
      the goal's state and path are met. */
  lemma PluginMissesHttps(g: PluginGoal, h: Hit, search: (string, string) -> bool)
    requires Truthy(g.path) && Plain(g.path.value)
    requires h.location.Some? && "https://" <= h.location.value
    ensures !Selects(PluginTestsAsWritten(g), h, search)
  {
    HttOrHttpMissesHttps(g.path.value, true, h.location.value);
    assert !Holds(PluginTestsAsWritten(g)[1], h, search);
  }

  /** With `https?` the plugin counts the goal's page on http and https alike. */
  lemma PluginCountsHttps(g: PluginGoal, lead: string, host: string, h: Hit, search: (string, string) -> bool)
    requires Truthy(g.path) && Plain(g.path.value)
    requires lead == "http://" || lead == "https://"
    requires host != [] && '/' !in host
    requires h.state == Some(g.target) && h.location == Some(lead + host + g.path.value)
    ensures Selects(PluginTests(g), h, search)
  {
    PageMatches(lead, host, g.path.value);
    var ts := PluginTests(g);
    assert ts == [Equals(EventState, g.target), HostThen(HttpOrHttps, g.path.value, true, false)];
    assert Holds(ts[1], h, search);
  }

  /** The regex location test sees the path alone: scheme and host are cut. */
  lemma StripHostLeavesPath(lead: string, host: string, path: string)
    requires lead == "http://" || lead == "https://"
    requires host != [] && '/' !in host
    requires path == [] || path[0] == '/'
    ensures StripHost(lead + host + path) == path
  {
    var x := lead + host + path;
    assert x == lead + (host + path);
    if lead == "http://" {
      assert !("https://" <= x) by { assert x[4] == ':'; }
    }
    var rest := x[|lead|..];
    assert rest == host + path;
    HostRun(host, path);
    assert rest[|host|..] == path;
  }

  /** A goal in equality mode throughout, with a path and no label, selects
      exactly the hits with its state on its page, scheme http or https. */
  lemma EqGoalSelects(g: Goal, h: Hit, search: (string, string) -> bool)
    requires ModeOf(g.targetMatch) == Eq && ModeOf(g.pathMatch) == Eq
    requires Truthy(g.path) && !Truthy(g.eventLabel)
    ensures Selects(Tests(g), h, search) <==>
      h.state == Some(g.target) && h.location.Some? &&
      HostThenMatch(HttpOrHttps, g.path.value, true, h.location.value)
  {
    var ts := Tests(g);
    assert ts == [Equals(EventState, g.target), HostThen(HttpOrHttps, g.path.value, true, true)];
  }

  // ---------------------------------------------------------------- query

  /** Which partitions a query reads: a `year*10000 + month*100 + day` range
      (the term retriever) or one day (the daily retrievers). */
  datatype Scope = Days(first: int, last: int) | OnDay(year: int, month: int, day: int)

  datatype Query = Query(org: Option<string>, tid: string, scope: Scope, tests: seq<Test>)

  /** One stored hit with its partition columns. */
  datatype Row = Row(org: string, tid: string, year: int, month: int, day: int, hit: Hit)

  function DayNumber(year: int, month: int, day: int): int
  {
    year * 10000 + month * 100 + day
  }

  predicate InScope(s: Scope, r: Row)
  {
    match s
    case Days(first, last) => first <= DayNumber(r.year, r.month, r.day) <= last
    case OnDay(y, m, d) => r.year == y && r.month == m && r.day == d
  }

  /** Whether the query counts a row. */
  predicate Selected(q: Query, r: Row, search: (string, string) -> bool)
  {
    (q.org.None? || q.org == Some(r.org)) && q.tid == r.tid && InScope(q.scope, r) && Selects(q.tests, r.hit, search)
  }

  /** The term retriever's query for the days `startdate` to `enddate`. */
  function TermQuery(org: string, tid: string, startdate: int, enddate: int, g: Goal): (q: Query)
    ensures q.org == Some(org) && q.tid == tid && q.tests == Tests(g)
    ensures forall r :: InScope(q.scope, r) <==> startdate <= DayNumber(r.year, r.month, r.day) <= enddate
  {
    Query(Some(org), tid, Days(startdate, enddate), Tests(g))
  }

  /** The daily retriever's query for yesterday's partition. */
  function DailyQuery(org: string, tid: string, year: int, month: int, day: int, g: Goal): (q: Query)
    ensures q.org == Some(org) && q.tid == tid && q.tests == Tests(g)
    ensures forall r :: InScope(q.scope, r) <==> r.year == year && r.month == month && r.day == day
  {
    Query(Some(org), tid, OnDay(year, month, day), Tests(g))
  }

  /** The plugin's query: no organisation test, the container from the goal. */
  function PluginQuery(g: PluginGoal, year: int, month: int, day: int): (q: Query)
    ensures q.org.None? && q.tid == g.container && q.tests == PluginTests(g)
    ensures forall r :: InScope(q.scope, r) <==> r.year == year && r.month == month && r.day == day
  {
    Query(None, g.container, OnDay(year, month, day), PluginTests(g))
  }

  /** Partition values of a stored row: a calendar month and day. */
  predicate Calendarish(month: int, day: int) { 1 <= month <= 12 && 1 <= day <= 31 }

  lemma DayNumberInjective(y: int, m: int, d: int, y2: int, m2: int, d2: int)
    requires Calendarish(m, d) && Calendarish(m2, d2)
    requires DayNumber(y, m, d) == DayNumber(y2, m2, d2)
    ensures y == y2 && m == m2 && d == d2
  {
    var a := (y2 - y) * 100 + (m2 - m);
    assert d - d2 == a * 100;
    assert m - m2 == (y2 - y) * 100;
  }

  /** The daily retriever reads what the term retriever reads for the
      one-day range of the same day. */
  lemma DailyIsOneDayTerm(org: string, tid: string, y: int, m: int, d: int, g: Goal,
                          r: Row, search: (string, string) -> bool)
    requires Calendarish(m, d) && Calendarish(r.month, r.day)
    ensures Selected(DailyQuery(org, tid, y, m, d, g), r, search) <==>
            Selected(TermQuery(org, tid, DayNumber(y, m, d), DayNumber(y, m, d), g), r, search)
  {
    if DayNumber(r.year, r.month, r.day) == DayNumber(y, m, d) {
      DayNumberInjective(r.year, r.month, r.day, y, m, d);
    }
  }
}
