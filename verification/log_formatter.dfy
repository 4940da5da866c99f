/** The log formatter: on each new CloudFront standard access log it keeps
    the request lines (not the `#` comment lines), turns each into a record of
    named fields with its decoded query string and a normalised timestamp, and
    files the records under Hive-style partition keys
    `org=<org>/tid=<tid>/year=<Y>/month=<M>/day=<D>/<file name>`, writing for
    each key a `collect` usage report that counts the lines filed there. */
module LogFormatter {
  import opened Wrappers
  import opened Strings
  import opened Calendar
  import RetrieverBase

  const PutEvent := "ObjectCreated:Put"

  /** A line needs fields 0 to 25. */
  const FieldCount := 26

  /** Fields 2 to 25 in order: `x_edge_location`, `sc_bytes`, `c_ip`,
      `cs_method`, `cs_host`, `cs_uri_stem`, `cs_status`, `cs_referer`,
      `cs_user_agent`, `cs_uri_query`, `cs_cookie`, `cs_x_edge_result_type`,
      `cs_x_edge_request_id`, `x_host_header`, `cs_protocol`, `cs_bytes`,
      `time_taken`, `x_forwarded_for`, `ssl_protocol`, `ssl_cipher`,
      `x_edge_response_result_type`, `cs_protocol_version`, `fle_status`,
      `fle_encrypted_fields`. */
  const QueryField := 11

  /** One reformatted line: the 24 named fields, the query string's first
      value per key, and `%Y-%m-%d %H:%M:%S` of the request time. */
  datatype LogRecord = LogRecord(fields: seq<string>, qs: map<string, string>, datetime: string)

  // ---------------------------------------------------------------- file name

  // The second group of the pattern `(.*/)?(.+)$` on the object key: the
  // text after the last '/' that leaves at least one character; `None` (the
  // match fails) for an empty key.
  function FileName(key: string): (r: Option<string>)
    ensures r.None? <==> key == []
    ensures r.Some? ==> r.value != [] && |r.value| <= |key| && key[|key| - |r.value|..] == r.value
    ensures r.Some? && |r.value| < |key| ==> key[|key| - |r.value| - 1] == '/'
    ensures r.Some? && key[|key| - 1] != '/' ==> '/' !in r.value
  {
    if key == [] then None
    else
      var p := key[..|key| - 1];
      var i := LastIndexOf(p, '/');
      if i == |p| then Some(key) else Some(key[i + 1..])
  }

  // ---------------------------------------------------------------- one line

  predicate IsComment(line: string) { line != [] && line[0] == '#' }

  /** The whitespace `str.rstrip()` removes (its ASCII part). */
  predicate IsSpace(c: char) { c == ' ' || c == '\t' || c == '\n' || c == '\r' || c == '\U{b}' || c == '\U{c}' }

  function RStrip(s: string): (r: string)
    ensures r <= s
    ensures r == [] || !IsSpace(r[|r| - 1])
    ensures forall i :: |r| <= i < |s| ==> IsSpace(s[i])
  {
    if s == [] || !IsSpace(s[|s| - 1]) then s else RStrip(s[..|s| - 1])
  }

  /** `qs_json[key] = parse_qs(...)[key][0]`: the first value of every key,
      given the decoded `(key, value)` pairs in order. */
  function FirstValues(pairs: seq<(string, string)>): (m: map<string, string>)
    ensures forall k :: k in m <==> exists i :: 0 <= i < |pairs| && pairs[i].0 == k
    ensures forall i :: 0 <= i < |pairs| && (forall j :: 0 <= j < i ==> pairs[j].0 != pairs[i].0) ==>
              m[pairs[i].0] == pairs[i].1
  {
    if pairs == [] then map[]
    else
      var m := FirstValues(pairs[1..]);
      assert forall i :: 1 <= i < |pairs| ==> pairs[1..][i - 1] == pairs[i];
      m[pairs[0].0 := pairs[0].1]
  }

  /** `strptime(s, '%Y-%m-%d')` on its canonical ten characters. */
  function ParseDashDate(s: string): (r: Option<Date>)
  {
    if |s| == 10 && s[4] == '-' && s[7] == '-' && AllDigits(s[0..4]) && AllDigits(s[5..7]) && AllDigits(s[8..10])
    then Some(Date(ParseDecimal(s[0..4]), ParseDecimal(s[5..7]), ParseDecimal(s[8..10])))
    else None
  }

  /** `%H:%M:%S`. */
  function ClockText(t: DateTime): string
  {
    Two(t.hour) + ":" + Two(t.minute) + ":" + Two(t.second)
  }

  /** `strptime(s, '%H:%M:%S')` on its canonical eight characters, as `(h, m, s)`. */
  function ParseClock(s: string): (r: Option<(int, int, int)>)
  {
    if |s| == 8 && s[2] == ':' && s[5] == ':' && AllDigits(s[0..2]) && AllDigits(s[3..5]) && AllDigits(s[6..8])
    then Some((ParseDecimal(s[0..2]), ParseDecimal(s[3..5]), ParseDecimal(s[6..8])))
    else None
  }

  /** `datetime.strptime(data[0] + ' ' + data[1], '%Y-%m-%d %H:%M:%S')`: `None`
      where it raises. */
  function ParseDateTime(day: string, clock: string): (r: Option<DateTime>)
    ensures r.Some? ==> ValidDateTime(r.value) && FourDigitYear(r.value.date)
  {
    match (ParseDashDate(day), ParseClock(clock))
    case (Some(d), Some((h, m, s))) =>
      var t := DateTime(d, h, m, s);
      if ValidDateTime(t) && FourDigitYear(d) then Some(t) else None
    case _ => None
  }

  lemma DashSlices(a: string, b: string, c: string)
    requires |a| == 4 && |b| == 2 && |c| == 2
    ensures var s := a + "-" + b + "-" + c;
      |s| == 10 && s[4] == '-' && s[7] == '-' && s[0..4] == a && s[5..7] == b && s[8..10] == c
  {
  }

  lemma ClockSlices(a: string, b: string, c: string)
    requires |a| == 2 && |b| == 2 && |c| == 2
    ensures var s := a + ":" + b + ":" + c;
      |s| == 8 && s[2] == ':' && s[5] == ':' && s[0..2] == a && s[3..5] == b && s[6..8] == c
  {
  }

  /** The canonical texts of a valid time with a four-digit year parse back
      to it, and the record keeps them as they were. */
  lemma DateTimeRoundTrip(t: DateTime)
    requires ValidDateTime(t) && FourDigitYear(t.date)
    ensures ParseDateTime(DashDate(t.date), ClockText(t)) == Some(t)
    ensures SqlTimestamp(t) == DashDate(t.date) + " " + ClockText(t)
  {
    YearSpec(t.date.year);
    TwoSpec(t.date.month);
    TwoSpec(t.date.day);
    TwoSpec(t.hour);
    TwoSpec(t.minute);
    TwoSpec(t.second);
    DashSlices(YearText(t.date.year), Two(t.date.month), Two(t.date.day));
    ClockSlices(Two(t.hour), Two(t.minute), Two(t.second));
  }

  /** The '/'-separated segments of a reformatted object's key. */
  function KeySegments(org: string, tid: string, d: Date, fileName: string): seq<string>
  {
    ["org=" + org, "tid=" + tid, "year=" + YearText(d.year),
     "month=" + Unpadded(d.month), "day=" + Unpadded(d.day), fileName]
  }

  /** `"org=%s/tid=%s/%s" % (org, tid, ts.strftime('year=%Y/month=%-m/day=%-d')) + '/' + file_name`. */
  function LogKey(org: string, tid: string, d: Date, fileName: string): string
  {
    Join(KeySegments(org, tid, d, fileName), '/')
  }

  /** Splitting a key at '/' gives back the organisation, the container, the
      day and the file name, when none of the names holds a '/'. */
  lemma LogKeyFields(org: string, tid: string, d: Date, fileName: string)
    requires '/' !in org && '/' !in tid && '/' !in fileName
    ensures Split(LogKey(org, tid, d, fileName), '/') == KeySegments(org, tid, d, fileName)
  {
    var ps := KeySegments(org, tid, d, fileName);
    RetrieverBase.SignedNoSlash(d.year);
    RetrieverBase.SignedNoSlash(d.month);
    RetrieverBase.SignedNoSlash(d.day);
    forall i | 0 <= i < |ps| ensures '/' !in ps[i] {
      assert ps[i] == ps[i];
    }
    SplitJoin(ps, '/');
  }

  /** What one request line becomes: its key and its record, or `None` when
      the line has too few fields or its time does not parse (the handler
      raises). `decode` stands for `parse_qs(unquote(...))`, flattened to the
      `(key, value)` pairs in order. */
  function ParseLine(line: string, fileName: string, decode: string -> seq<(string, string)>): (r: Option<(string, LogRecord)>)
    ensures r.Some? ==> var data := Split(RStrip(line), '\t');
      |data| >= FieldCount && r.value.1.fields == data[2..FieldCount] &&
      r.value.1.qs == FirstValues(decode(data[QueryField])) &&
      (exists t :: ParseDateTime(data[0], data[1]) == Some(t) &&
         r.value.1.datetime == SqlTimestamp(t) &&
         r.value.0 == LogKey(ParamOr(r.value.1.qs, "org", "root"), ParamOr(r.value.1.qs, "tid", "null"), t.date, fileName))
  {
    var data := Split(RStrip(line), '\t');
    if |data| < FieldCount then None
    else match ParseDateTime(data[0], data[1])
      case None => None
      case Some(t) =>
        var qs := FirstValues(decode(data[QueryField]));
        Some((LogKey(ParamOr(qs, "org", "root"), ParamOr(qs, "tid", "null"), t.date, fileName), LogRecord(data[2..FieldCount], qs, SqlTimestamp(t))))
  }

  /** A query-string parameter, or `dflt` when the query does not carry it:
      the `tid` defaults to `'null'` and the `org` to `'root'`. */
  function ParamOr(qs: map<string, string>, key: string, dflt: string): (v: string)
    ensures key in qs ==> v == qs[key]
    ensures key !in qs ==> v == dflt
  {
    if key in qs then qs[key] else dflt
  }

  // ---------------------------------------------------------------- the file

  /** The request lines of a log file, in order: every line but the `#` ones. */
  function Requests(lines: seq<string>): (r: seq<string>)
    ensures |r| <= |lines|
    ensures forall l :: l in r <==> l in lines && !IsComment(l)
  {
    if lines == [] then []
    else
      var init, line := lines[..|lines| - 1], lines[|lines| - 1];
      assert lines == init + [line];
      if IsComment(line) then Requests(init) else Requests(init) + [line]
  }

  lemma {:induction false} RequestsAppend(a: seq<string>, b: seq<string>)
    ensures Requests(a + b) == Requests(a) + Requests(b)
    decreases |b|
  {
    if b == [] {
      assert a + b == a;
    } else {
      var init, line := b[..|b| - 1], b[|b| - 1];
      assert a + b == (a + init) + [line];
      assert (a + b)[..|a + b| - 1] == a + init;
      RequestsAppend(a, init);
    }
  }

  /** A `#` line anywhere in the file changes nothing. */
  lemma CommentIgnored(a: seq<string>, c: string, b: seq<string>)
    requires IsComment(c)
    ensures Requests(a + [c] + b) == Requests(a + b)
  {
    RequestsAppend(a + [c], b);
    RequestsAppend(a, [c]);
    RequestsAppend(a, b);
    assert [c][..0] == [];
  }

  /** A parsed line: its key and its record, or `None` where it raised. */
  type Entry = Option<(string, LogRecord)>

  /** The request lines parsed, one entry each. */
  function Entries(lines: seq<string>, fileName: string, decode: string -> seq<(string, string)>): (es: seq<Entry>)
    ensures var reqs := Requests(lines);
      |es| == |reqs| && forall i :: 0 <= i < |es| ==> es[i] == ParseLine(reqs[i], fileName, decode)
  {
    var reqs := Requests(lines);
    seq(|reqs|, i requires 0 <= i < |reqs| => ParseLine(reqs[i], fileName, decode))
  }

  /** The records filed under `key`, in line order. */
  function RecordsFor(es: seq<Entry>, key: string): seq<LogRecord>
  {
    if es == [] then []
    else
      var e := es[|es| - 1];
      RecordsFor(es[..|es| - 1], key) + (if e.Some? && e.value.0 == key then [e.value.1] else [])
  }

  /** Some entry is filed under `key`. */
  predicate KeyUsed(es: seq<Entry>, key: string)
  {
    exists i :: 0 <= i < |es| && es[i].Some? && es[i].value.0 == key
  }

  predicate AllParsed(es: seq<Entry>)
  {
    forall i :: 0 <= i < |es| ==> es[i].Some?
  }

  /** The records and the line counts per key after the loop. */
  datatype Filed = Filed(result: map<string, seq<LogRecord>>, count: map<string, int>)

  ghost predicate Tallies(es: seq<Entry>, f: Filed)
  {
    (forall k :: k in f.result <==> KeyUsed(es, k)) &&
    (forall k :: k in f.count <==> k in f.result) &&
    (forall k :: k in f.result ==> f.result[k] == RecordsFor(es, k) && f.count[k] == |f.result[k]|)
  }

  /** The loop over the lines: each record is appended to its key's list and
      counted; `None` when a line raised. */
  function Gather(es: seq<Entry>): (r: Option<Filed>)
    ensures r.Some? <==> AllParsed(es)
    ensures r.Some? ==> Tallies(es, r.value)
  {
    if es == [] then Some(Filed(map[], map[]))
    else
      var init, e := es[..|es| - 1], es[|es| - 1];
      assert es == init + [e];
      var prev := Gather(init);
      if prev.None? then None
      else if e.None? then None
      else
        GatherStep(init, e.value.0, e.value.1, prev.value);
        Some(File(prev.value, e.value.0, e.value.1))
  }

  /** One record appended to its key's list and counted. */
  function File(f: Filed, key: string, rec: LogRecord): Filed
  {
    var rs := if key in f.result then f.result[key] else [];
    var n := if key in f.count then f.count[key] else 0;
    Filed(f.result[key := rs + [rec]], f.count[key := n + 1])
  }

  lemma GatherStep(init: seq<Entry>, key: string, rec: LogRecord, f: Filed)
    requires Tallies(init, f)
    ensures Tallies(init + [Some((key, rec))], File(f, key, rec))
  {
    var es := init + [Some((key, rec))];
    assert es[..|es| - 1] == init;
    forall k ensures KeyUsed(es, k) <==> KeyUsed(init, k) || k == key {
      if KeyUsed(init, k) {
        var i :| 0 <= i < |init| && init[i].Some? && init[i].value.0 == k;
        assert es[i] == init[i];
      }
      if k == key {
        assert es[|init|].value.0 == k;
      }
      if KeyUsed(es, k) && k != key {
        var i :| 0 <= i < |es| && es[i].Some? && es[i].value.0 == k;
        assert init[i] == es[i];
      }
    }
    if key !in f.result {
      NoEntriesNothing(init, key);
    }
  }

  lemma {:induction false} NoEntriesNothing(es: seq<Entry>, key: string)
    requires !KeyUsed(es, key)
    ensures RecordsFor(es, key) == []
    decreases |es|
  {
    if es != [] {
      var init := es[..|es| - 1];
      assert !KeyUsed(init, key) by {
        forall i | 0 <= i < |init| && init[i].Some? ensures init[i].value.0 != key {
          assert init[i] == es[i];
        }
      }
      NoEntriesNothing(init, key);
    }
  }

  /** Every record is filed under its own key. */
  lemma {:induction false} RecordsForHas(es: seq<Entry>, i: nat)
    requires i < |es| && es[i].Some?
    ensures es[i].value.1 in RecordsFor(es, es[i].value.0)
    decreases |es|
  {
    var init := es[..|es| - 1];
    if i < |es| - 1 {
      assert init[i] == es[i];
      RecordsForHas(init, i);
    }
  }

  // ---------------------------------------------------------------- the handler

  /** The text after the last '.' of the last component of `p` counts as an
      extension when that component has a character other than '.' before it. */
  predicate NonDotBetween(p: string, lo: int, hi: int)
    requires 0 <= lo && hi <= |p|
  {
    exists i :: lo <= i < hi && p[i] != '.'
  }

  /** `os.path.splitext(p)[0]`: `p` without the extension of its last component. */
  function SplitextRoot(p: string): (r: string)
    ensures r <= p
  {
    var sep := LastIndexOf(p, '/');
    var dot := LastIndexOf(p, '.');
    var start := if sep == |p| then 0 else sep + 1;
    if dot < |p| && (sep == |p| || dot > sep) && NonDotBetween(p, start, dot)
    then p[..dot] else p
  }

  /** Where the `collect` report for `key` goes: the key without its extension, plus `.json`. */
  function StatsKey(key: string): string
  {
    SplitextRoot(key) + ".json"
  }

  /** The report written for a key: `{'type': 'collect', 'size': count}`. */
  datatype CollectReport = CollectReport(kind: string, size: int)

  datatype Output =
    | Ignored
    | Raised
    | Written(logs: map<string, seq<LogRecord>>, reports: map<string, CollectReport>)

  /** `handler`: only `ObjectCreated:Put` is handled; an empty object key or a
      line that raises stops the run before anything is written. The reports
      are keyed by log key here; each goes to `StatsKey` of its key. */
  function Handler(eventName: string, objectKey: string, lines: seq<string>,
                   decode: string -> seq<(string, string)>): (o: Output)
    ensures o == Ignored <==> eventName != PutEvent
    ensures o.Written? <==> (eventName == PutEvent && objectKey != [] &&
      forall l :: l in lines && !IsComment(l) ==> ParseLine(l, FileName(objectKey).value, decode).Some?)
    ensures o.Written? ==> forall k :: k in o.logs <==> k in o.reports
    ensures o.Written? ==> forall k :: k in o.logs <==> KeyUsed(Entries(lines, FileName(objectKey).value, decode), k)
    ensures o.Written? ==> forall k :: k in o.logs ==>
      o.logs[k] == RecordsFor(Entries(lines, FileName(objectKey).value, decode), k) &&
      o.reports[k] == CollectReport("collect", |o.logs[k]|)
  {
    if eventName != PutEvent then Ignored
    else match FileName(objectKey)
      case None => Raised
      case Some(f) =>
        var es := Entries(lines, f, decode);
        HandlerParses(lines, f, decode);
        match Gather(es)
        case None => Raised
        case Some(filed) =>
          Written(filed.result, map k | k in filed.count :: CollectReport("collect", filed.count[k]))
  }

  lemma HandlerParses(lines: seq<string>, f: string, decode: string -> seq<(string, string)>)
    ensures AllParsed(Entries(lines, f, decode)) <==>
      forall l :: l in lines && !IsComment(l) ==> ParseLine(l, f, decode).Some?
  {
    var reqs := Requests(lines);
    var es := Entries(lines, f, decode);
    assert |es| == |reqs|;
    if AllParsed(es) {
      forall l | l in lines && !IsComment(l) ensures ParseLine(l, f, decode).Some? {
        assert l in reqs;
        var i :| 0 <= i < |reqs| && reqs[i] == l;
        assert es[i] == ParseLine(reqs[i], f, decode);
      }
    } else {
      var i :| 0 <= i < |es| && es[i].None?;
      assert es[i] == ParseLine(reqs[i], f, decode);
      assert reqs[i] in lines && !IsComment(reqs[i]);
    }
  }

  /** Each request line is filed under the key of its own organisation,
      container and day. */
  lemma LineFiled(lines: seq<string>, fileName: string, decode: string -> seq<(string, string)>, l: string)
    requires l in lines && !IsComment(l) && ParseLine(l, fileName, decode).Some?
    ensures var p := ParseLine(l, fileName, decode).value;
      p.1 in RecordsFor(Entries(lines, fileName, decode), p.0)
  {
    var reqs := Requests(lines);
    var i :| 0 <= i < |reqs| && reqs[i] == l;
    RecordsForHas(Entries(lines, fileName, decode), i);
  }

  /** Shifting a string to the right shifts its last occurrence of a character it holds. */
  lemma LastIndexShift(dir: string, q: string, c: char)
    requires c in q
    ensures LastIndexOf(dir + q, c) == |dir| + LastIndexOf(q, c)
  {
    var p := dir + q;
    var k := LastIndexOf(q, c);
    assert p[|dir| + k] == c;
    forall j | |dir| + k < j < |p| ensures p[j] != c {
      assert p[j] == q[j - |dir|];
    }
  }

  /** Shifting a string to the right leaves a character it lacks at most in the prefix. */
  lemma LastIndexAbsent(dir: string, q: string, c: char)
    requires c !in q
    ensures LastIndexOf(dir + q, c) == |dir + q| || LastIndexOf(dir + q, c) < |dir|
  {
  }

  lemma NonDotShift(dir: string, q: string, lo: int, hi: int)
    requires 0 <= lo && hi <= |q|
    ensures NonDotBetween(dir + q, |dir| + lo, |dir| + hi) <==> NonDotBetween(q, lo, hi)
  {
    var p := dir + q;
    if NonDotBetween(q, lo, hi) {
      var i :| lo <= i < hi && q[i] != '.';
      assert p[|dir| + i] == q[i];
    }
    if NonDotBetween(p, |dir| + lo, |dir| + hi) {
      var i :| |dir| + lo <= i < |dir| + hi && p[i] != '.';
      assert q[i - |dir|] == p[i];
    }
  }

  /** The extension is cut in the last component only. */
  lemma SplitextLast(dir: string, fileName: string)
    requires '/' !in fileName
    ensures SplitextRoot(dir + "/" + fileName) == dir + SplitextRoot("/" + fileName)
  {
    var q := "/" + fileName;
    assert dir + "/" + fileName == dir + q;
    LastSlashFront(fileName);
    LastIndexShift(dir, q, '/');
    if '.' in q {
      DotShift(dir, q);
    } else {
      LastIndexAbsent(dir, q, '.');
    }
  }

  lemma LastSlashFront(fileName: string)
    requires '/' !in fileName
    ensures LastIndexOf("/" + fileName, '/') == 0
  {
    var q := "/" + fileName;
    forall j | 0 < j < |q| ensures q[j] != '/' {
      assert q[j] == fileName[j - 1];
    }
  }

  lemma DotShift(dir: string, q: string)
    requires '.' in q && LastIndexOf(q, '/') == 0
    ensures SplitextRoot(dir + q) == dir + SplitextRoot(q)
  {
    var p := dir + q;
    var dq, dp := LastIndexOf(q, '.'), LastIndexOf(p, '.');
    LastIndexShift(dir, q, '/');
    LastIndexShift(dir, q, '.');
    assert LastIndexOf(p, '/') == |dir| && dp == |dir| + dq;
    assert dq < |q| && dp < |p|;
    var slashCut := LastIndexOf(p, '/') + 1;
    assert slashCut == |dir| + 1;
    NonDotShift(dir, q, 1, dq);
    assert NonDotBetween(p, slashCut, dp) <==> NonDotBetween(q, 1, dq);
    assert p[..dp] == dir + q[..dq];
  }

  /** The reports of one log file never land on the same object: its keys
      differ in their directory only. */
  lemma StatsKeysDistinct(a: string, b: string, fileName: string)
    requires '/' !in fileName
    requires StatsKey(a + "/" + fileName) == StatsKey(b + "/" + fileName)
    ensures a == b
  {
    SplitextLast(a, fileName);
    SplitextLast(b, fileName);
    var s := SplitextRoot("/" + fileName);
    assert a + s + ".json" == b + s + ".json";
    assert |a| == |b|;
    assert a == (a + s + ".json")[..|a|];
    assert b == (b + s + ".json")[..|b|];
  }
}
