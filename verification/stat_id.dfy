/** `statIdToInfo`: the stats list shows, for a stored report's object name,
    the period it covers and its label, read back from the file name the
    BigQuery stats job gave it. */
module StatId {
  import opened Wrappers
  import opened Strings
  import opened Calendar
  import opened DataRetrieverApp

  /** The character classes of the file-name pattern. */
  datatype CharClass = Digit | Alnum | HexDash

  predicate In(cls: CharClass, c: char)
  {
    match cls
    case Digit => '0' <= c <= '9'
    case Alnum => '0' <= c <= '9' || 'a' <= c <= 'z' || 'A' <= c <= 'Z'
    case HexDash => '0' <= c <= '9' || 'a' <= c <= 'f' || c == '-'
  }

  predicate AllIn(cls: CharClass, s: string)
  {
    forall i :: 0 <= i < |s| ==> In(cls, s[i])
  }

  /** The longest prefix of `s` in the class, and the rest. */
  function Span(s: string, cls: CharClass): (r: (string, string))
    ensures r.0 + r.1 == s
    ensures AllIn(cls, r.0)
    ensures r.1 == [] || !In(cls, r.1[0])
  {
    if s != [] && In(cls, s[0]) then
      var (a, b) := Span(s[1..], cls);
      ([s[0]] + a, b)
    else ([], s)
  }

  /** A run of the class followed by a character outside it is what `Span` cuts off. */
  lemma {:induction false} SpanExact(a: string, b: string, cls: CharClass)
    requires AllIn(cls, a)
    requires b == [] || !In(cls, b[0])
    ensures Span(a + b, cls) == (a, b)
    decreases |a|
  {
    if a != [] {
      assert (a + b)[1..] == a[1..] + b;
      assert (a + b)[0] == a[0] && In(cls, a[0]);
      assert AllIn(cls, a[1..]) by {
        forall i | 0 <= i < |a| - 1 ensures In(cls, a[1..][i]) {
          assert a[1..][i] == a[i + 1];
        }
      }
      SpanExact(a[1..], b, cls);
      var s := a + b;
      assert Span(s, cls) == ([s[0]] + Span(s[1..], cls).0, Span(s[1..], cls).1);
      assert [a[0]] + a[1..] == a;
    } else {
      assert a + b == b;
    }
  }

  // ---------------------------------------------------------------- the pattern

  /** The groups that `([0-9]+)_([0-9]+)_([0-9]+)_(([a-zA-Z0-9]+)_)?([0-9a-f-]+)\.json`
      captures and the page uses: the start and end stamps and the label. */
  datatype Groups = Groups(start: string, end: string, tag: Option<string>)

  /** `[0-9a-f-]+\.json` at the head of `s`. */
  predicate IdThenJson(s: string)
  {
    var (h, r) := Span(s, HexDash);
    h != [] && ".json" <= r
  }

  /** A match starting at the head of `s`. Every repeated class here excludes
      the character that follows it in the pattern, so the backtracking
      matcher's first success takes each run whole; the optional label group
      is tried first and dropped only when the rest then fails. */
  function MatchAt(s: string): (r: Option<Groups>)
  {
    var (g1, r1) := Span(s, Digit);
    if g1 == [] || r1 == [] || r1[0] != '_' then None
    else
      var (g2, r2) := Span(r1[1..], Digit);
      if g2 == [] || r2 == [] || r2[0] != '_' then None
      else
        var (g3, r3) := Span(r2[1..], Digit);
        if g3 == [] || r3 == [] || r3[0] != '_' then None
        else
          MatchTail(g2, g3, r3[1..])
  }

  /** The pattern after the third '_': the optional label, then the id. */
  function MatchTail(start: string, end: string, t: string): Option<Groups>
  {
    var (lab, r4) := Span(t, Alnum);
    if lab != [] && r4 != [] && r4[0] == '_' && IdThenJson(r4[1..]) then Some(Groups(start, end, Some(lab)))
    else if IdThenJson(t) then Some(Groups(start, end, None))
    else None
  }

  /** `String.prototype.match` without the global flag: the leftmost match. */
  function Search(s: string): (r: Option<Groups>)
    ensures MatchAt(s).Some? ==> r == MatchAt(s)
  {
    if MatchAt(s).Some? then MatchAt(s)
    else if s == [] then None
    else Search(s[1..])
  }

  /** `/\/([^/]+\.json)$/`: the text after the last '/', when it is a file
      name ending in `.json`. */
  function FilePart(statid: string): (r: Option<string>)
    ensures r.Some? ==> |r.value| < |statid| && statid == statid[..|statid| - |r.value| - 1] + "/" + r.value
    ensures r.Some? ==> '/' !in r.value && |r.value| >= 6 && ".json" == r.value[|r.value| - 5..]
  {
    var k := LastIndexOf(statid, '/');
    if k == |statid| then None
    else
      var f := statid[k + 1..];
      assert statid == statid[..k] + "/" + f;
      if |f| >= 6 && f[|f| - 5..] == ".json" then Some(f) else None
  }

  // ---------------------------------------------------------------- the info

  /** `m[5]`: `null` when nothing matched, `undefined` when the pattern
      matched without a label. */
  datatype LabelValue = Null | Undefined | Text(s: string)

  /** `{name, term, label}`, the term kept as the two stamps `moment` is given. */
  datatype StatInfo = StatInfo(name: string, span: Option<(string, string)>, tag: LabelValue)

  function Info(statid: string): (info: StatInfo)
    ensures info.name == statid
    ensures info.span.None? <==> info.tag == Null
    ensures FilePart(statid).None? ==> info.span.None?
    ensures info.span.Some? ==> AllDigits(info.span.value.0) && AllDigits(info.span.value.1)
  {
    match FilePart(statid)
    case None => StatInfo(statid, None, Null)
    case Some(f) =>
      match Search(f)
      case None => StatInfo(statid, None, Null)
      case Some(g) =>
        SearchDigits(f);
        StatInfo(statid, Some((g.start, g.end)), if g.tag.Some? then Text(g.tag.value) else Undefined)
  }

  lemma {:induction false} SearchDigits(f: string)
    requires Search(f).Some?
    ensures AllDigits(Search(f).value.start) && AllDigits(Search(f).value.end)
  {
    if MatchAt(f).Some? {
      DigitsAre(f);
    } else {
      SearchDigits(f[1..]);
    }
  }

  lemma DigitsAre(s: string)
    requires MatchAt(s).Some?
    ensures AllDigits(MatchAt(s).value.start) && AllDigits(MatchAt(s).value.end)
  {
    var (g1, r1) := Span(s, Digit);
    var (g2, r2) := Span(r1[1..], Digit);
    var (g3, r3) := Span(r2[1..], Digit);
    assert MatchAt(s).value.start == g2 && MatchAt(s).value.end == g3;
    forall i | 0 <= i < |g2| ensures IsDigit(g2[i]) {
      assert In(Digit, g2[i]);
    }
    forall i | 0 <= i < |g3| ensures IsDigit(g3[i]) {
      assert In(Digit, g3[i]);
    }
  }

  /** moment's `YYYY`: the year zero-filled to at least four digits, so the
      year 999 prints as `0999` (where `strftime`'s `%Y` gives `999`). */
  function MomentYear(y: int): (r: string)
    ensures 0 <= y <= 9999 ==> |r| == 4 && AllDigits(r) && ParseDecimal(r) == y
    ensures 1000 <= y <= 9999 ==> r == YearText(y)
  {
    assert Pow10(4) == 10000 by {
      assert Pow10(1) == 10;
      assert Pow10(2) == 100;
      assert Pow10(3) == 1000;
    }
    if 1000 <= y <= 9999 then YearSpec(y); PadSpec(y, 4); Pad(y, 4)
    else if 0 <= y <= 9999 then PadSpec(y, 4); Pad(y, 4)
    else if y >= 0 then Pad(y, 4)
    else "-" + Pad(-y, 4)
  }

  /** `moment.format('YYYY/MM/DD HH:mm:ss')`. */
  function SlashStamp(t: DateTime): string
  {
    MomentYear(t.date.year) + "/" + Two(t.date.month) + "/" + Two(t.date.day) + " " +
    Two(t.hour) + ":" + Two(t.minute) + ":" + Two(t.second)
  }

  /** The term the page shows, `start 〜 end`, for two valid 14-digit stamps. */
  function TermText(start: string, end: string): (r: Option<string>)
    ensures r.Some? ==> |start| == 14 && |end| == 14
  {
    match (ParseStamp(start), ParseStamp(end))
    case (Some(a), Some(b)) =>
      if ValidDateTime(a) && ValidDateTime(b) then Some(SlashStamp(a) + "〜" + SlashStamp(b)) else None
    case _ => None
  }

  // ---------------------------------------------------------------- round trip

  lemma DigitsIn(s: string)
    requires AllDigits(s)
    ensures AllIn(Digit, s)
  {
    forall i | 0 <= i < |s| ensures In(Digit, s[i]) {
      assert IsDigit(s[i]);
    }
  }

  /** The tail of a target name after the three stamps gives the suffix as
      the label, or no label without a suffix. */
  lemma TailMatches(start: string, end: string, suffix: Option<string>, uuid: string)
    requires suffix.Some? ==> AllIn(Alnum, suffix.value)
    requires uuid != [] && AllIn(HexDash, uuid)
    ensures MatchTail(start, end, SuffixPart(suffix) + uuid + ".json") ==
      Some(Groups(start, end, if SuffixPart(suffix) != [] then Some(suffix.value) else None))
  {
    if SuffixPart(suffix) != [] {
      assert SuffixPart(suffix) + uuid + ".json" == suffix.value + ("_" + uuid + ".json");
      TailWithLabel(start, end, suffix.value, uuid);
    } else {
      assert SuffixPart(suffix) + uuid + ".json" == uuid + ".json";
      TailWithoutLabel(start, end, uuid);
    }
  }

  lemma IdThenJsonOf(uuid: string)
    requires uuid != [] && AllIn(HexDash, uuid)
    ensures IdThenJson(uuid + ".json")
  {
    SpanExact(uuid, ".json", HexDash);
  }

  lemma TailWithLabel(start: string, end: string, lab: string, uuid: string)
    requires lab != [] && AllIn(Alnum, lab)
    requires uuid != [] && AllIn(HexDash, uuid)
    ensures MatchTail(start, end, lab + ("_" + uuid + ".json")) == Some(Groups(start, end, Some(lab)))
  {
    IdThenJsonOf(uuid);
    SpanExact(lab, "_" + uuid + ".json", Alnum);
    assert ("_" + uuid + ".json")[1..] == uuid + ".json";
  }

  lemma TailWithoutLabel(start: string, end: string, uuid: string)
    requires uuid != [] && AllIn(HexDash, uuid)
    ensures MatchTail(start, end, uuid + ".json") == Some(Groups(start, end, None))
  {
    IdThenJsonOf(uuid);
    var t := uuid + ".json";
    var (lab, r4) := Span(t, Alnum);
    if r4 != [] {
      assert r4[0] == t[|lab|];
      if |lab| < |uuid| {
        assert t[|lab|] == uuid[|lab|];
        assert In(HexDash, uuid[|lab|]);
      } else {
        assert t[|lab|] == ".json"[|lab| - |uuid|];
      }
    }
  }

  /** Three digit runs, each closed by '_', are the stamps; the rest is the tail. */
  lemma HeadMatches(a: string, b: string, c: string, t: string)
    requires a != [] && b != [] && c != []
    requires AllIn(Digit, a) && AllIn(Digit, b) && AllIn(Digit, c)
    ensures MatchAt(a + "_" + b + "_" + c + "_" + t) == MatchTail(b, c, t)
  {
    var f := a + "_" + b + "_" + c + "_" + t;
    var r1 := "_" + (b + ("_" + (c + ("_" + t))));
    assert f == a + r1;
    SpanExact(a, r1, Digit);
    var r2 := "_" + (c + ("_" + t));
    assert r1[1..] == b + r2;
    SpanExact(b, r2, Digit);
    var r3 := "_" + t;
    assert r2[1..] == c + r3;
    SpanExact(c, r3, Digit);
    assert r3[1..] == t;
  }

  /** A name that has exactly one '/' before its file part gives that file part back. */
  lemma FilePartOf(prefix: string, f: string)
    requires prefix != [] && prefix[|prefix| - 1] == '/'
    requires '/' !in f && |f| >= 6 && f[|f| - 5..] == ".json"
    ensures FilePart(prefix + f) == Some(f)
  {
    var s := prefix + f;
    var k := LastIndexOf(s, '/');
    assert s[|prefix| - 1] == '/';
    forall j | |prefix| <= j < |s| ensures s[j] != '/' {
      assert s[j] == f[j - |prefix|];
    }
    assert k == |prefix| - 1;
    assert s[k + 1..] == f;
  }

  lemma NoSlash(cls: CharClass, s: string)
    requires AllIn(cls, s)
    ensures '/' !in s
  {
  }

  lemma FileMatches(a: string, b: string, c: string, suffix: Option<string>, uuid: string)
    requires a != [] && b != [] && c != []
    requires AllIn(Digit, a) && AllIn(Digit, b) && AllIn(Digit, c)
    requires suffix.Some? ==> AllIn(Alnum, suffix.value)
    requires uuid != [] && AllIn(HexDash, uuid)
    ensures MatchAt(TargetFile(a, b, c, suffix, uuid)) ==
      Some(Groups(b, c, if SuffixPart(suffix) != [] then Some(suffix.value) else None))
  {
    var t := SuffixPart(suffix) + uuid + ".json";
    assert TargetFile(a, b, c, suffix, uuid) == a + "_" + b + "_" + c + "_" + t;
    HeadMatches(a, b, c, t);
    TailMatches(b, c, suffix, uuid);
  }

  lemma FileShape(a: string, b: string, c: string, suffix: Option<string>, uuid: string)
    requires AllIn(Digit, a) && AllIn(Digit, b) && AllIn(Digit, c)
    requires suffix.Some? ==> AllIn(Alnum, suffix.value)
    requires AllIn(HexDash, uuid)
    ensures var f := TargetFile(a, b, c, suffix, uuid);
      '/' !in f && |f| >= 6 && f[|f| - 5..] == ".json"
  {
    NoSlash(Digit, a);
    NoSlash(Digit, b);
    NoSlash(Digit, c);
    NoSlash(HexDash, uuid);
    if suffix.Some? {
      NoSlash(Alnum, suffix.value);
    }
    var t := SuffixPart(suffix) + uuid + ".json";
    assert '/' !in t;
  }

  /** Once the file part is found and matches at its head, the info holds the match. */
  lemma InfoFromMatch(statid: string, f: string, g: Groups)
    requires FilePart(statid) == Some(f) && MatchAt(f) == Some(g)
    ensures Info(statid) == StatInfo(statid, Some((g.start, g.end)), if g.tag.Some? then Text(g.tag.value) else Undefined)
  {
  }

  /** The info read back from a name with a '/'-terminated prefix and a
      file part in the stats job's layout. */
  lemma InfoOfName(prefix: string, a: string, b: string, c: string, suffix: Option<string>, uuid: string)
    requires prefix != [] && prefix[|prefix| - 1] == '/'
    requires a != [] && b != [] && c != []
    requires AllIn(Digit, a) && AllIn(Digit, b) && AllIn(Digit, c)
    requires suffix.Some? ==> AllIn(Alnum, suffix.value)
    requires uuid != [] && AllIn(HexDash, uuid)
    ensures var name := prefix + TargetFile(a, b, c, suffix, uuid);
      Info(name) == StatInfo(name, Some((b, c)), if SuffixPart(suffix) != [] then Text(suffix.value) else Undefined)
  {
    var f := TargetFile(a, b, c, suffix, uuid);
    FileShape(a, b, c, suffix, uuid);
    FilePartOf(prefix, f);
    FileMatches(a, b, c, suffix, uuid);
    InfoFromMatch(prefix + f, f, MatchAt(f).value);
  }

  /** Stamps written from valid times give the term of those times. */
  lemma TermOfStamps(s: DateTime, e: DateTime)
    requires ValidDateTime(s) && FourDigitYear(s.date) && ValidDateTime(e) && FourDigitYear(e.date)
    ensures TermText(Stamp14(s), Stamp14(e)) == Some(SlashStamp(s) + "〜" + SlashStamp(e))
  {
    StampRoundTrip(s);
    StampRoundTrip(e);
  }

  /** A name the stats job builds, under a prefix ending in '/', with a
      four-digit-year clock, an alphanumeric suffix and a hex-and-dash id,
      reads back as its window and its suffix. */
  lemma NameRoundTrip(prefix: string, now: DateTime, stime: int, etime: int, suffix: Option<string>, uuid: string)
    requires prefix != [] && prefix[|prefix| - 1] == '/'
    requires ValidDateTime(now) && FourDigitYear(now.date)
    requires FourDigitYear(FromMs(stime).date) && FourDigitYear(FromMs(etime).date)
    requires suffix.Some? ==> AllIn(Alnum, suffix.value)
    requires uuid != [] && AllIn(HexDash, uuid)
    ensures var info := Info(TargetName(prefix, now, stime, etime, suffix, uuid));
      info.span == Some((Stamp14(FromMs(stime)), Stamp14(FromMs(etime)))) &&
      info.tag == (if SuffixPart(suffix) != [] then Text(suffix.value) else Undefined) &&
      TermText(info.span.value.0, info.span.value.1) == Some(SlashStamp(FromMs(stime)) + "〜" + SlashStamp(FromMs(etime)))
  {
    var st, et := FromMs(stime), FromMs(etime);
    var a, b, c := Stamp14(now), Stamp14(st), Stamp14(et);
    StampDigits(now);
    StampDigits(st);
    StampDigits(et);
    InfoOfName(prefix, a, b, c, suffix, uuid);
    TermOfStamps(st, et);
  }

  lemma StampDigits(t: DateTime)
    requires ValidDateTime(t) && FourDigitYear(t.date)
    ensures Stamp14(t) != [] && AllIn(Digit, Stamp14(t))
  {
    StampRoundTrip(t);
    DigitsIn(Stamp14(t));
  }
}
