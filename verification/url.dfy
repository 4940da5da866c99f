/** URL handling shared by the report code.

    `Parse` splits a URL into the components of section 3 of RFC 3986
    (scheme, authority, path, query, fragment) the way Python's `urlparse`
    does for the inputs the reports see: the scheme is the text before the
    first ':' when it is a valid scheme name (lower-cased), the authority
    ("netloc") follows a leading "//" up to the first of "/?#", the fragment
    follows the first '#', the query the first '?', and for the schemes that
    take `;params` the path is cut at the first ';' after its last '/'.

    `NormalizeUrl` is `normalize_url` / `_normalizeUrl`, and the template
    matchers are `_match_url` (Python) and the placeholder regex of
    `lookupPath` (JavaScript). */
module Url {
  import opened Wrappers
  import opened Strings
  import opened Grouping

  // ---------------------------------------------------------------- components

  predicate IsSchemeChar(c: char) { IsAlnum(c) || c == '+' || c == '-' || c == '.' }

  /** A scheme name: a letter followed by letters, digits, '+', '-' or '.'. */
  predicate ValidScheme(s: string)
  {
    |s| > 0 && IsLetter(s[0]) && forall j :: 0 <= j < |s| ==> IsSchemeChar(s[j])
  }

  /** Length of the scheme in front of the first ':', or 0 when the text there is not a scheme. */
  function SchemeLength(url: string): (n: nat)
    ensures n < |url| || n == 0
    ensures n > 0 <==> FirstIndex(url, ':') < |url| && ValidScheme(url[..FirstIndex(url, ':')])
    ensures n > 0 ==> n == FirstIndex(url, ':')
  {
    var i := FirstIndex(url, ':');
    if i < |url| && ValidScheme(url[..i]) then i else 0
  }

  /** The schemes for which `urlparse` separates `;params` from the path. */
  const UsesParams: set<string> :=
    {"", "ftp", "hdl", "prospero", "http", "imap", "https", "shttp", "rtsp", "rtspu",
     "sip", "sips", "mms", "sftp", "tel"}

  /** Every ';' in `p` has a '/' somewhere after it: nothing after the last segment looks like params. */
  predicate NoTailParams(p: string)
  {
    forall j :: 0 <= j < |p| && p[j] == ';' ==> exists i :: j < i < |p| && p[i] == '/'
  }

  /** The path cut at the first ';' after its last '/' (at the first ';' when there is no '/'). */
  function CutParams(p: string): (r: (string, string))
    ensures r.0 <= p
  {
    var start := if '/' in p then LastIndexOf(p, '/') else 0;
    var k := FirstIndex(p[start..], ';');
    if start + k < |p| then (p[..start + k], p[start + k + 1..]) else (p, "")
  }

  /** Cutting loses nothing: the path is the kept part, then ';' and the params when there are any. */
  lemma CutParamsRejoin(p: string)
    ensures var r := CutParams(p); p == if r.0 == p then r.0 else r.0 + ";" + r.1
  {
    var start := if '/' in p then LastIndexOf(p, '/') else 0;
    var k := FirstIndex(p[start..], ';');
    if start + k < |p| {
      assert p[start + k] == ';';
      assert p == p[..start + k] + ";" + p[start + k + 1..];
    }
  }

  /** The kept part never ends in params, and a path that does not is kept whole. */
  lemma CutParamsClean(p: string)
    ensures NoTailParams(CutParams(p).0)
    ensures NoTailParams(p) ==> CutParams(p) == (p, "")
  {
    var start := if '/' in p then LastIndexOf(p, '/') else 0;
    var k := FirstIndex(p[start..], ';');
    var i := start + k;
    if i < |p| {
      assert p[i] == ';';
      if NoTailParams(p) {
        assert false;
      }
      var r := p[..i];
      forall j | 0 <= j < |r| && r[j] == ';'
        ensures exists m :: j < m < |r| && r[m] == '/'
      {
        if j >= start {
          assert false;
        }
        assert r[start] == '/';
      }
    } else {
      forall j | 0 <= j < |p| && p[j] == ';'
        ensures exists m :: j < m < |p| && p[m] == '/'
      {
        if j >= start {
          assert false;
        }
        assert p[start] == '/';
      }
    }
  }

  /** The six components `urlparse` returns; absent ones are empty strings. */
  datatype UrlParts = UrlParts(scheme: string, netloc: string, path: string,
                               params: string, query: string, fragment: string)

  /** The authority after a leading "//", up to the first of "/?#", and what follows it. */
  function SplitNetloc(rest: string): (r: (string, string))
    ensures forall c :: c in r.0 ==> c != '/' && c != '?' && c != '#'
    ensures r.1 == [] || r.1[0] in {'/', '?', '#'} || (r.0 == [] && r.1 == rest)
    ensures r.0 != [] ==> rest == "//" + r.0 + r.1
    ensures r.0 == [] ==> rest == r.1 || rest == "//" + r.1
  {
    if |rest| >= 2 && rest[0] == '/' && rest[1] == '/' then
      var t := rest[2..];
      var k := IndexOfAny(t, {'/', '?', '#'});
      assert rest == "//" + t[..k] + t[k..];
      (t[..k], t[k..])
    else ("", rest)
  }

  /** The text before the first '?' or '#': what is left of the path once query and fragment go. */
  function PathPart(tail: string): (p: string)
    ensures '?' !in p && '#' !in p
    ensures p <= tail
    ensures p == tail || tail[|p|] == '?' || tail[|p|] == '#'
  {
    tail[..IndexOfAny(tail, {'?', '#'})]
  }

  /** The lower-cased scheme, or "" when the URL has none. */
  function SchemeOf(url: string): (s: string)
    ensures s == [] || ValidScheme(s)
  {
    var n := SchemeLength(url);
    var s := Lower(url[..n]);
    assert n > 0 ==> ValidScheme(s) by {
      if n > 0 {
        forall j | 0 <= j < n ensures IsSchemeChar(s[j]) {
          assert IsSchemeChar(url[..n][j]);
        }
      }
    }
    s
  }

  /** What follows the scheme and its ':'. */
  function AfterScheme(url: string): string
  {
    var n := SchemeLength(url);
    if n > 0 then url[n + 1..] else url
  }

  /** The text after the first '#'. */
  function FragmentOf(tail: string): string
  {
    var f := FirstIndex(tail, '#');
    if f < |tail| then tail[f + 1..] else ""
  }

  /** The text after the first '?' of what precedes the fragment. */
  function QueryOf(tail: string): string
  {
    var b := tail[..FirstIndex(tail, '#')];
    var q := FirstIndex(b, '?');
    if q < |b| then b[q + 1..] else ""
  }

  /** The path and its `;params`; only the schemes in `UsesParams` have params cut off. */
  function PathAndParams(scheme: string, tail: string): (r: (string, string))
    ensures '?' !in r.0 && '#' !in r.0
    ensures r.0 <= PathPart(tail)
    ensures scheme in UsesParams ==> NoTailParams(r.0)
  {
    var path := PathPart(tail);
    if scheme in UsesParams then
      var r := CutParams(path);
      assert NoTailParams(r.0) by { CutParamsClean(path); }
      assert '?' !in r.0 && '#' !in r.0 by {
        forall i | 0 <= i < |r.0| ensures r.0[i] != '?' && r.0[i] != '#' {
          assert r.0[i] == path[i] && path[i] in path;
        }
      }
      r
    else (path, "")
  }

  /** Python's `urlparse(url)`. */
  function Parse(url: string): (u: UrlParts)
    ensures u.scheme == [] || ValidScheme(u.scheme)
    ensures forall c :: c in u.netloc ==> c != '/' && c != '?' && c != '#'
    ensures '?' !in u.path && '#' !in u.path
    ensures u.scheme in UsesParams ==> NoTailParams(u.path)
    ensures u.netloc != [] ==> u.path == [] || u.path[0] == '/'
  {
    var scheme := SchemeOf(url);
    var nt := SplitNetloc(AfterScheme(url));
    var pp := PathAndParams(scheme, nt.1);
    assert nt.0 != [] && pp.0 != [] ==> pp.0[0] == '/' by {
      if nt.0 != [] && pp.0 != [] {
        assert pp.0[0] == PathPart(nt.1)[0] == nt.1[0];
      }
    }
    UrlParts(scheme, nt.0, pp.0, pp.1, QueryOf(nt.1), FragmentOf(nt.1))
  }

  /** Python splits the fragment off first and the query second; the path
      left over is the text before the first '?' or '#', as `PathPart` says. */
  lemma PathPartViaFragment(tail: string)
    ensures var b := tail[..FirstIndex(tail, '#')]; b[..FirstIndex(b, '?')] == PathPart(tail)
  {
    var f := FirstIndex(tail, '#');
    var k := IndexOfAny(tail, {'?', '#'});
    assert k <= f;
  }

  // ---------------------------------------------------------------- normalize_url

  /** `"{0}://{1}{2}".format(scheme, netloc, path)`: what a normalized URL keeps. */
  function Stem(p: UrlParts): (w: string)
    requires p.scheme == [] || ValidScheme(p.scheme)
    requires forall c :: c in p.netloc ==> c != '/' && c != '?' && c != '#'
    requires '?' !in p.path && '#' !in p.path
    ensures '?' !in w && '#' !in w
  {
    var w := p.scheme + "://" + p.netloc + p.path;
    assert forall i :: 0 <= i < |w| ==> w[i] != '?' && w[i] != '#' by {
      forall i | 0 <= i < |w| ensures w[i] != '?' && w[i] != '#' {
        if i < |p.scheme| {
          assert w[i] == p.scheme[i] && IsSchemeChar(p.scheme[i]);
        } else if i < |p.scheme| + 3 {
          assert w[i] == "://"[i - |p.scheme|];
        } else if i < |p.scheme| + 3 + |p.netloc| {
          assert w[i] == p.netloc[i - |p.scheme| - 3];
          assert w[i] in p.netloc;
        } else {
          assert w[i] == p.path[i - |p.scheme| - 3 - |p.netloc|];
          assert w[i] in p.path;
        }
      }
    }
    w
  }

  /** `normalize_url` (admin API) and `_normalizeUrl` (client API): a missing,
      non-string or empty value is None, the "undefined" sentinel in any case is
      returned as it is, and any other URL keeps only scheme, netloc and path,
      so query and fragment are gone. */
  function NormalizeUrl(url: Option<string>): (r: Option<string>)
    ensures r.None? <==> url.None? || url == Some("")
    ensures url.Some? && IsUndefinedSentinel(url.value) ==> r == url
    ensures url.Some? && url.value != "" && !IsUndefinedSentinel(url.value) ==>
              r == Some(Stem(Parse(url.value))) && '?' !in r.value && '#' !in r.value
  {
    match url
    case None => None
    case Some(u) =>
      if u == "" then None
      else if IsUndefinedSentinel(u) then Some(u)
      else Some(Stem(Parse(u)))
  }

  lemma LowerIdempotent(s: string)
    ensures Lower(Lower(s)) == Lower(s)
  {
  }

  lemma ValidSchemeNoColon(s: string)
    requires ValidScheme(s)
    ensures ':' !in s
  {
  }

  /** Re-parsing `scheme + "://" + w` when `w` holds neither '?' nor '#': the
      scheme comes back, the netloc runs up to the first '/' of `w`, and the
      rest of `w` is the path before any params are cut. */
  lemma {:induction false} ReparseSchemed(s: string, w: string)
    requires ValidScheme(s) && Lower(s) == s
    requires '?' !in w && '#' !in w
    ensures var k := IndexOfAny(w, {'/', '?', '#'});
            && SchemeOf(s + "://" + w) == s
            && SplitNetloc(AfterScheme(s + "://" + w)) == (w[..k], w[k..])
            && PathPart(w[k..]) == w[k..]
  {
    var url := s + "://" + w;
    ValidSchemeNoColon(s);
    assert url[|s|] == ':';
    assert forall j :: 0 <= j < |s| ==> url[j] == s[j];
    assert FirstIndex(url, ':') == |s|;
    assert url[..|s|] == s;
    assert SchemeLength(url) == |s|;
    var rest := url[|s| + 1..];
    assert rest == "//" + w;
    assert rest[2..] == w;
    var k := IndexOfAny(w, {'/', '?', '#'});
    var tail := w[k..];
    assert '?' !in tail && '#' !in tail by {
      forall j | 0 <= j < |tail| ensures tail[j] != '?' && tail[j] != '#' {
        assert tail[j] == w[k + j] && w[k + j] in w;
      }
    }
    assert IndexOfAny(tail, {'?', '#'}) == |tail|;
  }

  /** The components of that re-parse, params included. */
  lemma ReparseSchemedParts(s: string, w: string)
    requires ValidScheme(s) && Lower(s) == s
    requires '?' !in w && '#' !in w
    requires s in UsesParams ==> NoTailParams(w[IndexOfAny(w, {'/', '?', '#'})..])
    ensures var k := IndexOfAny(w, {'/', '?', '#'});
            var q := Parse(s + "://" + w);
            q.scheme == s && q.netloc == w[..k] && q.path == w[k..]
  {
    var k := IndexOfAny(w, {'/', '?', '#'});
    ReparseSchemed(s, w);
    if s in UsesParams {
      CutParamsClean(w[k..]);
    }
    assert PathAndParams(s, w[k..]).0 == w[k..];
  }

  lemma StemParts(q: UrlParts)
    requires q.scheme == [] || ValidScheme(q.scheme)
    requires forall c :: c in q.netloc ==> c != '/' && c != '?' && c != '#'
    requires '?' !in q.path && '#' !in q.path
    ensures Stem(q) == q.scheme + "://" + q.netloc + q.path
    ensures Stem(q) == q.scheme + "://" + (q.netloc + q.path)
  {
    assert q.scheme + "://" + q.netloc + q.path == q.scheme + "://" + (q.netloc + q.path);
  }

  lemma ConcatSplitAt(s: string, w: string, k: nat)
    requires k <= |w|
    ensures s + "://" + w[..k] + w[k..] == s + "://" + w
  {
    assert w[..k] + w[k..] == w;
  }

  /** ...so the stem of that re-parse is the text itself, as long as no params would be cut. */
  lemma StemOfSchemed(s: string, w: string)
    requires ValidScheme(s) && Lower(s) == s
    requires '?' !in w && '#' !in w
    requires s in UsesParams ==> NoTailParams(w[IndexOfAny(w, {'/', '?', '#'})..])
    ensures Stem(Parse(s + "://" + w)) == s + "://" + w
  {
    ReparseSchemedParts(s, w);
    StemParts(Parse(s + "://" + w));
    ConcatSplitAt(s, w, IndexOfAny(w, {'/', '?', '#'}));
  }

  lemma NetlocPathClean(netloc: string, path: string)
    requires forall c :: c in netloc ==> c != '/' && c != '?' && c != '#'
    requires '?' !in path && '#' !in path
    ensures '?' !in netloc + path && '#' !in netloc + path
  {
    var w := netloc + path;
    forall i | 0 <= i < |w| ensures w[i] != '?' && w[i] != '#' {
      if i < |netloc| {
        assert w[i] == netloc[i] && netloc[i] in netloc;
      } else {
        assert w[i] == path[i - |netloc|] && path[i - |netloc|] in path;
      }
    }
  }

  lemma SchemeOfLowered(url: string)
    ensures Lower(SchemeOf(url)) == SchemeOf(url)
  {
    LowerIdempotent(url[..SchemeLength(url)]);
  }

  /** A text with a ':' right after a scheme is neither empty nor the "undefined" sentinel. */
  lemma SchemedNotSentinel(s: string, w: string)
    requires ValidScheme(s)
    ensures s + "://" + w != "" && !IsUndefinedSentinel(s + "://" + w)
  {
    var r := s + "://" + w;
    assert r[|s|] == ':';
    assert Lower(r)[|s|] == ':';
    assert forall i :: 0 <= i < |"undefined"| ==> "undefined"[i] != ':';
  }

  /** A normalized URL with a scheme is a fixed point of `NormalizeUrl`. */
  lemma NormalizeIdempotent(url: string)
    requires url != "" && !IsUndefinedSentinel(url)
    requires Parse(url).scheme != ""
    ensures NormalizeUrl(NormalizeUrl(Some(url))) == NormalizeUrl(Some(url))
  {
    var p := Parse(url);
    var s := p.scheme;
    var w := p.netloc + p.path;
    NetlocPathClean(p.netloc, p.path);
    SchemeOfLowered(url);
    assert Lower(s) == s;
    if s in UsesParams {
      NetlocTailParams(p.netloc, p.path, IndexOfAny(w, {'/', '?', '#'}));
    }
    StemParts(p);
    var r := s + "://" + w;
    assert Stem(p) == r;
    StemOfSchemed(s, w);
    SchemedNotSentinel(s, w);
    NormalizeOfUrl(url);
    NormalizeOfUrl(r);
  }

  /** `scheme://rest` with a lower-case scheme and no '?', '#' or ';' is left as it is. */
  lemma NormalizeFixedPoint(s: string, w: string)
    requires ValidScheme(s) && Lower(s) == s
    requires '?' !in w && '#' !in w && ';' !in w
    ensures NormalizeUrl(Some(s + "://" + w)) == Some(s + "://" + w)
  {
    var k := IndexOfAny(w, {'/', '?', '#'});
    assert forall j :: 0 <= j < |w[k..]| ==> w[k..][j] in w;
    StemOfSchemed(s, w);
    SchemedNotSentinel(s, w);
    NormalizeOfUrl(s + "://" + w);
  }

  lemma NormalizeOfUrl(u: string)
    requires u != "" && !IsUndefinedSentinel(u)
    ensures NormalizeUrl(Some(u)) == Some(Stem(Parse(u)))
  {
  }

  /** The path part that re-parsing produces inherits the params-free tail of the original path. */
  lemma NetlocTailParams(netloc: string, path: string, k: nat)
    requires forall c :: c in netloc ==> c != '/' && c != '?' && c != '#'
    requires NoTailParams(path)
    requires netloc != [] ==> path == [] || path[0] == '/'
    requires k == IndexOfAny(netloc + path, {'/', '?', '#'})
    ensures NoTailParams((netloc + path)[k..])
  {
    var w := netloc + path;
    if netloc != [] {
      FirstSlashAfterNetloc(netloc, path);
      if path != [] {
        assert w[k..] == path;
      } else {
        assert w[k..] == [];
      }
    } else {
      assert w == path;
      SuffixNoTailParams(path, k);
    }
  }

  lemma FirstSlashAfterNetloc(netloc: string, path: string)
    requires forall c :: c in netloc ==> c != '/' && c != '?' && c != '#'
    requires path == [] || path[0] == '/'
    ensures IndexOfAny(netloc + path, {'/', '?', '#'}) == |netloc|
  {
    var w := netloc + path;
    var k := IndexOfAny(w, {'/', '?', '#'});
    forall j | 0 <= j < |netloc| ensures w[j] !in {'/', '?', '#'} {
      assert w[j] == netloc[j] && netloc[j] in netloc;
    }
    if path != [] {
      assert w[|netloc|] == '/';
    }
  }

  lemma SuffixNoTailParams(p: string, k: nat)
    requires NoTailParams(p) && k <= |p|
    ensures NoTailParams(p[k..])
  {
    var t := p[k..];
    forall j | 0 <= j < |t| && t[j] == ';'
      ensures exists i :: j < i < |t| && t[i] == '/'
    {
      assert p[k + j] == ';';
      var i :| k + j < i < |p| && p[i] == '/';
      assert t[i - k] == '/';
    }
  }

  /** Where the idempotence above needs a scheme: a bare word such as "foo"
      normalizes to "://foo", and normalizing that again prepends another "://". */
  lemma NormalizeNotIdempotentWithoutScheme(u: string)
    requires u != [] && !IsUndefinedSentinel(u)
    requires forall c :: c in u ==> c !in {':', '/', '?', '#', ';'}
    ensures NormalizeUrl(Some(u)) == Some("://" + u)
    ensures NormalizeUrl(Some("://" + u)) == Some("://://" + u)
    ensures NormalizeUrl(NormalizeUrl(Some(u))) != NormalizeUrl(Some(u))
  {
    NormalizeBareWord(u);
    var v := "://" + u;
    ColonPrefixClean(u);
    NormalizeColonStart(v);
    ColonPrefixTwice(u);
    assert |"://://" + u| != |"://" + u|;
  }

  lemma ColonPrefixClean(u: string)
    requires forall c :: c in u ==> c !in {':', '/', '?', '#', ';'}
    ensures forall c :: c in "://" + u ==> c !in {'?', '#', ';'}
  {
    var v := "://" + u;
    forall c | c in v ensures c !in {'?', '#', ';'} {
      var i :| 0 <= i < |v| && v[i] == c;
      if i >= 3 { assert v[i] == u[i - 3] && u[i - 3] in u; }
    }
  }

  lemma ColonPrefixTwice(u: string)
    ensures "://" + ("://" + u) == "://://" + u
  {
  }

  lemma NormalizeBareWord(u: string)
    requires u != [] && !IsUndefinedSentinel(u)
    requires forall c :: c in u ==> c !in {':', '/', '?', '#', ';'}
    ensures NormalizeUrl(Some(u)) == Some("://" + u)
  {
    assert u[0] in u;
    ParseSchemeless(u);
    PlainPath(u);
    var p := Parse(u);
    assert p.scheme == "" && p.netloc == "" && p.path == u;
    StemParts(p);
    assert "" + "://" + "" + u == "://" + u;
    assert Stem(p) == "://" + u;
    NormalizeOfUrl(u);
  }

  lemma NormalizeColonStart(v: string)
    requires v != [] && v[0] == ':'
    requires forall c :: c in v ==> c !in {'?', '#', ';'}
    ensures NormalizeUrl(Some(v)) == Some("://" + v)
  {
    ParseSchemeless(v);
    PlainPath(v);
    var q := Parse(v);
    assert q.scheme == "" && q.netloc == "" && q.path == v;
    StemParts(q);
    assert "" + "://" + "" + v == "://" + v;
    assert Stem(q) == "://" + v;
    assert Lower(v)[0] == ':';
    NormalizeOfUrl(v);
  }

  /** A URL without ':' or not starting with a letter has no scheme, and without a leading '/' no netloc. */
  lemma ParseSchemeless(u: string)
    requires u != [] && (':' !in u || !IsLetter(u[0])) && u[0] != '/'
    ensures Parse(u).scheme == "" && Parse(u).netloc == ""
    ensures Parse(u).path == CutParams(PathPart(u)).0
  {
    assert "" in UsesParams;
    assert SchemeLength(u) == 0;
    assert AfterScheme(u) == u;
    assert SplitNetloc(u) == ("", u);
  }

  /** Text without '?', '#' or ';' is its own path, with nothing cut. */
  lemma PlainPath(u: string)
    requires '?' !in u && '#' !in u && ';' !in u
    ensures PathPart(u) == u && CutParams(u) == (u, "")
  {
    CutParamsClean(u);
  }

  // ---------------------------------------------------------------- route templates

  /** A route template read as a regex: literal characters and `{name}` placeholders. */
  datatype Token = Lit(c: char) | Hole(name: string)

  /** Replaces every `{name}` in a template by a placeholder, scanning left to
      right like `re.sub` and `String.replace` with the `g` flag do. A
      placeholder needs at least `minName` characters between its braces:
      1 for Python's `\{[^}]+\}`, 0 for JavaScript's `{[^}]*}`. A '{' that
      starts no placeholder stays a literal. */
  function Tokenize(p: string, minName: nat): (ts: seq<Token>)
    decreases |p|
  {
    if p == [] then []
    else if StartsHole(p, minName) then
      var j := FirstIndex(p[1..], '}');
      [Hole(p[1..j + 1])] + Tokenize(p[j + 2..], minName)
    else [Lit(p[0])] + Tokenize(p[1..], minName)
  }

  /** The template text a single token stands for. */
  function TokenText(t: Token): string
  {
    match t
    case Lit(c) => [c]
    case Hole(n) => "{" + n + "}"
  }

  /** The template text back from its tokens. */
  function Render(ts: seq<Token>): string
  {
    if ts == [] then "" else TokenText(ts[0]) + Render(ts[1..])
  }

  lemma RenderCons(t: Token, rest: seq<Token>)
    ensures Render([t] + rest) == TokenText(t) + Render(rest)
  {
    assert ([t] + rest)[1..] == rest;
  }

  /** A template that starts with a placeholder is that placeholder's text
      followed by the rest. */
  lemma HoleSplit(p: string, j: nat)
    requires j + 2 <= |p| && p[0] == '{' && p[j + 1] == '}'
    ensures p == TokenText(Hole(p[1..j + 1])) + p[j + 2..]
  {
    assert p == p[..j + 2] + p[j + 2..];
    assert p[..j + 2] == "{" + p[1..j + 1] + "}";
  }

  /** Whether a template starts with a placeholder of at least `minName` characters. */
  predicate StartsHole(p: string, minName: nat)
  {
    p != [] && p[0] == '{' && FirstIndex(p[1..], '}') < |p| - 1 && FirstIndex(p[1..], '}') >= minName
  }

  lemma HoleStep(p: string, minName: nat)
    requires StartsHole(p, minName)
    requires Render(Tokenize(p[FirstIndex(p[1..], '}') + 2..], minName)) == p[FirstIndex(p[1..], '}') + 2..]
    ensures Render(Tokenize(p, minName)) == p
  {
    var j := FirstIndex(p[1..], '}');
    assert Tokenize(p, minName) == [Hole(p[1..j + 1])] + Tokenize(p[j + 2..], minName);
    RenderCons(Hole(p[1..j + 1]), Tokenize(p[j + 2..], minName));
    assert p[j + 1] == p[1..][j];
    HoleSplit(p, j);
  }

  lemma LitStep(p: string, minName: nat)
    requires p != [] && !StartsHole(p, minName)
    requires Render(Tokenize(p[1..], minName)) == p[1..]
    ensures Render(Tokenize(p, minName)) == p
  {
    assert Tokenize(p, minName) == [Lit(p[0])] + Tokenize(p[1..], minName);
    RenderCons(Lit(p[0]), Tokenize(p[1..], minName));
    assert p == [p[0]] + p[1..];
  }

  /** Tokenizing loses nothing: the tokens render back to the template. */
  lemma {:induction false} TokenizeRender(p: string, minName: nat)
    ensures Render(Tokenize(p, minName)) == p
    decreases |p|
  {
    if StartsHole(p, minName) {
      TokenizeRender(p[FirstIndex(p[1..], '}') + 2..], minName);
      HoleStep(p, minName);
    } else if p != [] {
      TokenizeRender(p[1..], minName);
      LitStep(p, minName);
    }
  }

  /** `s` is matched in full by the tokens, each placeholder standing for at
      least `minHole` characters none of which is '/'. */
  predicate Matches(ts: seq<Token>, s: string, minHole: nat)
    decreases |ts|
  {
    if ts == [] then s == []
    else match ts[0]
      case Lit(c) => |s| > 0 && s[0] == c && Matches(ts[1..], s[1..], minHole)
      case Hole(_) => exists k | minHole <= k <= FirstIndex(s, '/') :: Matches(ts[1..], s[k..], minHole)
  }

  function HoleCount(ts: seq<Token>): nat
  {
    if ts == [] then 0 else (if ts[0].Hole? then 1 else 0) + HoleCount(ts[1..])
  }

  /** The text obtained by putting `vals` into the placeholders, in order. */
  function Fill(ts: seq<Token>, vals: seq<string>): string
    requires |vals| == HoleCount(ts)
  {
    if ts == [] then ""
    else match ts[0]
      case Lit(c) => [c] + Fill(ts[1..], vals)
      case Hole(_) => vals[0] + Fill(ts[1..], vals[1..])
  }

  predicate Fits(v: string, minHole: nat) { |v| >= minHole && '/' !in v }

  /** Every filling with values that fit the placeholders is matched. */
  lemma {:induction false} FillMatches(ts: seq<Token>, vals: seq<string>, minHole: nat)
    requires |vals| == HoleCount(ts)
    requires forall i :: 0 <= i < |vals| ==> Fits(vals[i], minHole)
    ensures Matches(ts, Fill(ts, vals), minHole)
  {
    if ts != [] {
      var s := Fill(ts, vals);
      match ts[0]
      case Lit(c) =>
        FillMatches(ts[1..], vals, minHole);
        assert s[1..] == Fill(ts[1..], vals);
      case Hole(_) =>
        FillMatches(ts[1..], vals[1..], minHole);
        var v := vals[0];
        assert Fits(v, minHole);
        var k := |v|;
        assert s[..k] == v;
        assert FirstIndex(s, '/') >= k;
        assert s[k..] == Fill(ts[1..], vals[1..]);
    }
  }

  /** ...and every match is such a filling. */
  lemma {:induction false} MatchesFill(ts: seq<Token>, s: string, minHole: nat) returns (vals: seq<string>)
    requires Matches(ts, s, minHole)
    ensures |vals| == HoleCount(ts)
    ensures forall i :: 0 <= i < |vals| ==> Fits(vals[i], minHole)
    ensures s == Fill(ts, vals)
  {
    if ts == [] {
      vals := [];
    } else {
      match ts[0]
      case Lit(c) =>
        vals := MatchesFill(ts[1..], s[1..], minHole);
        assert s == [c] + s[1..];
      case Hole(_) =>
        var k :| minHole <= k <= FirstIndex(s, '/') && Matches(ts[1..], s[k..], minHole);
        var rest := MatchesFill(ts[1..], s[k..], minHole);
        vals := [s[..k]] + rest;
        assert vals[1..] == rest;
        assert '/' !in s[..k];
        assert s == s[..k] + s[k..];
    }
  }

  /** Python's `_match_url(pattern, url)`: False for a missing URL; otherwise
      the escaped pattern with each `{name}` turned into `[^/]+`, matched in
      full by `re.match('^' + p + '$', url)`. Python's `$` also matches just
      before a final newline, so a URL with one trailing newline matches too. */
  function MatchUrl(pattern: string, url: Option<string>): (b: bool)
    ensures url.None? ==> !b
    ensures url.Some? ==> (b <==>
              Matches(Tokenize(pattern, 1), url.value, 1) ||
              (url.value != [] && url.value[|url.value| - 1] == '\n' &&
               Matches(Tokenize(pattern, 1), url.value[..|url.value| - 1], 1)))
  {
    match url
    case None => false
    case Some(u) =>
      var ts := Tokenize(pattern, 1);
      Matches(ts, u, 1) || (u != [] && u[|u| - 1] == '\n' && Matches(ts, u[..|u| - 1], 1))
  }

  /** A URL matches a template exactly when it is the template with every
      placeholder replaced by one or more characters other than '/'
      (possibly followed by one newline). */
  lemma MatchUrlFill(pattern: string, vals: seq<string>)
    requires |vals| == HoleCount(Tokenize(pattern, 1))
    requires forall i :: 0 <= i < |vals| ==> Fits(vals[i], 1)
    ensures MatchUrl(pattern, Some(Fill(Tokenize(pattern, 1), vals)))
  {
    FillMatches(Tokenize(pattern, 1), vals, 1);
  }

  lemma MatchUrlOnlyFills(pattern: string, url: string) returns (vals: seq<string>)
    requires MatchUrl(pattern, Some(url))
    ensures |vals| == HoleCount(Tokenize(pattern, 1))
    ensures forall i :: 0 <= i < |vals| ==> Fits(vals[i], 1)
    ensures url == Fill(Tokenize(pattern, 1), vals) || url == Fill(Tokenize(pattern, 1), vals) + "\n"
  {
    var ts := Tokenize(pattern, 1);
    if Matches(ts, url, 1) {
      vals := MatchesFill(ts, url, 1);
    } else {
      vals := MatchesFill(ts, url[..|url| - 1], 1);
      assert url == url[..|url| - 1] + "\n";
    }
  }
}
