/** Text helpers shared by every module: character classes, search, the
    split/join pair that Python's `str.split` and JavaScript's `String.split`
    and `Array.join` agree on, the SQL quote doubling `re.sub("'", "''", s)`,
    Python's `re.escape`, decimal rendering for `strftime` fields, and the
    code-point order Python uses to compare strings. */
module Strings {

  import opened Grouping

  predicate IsDigit(c: char) { '0' <= c <= '9' }
  predicate IsLetter(c: char) { 'a' <= c <= 'z' || 'A' <= c <= 'Z' }
  predicate IsAlnum(c: char) { IsDigit(c) || IsLetter(c) }
  predicate AllDigits(s: string) { forall i :: 0 <= i < |s| ==> IsDigit(s[i]) }

  /** ASCII lower-casing, as `str.lower()` and `toLowerCase()` do on ASCII text. */
  function LowerChar(c: char): char
  {
    if 'A' <= c <= 'Z' then (c as int + 32) as char else c
  }

  function Lower(s: string): string
  {
    seq(|s|, i requires 0 <= i < |s| => LowerChar(s[i]))
  }

  /** `s.lower() == "undefined"`: the sentinel the collectors send for a missing URL. */
  predicate IsUndefinedSentinel(s: string)
  {
    Lower(s) == "undefined"
  }

  // ---------------------------------------------------------------- search

  /** Index of the first character of `s` that is in `cs`, or `|s|`. */
  function IndexOfAny(s: string, cs: set<char>): (i: nat)
    ensures i <= |s|
    ensures i < |s| ==> s[i] in cs
    ensures forall j :: 0 <= j < i ==> s[j] !in cs
  {
    if s == [] then 0
    else if s[0] in cs then 0
    else 1 + IndexOfAny(s[1..], cs)
  }

  /** Index of the last `c` in `s`, if any. */
  function LastIndexOf(s: string, c: char): (r: nat)
    ensures r <= |s|
    ensures r < |s| ==> s[r] == c && forall j :: r < j < |s| ==> s[j] != c
    ensures r == |s| ==> c !in s
  {
    if s == [] then 0
    else if s[|s| - 1] == c then |s| - 1
    else
      var k := LastIndexOf(s[..|s| - 1], c);
      if k == |s| - 1 then |s| else k
  }

  // ---------------------------------------------------------------- split / join

  /** `parts.join(sep)`. */
  function Join(parts: seq<string>, sep: char): string
  {
    if |parts| == 0 then ""
    else if |parts| == 1 then parts[0]
    else parts[0] + [sep] + Join(parts[1..], sep)
  }

  /** `s.split(sep)`: never empty, no part holds `sep`, and joining the parts gives `s` back. */
  function Split(s: string, sep: char): (parts: seq<string>)
    ensures |parts| >= 1
    ensures forall i :: 0 <= i < |parts| ==> sep !in parts[i]
    ensures Join(parts, sep) == s
    decreases |s|
  {
    var i := FirstIndex(s, sep);
    if i == |s| then [s]
    else
      var rest := Split(s[i + 1..], sep);
      assert s == s[..i] + [sep] + s[i + 1..];
      [s[..i]] + rest
  }

  /** The other direction of the split/join pair. */
  lemma {:induction false} SplitJoin(parts: seq<string>, sep: char)
    requires |parts| >= 1
    requires forall i :: 0 <= i < |parts| ==> sep !in parts[i]
    ensures Split(Join(parts, sep), sep) == parts
    decreases |parts|
  {
    if |parts| == 1 {
      assert FirstIndex(parts[0], sep) == |parts[0]|;
    } else {
      var s := Join(parts, sep);
      assert s == parts[0] + [sep] + Join(parts[1..], sep);
      var i := FirstIndex(s, sep);
      assert s[|parts[0]|] == sep;
      assert i == |parts[0]|;
      assert s[..i] == parts[0];
      assert s[i + 1..] == Join(parts[1..], sep);
      SplitJoin(parts[1..], sep);
      assert parts == [parts[0]] + parts[1..];
    }
  }

  // ---------------------------------------------------------------- SQL quoting

  /** `re.sub("'", "''", s)`: the escaping every goal retriever applies before
      embedding a user string inside a single-quoted SQL literal. */
  function DoubleQuotes(s: string): string
  {
    if s == [] then []
    else (if s[0] == '\'' then "''" else [s[0]]) + DoubleQuotes(s[1..])
  }

  /** Reading a single-quoted SQL literal's body back: each `''` is one quote. */
  function UndoubleQuotes(s: string): string
  {
    if s == [] then []
    else if |s| >= 2 && s[0] == '\'' && s[1] == '\'' then "'" + UndoubleQuotes(s[2..])
    else [s[0]] + UndoubleQuotes(s[1..])
  }

  /** Every quote in `s` is half of an adjacent `''` pair, so `s` cannot end the literal early. */
  predicate QuotesPaired(s: string)
    decreases |s|
  {
    if s == [] then true
    else if s[0] == '\'' then |s| >= 2 && s[1] == '\'' && QuotesPaired(s[2..])
    else QuotesPaired(s[1..])
  }

  lemma {:induction false} DoubleQuotesRoundTrip(s: string)
    ensures QuotesPaired(DoubleQuotes(s))
    ensures UndoubleQuotes(DoubleQuotes(s)) == s
  {
    if s != [] {
      DoubleQuotesRoundTrip(s[1..]);
      var rest := DoubleQuotes(s[1..]);
      if s[0] == '\'' {
        assert DoubleQuotes(s) == "''" + rest;
        assert ("''" + rest)[2..] == rest;
      } else {
        assert DoubleQuotes(s) == [s[0]] + rest;
        assert ([s[0]] + rest)[1..] == rest;
      }
    }
  }

  lemma {:induction false} UndoubleQuotesRoundTrip(t: string)
    requires QuotesPaired(t)
    ensures DoubleQuotes(UndoubleQuotes(t)) == t
    decreases |t|
  {
    if t != [] {
      if t[0] == '\'' {
        UndoubleQuotesRoundTrip(t[2..]);
        assert UndoubleQuotes(t) == "'" + UndoubleQuotes(t[2..]);
        assert ("'" + UndoubleQuotes(t[2..]))[1..] == UndoubleQuotes(t[2..]);
        assert t == "''" + t[2..];
      } else {
        UndoubleQuotesRoundTrip(t[1..]);
        assert UndoubleQuotes(t) == [t[0]] + UndoubleQuotes(t[1..]);
        assert ([t[0]] + UndoubleQuotes(t[1..]))[1..] == UndoubleQuotes(t[1..]);
        assert t == [t[0]] + t[1..];
      }
    }
  }

  lemma {:induction false} DoubleQuotesAppend(a: string, b: string)
    ensures DoubleQuotes(a + b) == DoubleQuotes(a) + DoubleQuotes(b)
    decreases |a|
  {
    if a != [] {
      assert (a + b)[1..] == a[1..] + b;
      DoubleQuotesAppend(a[1..], b);
    } else {
      assert a + b == b;
    }
  }

  /** Doubling never touches anything but quotes: text free of quotes is embedded verbatim. */
  lemma {:induction false} DoubleQuotesNoQuote(s: string)
    requires '\'' !in s
    ensures DoubleQuotes(s) == s
  {
    if s != [] {
      assert '\'' !in s[1..];
      DoubleQuotesNoQuote(s[1..]);
    }
  }

  // ---------------------------------------------------------------- re.escape

  /** The characters Python 3.7+'s `re.escape` prefixes with a backslash. */
  const RegexSpecial: set<char> :=
    {'(', ')', '[', ']', '{', '}', '?', '*', '+', '-', '|', '^', '$', '\\', '.', '&', '~', '#',
     ' ', '\t', '\n', '\r', '\U{000B}', '\U{000C}'}

  function ReEscape(s: string): string
  {
    if s == [] then []
    else (if s[0] in RegexSpecial then ['\\', s[0]] else [s[0]]) + ReEscape(s[1..])
  }

  /** What a regex engine reads back from a backslash-escaped literal. */
  function ReUnescape(t: string): string
  {
    if t == [] then []
    else if |t| >= 2 && t[0] == '\\' then [t[1]] + ReUnescape(t[2..])
    else [t[0]] + ReUnescape(t[1..])
  }

  lemma {:induction false} ReEscapeRoundTrip(s: string)
    ensures ReUnescape(ReEscape(s)) == s
  {
    if s != [] {
      ReEscapeRoundTrip(s[1..]);
      var rest := ReEscape(s[1..]);
      if s[0] in RegexSpecial {
        assert ReEscape(s) == ['\\', s[0]] + rest;
        assert (['\\', s[0]] + rest)[2..] == rest;
      } else {
        assert ReEscape(s) == [s[0]] + rest;
        assert ([s[0]] + rest)[1..] == rest;
        assert s[0] != '\\';
      }
    }
  }

  // ---------------------------------------------------------------- decimals

  function DigitChar(d: nat): char
    requires d < 10
  {
    ('0' as int + d) as char
  }

  function DigitValue(c: char): nat
    requires IsDigit(c)
  {
    c as int - '0' as int
  }

  /** `str(n)` for a natural number: the shortest decimal rendering. */
  function Decimal(n: nat): (s: string)
    ensures 1 <= |s|
    ensures AllDigits(s)
    decreases n
  {
    if n < 10 then [DigitChar(n)] else Decimal(n / 10) + [DigitChar(n % 10)]
  }

  /** `int(s)` on a string of digits. */
  function ParseDecimal(s: string): nat
    requires AllDigits(s)
    decreases |s|
  {
    if s == [] then 0 else ParseDecimal(s[..|s| - 1]) * 10 + DigitValue(s[|s| - 1])
  }

  lemma {:induction false} DecimalRoundTrip(n: nat)
    ensures ParseDecimal(Decimal(n)) == n
    decreases n
  {
    if n >= 10 {
      DecimalRoundTrip(n / 10);
      var s := Decimal(n);
      assert s[..|s| - 1] == Decimal(n / 10);
    }
  }

  function Pow10(k: nat): nat
  {
    if k == 0 then 1 else 10 * Pow10(k - 1)
  }

  lemma {:induction false} DecimalWidth(n: nat, w: nat)
    requires 1 <= w
    requires n < Pow10(w)
    ensures |Decimal(n)| <= w
    decreases n
  {
    assert Pow10(1) == 10;
    if n >= 10 {
      assert n / 10 < Pow10(w - 1);
      DecimalWidth(n / 10, w - 1);
    }
  }

  /** A string of `k` digits reads as a number below `10^k`. */
  lemma {:induction false} ParseDecimalBound(s: string)
    requires AllDigits(s)
    ensures ParseDecimal(s) < Pow10(|s|)
    decreases |s|
  {
    if s != [] {
      ParseDecimalBound(s[..|s| - 1]);
    }
  }

  function Zeros(k: nat): (s: string)
    ensures |s| == k && AllDigits(s)
  {
    seq(k, _ => '0')
  }

  /** `"%0*d" % (w, n)`, the zero padding of `strftime("%m")`, `%d`, `%H`, ... */
  function Pad(n: nat, w: nat): string
  {
    var d := Decimal(n);
    if |d| >= w then d else Zeros(w - |d|) + d
  }

  lemma {:induction false} ParseDecimalAppend(a: string, b: string)
    requires AllDigits(a) && AllDigits(b)
    ensures AllDigits(a + b)
    ensures ParseDecimal(a + b) == ParseDecimal(a) * Pow10(|b|) + ParseDecimal(b)
    decreases |b|
  {
    if b == [] {
      assert a + b == a;
    } else {
      var b' := b[..|b| - 1];
      assert (a + b)[..|a + b| - 1] == a + b';
      assert (a + b)[|a + b| - 1] == b[|b| - 1];
      ParseDecimalAppend(a, b');
      ShiftDigit(ParseDecimal(a), Pow10(|b'|), ParseDecimal(b'), DigitValue(b[|b| - 1]));
    }
  }

  lemma ShiftDigit(x: int, p: int, y: int, d: int)
    ensures (x * p + y) * 10 + d == x * (p * 10) + (y * 10 + d)
  {
  }

  lemma {:induction false} ParseZeros(k: nat)
    ensures ParseDecimal(Zeros(k)) == 0
  {
    if k > 0 {
      assert Zeros(k)[..k - 1] == Zeros(k - 1);
      ParseZeros(k - 1);
    }
  }

  /** A padded field has exactly `w` digits when the value fits, and reads back as the value. */
  lemma PadSpec(n: nat, w: nat)
    requires 1 <= w
    requires n < Pow10(w)
    ensures |Pad(n, w)| == w
    ensures AllDigits(Pad(n, w))
    ensures ParseDecimal(Pad(n, w)) == n
  {
    DecimalWidth(n, w);
    DecimalRoundTrip(n);
    var d := Decimal(n);
    if |d| < w {
      ParseDecimalAppend(Zeros(w - |d|), d);
      ParseZeros(w - |d|);
    }
  }

  // ---------------------------------------------------------------- order

  /** Python's `<=` on `str`: lexicographic by code point. */
  predicate LexLe(a: string, b: string)
    decreases |a|
  {
    a == [] || (b != [] && (a[0] < b[0] || (a[0] == b[0] && LexLe(a[1..], b[1..]))))
  }

  lemma {:induction false} LexReflexive(a: string)
    ensures LexLe(a, a)
    decreases |a|
  {
    if a != [] {
      LexReflexive(a[1..]);
    }
  }

  lemma {:induction false} LexTotal(a: string, b: string)
    ensures LexLe(a, b) || LexLe(b, a)
    decreases |a|
  {
    if a != [] && b != [] && a[0] == b[0] {
      LexTotal(a[1..], b[1..]);
    }
  }

  lemma {:induction false} LexTransitive(a: string, b: string, c: string)
    requires LexLe(a, b) && LexLe(b, c)
    ensures LexLe(a, c)
    decreases |a|
  {
    if a != [] && a[0] == b[0] && b[0] == c[0] {
      LexTransitive(a[1..], b[1..], c[1..]);
    }
  }

  lemma {:induction false} LexAntisymmetric(a: string, b: string)
    requires LexLe(a, b) && LexLe(b, a)
    ensures a == b
    decreases |a|
  {
    if a != [] {
      LexAntisymmetric(a[1..], b[1..]);
      assert a == [a[0]] + a[1..];
      assert b == [b[0]] + b[1..];
    }
  }

  /** Comparing two strings whose first parts have the same length: the
      first parts decide unless they are equal. */
  lemma {:induction false} LexConcat(a1: string, a2: string, b1: string, b2: string)
    requires |a1| == |b1|
    ensures LexLe(a1 + a2, b1 + b2) <==> if a1 == b1 then LexLe(a2, b2) else LexLe(a1, b1)
    decreases |a1|
  {
    if a1 == [] {
      assert a1 + a2 == a2 && b1 + b2 == b2;
    } else {
      assert (a1 + a2)[1..] == a1[1..] + a2;
      assert (b1 + b2)[1..] == b1[1..] + b2;
      assert a1 == [a1[0]] + a1[1..] && b1 == [b1[0]] + b1[1..];
      LexConcat(a1[1..], a2, b1[1..], b2);
    }
  }

  lemma {:induction false} MulAtLeast(k: nat, p: nat)
    requires k >= 1
    ensures k * p >= p
    decreases k
  {
    if k > 1 {
      MulAtLeast(k - 1, p);
      assert k * p == (k - 1) * p + p;
    }
  }

  lemma DigitDominates(da: nat, db: nat, ra: nat, rb: nat, p: nat)
    requires da < db && ra < p
    ensures da * p + ra < db * p + rb
  {
    MulAtLeast(db - da, p);
    assert db * p == da * p + (db - da) * p;
  }

  /** The leading digit of a numeral carries the weight `10^(|a|-1)`. */
  lemma ParseHead(a: string)
    requires a != [] && AllDigits(a)
    ensures ParseDecimal(a) == DigitValue(a[0]) * Pow10(|a| - 1) + ParseDecimal(a[1..])
    ensures ParseDecimal(a[1..]) < Pow10(|a| - 1)
  {
    var h, t := [a[0]], a[1..];
    assert a == h + t;
    assert h[..0] == [];
    assert ParseDecimal(h) == DigitValue(a[0]);
    ParseDecimalAppend(h, t);
    ParseDecimalBound(t);
  }

  /** On digit strings of one length, `<=` on text is `<=` on the numbers they spell. */
  lemma {:induction false} LexDigits(a: string, b: string)
    requires |a| == |b| && AllDigits(a) && AllDigits(b)
    ensures LexLe(a, b) <==> ParseDecimal(a) <= ParseDecimal(b)
    decreases |a|
  {
    if a != [] {
      var p := Pow10(|a| - 1);
      ParseHead(a);
      ParseHead(b);
      LexDigits(a[1..], b[1..]);
      var da, db := DigitValue(a[0]), DigitValue(b[0]);
      if a[0] < b[0] {
        DigitDominates(da, db, ParseDecimal(a[1..]), ParseDecimal(b[1..]), p);
      } else if b[0] < a[0] {
        DigitDominates(db, da, ParseDecimal(b[1..]), ParseDecimal(a[1..]), p);
      }
    }
  }
}
