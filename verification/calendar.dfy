/** Proleptic Gregorian dates and times as Python's `datetime` keeps them,
    the one-day steps `timedelta(days=1)` takes, the conversion from Unix
    seconds (`utcfromtimestamp`), and the `strftime` renderings the reports
    use in object keys, partitions and result documents. */
module Calendar {
  import opened Wrappers
  import opened Strings

  datatype Date = Date(year: int, month: int, day: int)

  datatype DateTime = DateTime(date: Date, hour: int, minute: int, second: int)

  predicate IsLeap(y: int)
  {
    y % 4 == 0 && (y % 100 != 0 || y % 400 == 0)
  }

  function DaysInMonth(y: int, m: int): (n: int)
    requires 1 <= m <= 12
    ensures 28 <= n <= 31
    ensures n == 29 <==> m == 2 && IsLeap(y)
    ensures n == 28 <==> m == 2 && !IsLeap(y)
    ensures n == 30 <==> m == 4 || m == 6 || m == 9 || m == 11
  {
    if m == 2 then (if IsLeap(y) then 29 else 28)
    else if m == 4 || m == 6 || m == 9 || m == 11 then 30
    else 31
  }

  predicate ValidDate(d: Date)
  {
    1 <= d.month <= 12 && 1 <= d.day <= DaysInMonth(d.year, d.month)
  }

  predicate ValidDateTime(t: DateTime)
  {
    ValidDate(t.date) && 0 <= t.hour < 24 && 0 <= t.minute < 60 && 0 <= t.second < 60
  }

  /** Chronological order of dates: by year, then month, then day. */
  predicate Before(a: Date, b: Date)
  {
    a.year < b.year ||
    (a.year == b.year && (a.month < b.month || (a.month == b.month && a.day < b.day)))
  }

  /** `d + timedelta(days=1)`. */
  function NextDay(d: Date): (n: Date)
    requires ValidDate(d)
    ensures ValidDate(n)
    ensures Before(d, n)
  {
    if d.day < DaysInMonth(d.year, d.month) then Date(d.year, d.month, d.day + 1)
    else if d.month < 12 then Date(d.year, d.month + 1, 1)
    else Date(d.year + 1, 1, 1)
  }

  /** `d - timedelta(days=1)`. */
  function PrevDay(d: Date): (p: Date)
    requires ValidDate(d)
    ensures ValidDate(p)
    ensures Before(p, d)
  {
    if d.day > 1 then Date(d.year, d.month, d.day - 1)
    else if d.month > 1 then Date(d.year, d.month - 1, DaysInMonth(d.year, d.month - 1))
    else Date(d.year - 1, 12, 31)
  }

  /** Stepping a day forward and back, in either order, changes nothing. */
  lemma StepInverse(d: Date)
    requires ValidDate(d)
    ensures PrevDay(NextDay(d)) == d
    ensures NextDay(PrevDay(d)) == d
  {
  }

  /** The next day is the immediate successor: no valid date lies strictly between. */
  lemma NextDayImmediate(d: Date, e: Date)
    requires ValidDate(d) && ValidDate(e)
    requires Before(d, e)
    ensures e == NextDay(d) || Before(NextDay(d), e)
  {
  }

  lemma BeforeTransitive(a: Date, b: Date, c: Date)
    requires Before(a, b) && Before(b, c)
    ensures Before(a, c)
  {
  }

  lemma BeforeTotal(a: Date, b: Date)
    ensures Before(a, b) || a == b || Before(b, a)
  {
  }

  /** `d + timedelta(days=n)` for any whole number of days. */
  function AddDays(d: Date, n: int): (r: Date)
    requires ValidDate(d)
    ensures ValidDate(r)
    decreases if n >= 0 then n else -n
  {
    if n == 0 then d
    else if n > 0 then NextDay(AddDays(d, n - 1))
    else PrevDay(AddDays(d, n + 1))
  }

  lemma {:induction false} AddDaysStep(d: Date, n: int)
    requires ValidDate(d)
    ensures AddDays(d, n + 1) == NextDay(AddDays(d, n))
    ensures AddDays(d, n - 1) == PrevDay(AddDays(d, n))
    decreases if n >= 0 then n else -n
  {
    if n < 0 {
      StepInverse(AddDays(d, n + 1));
      StepInverse(AddDays(d, n));
    } else if n > 0 {
      StepInverse(AddDays(d, n - 1));
    } else {
      StepInverse(d);
    }
  }

  /** Day offsets compose: moving `a` days and then `b` days is moving `a + b` days. */
  lemma {:induction false} AddDaysCompose(d: Date, a: int, b: int)
    requires ValidDate(d)
    ensures AddDays(AddDays(d, a), b) == AddDays(d, a + b)
    decreases if b >= 0 then b else -b
  {
    if b > 0 {
      AddDaysCompose(d, a, b - 1);
      AddDaysStep(d, a + b - 1);
    } else if b < 0 {
      AddDaysCompose(d, a, b + 1);
      AddDaysStep(d, a + b + 1);
    }
  }

  lemma {:induction false} AddDaysForward(d: Date, n: int)
    requires ValidDate(d) && n > 0
    ensures Before(d, AddDays(d, n))
    decreases n
  {
    if n > 1 {
      AddDaysForward(d, n - 1);
      BeforeTransitive(d, AddDays(d, n - 1), AddDays(d, n));
    }
  }

  /** Day offsets are strictly monotone: a later offset is a later date. */
  lemma AddDaysMonotone(d: Date, a: int, b: int)
    requires ValidDate(d)
    ensures Before(AddDays(d, a), AddDays(d, b)) <==> a < b
  {
    if a < b {
      AddDaysForward(AddDays(d, a), b - a);
      AddDaysCompose(d, a, b - a);
    } else if b < a {
      AddDaysForward(AddDays(d, b), a - b);
      AddDaysCompose(d, b, a - b);
    }
  }

  const Epoch := Date(1970, 1, 1)

  const SecondsPerDay := 86400

  /** `datetime.utcfromtimestamp(s)` for whole seconds `s`: the day is the
      floor of `s / 86400` days after the epoch and the time of day is the
      (never negative) remainder. */
  function FromEpochSeconds(s: int): (t: DateTime)
    ensures ValidDateTime(t)
    ensures t.date == AddDays(Epoch, s / SecondsPerDay)
    ensures (t.hour * 60 + t.minute) * 60 + t.second == s % SecondsPerDay
  {
    var r := s % SecondsPerDay;
    DateTime(AddDays(Epoch, s / SecondsPerDay), r / 3600, (r % 3600) / 60, r % 60)
  }

  /** Python's `int(a / b)` for a positive divisor: the quotient truncated
      toward zero, unlike Dafny's `/`, which floors for positive divisors. */
  function TruncDiv(a: int, b: int): (q: int)
    requires b > 0
    ensures a >= 0 ==> q == a / b
    ensures a < 0 ==> q == -((-a) / b)
    ensures q * b <= a < (q + 1) * b || (a < 0 && (q - 1) * b < a <= q * b)
  {
    if a >= 0 then a / b else -((-a) / b)
  }

  /** Midnight at the start of a date. */
  function StartOfDay(d: Date): DateTime { DateTime(d, 0, 0, 0) }

  /** `d - relativedelta(months=1)`: the month before, the day clamped to that
      month's length. */
  function PrevMonth(d: Date): (p: Date)
    requires ValidDate(d)
    ensures ValidDate(p)
    ensures p.year * 12 + p.month == d.year * 12 + d.month - 1
    ensures p.day == if d.day <= DaysInMonth(p.year, p.month) then d.day else DaysInMonth(p.year, p.month)
  {
    var y := if d.month == 1 then d.year - 1 else d.year;
    var m := if d.month == 1 then 12 else d.month - 1;
    Date(y, m, if d.day <= DaysInMonth(y, m) then d.day else DaysInMonth(y, m))
  }

  // ---------------------------------------------------------------- strftime

  /** `%Y`: the year in decimal, without padding for the years Python's
      `datetime` can hold (1 to 9999) below 1000, as glibc renders them. */
  function YearText(y: int): string
  {
    if y >= 0 then Decimal(y) else "-" + Decimal(-y)
  }

  /** `%m`, `%d`, `%H`, `%M`, `%S`: two digits, zero padded. */
  function Two(n: int): string
  {
    if n >= 0 then Pad(n, 2) else "-" + Decimal(-n)
  }

  /** `%-m`, `%-d`: no padding. */
  function Unpadded(n: int): string
  {
    if n >= 0 then Decimal(n) else "-" + Decimal(-n)
  }

  /** `strftime('%Y%m%d%H%M%S')`. */
  function Stamp14(t: DateTime): string
  {
    YearText(t.date.year) + Two(t.date.month) + Two(t.date.day) + Two(t.hour) + Two(t.minute) + Two(t.second)
  }

  /** `strftime('%Y-%m-%d')`. */
  function DashDate(d: Date): string
  {
    YearText(d.year) + "-" + Two(d.month) + "-" + Two(d.day)
  }

  /** `strftime('%Y%m%d')`. */
  function CompactDate(d: Date): string
  {
    YearText(d.year) + Two(d.month) + Two(d.day)
  }

  /** `strftime('%Y-%m-%d %H:%M:%S')`. */
  function SqlTimestamp(t: DateTime): string
  {
    DashDate(t.date) + " " + Two(t.hour) + ":" + Two(t.minute) + ":" + Two(t.second)
  }

  /** `strftime('year=%Y/month=%-m/day=%-d')`, the Hive partition path. */
  function PartitionPath(d: Date): string
  {
    "year=" + YearText(d.year) + "/month=" + Unpadded(d.month) + "/day=" + Unpadded(d.day)
  }

  /** A four-digit year: the range in which `%Y` has a fixed width. */
  predicate FourDigitYear(d: Date) { 1000 <= d.year <= 9999 }

  lemma TwoSpec(n: int)
    requires 0 <= n < 100
    ensures |Two(n)| == 2 && AllDigits(Two(n)) && ParseDecimal(Two(n)) == n
  {
    assert Pow10(2) == 100 by { assert Pow10(1) == 10; }
    PadSpec(n, 2);
  }

  lemma YearSpec(y: int)
    requires 1000 <= y <= 9999
    ensures |YearText(y)| == 4 && AllDigits(YearText(y)) && ParseDecimal(YearText(y)) == y
  {
    assert Pow10(4) == 10000 by {
      assert Pow10(1) == 10;
      assert Pow10(2) == 100;
      assert Pow10(3) == 1000;
    }
    DecimalWidth(y, 4);
    DecimalRoundTrip(y);
    ParseDecimalBound(Decimal(y));
  }

  /** Reads a 14-digit `%Y%m%d%H%M%S` stamp back into its six fields. */
  function ParseStamp(s: string): (r: Option<DateTime>)
    ensures r.Some? <==> |s| == 14 && AllDigits(s)
  {
    if |s| == 14 && AllDigits(s) then
      Some(DateTime(Date(ParseDecimal(s[0..4]), ParseDecimal(s[4..6]), ParseDecimal(s[6..8])),
                    ParseDecimal(s[8..10]), ParseDecimal(s[10..12]), ParseDecimal(s[12..14])))
    else None
  }

  /** The six fields of a stamp sit at fixed offsets. */
  lemma StampSlices(a: string, b: string, c: string, d: string, e: string, f: string)
    requires |a| == 4 && |b| == 2 && |c| == 2 && |d| == 2 && |e| == 2 && |f| == 2
    ensures var s := a + b + c + d + e + f;
      |s| == 14 && s[0..4] == a && s[4..6] == b && s[6..8] == c &&
      s[8..10] == d && s[10..12] == e && s[12..14] == f
  {
  }

  /** A stamp of a valid time with a four-digit year has 14 digits and reads back as that time. */
  lemma StampRoundTrip(t: DateTime)
    requires ValidDateTime(t) && FourDigitYear(t.date)
    ensures |Stamp14(t)| == 14 && AllDigits(Stamp14(t))
    ensures ParseStamp(Stamp14(t)) == Some(t)
  {
    YearSpec(t.date.year);
    TwoSpec(t.date.month);
    TwoSpec(t.date.day);
    TwoSpec(t.hour);
    TwoSpec(t.minute);
    TwoSpec(t.second);
    StampSlices(YearText(t.date.year), Two(t.date.month), Two(t.date.day), Two(t.hour), Two(t.minute), Two(t.second));
    var s := Stamp14(t);
    assert forall i :: 0 <= i < 14 ==> IsDigit(s[i]) by {
      forall i | 0 <= i < 14 ensures IsDigit(s[i]) {
        if i < 4 { assert s[i] == s[0..4][i]; }
        else if i < 6 { assert s[i] == s[4..6][i - 4]; }
        else if i < 8 { assert s[i] == s[6..8][i - 6]; }
        else if i < 10 { assert s[i] == s[8..10][i - 8]; }
        else if i < 12 { assert s[i] == s[10..12][i - 10]; }
        else { assert s[i] == s[12..14][i - 12]; }
      }
    }
  }

  /** Distinct valid times with four-digit years have distinct stamps. */
  lemma StampInjective(t1: DateTime, t2: DateTime)
    requires ValidDateTime(t1) && FourDigitYear(t1.date)
    requires ValidDateTime(t2) && FourDigitYear(t2.date)
    requires Stamp14(t1) == Stamp14(t2)
    ensures t1 == t2
  {
    StampRoundTrip(t1);
    StampRoundTrip(t2);
  }

  /** For four-digit years, ordering `%Y-%m-%d` texts as strings orders the
      dates chronologically. */
  lemma DashDateOrder(a: Date, b: Date)
    requires ValidDate(a) && FourDigitYear(a) && ValidDate(b) && FourDigitYear(b)
    ensures LexLe(DashDate(a), DashDate(b)) <==> !Before(b, a)
  {
    var ya, ma, da := YearText(a.year), Two(a.month), Two(a.day);
    var yb, mb, db := YearText(b.year), Two(b.month), Two(b.day);
    YearSpec(a.year);
    YearSpec(b.year);
    TwoSpec(a.month);
    TwoSpec(b.month);
    TwoSpec(a.day);
    TwoSpec(b.day);
    assert DashDate(a) == ya + ("-" + (ma + ("-" + da)));
    assert DashDate(b) == yb + ("-" + (mb + ("-" + db)));
    LexConcat(ya, "-" + (ma + ("-" + da)), yb, "-" + (mb + ("-" + db)));
    LexDigits(ya, yb);
    LexConcat("-", ma + ("-" + da), "-", mb + ("-" + db));
    LexConcat(ma, "-" + da, mb, "-" + db);
    LexDigits(ma, mb);
    LexConcat("-", da, "-", db);
    LexDigits(da, db);
  }
}
