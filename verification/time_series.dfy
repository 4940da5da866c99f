/** The pageview time series report. The query builds one row per calendar
    day from thirty days before `stime` up to `etime`, zero-filled by a left
    join. Each row has a pageview count and distinct-session and distinct-user
    counts. For each measure it adds trailing sums over the current row and the
    N-1 rows before it, for N in {3, 7, 14, 30}. Only the days from `stime` on
    are returned, in ascending order.

    Days are numbered consecutively: day `n` is the calendar date
    `Calendar.AddDays(Calendar.Epoch, n)`, and `Calendar.AddDaysMonotone` makes
    numeric order the calendar order, so comparing day numbers is comparing
    dates. The SQL text is not modelled; this module states what the query
    computes over the pageview rows that pass the base criteria. */
module TimeSeries {
  import opened Wrappers
  import opened Grouping

  /** One pageview event: its day, its `o_psid` session id and its `cid` user id. */
  datatype PageView = PageView(day: int, psid: Option<string>, cid: Option<string>)

  datatype Measure = Pageviews | Sessions | Users

  /** A measure on one day with its 3-, 7-, 14- and 30-day trailing sums. */
  datatype Windowed = Windowed(day: int, days3: int, days7: int, days14: int, days30: int)

  datatype SeriesRow = SeriesRow(day: int, pageview: Windowed, session: Windowed, user: Windowed)

  /** The zero-filled history that precedes `stime`. */
  const Lookback := 30

  /** The pageviews of day `d`, in input order. */
  function OnDay(pvs: seq<PageView>, d: int): (r: seq<PageView>)
    ensures |r| <= |pvs|
    ensures forall i :: 0 <= i < |r| ==> r[i].day == d
    ensures r == [] <==> forall i :: 0 <= i < |pvs| ==> pvs[i].day != d
  {
    if pvs == [] then []
    else
      var p := OnDay(pvs[..|pvs| - 1], d);
      var last := pvs[|pvs| - 1];
      assert forall i :: 0 <= i < |pvs| - 1 ==> pvs[..|pvs| - 1][i] == pvs[i];
      if last.day == d then p + [last] else p
  }

  /** The non-null values of one column, in input order (`COUNT(DISTINCT x)` ignores nulls). */
  function Values(pvs: seq<PageView>, column: PageView -> Option<string>): (vs: seq<string>)
    ensures |vs| <= |pvs|
  {
    if pvs == [] then []
    else
      var p := Values(pvs[..|pvs| - 1], column);
      match column(pvs[|pvs| - 1])
      case None => p
      case Some(v) => p + [v]
  }

  /** The daily figure of one measure: `COUNT(pageview.date)`, or `COUNT(DISTINCT ...)`
      of the session or user id, over the rows joined to day `d`. */
  function Count(pvs: seq<PageView>, d: int, m: Measure): int
  {
    var rows := OnDay(pvs, d);
    match m
    case Pageviews => |rows|
    case Sessions => |Distinct(Values(rows, (p: PageView) => p.psid))|
    case Users => |Distinct(Values(rows, (p: PageView) => p.cid))|
  }

  /** `ROWS BETWEEN n PRECEDING AND CURRENT ROW` at row `hi`, with `lo = hi - n`:
      the sum of rows `lo` to `hi`; the frame stops at the first row. */
  function Window(xs: seq<int>, lo: int, hi: int): int
    requires hi < |xs|
    decreases hi - lo
  {
    if hi < lo || hi < 0 then 0 else Window(xs, lo, hi - 1) + xs[hi]
  }

  /** Row `i` of one measure: the row itself and its 3-, 7-, 14- and 30-row frames. */
  function Windows(xs: seq<int>, i: nat): Windowed
    requires i < |xs|
  {
    Windowed(xs[i], Window(xs, i - 2, i), Window(xs, i - 6, i), Window(xs, i - 13, i), Window(xs, i - 29, i))
  }

  /** The daily figure of one measure as a function of the day. */
  function Daily(pvs: seq<PageView>, m: Measure): int -> int
  {
    (d: int) => Count(pvs, d, m)
  }

  /** The daily column of a day figure over the `n` days starting at `from`. */
  function Column(f: int -> int, from: int, n: nat): (xs: seq<int>)
    ensures |xs| == n
    ensures forall k :: 0 <= k < n ==> xs[k] == f(from + k)
  {
    seq(n, k requires 0 <= k < n => f(from + k))
  }

  /** The day figures of the three measures. */
  datatype Figures = Figures(pageviews: int -> int, sessions: int -> int, users: int -> int)

  function DailyFigures(pvs: seq<PageView>): Figures
  {
    Figures(Daily(pvs, Pageviews), Daily(pvs, Sessions), Daily(pvs, Users))
  }

  /** The `daily` table of the query, one column per measure. */
  datatype Columns = Columns(pageviews: seq<int>, sessions: seq<int>, users: seq<int>)

  predicate Aligned(c: Columns, n: nat)
  {
    |c.pageviews| == n && |c.sessions| == n && |c.users| == n
  }

  function DailyColumns(fig: Figures, from: int, n: nat): (c: Columns)
    ensures Aligned(c, n)
  {
    Columns(Column(fig.pageviews, from, n), Column(fig.sessions, from, n), Column(fig.users, from, n))
  }

  /** Row `k` of the query's rows before the date filter: day `from + k` with
      its frames over the daily columns. */
  function RowOf(c: Columns, from: int, k: nat): (row: SeriesRow)
    requires k < |c.pageviews| && k < |c.sessions| && k < |c.users|
    ensures row.day == from + k
  {
    SeriesRow(from + k, Windows(c.pageviews, k), Windows(c.sessions, k), Windows(c.users, k))
  }

  /** The query's rows before the date filter: one per day of the `n` days from `from` on. */
  function Rows(c: Columns, from: int, n: nat): (rows: seq<SeriesRow>)
    requires Aligned(c, n)
    ensures |rows| == n
    ensures forall k :: 0 <= k < n ==> rows[k] == RowOf(c, from, k)
  {
    seq(n, k requires 0 <= k < n => RowOf(c, from, k))
  }

  /** `WHERE date >= stime`, keeping order. */
  function KeepFrom(rows: seq<SeriesRow>, stime: int): (r: seq<SeriesRow>)
    ensures forall i :: 0 <= i < |r| ==> r[i].day >= stime
  {
    if rows == [] then []
    else
      var p := KeepFrom(rows[..|rows| - 1], stime);
      var last := rows[|rows| - 1];
      if last.day < stime then p else p + [last]
  }

  /** The query over given day figures. The day sequence of the query cannot
      run backwards, so an `etime` more than thirty days before `stime` is a
      query failure (`None`). */
  function Series(fig: Figures, stime: int, etime: int): (r: Option<seq<SeriesRow>>)
    ensures r.None? <==> etime < stime - Lookback
  {
    if etime < stime - Lookback then None
    else
      var n := etime - stime + Lookback + 1;
      Some(KeepFrom(Rows(DailyColumns(fig, stime - Lookback, n), stime - Lookback, n), stime))
  }

  /** The report for the days `stime` to `etime` over the pageview rows. */
  function PageviewTimeSeries(stime: int, etime: int, pvs: seq<PageView>): (r: Option<seq<SeriesRow>>)
    ensures r.None? <==> etime < stime - Lookback
  {
    Series(DailyFigures(pvs), stime, etime)
  }

  // ------------------------------------------------------------ reference

  /** Reference for a window: the day figure summed over the days `lo` to `hi`. */
  function RangeSum(f: int -> int, lo: int, hi: int): int
    decreases hi - lo
  {
    if hi < lo then 0 else RangeSum(f, lo, hi - 1) + f(hi)
  }

  /** The figure of day `d` with its sums over the 3, 7, 14 and 30 days ending on `d`. */
  function FullWindows(f: int -> int, d: int): Windowed
  {
    Windowed(f(d), RangeSum(f, d - 2, d), RangeSum(f, d - 6, d), RangeSum(f, d - 13, d), RangeSum(f, d - 29, d))
  }

  /** The reference row of day `d`: its figures with every window summed over whole days. */
  function Reference(fig: Figures, d: int): (row: SeriesRow)
    ensures row.day == d
  {
    SeriesRow(d, FullWindows(fig.pageviews, d), FullWindows(fig.sessions, d), FullWindows(fig.users, d))
  }

  // --------------------------------------------------------------- lemmas

  /** A frame that starts at or after the first row covers whole days. */
  lemma {:induction false} WindowAt(f: int -> int, from: int, xs: seq<int>, lo: int, hi: int)
    requires forall k :: 0 <= k < |xs| ==> xs[k] == f(from + k)
    requires 0 <= lo && hi < |xs|
    ensures Window(xs, lo, hi) == RangeSum(f, from + lo, from + hi)
    decreases hi - lo
  {
    if lo <= hi {
      WindowAt(f, from, xs, lo, hi - 1);
    }
  }

  /** From the thirtieth row on, every frame covers its full number of days. */
  lemma FullWindowsAt(f: int -> int, from: int, xs: seq<int>, i: nat)
    requires forall k :: 0 <= k < |xs| ==> xs[k] == f(from + k)
    requires Lookback - 1 <= i < |xs|
    ensures Windows(xs, i) == FullWindows(f, from + i)
  {
    WindowAt(f, from, xs, i - 2, i);
    WindowAt(f, from, xs, i - 6, i);
    WindowAt(f, from, xs, i - 13, i);
    WindowAt(f, from, xs, i - 29, i);
  }

  /** Every unfiltered row from the thirtieth on is the reference row of its day. */
  lemma RowAt(fig: Figures, from: int, n: nat, i: nat)
    requires Lookback - 1 <= i < n
    ensures RowOf(DailyColumns(fig, from, n), from, i) == Reference(fig, from + i)
  {
    var c := DailyColumns(fig, from, n);
    FullWindowsAt(fig.pageviews, from, c.pageviews, i);
    FullWindowsAt(fig.sessions, from, c.sessions, i);
    FullWindowsAt(fig.users, from, c.users, i);
  }

  /** Rows numbered from thirty days before `stime`: exactly the first thirty
      fall before `stime`. */
  lemma {:induction false} KeepFromDrops(rows: seq<SeriesRow>, from: int, stime: int)
    requires forall k :: 0 <= k < |rows| ==> rows[k].day == from + k
    requires stime == from + Lookback
    ensures KeepFrom(rows, stime) == if |rows| <= Lookback then [] else rows[Lookback..]
  {
    if rows != [] {
      var p := rows[..|rows| - 1];
      KeepFromDrops(p, from, stime);
      if |rows| > Lookback {
        assert rows[Lookback..] == (if |p| <= Lookback then [] else p[Lookback..]) + [rows[|rows| - 1]];
      }
    }
  }

  /** Dropping the first thirty rows renumbers day `from + 30 + k` as row `k`. */
  lemma Shifted(fig: Figures, rows: seq<SeriesRow>, out: seq<SeriesRow>, from: int, stime: int)
    requires Lookback <= |rows| && out == rows[Lookback..]
    requires forall i :: Lookback <= i < |rows| ==> rows[i] == Reference(fig, from + i)
    requires stime == from + Lookback
    ensures forall k :: 0 <= k < |out| ==> out[k] == Reference(fig, stime + k)
  {
    forall k | 0 <= k < |out|
      ensures out[k] == Reference(fig, stime + k)
    {
      assert out[k] == rows[k + Lookback];
      assert from + (k + Lookback) == stime + k;
    }
  }

  /** The query has one row per day from `stime` to `etime`, ascending, and
      each is the reference row of its day, whatever the day figures: thirty
      days of history precede the first returned row, so every frame covers
      its full number of days. */
  lemma SeriesOver(fig: Figures, stime: int, etime: int, out: seq<SeriesRow>)
    requires Series(fig, stime, etime) == Some(out)
    ensures |out| == if etime < stime then 0 else etime - stime + 1
    ensures forall k :: 0 <= k < |out| ==> out[k] == Reference(fig, stime + k)
  {
    var from := stime - Lookback;
    var n := etime - stime + Lookback + 1;
    var rows := Rows(DailyColumns(fig, from, n), from, n);
    KeepFromDrops(rows, from, stime);
    if Lookback <= n {
      forall i | Lookback <= i < n
        ensures rows[i] == Reference(fig, from + i)
      {
        RowAt(fig, from, n, i);
      }
      Shifted(fig, rows, out, from, stime);
    }
  }

  /** The pageview report: one row per day from `stime` to `etime`, each with
      that day's pageview count, distinct sessions and distinct users, and
      their sums over the 3, 7, 14 and 30 days ending on it. */
  lemma SeriesSpec(stime: int, etime: int, pvs: seq<PageView>, out: seq<SeriesRow>)
    requires PageviewTimeSeries(stime, etime, pvs) == Some(out)
    ensures |out| == if etime < stime then 0 else etime - stime + 1
    ensures forall k :: 0 <= k < |out| ==> out[k] == Reference(DailyFigures(pvs), stime + k)
  {
    SeriesOver(DailyFigures(pvs), stime, etime, out);
  }

  lemma {:induction false} RangeSumNonNegative(f: int -> int, lo: int, hi: int)
    requires forall d :: f(d) >= 0
    ensures RangeSum(f, lo, hi) >= 0
    decreases hi - lo
  {
    if lo <= hi {
      RangeSumNonNegative(f, lo, hi - 1);
    }
  }

  /** Widening a window to earlier days never lowers its sum. */
  lemma {:induction false} RangeSumWidens(f: int -> int, lo: int, wider: int, hi: int)
    requires forall d :: f(d) >= 0
    requires wider <= lo
    ensures RangeSum(f, lo, hi) <= RangeSum(f, wider, hi)
    decreases hi - wider
  {
    if hi < lo {
      RangeSumNonNegative(f, wider, hi);
    } else {
      RangeSumWidens(f, lo, wider, hi - 1);
    }
  }

  /** Every day figure is a count, so the windows of a reference row are
      nested: the day's figure, then the 3-, 7-, 14- and 30-day sums, never
      decrease. */
  lemma WindowsNested(pvs: seq<PageView>, d: int, m: Measure)
    ensures var w := FullWindows(Daily(pvs, m), d);
      0 <= w.day <= w.days3 <= w.days7 <= w.days14 <= w.days30
  {
    var f := Daily(pvs, m);
    forall e ensures f(e) >= 0 { }
    assert RangeSum(f, d, d) == f(d) by {
      assert RangeSum(f, d, d - 1) == 0;
    }
    RangeSumWidens(f, d, d - 2, d);
    RangeSumWidens(f, d - 2, d - 6, d);
    RangeSumWidens(f, d - 6, d - 13, d);
    RangeSumWidens(f, d - 13, d - 29, d);
  }

  /** A day counts zero pageviews exactly when no pageview falls on it. */
  lemma ZeroFill(pvs: seq<PageView>, d: int)
    ensures Count(pvs, d, Pageviews) == 0 <==> forall i :: 0 <= i < |pvs| ==> pvs[i].day != d
  {
  }

  lemma {:induction false} DistinctNoLonger<T>(xs: seq<T>)
    ensures |Distinct(xs)| <= |xs|
  {
    if xs != [] {
      DistinctNoLonger(xs[..|xs| - 1]);
    }
  }

  /** Distinct sessions and distinct users never outnumber the day's pageviews. */
  lemma DistinctBounded(pvs: seq<PageView>, d: int)
    ensures 0 <= Count(pvs, d, Sessions) <= Count(pvs, d, Pageviews)
    ensures 0 <= Count(pvs, d, Users) <= Count(pvs, d, Pageviews)
  {
    var rows := OnDay(pvs, d);
    DistinctNoLonger(Values(rows, (p: PageView) => p.psid));
    DistinctNoLonger(Values(rows, (p: PageView) => p.cid));
  }
}
