/** The per-goal result document the goal retrievers keep: a JSON list of
    `{date, e_count, u_count}` records, one per day. A run reads the stored
    list (a missing object reads as the empty list), replaces the record of
    each day it counted or appends one, sorts by the date text and writes the
    list back. The term retriever does this for every day of a range, the
    daily retriever and the goal plugin for yesterday. */
module GoalResult {
  import opened Wrappers
  import opened Strings
  import opened Calendar
  import opened Naming
  import opened RetrieverBase
  import opened GoalQuery
  import Grouping

  /** `{'date': '%Y-%m-%d', 'e_count': events, 'u_count': distinct users}`. */
  datatype Record = Record(date: string, eCount: int, uCount: int)

  predicate HasDate(rs: seq<Record>, d: string)
  {
    exists i :: 0 <= i < |rs| && rs[i].date == d
  }

  /** At most one record per day. */
  predicate UniqueDates(rs: seq<Record>)
  {
    forall i, j :: 0 <= i < j < |rs| ==> rs[i].date != rs[j].date
  }

  /** The first index holding date `d`, or `|rs|`. */
  function FindDate(rs: seq<Record>, d: string): (i: nat)
    ensures i <= |rs|
    ensures i < |rs| ==> rs[i].date == d
    ensures forall j :: 0 <= j < i ==> rs[j].date != d
  {
    if rs == [] then 0
    else if rs[0].date == d then 0
    else 1 + FindDate(rs[1..], d)
  }

  // ---------------------------------------------------------------- upsert

  /** `idx = [i for i, _ in enumerate(result) if _['date'] == r['date']]`, then
      `result[idx[0]] = r` when there is one, else `result.append(r)`. */
  function Upsert(rs: seq<Record>, r: Record): (out: seq<Record>)
    ensures r in out
    ensures forall x: Record :: x.date != r.date ==> (x in out <==> x in rs)
    ensures |out| == if HasDate(rs, r.date) then |rs| else |rs| + 1
    ensures UniqueDates(rs) ==> UniqueDates(out)
    ensures UniqueDates(rs) ==> forall x: Record :: x in out && x.date == r.date ==> x == r
  {
    var i := FindDate(rs, r.date);
    UpsertFacts(rs, r, i);
    if i < |rs| then rs[i := r] else rs + [r]
  }

  lemma UpsertFacts(rs: seq<Record>, r: Record, i: nat)
    requires i == FindDate(rs, r.date)
    ensures var out := if i < |rs| then rs[i := r] else rs + [r];
      r in out &&
      (forall x: Record :: x.date != r.date ==> (x in out <==> x in rs)) &&
      (HasDate(rs, r.date) <==> i < |rs|) &&
      (UniqueDates(rs) ==> UniqueDates(out))
  {
    var out := if i < |rs| then rs[i := r] else rs + [r];
    if i < |rs| {
      assert out[i] == r;
      forall x: Record | x.date != r.date ensures x in out <==> x in rs {
        if x in rs {
          var j :| 0 <= j < |rs| && rs[j] == x;
          assert out[j] == x;
        }
        if x in out {
          var j :| 0 <= j < |out| && out[j] == x;
          assert rs[j] == x;
        }
      }
    } else {
      assert out[|rs|] == r;
    }
  }

  /** A record already stored as it is: the upsert changes nothing. */
  lemma UpsertPresent(rs: seq<Record>, r: Record)
    requires UniqueDates(rs) && r in rs
    ensures Upsert(rs, r) == rs
  {
    var k :| 0 <= k < |rs| && rs[k] == r;
    var i := FindDate(rs, r.date);
    assert i == k;
  }

  /** The term retriever's loop over the rows of its query, in order. */
  function UpsertAll(rs: seq<Record>, news: seq<Record>): (out: seq<Record>)
    ensures UniqueDates(rs) ==> UniqueDates(out)
    decreases |news|
  {
    if news == [] then rs
    else Upsert(UpsertAll(rs, news[..|news| - 1]), news[|news| - 1])
  }

  /** After the loop, the store holds each new record and, of the old ones,
      exactly those of days the run did not count. */
  lemma {:induction false} UpsertAllSpec(rs: seq<Record>, news: seq<Record>)
    requires UniqueDates(rs) && UniqueDates(news)
    ensures forall x: Record :: x in UpsertAll(rs, news) <==> x in news || (x in rs && !HasDate(news, x.date))
    decreases |news|
  {
    if news != [] {
      var init, r := news[..|news| - 1], news[|news| - 1];
      assert UniqueDates(init);
      UpsertAllSpec(rs, init);
      var mid := UpsertAll(rs, init);
      forall x: Record ensures x in Upsert(mid, r) <==> x in news || (x in rs && !HasDate(news, x.date)) {
        assert x in news <==> x in init || x == r by { assert news == init + [r]; }
        assert HasDate(news, x.date) <==> HasDate(init, x.date) || x.date == r.date by {
          if HasDate(news, x.date) && x.date != r.date {
            var j :| 0 <= j < |news| && news[j].date == x.date;
            assert init[j].date == x.date;
          }
          if HasDate(init, x.date) {
            var j :| 0 <= j < |init| && init[j].date == x.date;
            assert news[j].date == x.date;
          }
          if x.date == r.date {
            assert news[|news| - 1].date == x.date;
          }
        }
      }
    }
  }

  // ---------------------------------------------------------------- sort

  /** `result.sort(key=lambda x: x['date'])` leaves the dates in string order. */
  predicate Sorted(rs: seq<Record>)
  {
    forall i, j :: 0 <= i < j < |rs| ==> LexLe(rs[i].date, rs[j].date)
  }

  /** One step of a stable insertion sort: `r` goes after every record whose
      date is not above its own. */
  function Insert(s: seq<Record>, r: Record): (out: seq<Record>)
    ensures multiset(out) == multiset(s) + multiset{r}
    ensures |out| == |s| + 1
  {
    if s == [] then [r]
    else if LexLe(s[0].date, r.date) then
      assert s == [s[0]] + s[1..];
      [s[0]] + Insert(s[1..], r)
    else [r] + s
  }

  /** Inserting into a sorted list keeps it sorted. */
  lemma {:induction false} InsertSorted(s: seq<Record>, r: Record)
    requires Sorted(s)
    ensures Sorted(Insert(s, r))
    decreases |s|
  {
    if s != [] {
      if LexLe(s[0].date, r.date) {
        InsertSorted(s[1..], r);
        var tail := Insert(s[1..], r);
        forall x | x in tail ensures LexLe(s[0].date, x.date) {
          assert x in multiset(tail);
          if x != r {
            assert x in multiset(s[1..]);
            var k :| 0 <= k < |s[1..]| && s[1..][k] == x;
            assert s[k + 1] == x;
          }
        }
        SortedCons(s[0], tail);
      } else {
        LexTotal(s[0].date, r.date);
        forall x | x in s ensures LexLe(r.date, x.date) {
          var k :| 0 <= k < |s| && s[k] == x;
          if k > 0 {
            LexTransitive(r.date, s[0].date, x.date);
          }
        }
        SortedCons(r, s);
      }
    }
  }

  /** A record no later than every record of a sorted list may go in front. */
  lemma SortedCons(a: Record, t: seq<Record>)
    requires Sorted(t) && forall x :: x in t ==> LexLe(a.date, x.date)
    ensures Sorted([a] + t)
  {
    var out := [a] + t;
    forall i, j | 0 <= i < j < |out| ensures LexLe(out[i].date, out[j].date) {
      assert out[j] == t[j - 1];
      if i > 0 {
        assert out[i] == t[i - 1];
      }
    }
  }

  /** Inserting a record of a new day keeps one record per day. */
  lemma {:induction false} InsertUnique(s: seq<Record>, r: Record)
    requires UniqueDates(s) && !HasDate(s, r.date)
    ensures UniqueDates(Insert(s, r))
    decreases |s|
  {
    if s != [] && LexLe(s[0].date, r.date) {
      assert !HasDate(s[1..], r.date);
      InsertUnique(s[1..], r);
      var tail := Insert(s[1..], r);
      forall j | 0 <= j < |tail| ensures tail[j].date != s[0].date {
        assert tail[j] in multiset(tail);
        if tail[j] != r {
          assert tail[j] in multiset(s[1..]);
          var k :| 0 <= k < |s[1..]| && s[1..][k] == tail[j];
          assert s[k + 1] == tail[j];
        } else {
          assert s[0].date != r.date;
        }
      }
    } else if s != [] {
      assert forall j :: 0 <= j < |s| ==> s[j].date != r.date;
    }
  }

  /** The sorted store: a permutation of its input in date order. */
  function SortByDate(xs: seq<Record>): (out: seq<Record>)
    ensures multiset(out) == multiset(xs)
    ensures |out| == |xs|
    ensures Sorted(out)
    ensures UniqueDates(xs) ==> UniqueDates(out)
  {
    if xs == [] then []
    else
      var init, last := xs[..|xs| - 1], xs[|xs| - 1];
      assert xs == init + [last];
      var s := SortByDate(init);
      InsertSorted(s, last);
      SortUniqueStep(xs, s);
      Insert(s, last)
  }

  lemma SortUniqueStep(xs: seq<Record>, s: seq<Record>)
    requires xs != [] && multiset(s) == multiset(xs[..|xs| - 1])
    requires UniqueDates(xs) ==> UniqueDates(s)
    ensures UniqueDates(xs) ==> UniqueDates(Insert(s, xs[|xs| - 1]))
  {
    var init, last := xs[..|xs| - 1], xs[|xs| - 1];
    if UniqueDates(xs) {
      forall k | 0 <= k < |s| ensures s[k].date != last.date {
        assert s[k] in multiset(init);
      }
      InsertUnique(s, last);
    }
  }

  /** With one record per day, there is exactly one date-sorted order of a
      store: any sort by date gives the list `SortByDate` gives. */
  lemma {:induction false} SortedPermutationUnique(a: seq<Record>, b: seq<Record>)
    requires Sorted(a) && Sorted(b) && UniqueDates(a)
    requires multiset(a) == multiset(b)
    ensures a == b
    decreases |a|
  {
    assert |a| == |multiset(a)| == |b|;
    if a != [] {
      HeadsAgree(a, b);
      TailMultiset(a);
      TailMultiset(b);
      SortedPermutationUnique(a[1..], b[1..]);
      assert a == [a[0]] + a[1..] && b == [b[0]] + b[1..];
    }
  }

  lemma TailMultiset(a: seq<Record>)
    requires a != []
    ensures multiset(a[1..]) == multiset(a) - multiset{a[0]}
  {
    assert a == [a[0]] + a[1..];
  }

  /** Two date-sorted orders of one store begin with the same record. */
  lemma HeadsAgree(a: seq<Record>, b: seq<Record>)
    requires Sorted(a) && Sorted(b) && UniqueDates(a)
    requires multiset(a) == multiset(b) && a != [] && b != []
    ensures a[0] == b[0]
  {
    assert a[0] in multiset(b) && b[0] in multiset(a);
    var p :| 0 <= p < |b| && b[p] == a[0];
    var q :| 0 <= q < |a| && a[q] == b[0];
    if q != 0 {
      assert p != 0;
      LexAntisymmetric(a[0].date, b[0].date);
    }
  }

  /** Sorting a store already in date order changes nothing. */
  lemma SortSorted(rs: seq<Record>)
    requires Sorted(rs) && UniqueDates(rs)
    ensures SortByDate(rs) == rs
  {
    SortedPermutationUnique(rs, SortByDate(rs));
  }

  /** Records whose dates are `%Y-%m-%d` texts of valid dates with four-digit
      years are in chronological order once sorted. */
  lemma SortedChronological(rs: seq<Record>, ds: seq<Date>, i: nat, j: nat)
    requires Sorted(rs) && |ds| == |rs|
    requires forall k :: 0 <= k < |rs| ==> ValidDate(ds[k]) && FourDigitYear(ds[k]) && rs[k].date == DashDate(ds[k])
    requires i < j < |rs|
    ensures !Before(ds[j], ds[i])
  {
    DashDateOrder(ds[i], ds[j]);
  }

  // ---------------------------------------------------------------- dates

  /** `datetime.strptime(str(n), '%Y%m%d')` for the day numbers
      `year * 10000 + month * 100 + day` of the query's partitions: the
      eight digits split four, two, two, and the parse fails unless they
      name a valid date. */
  function DateOfNumber(n: int): (r: Option<Date>)
    ensures r.Some? ==> ValidDate(r.value) && FourDigitYear(r.value) &&
                         DayNumber(r.value.year, r.value.month, r.value.day) == n
  {
    if 10000000 <= n <= 99999999 then
      var d := Date(n / 10000, n / 100 % 100, n % 100);
      if ValidDate(d) then Some(d) else None
    else None
  }

  /** Every valid date with a four-digit year reads back from its day number. */
  lemma DateOfDayNumber(d: Date)
    requires ValidDate(d) && FourDigitYear(d)
    ensures DateOfNumber(DayNumber(d.year, d.month, d.day)) == Some(d)
  {
    var n := DayNumber(d.year, d.month, d.day);
    var m := d.year * 100 + d.month;
    assert n == m * 100 + d.day;
    DivMod100(m, d.day);
    DivMod100(d.year, d.month);
    Div10000(d.year, d.month * 100 + d.day);
  }

  /** Dividing `q * 100 + r` by 100 gives back `q` and `r`. */
  lemma DivMod100(q: int, r: int)
    requires 0 <= r < 100
    ensures (q * 100 + r) / 100 == q && (q * 100 + r) % 100 == r
  {
  }

  lemma Div10000(q: int, r: int)
    requires 0 <= r < 10000
    ensures (q * 10000 + r) / 10000 == q
  {
  }

  /** `.strftime('%Y-%m-%d')` of the parsed day: the record date of one row. */
  function RowDate(n: int): Option<string>
  {
    match DateOfNumber(n)
    case Some(d) => Some(DashDate(d))
    case None => None
  }

  /** A row's date parses exactly when it is the day number of a valid date
      with a four-digit year, and then it reads as that date's `%Y-%m-%d`. */
  lemma RowDateSpec(n: int)
    ensures RowDate(n).Some? <==>
      exists d :: ValidDate(d) && FourDigitYear(d) && DayNumber(d.year, d.month, d.day) == n
    ensures forall d :: ValidDate(d) && FourDigitYear(d) && DayNumber(d.year, d.month, d.day) == n ==>
      RowDate(n) == Some(DashDate(d))
  {
    forall d | ValidDate(d) && FourDigitYear(d) && DayNumber(d.year, d.month, d.day) == n
      ensures RowDate(n) == Some(DashDate(d))
    {
      DateOfDayNumber(d);
    }
  }

  // ---------------------------------------------------------------- runs

  /** `stat_prefix + grp_prefix + tid + '_' + goal_id + '_goal_result.json'`. */
  function ResultKey(statPrefix: string, org: string, tid: string, goalId: string): (key: string)
    ensures statPrefix + OrgPrefix(org) <= key
  {
    statPrefix + OrgPrefix(org) + tid + "_" + goalId + "_goal_result.json"
  }

  /** How one run of a goal retriever ends. `Raised`: an exception stopped
      it (partition repair failed, a poll gave up, a date did not parse);
      `NotFound`: the container or the goal is unknown; `QueryFailed`: the
      query ended FAILED; `Saved`: the list written back, and whether a usage
      report was filed first. */
  datatype Outcome =
    | Raised
    | NotFound
    | QueryFailed
    | Saved(key: string, records: seq<Record>, usageReported: bool)

  /** The stored list, `[]` when reading it raised `ClientError`. */
  function Stored(read: Option<seq<Record>>): (rs: seq<Record>)
    ensures read.None? ==> rs == []
    ensures read.Some? ==> rs == read.value
  {
    read.GetOr([])
  }

  /** The common tail of every run: upsert the new records, sort, write. */
  function Store(read: Option<seq<Record>>, news: seq<Record>): (out: seq<Record>)
    ensures Sorted(out)
    ensures UniqueDates(Stored(read)) ==> UniqueDates(out)
    ensures UniqueDates(Stored(read)) && UniqueDates(news) ==>
      forall x: Record :: x in out <==> x in news || (x in Stored(read) && !HasDate(news, x.date))
  {
    var all := UpsertAll(Stored(read), news);
    var out := SortByDate(all);
    StoreFacts(Stored(read), news, out);
    out
  }

  lemma StoreFacts(rs: seq<Record>, news: seq<Record>, out: seq<Record>)
    requires multiset(out) == multiset(UpsertAll(rs, news))
    ensures UniqueDates(rs) && UniqueDates(news) ==>
      forall x: Record :: x in out <==> x in news || (x in rs && !HasDate(news, x.date))
  {
    if UniqueDates(rs) && UniqueDates(news) {
      UpsertAllSpec(rs, news);
      forall x: Record ensures x in out <==> x in UpsertAll(rs, news) {
        assert x in out <==> x in multiset(out);
      }
    }
  }

  /** A query row of the term retriever: the day number and the two counts. */
  datatype CountRow = CountRow(date: int, eCount: int, uCount: int)

  /** The record of one query row, or `None` when its date does not parse. */
  function RowRecord(row: CountRow): Option<Record>
  {
    match RowDate(row.date)
    case Some(d) => Some(Record(d, row.eCount, row.uCount))
    case None => None
  }

  /** Converts every element in order, or gives `None` if one does not convert. */
  function AllConverted<A, B>(xs: seq<A>, f: A -> Option<B>): (r: Option<seq<B>>)
    ensures r.Some? ==> |r.value| == |xs|
  {
    if xs == [] then Some([])
    else
      match (AllConverted(xs[..|xs| - 1], f), f(xs[|xs| - 1]))
      case (Some(init), Some(last)) => Some(init + [last])
      case _ => None
  }

  lemma {:induction false} AllConvertedSpec<A, B>(xs: seq<A>, f: A -> Option<B>)
    ensures AllConverted(xs, f).Some? <==> forall i :: 0 <= i < |xs| ==> f(xs[i]).Some?
    ensures AllConverted(xs, f).Some? ==> forall i :: 0 <= i < |xs| ==> f(xs[i]) == Some(AllConverted(xs, f).value[i])
  {
    if xs != [] {
      var pre := xs[..|xs| - 1];
      AllConvertedSpec(pre, f);
      assert forall i :: 0 <= i < |pre| ==> pre[i] == xs[i];
    }
  }

  /** The records of the query rows in order, or `None` if a date does not parse. */
  function RowRecords(rows: seq<CountRow>): (r: Option<seq<Record>>)
    ensures r.Some? ==> |r.value| == |rows|
  {
    AllConverted(rows, RowRecord)
  }

  /** The rows convert exactly when every date parses, and then record `i`
      holds row `i`'s reformatted date and its counts. */
  lemma RowRecordsSpec(rows: seq<CountRow>)
    ensures RowRecords(rows).Some? <==> forall i :: 0 <= i < |rows| ==> RowDate(rows[i].date).Some?
    ensures RowRecords(rows).Some? ==> forall i :: 0 <= i < |rows| ==>
      var x := RowRecords(rows).value[i];
      RowDate(rows[i].date) == Some(x.date) && x.eCount == rows[i].eCount && x.uCount == rows[i].uCount
  {
    AllConvertedSpec(rows, RowRecord);
  }

  /** A container item: its organisation and its goals. */
  datatype Container = Container(org: string, goals: seq<Goal>)

  function FindGoal(goals: seq<Goal>, id: string): (i: nat)
    ensures i <= |goals|
    ensures i < |goals| ==> goals[i].id == id
    ensures forall j :: 0 <= j < i ==> goals[j].id != id
  {
    if goals == [] then 0
    else if goals[0].id == id then 0
    else 1 + FindGoal(goals[1..], id)
  }

  /** `GoalTermDataRetriever.execute`: repair partitions, find the container
      and the goal, run the range query, and merge its rows into the goal's
      result list. `partition` and `query` are what the polls return. */
  function TermRun(statPrefix: string, tid: string, goalId: string, container: Option<Container>,
                   partition: Option<QueryState>, query: Option<QueryState>,
                   rows: seq<CountRow>, read: Option<seq<Record>>): (o: Outcome)
    ensures o.Saved? <==> (partition == Some(Succeeded) && container.Some? &&
                           FindGoal(container.value.goals, goalId) < |container.value.goals| &&
                           query == Some(Succeeded) && RowRecords(rows).Some?)
    ensures o.Saved? ==> (o.usageReported &&
                          o.key == ResultKey(statPrefix, container.value.org, tid, goalId) &&
                          o.records == Store(read, RowRecords(rows).value))
    ensures o == NotFound <==> (partition == Some(Succeeded) &&
                                (container.None? || FindGoal(container.value.goals, goalId) == |container.value.goals|))
    ensures o == QueryFailed <==> (partition == Some(Succeeded) && container.Some? &&
                                   FindGoal(container.value.goals, goalId) < |container.value.goals| &&
                                   query.Some? && query.value != Succeeded)
  {
    if partition != Some(Succeeded) then Raised
    else if container.None? then NotFound
    else if FindGoal(container.value.goals, goalId) == |container.value.goals| then NotFound
    else match query
      case None => Raised
      case Some(s) =>
        if s != Succeeded then QueryFailed
        else match RowRecords(rows)
          case None => Raised
          case Some(news) => Saved(ResultKey(statPrefix, container.value.org, tid, goalId), Store(read, news), true)
  }

  /** Whatever the stored list held, a successful term run leaves one sorted
      record per day, holding every counted day's figures and, of the old
      records, those of days outside the query's rows. */
  lemma TermRunSpec(statPrefix: string, tid: string, goalId: string, container: Option<Container>,
                    partition: Option<QueryState>, query: Option<QueryState>,
                    rows: seq<CountRow>, read: Option<seq<Record>>)
    requires UniqueDates(Stored(read))
    requires forall i, j :: 0 <= i < j < |rows| ==> rows[i].date != rows[j].date
    ensures var o := TermRun(statPrefix, tid, goalId, container, partition, query, rows, read);
      o.Saved? ==>
        Sorted(o.records) && UniqueDates(o.records) &&
        (forall x: Record :: x in o.records <==>
           (x in RowRecords(rows).value || (x in Stored(read) && !HasDate(RowRecords(rows).value, x.date))))
  {
    var o := TermRun(statPrefix, tid, goalId, container, partition, query, rows, read);
    if o.Saved? {
      RowRecordsUnique(rows);
    }
  }

  /** Rows of distinct days give records of distinct dates. */
  lemma RowRecordsUnique(rows: seq<CountRow>)
    requires RowRecords(rows).Some?
    requires forall i, j :: 0 <= i < j < |rows| ==> rows[i].date != rows[j].date
    ensures UniqueDates(RowRecords(rows).value)
  {
    var news := RowRecords(rows).value;
    RowRecordsSpec(rows);
    forall i, j | 0 <= i < j < |news| ensures news[i].date != news[j].date {
      if news[i].date == news[j].date {
        RowDateInjective(rows[i].date, rows[j].date);
      }
    }
  }

  /** Distinct day numbers give distinct record dates. */
  lemma RowDateInjective(m: int, n: int)
    requires RowDate(m).Some? && RowDate(n).Some? && RowDate(m) == RowDate(n)
    ensures m == n
  {
    var a, b := DateOfNumber(m).value, DateOfNumber(n).value;
    DashDateInjective(a, b);
  }

  /** Distinct valid dates with four-digit years have distinct `%Y-%m-%d` texts. */
  lemma DashDateInjective(a: Date, b: Date)
    requires ValidDate(a) && FourDigitYear(a) && ValidDate(b) && FourDigitYear(b)
    requires DashDate(a) == DashDate(b)
    ensures a == b
  {
    DashDateOrder(a, b);
    DashDateOrder(b, a);
    LexReflexive(DashDate(a));
  }

  /** The record the daily retriever and the plugin write: yesterday's counts. */
  function YesterdayRecord(today: Date, eCount: int, uCount: int): (r: Record)
    requires ValidDate(today)
    ensures r.date == DashDate(PrevDay(today))
  {
    Record(DashDate(PrevDay(today)), eCount, uCount)
  }

  /** `GoalDataRetriever.execute_result_yesterday` of the daily retriever, for
      a goal that partition repair and the table scan have reached. */
  function DailyRun(statPrefix: string, org: string, tid: string, goalId: string, today: Date,
                    query: Option<QueryState>, eCount: int, uCount: int,
                    read: Option<seq<Record>>): (o: Outcome)
    requires ValidDate(today)
    ensures query.None? <==> o == Raised
    ensures o == QueryFailed <==> query.Some? && query.value != Succeeded
    ensures o.Saved? ==> (o.usageReported && o.key == ResultKey(statPrefix, org, tid, goalId) &&
                          o.records == Store(read, [YesterdayRecord(today, eCount, uCount)]))
  {
    match query
    case None => Raised
    case Some(s) =>
      if s != Succeeded then QueryFailed
      else Saved(ResultKey(statPrefix, org, tid, goalId), Store(read, [YesterdayRecord(today, eCount, uCount)]), true)
  }

  /** Yesterday's figures replace whatever the list held for that day; every
      other day is kept. */
  lemma DailyRunSpec(statPrefix: string, org: string, tid: string, goalId: string, today: Date,
                     eCount: int, uCount: int, read: Option<seq<Record>>)
    requires ValidDate(today) && UniqueDates(Stored(read))
    ensures var o := DailyRun(statPrefix, org, tid, goalId, today, Some(Succeeded), eCount, uCount, read);
      var r := YesterdayRecord(today, eCount, uCount);
      o.Saved? && Sorted(o.records) && UniqueDates(o.records) &&
      (forall x: Record :: x in o.records <==> x == r || (x in Stored(read) && x.date != r.date))
  {
    var r := YesterdayRecord(today, eCount, uCount);
    forall x: Record ensures HasDate([r], x.date) <==> x.date == r.date {
      if x.date == r.date { assert [r][0].date == x.date; }
    }
  }

  /** Running the daily retriever again for the same day with the same
      counts leaves the list as the first run wrote it. */
  lemma DailyRunIdempotent(statPrefix: string, org: string, tid: string, goalId: string, today: Date,
                           eCount: int, uCount: int, read: Option<seq<Record>>)
    requires ValidDate(today) && UniqueDates(Stored(read))
    ensures var first := DailyRun(statPrefix, org, tid, goalId, today, Some(Succeeded), eCount, uCount, read);
      first.Saved? &&
      DailyRun(statPrefix, org, tid, goalId, today, Some(Succeeded), eCount, uCount, Some(first.records)) == first
  {
    var r := YesterdayRecord(today, eCount, uCount);
    var first := DailyRun(statPrefix, org, tid, goalId, today, Some(Succeeded), eCount, uCount, read);
    DailyRunSpec(statPrefix, org, tid, goalId, today, eCount, uCount, read);
    var rs := first.records;
    assert UpsertAll(rs, [r]) == Upsert(rs, r) by { assert [r][..0] == []; }
    UpsertPresent(rs, r);
    SortSorted(rs);
  }

  /** The plugin's run for one goal of its goal list: no partition repair
      and no usage report; the key comes from the goal's own `org` and
      `container`. */
  function PluginRun(statPrefix: string, g: PluginGoal, today: Date,
                     query: Option<QueryState>, eCount: int, uCount: int,
                     read: Option<seq<Record>>): (o: Outcome)
    requires ValidDate(today)
    ensures query.None? <==> o == Raised
    ensures o == QueryFailed <==> query.Some? && query.value != Succeeded
    ensures o.Saved? ==> (!o.usageReported && o.key == ResultKey(statPrefix, g.org, g.container, g.id) &&
                          o.records == Store(read, [YesterdayRecord(today, eCount, uCount)]))
  {
    match query
    case None => Raised
    case Some(s) =>
      if s != Succeeded then QueryFailed
      else Saved(ResultKey(statPrefix, g.org, g.container, g.id), Store(read, [YesterdayRecord(today, eCount, uCount)]), false)
  }

  // ---------------------------------------------------------------- the scan

  /** A container item the daily scan returns (those with a `goals` attribute). */
  datatype Item = Item(org: string, tid: string, goals: seq<Goal>)

  /** One goal to run: the organisation, the container and the goal. */
  datatype Job = Job(org: string, tid: string, goal: Goal)

  function ItemJobs(it: Item): (js: seq<Job>)
    ensures |js| == |it.goals|
    ensures forall k :: 0 <= k < |js| ==> js[k] == Job(it.org, it.tid, it.goals[k])
  {
    seq(|it.goals|, k requires 0 <= k < |it.goals| => Job(it.org, it.tid, it.goals[k]))
  }

  function PageJobs(items: seq<Item>): seq<Job>
  {
    Grouping.FlatMap(items, ItemJobs)
  }

  /** `scan_table`, following `LastEvaluatedKey` page by page: the goals of
      every item of every page, in the order the scan returns them. */
  function ScanJobs(pages: seq<seq<Item>>): seq<Job>
  {
    Grouping.FlatMap(pages, PageJobs)
  }

  lemma ItemJobsSpec(it: Item, j: Job)
    ensures j in ItemJobs(it) <==> j.org == it.org && j.tid == it.tid && j.goal in it.goals
  {
    if j in ItemJobs(it) {
      var k :| 0 <= k < |ItemJobs(it)| && ItemJobs(it)[k] == j;
      assert it.goals[k] == j.goal;
    }
    if j.org == it.org && j.tid == it.tid && j.goal in it.goals {
      var k :| 0 <= k < |it.goals| && it.goals[k] == j.goal;
      assert ItemJobs(it)[k] == j;
    }
  }

  /** One page runs exactly the goals of its items, each under its item's
      organisation and tracking id. */
  lemma PageJobsSpec(items: seq<Item>, j: Job)
    ensures j in PageJobs(items) <==> exists i :: 0 <= i < |items| && j.org == items[i].org &&
                                         j.tid == items[i].tid && j.goal in items[i].goals
  {
    Grouping.FlatMapSpec(items, ItemJobs, j);
    forall i | 0 <= i < |items|
      ensures j in ItemJobs(items[i]) <==> j.org == items[i].org && j.tid == items[i].tid && j.goal in items[i].goals
    {
      ItemJobsSpec(items[i], j);
    }
  }

  /** The scan runs exactly the goals of the items on its pages. */
  lemma ScanJobsSpec(pages: seq<seq<Item>>, j: Job)
    ensures j in ScanJobs(pages) <==> exists p :: 0 <= p < |pages| && j in PageJobs(pages[p])
  {
    Grouping.FlatMapSpec(pages, PageJobs, j);
  }
}
