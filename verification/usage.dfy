/** The monthly usage rollup: the usage retriever sums last month's usage
    reports per organisation (bytes scanned by queries, bytes collected),
    keeps every report line as a detail, and stores one item per
    organisation under the month key `year * 1000 + month`. */
module Usage {
  import opened Wrappers
  import opened Calendar
  import opened RetrieverBase

  const Collect := "collect"

  /** One row of `SELECT type, org, tid, SUM(size) ... GROUP BY type, org, tid`;
      `tid` is `None` where pandas reads a missing value. */
  datatype UsageRow = UsageRow(kind: string, org: string, tid: Option<string>, size: int)

  /** `{'type': ..., 'tid': ..., 'size': ...}`. */
  datatype Detail = Detail(kind: string, tid: Option<string>, size: int)

  /** `{'athena_scan_size': ..., 'collect_size': ..., 'details': [...]}`. */
  datatype OrgUsage = OrgUsage(athenaScanSize: int, collectSize: int, details: seq<Detail>)

  function DetailOf(r: UsageRow): Detail { Detail(r.kind, r.tid, r.size) }

  // ---------------------------------------------------------------- reference

  predicate HasOrg(rows: seq<UsageRow>, org: string)
  {
    exists i :: 0 <= i < |rows| && rows[i].org == org
  }

  /** Total size of the rows of `org` of type `kind`. */
  function SizeOf(rows: seq<UsageRow>, org: string, kind: string): int
  {
    if rows == [] then 0
    else
      var r := rows[|rows| - 1];
      SizeOf(rows[..|rows| - 1], org, kind) + (if r.org == org && r.kind == kind then r.size else 0)
  }

  /** The details of `org`, in row order. */
  function DetailsOf(rows: seq<UsageRow>, org: string): seq<Detail>
  {
    if rows == [] then []
    else
      var r := rows[|rows| - 1];
      DetailsOf(rows[..|rows| - 1], org) + (if r.org == org then [DetailOf(r)] else [])
  }

  // ---------------------------------------------------------------- the loop

  /** The loop over the query rows: an organisation's entry is created on its
      first row, then each row adds its size to the total of its type (only
      `athena_scan` and `collect` have one) and appends itself as a detail. */
  function Rollup(rows: seq<UsageRow>): (m: map<string, OrgUsage>)
    ensures forall org :: org in m <==> HasOrg(rows, org)
    ensures forall org :: org in m ==>
      m[org] == OrgUsage(SizeOf(rows, org, AthenaScan), SizeOf(rows, org, Collect), DetailsOf(rows, org))
  {
    if rows == [] then map[]
    else
      var init := rows[..|rows| - 1];
      var r := rows[|rows| - 1];
      assert rows == init + [r];
      var m := Rollup(init);
      RollupStep(init, r, m);
      Absorb(m, r)
  }

  /** One row folded into the per-organisation totals. */
  function Absorb(m: map<string, OrgUsage>, r: UsageRow): map<string, OrgUsage>
  {
    var cur := if r.org in m then m[r.org] else OrgUsage(0, 0, []);
    m[r.org := OrgUsage(cur.athenaScanSize + (if r.kind == AthenaScan then r.size else 0),
                        cur.collectSize + (if r.kind == Collect then r.size else 0),
                        cur.details + [DetailOf(r)])]
  }

  lemma RollupStep(init: seq<UsageRow>, r: UsageRow, m: map<string, OrgUsage>)
    requires forall org :: org in m <==> HasOrg(init, org)
    requires forall org :: org in m ==>
      m[org] == OrgUsage(SizeOf(init, org, AthenaScan), SizeOf(init, org, Collect), DetailsOf(init, org))
    ensures var rows := init + [r]; var m' := Absorb(m, r);
      (forall org :: org in m' <==> HasOrg(rows, org)) &&
      (forall org :: org in m' ==>
        m'[org] == OrgUsage(SizeOf(rows, org, AthenaScan), SizeOf(rows, org, Collect), DetailsOf(rows, org)))
  {
    var rows := init + [r];
    assert rows[..|rows| - 1] == init && rows[|rows| - 1] == r;
    RollupFresh(init, r.org, m);
    HasOrgSnoc(init, r);
  }

  /** An organisation without rows so far has empty totals. */
  lemma {:induction false} RollupFresh(rows: seq<UsageRow>, org: string, m: map<string, OrgUsage>)
    requires forall o :: o in m <==> HasOrg(rows, o)
    ensures org !in m ==> SizeOf(rows, org, AthenaScan) == 0 && SizeOf(rows, org, Collect) == 0 &&
                          DetailsOf(rows, org) == []
  {
    if org !in m {
      NoRowsNothing(rows, org);
    }
  }

  lemma {:induction false} NoRowsNothing(rows: seq<UsageRow>, org: string)
    requires !HasOrg(rows, org)
    ensures SizeOf(rows, org, AthenaScan) == 0 && SizeOf(rows, org, Collect) == 0 && DetailsOf(rows, org) == []
    decreases |rows|
  {
    if rows != [] {
      var init := rows[..|rows| - 1];
      assert !HasOrg(init, org) by {
        forall i | 0 <= i < |init| ensures init[i].org != org {
          assert init[i] == rows[i];
        }
      }
      NoRowsNothing(init, org);
      assert rows[|rows| - 1].org != org;
    }
  }

  lemma HasOrgSnoc(init: seq<UsageRow>, r: UsageRow)
    ensures forall o :: HasOrg(init + [r], o) <==> HasOrg(init, o) || o == r.org
  {
    var rows := init + [r];
    forall o ensures HasOrg(rows, o) <==> HasOrg(init, o) || o == r.org {
      if HasOrg(init, o) {
        var i :| 0 <= i < |init| && init[i].org == o;
        assert rows[i].org == o;
      }
      if o == r.org {
        assert rows[|init|].org == o;
      }
      if HasOrg(rows, o) && o != r.org {
        var i :| 0 <= i < |rows| && rows[i].org == o;
        assert init[i].org == o;
      }
    }
  }

  /** An organisation's details are at most all rows, and at least one when it has rows. */
  lemma {:induction false} DetailsCount(rows: seq<UsageRow>, org: string)
    ensures |DetailsOf(rows, org)| <= |rows|
    ensures HasOrg(rows, org) ==> |DetailsOf(rows, org)| >= 1
    decreases |rows|
  {
    if rows != [] {
      var init := rows[..|rows| - 1];
      DetailsCount(init, org);
      if HasOrg(rows, org) && rows[|rows| - 1].org != org {
        var i :| 0 <= i < |rows| && rows[i].org == org;
        assert init[i].org == org;
      }
    }
  }

  // ---------------------------------------------------------------- the month

  /** `Decimal(lastmonth.year * 1000 + lastmonth.month)`, the sort key of a usage item. */
  function MonthKey(d: Date): int
  {
    d.year * 1000 + d.month
  }

  /** The month key of a valid date gives back its year and month. */
  lemma MonthKeyRoundTrip(d: Date)
    requires ValidDate(d) && d.year >= 0
    ensures MonthKey(d) / 1000 == d.year && MonthKey(d) % 1000 == d.month
  {
  }

  /** Month keys order months chronologically. */
  lemma MonthKeyOrder(a: Date, b: Date)
    requires ValidDate(a) && ValidDate(b)
    ensures MonthKey(a) < MonthKey(b) <==> a.year < b.year || (a.year == b.year && a.month < b.month)
  {
  }

  /** The item `put_item` writes for one organisation. */
  datatype UsageItem = UsageItem(organization: string, month: int, usage: OrgUsage)

  /** `UsageRetriever.execute` after partition repair: `today` is the `DATE`
      setting or the clock; the month before it is queried (`relativedelta`
      keeps the day, clamped to the month's length). A query that does not
      succeed raises; otherwise one item per organisation. */
  function UsageRun(today: Date, partition: Option<QueryState>, query: Option<QueryState>,
                    rows: seq<UsageRow>): (r: Option<map<string, UsageItem>>)
    requires ValidDate(today) && today.year >= 1
    ensures r.Some? <==> partition == Some(Succeeded) && query == Some(Succeeded)
    ensures r.Some? ==> forall org :: org in r.value <==> HasOrg(rows, org)
    ensures r.Some? ==> forall org :: org in r.value ==>
      r.value[org].organization == org &&
      (r.value[org].month / 1000) * 12 + r.value[org].month % 1000 == today.year * 12 + today.month - 1 &&
      r.value[org].usage.athenaScanSize == SizeOf(rows, org, AthenaScan) &&
      r.value[org].usage.collectSize == SizeOf(rows, org, Collect) &&
      r.value[org].usage.details == DetailsOf(rows, org)
  {
    if partition != Some(Succeeded) || query != Some(Succeeded) then None
    else
      var last := PrevMonth(today);
      MonthKeyRoundTrip(last);
      var m := Rollup(rows);
      Some(map org | org in m :: UsageItem(org, MonthKey(last), m[org]))
  }
}
