/** What every data retriever shares: waiting for an Athena query to settle
    under a bounded retry, repairing the table's partitions before a run, and
    filing a usage report for the bytes a query scanned under a Hive-style
    key that the usage retriever later reads back by partition. */
module RetrieverBase {
  import opened Wrappers
  import opened Strings
  import opened Calendar

  /** The states Athena reports for a query execution. */
  datatype QueryState = Queued | Running | Succeeded | Failed | Cancelled

  /** `stop_max_attempt_number=10`. */
  const MaxAttempts := 10

  /** The two states `_poll_status` returns on; any other raises and is retried. */
  predicate Settled(s: QueryState) { s == Succeeded || s == Failed }

  /** The polls from attempt `n` on; `stateAt(i)` is the state the i-th poll sees. */
  function PollFrom(stateAt: nat -> QueryState, n: nat): (r: Option<QueryState>)
    requires n <= MaxAttempts
    ensures r.Some? ==> Settled(r.value)
    ensures r.Some? <==> exists i :: n <= i < MaxAttempts && Settled(stateAt(i))
    ensures r.Some? ==> exists i :: n <= i < MaxAttempts && stateAt(i) == r.value &&
                          forall j :: n <= j < i ==> !Settled(stateAt(j))
    decreases MaxAttempts - n
  {
    if n == MaxAttempts then None
    else if Settled(stateAt(n)) then Some(stateAt(n))
    else PollFrom(stateAt, n + 1)
  }

  /** `_poll_status` under its retry decorator: the first settled state seen
      within ten polls, or `None` when the tenth poll still raises and the
      exception reaches the caller. */
  function Poll(stateAt: nat -> QueryState): (r: Option<QueryState>)
    ensures r.Some? ==> Settled(r.value)
    ensures r.Some? <==> exists i :: 0 <= i < MaxAttempts && Settled(stateAt(i))
    ensures r.Some? ==> exists i :: 0 <= i < MaxAttempts && stateAt(i) == r.value &&
                          forall j :: 0 <= j < i ==> !Settled(stateAt(j))
  {
    PollFrom(stateAt, 0)
  }

  /** A cancelled query is never settled: the poll gives up and raises. */
  lemma CancelledRaises(stateAt: nat -> QueryState)
    requires forall i :: 0 <= i < MaxAttempts ==> stateAt(i) == Cancelled
    ensures Poll(stateAt).None?
  {
  }

  /** `make_partition`: `MSCK REPAIR TABLE` must end SUCCEEDED, else the run
      stops with 'Cannot make partition' (and a poll that raises stops it too). */
  function MakePartition(stateAt: nat -> QueryState): (ok: bool)
    ensures ok <==> exists i :: 0 <= i < MaxAttempts && stateAt(i) == Succeeded &&
                      forall j :: 0 <= j < i ==> !Settled(stateAt(j))
  {
    var r := Poll(stateAt);
    if r == Some(Succeeded) then true
    else
      assert forall i :: 0 <= i < MaxAttempts && stateAt(i) == Succeeded ==>
        exists j :: 0 <= j < i && Settled(stateAt(j)) by {
        forall i | 0 <= i < MaxAttempts && stateAt(i) == Succeeded
          ensures exists j :: 0 <= j < i && Settled(stateAt(j))
        {
          FirstSettled(stateAt, i, r);
        }
      }
      false
  }

  /** A settled state at attempt `i` that the poll did not return has an
      earlier settled state before it. */
  lemma FirstSettled(stateAt: nat -> QueryState, i: nat, r: Option<QueryState>)
    requires r == Poll(stateAt) && r != Some(stateAt(i))
    requires i < MaxAttempts && Settled(stateAt(i))
    ensures exists j :: 0 <= j < i && Settled(stateAt(j))
  {
    var k :| 0 <= k < MaxAttempts && stateAt(k) == r.value && forall j :: 0 <= j < k ==> !Settled(stateAt(j));
    assert k < i;
  }

  // ---------------------------------------------------------------- usage report

  const AthenaScan := "athena_scan"

  /** The body of a usage report: `{'type': 'athena_scan', 'size': scanned}`. */
  datatype UsageReport = UsageReport(kind: string, size: int)

  /** The '/'-separated segments of a usage key below the usage prefix:
      `org={org}`, `tid={tid}`, the `year=%Y/month=%-m/day=%-d` partition of
      the clock reading `now`, and `{id}.json`. */
  function UsageSegments(org: string, tid: string, now: Date, queryId: string): seq<string>
  {
    ["org=" + org, "tid=" + tid, "year=" + YearText(now.year),
     "month=" + Unpadded(now.month), "day=" + Unpadded(now.day), queryId + ".json"]
  }

  /** `usage_prefix + 'org={org}/tid={tid}/' + now.strftime('year=%Y/month=%-m/day=%-d') + '/{id}.json'`. */
  function UsageKey(usagePrefix: string, org: string, tid: string, now: Date, queryId: string): (key: string)
    ensures usagePrefix <= key
  {
    usagePrefix + Join(UsageSegments(org, tid, now, queryId), '/')
  }

  lemma DigitsNoSlash(s: string)
    requires AllDigits(s)
    ensures '/' !in s
  {
  }

  lemma SignedNoSlash(n: int)
    ensures '/' !in YearText(n) && '/' !in Unpadded(n)
  {
    if n >= 0 {
      DigitsNoSlash(Decimal(n));
    } else {
      DigitsNoSlash(Decimal(-n));
    }
  }

  /** Splitting a usage key at '/' below the prefix gives back the
      organisation, the container, the date and the query id, provided none of
      the names holds a '/'. */
  lemma UsageKeyFields(usagePrefix: string, org: string, tid: string, now: Date, queryId: string)
    requires '/' !in org && '/' !in tid && '/' !in queryId
    ensures var key := UsageKey(usagePrefix, org, tid, now, queryId);
      usagePrefix <= key &&
      Split(key[|usagePrefix|..], '/') == UsageSegments(org, tid, now, queryId)
  {
    var ps := UsageSegments(org, tid, now, queryId);
    SignedNoSlash(now.year);
    SignedNoSlash(now.month);
    SignedNoSlash(now.day);
    forall i | 0 <= i < |ps| ensures '/' !in ps[i] {
      assert ps[i] == ps[i];
    }
    SplitJoin(ps, '/');
    var key := UsageKey(usagePrefix, org, tid, now, queryId);
    assert key[|usagePrefix|..] == Join(ps, '/');
  }
}
