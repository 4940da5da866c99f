/** Skip-state contraction of the flow graph (`skipData` and its helper
    `findRelatedEdge`). A state is skipped when one of the configured patterns
    matches it; an edge into a skipped state is dropped, and an edge out of a
    skipped state is replaced by edges from the nearest non-skipped states
    behind it, each carrying the smaller of the two counts. Which states the
    patterns match is taken as given (`skip`). */
module GraphSkip {
  import opened Wrappers
  import opened Grouping
  import opened DataRetrieverApp
  import opened GraphUtil

  /** `state && state.match(pattern)` for some pattern. */
  predicate Skipped(skip: string -> bool, s: Option<string>)
  {
    Truthy(s) && skip(s.value)
  }

  // ---------------------------------------------------------------- findRelatedEdge

  /** The truthy p_states of the rows: every state findRelatedEdge can put on its path. */
  function PStates(data: seq<StatRecord>): set<string>
  {
    set i | 0 <= i < |data| && Truthy(data[i].dims.pState) :: data[i].dims.pState.value
  }

  /** `_.filter(data, {state: st, url: u})`: the rows arriving at `st` on page `u`. */
  function Incoming(data: seq<StatRecord>, st: Option<string>, u: Option<string>): (r: seq<StatRecord>)
    ensures forall e :: e in r ==> e in data && e.dims.state == st && e.dims.url == u
  {
    Filter(data, (e: StatRecord) => e.dims.state == st && e.dims.url == u)
  }

  /** An edge findRelatedEdge returns: not a self-loop, and leaving a state no pattern skips. */
  predicate Related(skip: string -> bool, e: StatRecord)
  {
    e.dims.pState != e.dims.state && !Skipped(skip, e.dims.pState)
  }

  lemma SubsetDifference(p: set<string>, a: set<string>, b: set<string>, x: string)
    requires a + {x} <= b && x in p && x !in a
    ensures |p - b| < |p - a|
  {
    var small := p - b;
    var big := p - a;
    var diff := big - small;
    assert x in diff;
    assert big == small + diff;
    assert small * diff == {};
    assert |diff| >= 1;
  }

  /** `findRelatedEdge(data, edges, patterns, results, path)`. `results` and
      `path` are the arrays shared by the whole recursion; only the p_states
      on the path matter (a path entry with a falsy p_state never matches), so
      the path is the set `visited`. The result is the final `results` and
      `path`. */
  function FindRelated(data: seq<StatRecord>, edges: seq<StatRecord>, skip: string -> bool,
                       visited: set<string>, results: seq<StatRecord>): (r: (seq<StatRecord>, set<string>))
    requires forall e :: e in edges ==> e in data
    requires visited <= PStates(data)
    ensures visited <= r.1 <= PStates(data)
    ensures forall s :: s in r.1 - visited ==> skip(s)
    ensures results <= r.0
    ensures forall k :: |results| <= k < |r.0| ==> r.0[k] in data && Related(skip, r.0[k])
    decreases |PStates(data) - visited|, |edges|
  {
    if edges == [] then (results, visited)
    else
      var e := edges[0];
      assert e in data;
      if e.dims.pState == e.dims.state then FindRelated(data, edges[1..], skip, visited, results)
      else if !Skipped(skip, e.dims.pState) then FindRelated(data, edges[1..], skip, visited, results + [e])
      else if e.dims.pState.value in visited then FindRelated(data, edges[1..], skip, visited, results)
      else
        var x := e.dims.pState.value;
        assert x in PStates(data);
        var deep := FindRelated(data, Incoming(data, e.dims.pState, e.dims.pUrl), skip, visited + {x}, results);
        SubsetDifference(PStates(data), visited, deep.1, x);
        FindRelated(data, edges[1..], skip, deep.1, deep.0)
  }

  /** `findRelatedEdge(data, edges, patterns)` with fresh `results` and `path`. */
  function FindRelatedEdge(data: seq<StatRecord>, edges: seq<StatRecord>, skip: string -> bool): (r: seq<StatRecord>)
    requires forall e :: e in edges ==> e in data
    ensures forall e :: e in r ==> e in data && Related(skip, e)
  {
    FindRelated(data, edges, skip, {}, []).0
  }

  /** Edges that need no contraction come back as they are, in order. */
  lemma {:induction false} RelatedKept(data: seq<StatRecord>, edges: seq<StatRecord>, skip: string -> bool,
                                       visited: set<string>, results: seq<StatRecord>)
    requires forall e :: e in edges ==> e in data
    requires visited <= PStates(data)
    requires forall e :: e in edges ==> Related(skip, e)
    ensures FindRelated(data, edges, skip, visited, results) == (results + edges, visited)
    decreases |edges|
  {
    if edges != [] {
      assert edges[0] in edges && forall e :: e in edges[1..] ==> e in edges;
      assert FindRelated(data, edges, skip, visited, results) ==
             FindRelated(data, edges[1..], skip, visited, results + [edges[0]]);
      RelatedKept(data, edges[1..], skip, visited, results + [edges[0]]);
      assert results + [edges[0]] + edges[1..] == results + edges;
    } else {
      assert results + edges == results;
    }
  }

  // ---------------------------------------------------------------- skipData

  /** A row of the working copy with its two marks; added edges carry neither. */
  datatype Marked = Marked(e: StatRecord, source: bool, target: bool)

  /** The marking loop: `sourceSkip` when a pattern matches p_state,
      `targetSkip` when one matches state or the count is below the threshold
      (`count < undefined` is false). */
  function Mark(skip: string -> bool, threshold: Option<int>, d: StatRecord): Marked
  {
    Marked(d, Skipped(skip, d.dims.pState),
           Skipped(skip, d.dims.state) || (threshold.Some? && d.count < threshold.value))
  }

  function MarkAll(skip: string -> bool, threshold: Option<int>, data: seq<StatRecord>): (cs: seq<Marked>)
    ensures |cs| == |data|
    ensures forall i :: 0 <= i < |data| ==> cs[i] == Mark(skip, threshold, data[i])
  {
    seq(|data|, i requires 0 <= i < |data| => Mark(skip, threshold, data[i]))
  }

  /** `_.find(cData, {p_state, state})`: the first such row, or `|cs|`. */
  function FindEdge(cs: seq<Marked>, pState: Option<string>, state: Option<string>): (j: nat)
    ensures j <= |cs|
    ensures j < |cs| ==> cs[j].e.dims.pState == pState && cs[j].e.dims.state == state
    ensures forall k :: 0 <= k < j ==> !(cs[k].e.dims.pState == pState && cs[k].e.dims.state == state)
  {
    if cs == [] then 0
    else if cs[0].e.dims.pState == pState && cs[0].e.dims.state == state then 0
    else 1 + FindEdge(cs[1..], pState, state)
  }

  /** `e.count > d.count ? d.count : e.count`. */
  function MinCount(a: int, b: int): (m: int)
    ensures m <= a && m <= b && (m == a || m == b)
  {
    if a > b then b else a
  }

  /** The edge added for related edge `e` of row `d`: `e`'s p_state, and
      everything else but the count from `d`. */
  function NewEdge(d: StatRecord, e: StatRecord, count: int): StatRecord
  {
    StatRecord(d.dims.(pState := e.dims.pState), count)
  }

  function Total(cs: seq<Marked>): int
  {
    if cs == [] then 0 else Total(cs[..|cs| - 1]) + cs[|cs| - 1].e.count
  }

  /** One related edge contracted into row `d`: `min(e.count, d.count)` is
      added to the first (p_state, state) edge of the copy, or a new edge with
      that count is appended. */
  function AddEdge(cs: seq<Marked>, d: StatRecord, e: StatRecord): (r: seq<Marked>)
    ensures |r| == |cs| || |r| == |cs| + 1
    ensures forall k :: 0 <= k < |cs| ==> r[k].e.dims == cs[k].e.dims && r[k].source == cs[k].source && r[k].target == cs[k].target
    ensures |r| == |cs| + 1 ==> r[|cs|] == Marked(NewEdge(d, e, MinCount(e.count, d.count)), false, false)
    ensures Total(r) == Total(cs) + MinCount(e.count, d.count)
  {
    var j := FindEdge(cs, e.dims.pState, d.dims.state);
    var c := MinCount(e.count, d.count);
    if j < |cs| then
      var r := cs[j := cs[j].(e := cs[j].e.(count := cs[j].e.count + c))];
      TotalUpdate(cs, j, r[j]);
      r
    else
      var r := cs + [Marked(NewEdge(d, e, c), false, false)];
      assert r[..|cs|] == cs;
      r
  }

  lemma {:induction false} TotalUpdate(cs: seq<Marked>, j: nat, m: Marked)
    requires j < |cs|
    ensures Total(cs[j := m]) == Total(cs) - cs[j].e.count + m.e.count
    decreases |cs|
  {
    var n := |cs|;
    if j == n - 1 {
      assert cs[j := m][..n - 1] == cs[..n - 1];
    } else {
      assert cs[j := m][..n - 1] == cs[..n - 1][j := m];
      TotalUpdate(cs[..n - 1], j, m);
    }
  }

  /** The inner loop over the related edges of `d`. */
  function Contract(cs: seq<Marked>, d: StatRecord, edges: seq<StatRecord>): (r: seq<Marked>)
    ensures |r| >= |cs|
    ensures forall k :: 0 <= k < |cs| ==> r[k].e.dims == cs[k].e.dims && r[k].source == cs[k].source && r[k].target == cs[k].target
    ensures forall k :: |cs| <= k < |r| ==> (!r[k].source && !r[k].target && r[k].e.dims.state == d.dims.state &&
              exists i :: 0 <= i < |edges| && r[k].e.dims.pState == edges[i].dims.pState)
    decreases |edges|
  {
    if edges == [] then cs
    else
      var next := AddEdge(cs, d, edges[0]);
      var r := Contract(next, d, edges[1..]);
      assert forall k :: |cs| <= k < |next| ==> r[k].e.dims == next[k].e.dims && next[k].e.dims.pState == edges[0].dims.pState;
      assert forall i :: 1 <= i < |edges| ==> edges[i] == edges[1..][i - 1];
      r
  }

  /** The sum of `min(e.count, d.count)` over the related edges. */
  function Contributions(d: StatRecord, edges: seq<StatRecord>): int
  {
    if edges == [] then 0 else MinCount(edges[0].count, d.count) + Contributions(d, edges[1..])
  }

  /** Contraction adds exactly `min(e.count, d.count)` per related edge to the graph. */
  lemma {:induction false} ContractAdds(cs: seq<Marked>, d: StatRecord, edges: seq<StatRecord>)
    ensures Total(Contract(cs, d, edges)) == Total(cs) + Contributions(d, edges)
    decreases |edges|
  {
    if edges != [] {
      ContractAdds(AddEdge(cs, d, edges[0]), d, edges[1..]);
    }
  }

  /** The modify loop at row `i`: a row marked `targetSkip`, or not marked
      `sourceSkip`, changes nothing; otherwise the rows of the original data
      that arrive at its p_state on its p_url are followed back to related
      edges, which are contracted into it. */
  function Step(data: seq<StatRecord>, skip: string -> bool, cs: seq<Marked>, i: nat): (r: seq<Marked>)
    requires i < |cs|
    ensures |r| >= |cs|
    ensures forall k :: 0 <= k < |cs| ==> r[k].e.dims == cs[k].e.dims && r[k].source == cs[k].source && r[k].target == cs[k].target
    ensures forall k :: |cs| <= k < |r| ==> (!r[k].source && !r[k].target && r[k].e.dims.state == cs[i].e.dims.state &&
              !Skipped(skip, r[k].e.dims.pState))
  {
    var d := cs[i];
    if d.target || !d.source then cs
    else
      var edges := FindRelatedEdge(data, Incoming(data, d.e.dims.pState, d.e.dims.pUrl), skip);
      var r := Contract(cs, d.e, edges);
      assert forall k :: |cs| <= k < |r| ==> exists j :: 0 <= j < |edges| && r[k].e.dims.pState == edges[j].dims.pState;
      assert forall j :: 0 <= j < |edges| ==> Related(skip, edges[j]);
      r
  }

  /** The rows of the working copy keep the marks they were given and their
      dimensions; only counts change and edges are appended. */
  ghost predicate Tracks(skip: string -> bool, threshold: Option<int>, data: seq<StatRecord>, cs: seq<Marked>)
  {
    && |cs| >= |data|
    && (forall k :: 0 <= k < |data| ==>
          cs[k].e.dims == data[k].dims &&
          cs[k].source == Mark(skip, threshold, data[k]).source &&
          cs[k].target == Mark(skip, threshold, data[k]).target)
    && (forall k :: |data| <= k < |cs| ==> (!cs[k].source && !cs[k].target &&
          !Skipped(skip, cs[k].e.dims.pState) && !Skipped(skip, cs[k].e.dims.state)))
  }

  /** The modify loop over the original rows; edges it appends are visited by
      JavaScript's `for...of` too, but carry no marks and change nothing. */
  function Run(data: seq<StatRecord>, skip: string -> bool, threshold: Option<int>, cs: seq<Marked>, i: nat): (r: seq<Marked>)
    requires i <= |data|
    requires Tracks(skip, threshold, data, cs)
    ensures Tracks(skip, threshold, data, r)
    decreases |data| - i
  {
    if i == |data| then cs
    else
      var next := Step(data, skip, cs, i);
      assert !cs[i].target ==> !Skipped(skip, cs[i].e.dims.state);
      Run(data, skip, threshold, next, i + 1)
  }

  /** `_.reject(_.reject(cData, 'sourceSkip'), 'targetSkip')`. */
  function Survivors(cs: seq<Marked>): seq<StatRecord>
  {
    if cs == [] then []
    else Survivors(cs[..|cs| - 1]) + (if !cs[|cs| - 1].source && !cs[|cs| - 1].target then [cs[|cs| - 1].e] else [])
  }

  /** A row of the input that skipData keeps: neither mark is set. */
  predicate Unmarked(skip: string -> bool, threshold: Option<int>, d: StatRecord)
  {
    !Mark(skip, threshold, d).source && !Mark(skip, threshold, d).target
  }

  /** `skipData(data, patterns, thresholdCount)`, on a copy of `data`. */
  function SkipData(data: seq<StatRecord>, skip: string -> bool, threshold: Option<int>): seq<StatRecord>
  {
    Survivors(Run(data, skip, threshold, MarkAll(skip, threshold, data), 0))
  }

  lemma SurvivorsAppend(a: seq<Marked>, b: seq<Marked>)
    ensures Survivors(a + b) == Survivors(a) + Survivors(b)
    decreases |b|
  {
    if b != [] {
      var n := |b| - 1;
      assert (a + b)[..|a + b| - 1] == a + b[..n];
      SurvivorsAppend(a, b[..n]);
    } else {
      assert a + b == a;
    }
  }

  /** No surviving row enters or leaves a skipped state. */
  lemma {:induction false} SurvivorsClean(skip: string -> bool, threshold: Option<int>, data: seq<StatRecord>, cs: seq<Marked>)
    requires Tracks(skip, threshold, data, cs)
    ensures forall o :: o in Survivors(cs) ==> !Skipped(skip, o.dims.pState) && !Skipped(skip, o.dims.state)
    decreases |cs|
  {
    forall o | o in Survivors(cs)
      ensures !Skipped(skip, o.dims.pState) && !Skipped(skip, o.dims.state)
    {
      var k := SurvivorIndex(cs, o);
      if k < |data| {
        assert Unmarked(skip, threshold, data[k]);
      }
    }
  }

  lemma {:induction false} SurvivorIndex(cs: seq<Marked>, o: StatRecord) returns (k: nat)
    requires o in Survivors(cs)
    ensures k < |cs| && cs[k].e == o && !cs[k].source && !cs[k].target
    decreases |cs|
  {
    var n := |cs| - 1;
    if o in Survivors(cs[..n]) {
      k := SurvivorIndex(cs[..n], o);
    } else {
      k := n;
    }
  }

  /** The rows of the input that carry neither mark, in order. */
  function KeptRows(skip: string -> bool, threshold: Option<int>, data: seq<StatRecord>): seq<StatRecord>
  {
    if data == [] then []
    else
      var d := data[|data| - 1];
      KeptRows(skip, threshold, data[..|data| - 1]) + (if Unmarked(skip, threshold, d) then [d] else [])
  }

  /** Rows `a` and `b` list the same dimensions, one for one. */
  predicate SameDims(a: seq<StatRecord>, b: seq<StatRecord>)
  {
    |a| == |b| && forall k :: 0 <= k < |a| ==> a[k].dims == b[k].dims
  }

  /** The original rows that survive, as far as their dimensions go. */
  lemma {:induction false} SurvivorsOfOriginals(skip: string -> bool, threshold: Option<int>,
                                                data: seq<StatRecord>, cs: seq<Marked>, m: nat)
    requires Tracks(skip, threshold, data, cs) && m <= |data|
    ensures SameDims(Survivors(cs[..m]), KeptRows(skip, threshold, data[..m]))
    decreases m
  {
    if m > 0 {
      SurvivorsOfOriginals(skip, threshold, data, cs, m - 1);
      assert cs[..m][..m - 1] == cs[..m - 1];
      assert data[..m][..m - 1] == data[..m - 1];
      var a := Survivors(cs[..m - 1]);
      var b := KeptRows(skip, threshold, data[..m - 1]);
      assert cs[m - 1].e.dims == data[m - 1].dims;
      if Unmarked(skip, threshold, data[m - 1]) {
        assert Survivors(cs[..m]) == a + [cs[m - 1].e];
        assert KeptRows(skip, threshold, data[..m]) == b + [data[m - 1]];
      } else {
        assert Survivors(cs[..m]) == a;
        assert KeptRows(skip, threshold, data[..m]) == b;
      }
    }
  }

  /** The survivors of a tracked working copy: the unmarked input rows
      first, then added edges, none touching a skipped state. */
  lemma SurvivorsSpec(skip: string -> bool, threshold: Option<int>, data: seq<StatRecord>, cs: seq<Marked>)
    requires Tracks(skip, threshold, data, cs)
    ensures var r := Survivors(cs);
            var kept := KeptRows(skip, threshold, data);
      && |kept| <= |r|
      && SameDims(r[..|kept|], kept)
      && (forall o :: o in r ==> !Skipped(skip, o.dims.pState) && !Skipped(skip, o.dims.state))
  {
    var n := |data|;
    SurvivorsClean(skip, threshold, data, cs);
    SurvivorsOfOriginals(skip, threshold, data, cs, n);
    assert cs == cs[..n] + cs[n..];
    SurvivorsAppend(cs[..n], cs[n..]);
    assert data[..n] == data;
    var r := Survivors(cs);
    assert r[..|Survivors(cs[..n])|] == Survivors(cs[..n]);
  }

  /** What skipData returns: first the rows of the input that carry neither
      mark, in order and with their dimensions (counts may have grown), then
      the added edges; and no returned row enters or leaves a skipped state. */
  lemma SkipDataSpec(data: seq<StatRecord>, skip: string -> bool, threshold: Option<int>)
    ensures var r := SkipData(data, skip, threshold);
            var kept := KeptRows(skip, threshold, data);
      && |kept| <= |r|
      && SameDims(r[..|kept|], kept)
      && (forall o :: o in r ==> !Skipped(skip, o.dims.pState) && !Skipped(skip, o.dims.state))
  {
    SurvivorsSpec(skip, threshold, data, Run(data, skip, threshold, MarkAll(skip, threshold, data), 0));
  }

  /** Without any row leaving a skipped state, skipData only filters. */
  lemma {:induction false} NoSourceOnlyFilters(data: seq<StatRecord>, skip: string -> bool, threshold: Option<int>,
                                               cs: seq<Marked>, i: nat)
    requires i <= |data| && Tracks(skip, threshold, data, cs) && |cs| == |data|
    requires forall k :: 0 <= k < |cs| ==> !cs[k].source
    ensures Run(data, skip, threshold, cs, i) == cs
    decreases |data| - i
  {
    if i < |data| {
      NoSourceOnlyFilters(data, skip, threshold, cs, i + 1);
    }
  }
}
