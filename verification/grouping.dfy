/** The merge loop that every report in the system repeats: walk the rows in
    order; if an earlier output row has the same grouping key, fold the new row
    into it, otherwise append the row as a new group. Python writes it as
    `r = [d for d in out if <same key>]; if r: r[0][...] += ... else: out.append(row)`,
    JavaScript as `_.find(...)` followed by `+=` or `push`.

    `Group` is that loop, `Distinct` is the first-seen de-duplication the URL
    lists use, and the lemmas say what the loop computes: one output row per
    distinct key in first-seen order, each output row being the left fold of
    `merge` over exactly the input rows that carry its key. */
module Grouping {

  // ---------------------------------------------------------------- sequences

  predicate NoDup<T(==)>(xs: seq<T>)
  {
    forall i, j :: 0 <= i < j < |xs| ==> xs[i] != xs[j]
  }

  /** The concatenation of `f` over `xs`, in order. */
  function FlatMap<A, B>(xs: seq<A>, f: A -> seq<B>): seq<B>
  {
    if xs == [] then [] else FlatMap(xs[..|xs| - 1], f) + f(xs[|xs| - 1])
  }

  lemma {:induction false} FlatMapSpec<A, B>(xs: seq<A>, f: A -> seq<B>, y: B)
    ensures y in FlatMap(xs, f) <==> exists p :: 0 <= p < |xs| && y in f(xs[p])
    decreases |xs|
  {
    if xs != [] {
      var init := xs[..|xs| - 1];
      FlatMapSpec(init, f, y);
      if exists p :: 0 <= p < |init| && y in f(init[p]) {
        var p :| 0 <= p < |init| && y in f(init[p]);
        assert xs[p] == init[p];
      }
      if exists p :: 0 <= p < |xs| && y in f(xs[p]) {
        var p :| 0 <= p < |xs| && y in f(xs[p]);
        if p < |init| { assert init[p] == xs[p]; }
      }
    }
  }

  /** Index of the first occurrence of `x` in `xs`, or `|xs|`. */
  function FirstIndex<T(==)>(xs: seq<T>, x: T): (i: nat)
    ensures i <= |xs|
    ensures i < |xs| ==> xs[i] == x
    ensures forall j :: 0 <= j < i ==> xs[j] != x
  {
    if xs == [] then 0
    else if xs[0] == x then 0
    else 1 + FirstIndex(xs[1..], x)
  }

  /** First-seen de-duplication: `if x not in out: out.append(x)` over `xs`. */
  function Distinct<T(==)>(xs: seq<T>): seq<T>
  {
    if xs == [] then []
    else
      var d := Distinct(xs[..|xs| - 1]);
      if xs[|xs| - 1] in d then d else d + [xs[|xs| - 1]]
  }

  lemma {:induction false} FirstIndexPrefix<T>(xs: seq<T>, x: T)
    requires xs != [] && x in xs[..|xs| - 1]
    ensures FirstIndex(xs, x) == FirstIndex(xs[..|xs| - 1], x)
  {
    var p := xs[..|xs| - 1];
    var i := FirstIndex(p, x);
    assert xs[i] == x;
    assert forall j :: 0 <= j < i ==> xs[j] == p[j];
  }

  lemma {:induction false} DistinctMember<T>(xs: seq<T>, x: T)
    ensures x in Distinct(xs) <==> x in xs
  {
    if xs != [] {
      var p := xs[..|xs| - 1];
      DistinctMember(p, x);
      assert xs == p + [xs[|xs| - 1]];
    }
  }

  /** Appending `x` unless it is already there keeps the list first-seen distinct. */
  lemma DistinctSnoc<T>(xs: seq<T>, x: T)
    ensures Distinct(xs + [x]) == if x in Distinct(xs) then Distinct(xs) else Distinct(xs) + [x]
  {
    assert (xs + [x])[..|xs + [x]| - 1] == xs;
  }

  /** `Distinct(xs)` holds every element of `xs` exactly once, ordered by first occurrence. */
  lemma {:induction false} DistinctSpec<T>(xs: seq<T>)
    ensures NoDup(Distinct(xs))
    ensures forall x :: x in Distinct(xs) <==> x in xs
    ensures forall i, j :: 0 <= i < j < |Distinct(xs)| ==>
              FirstIndex(xs, Distinct(xs)[i]) < FirstIndex(xs, Distinct(xs)[j])
  {
    if xs != [] {
      var p := xs[..|xs| - 1];
      var last := xs[|xs| - 1];
      DistinctSpec(p);
      var d := Distinct(p);
      assert xs == p + [last];
      forall x | x in d
        ensures FirstIndex(xs, x) == FirstIndex(p, x) < |p|
      {
        DistinctMember(p, x);
        FirstIndexPrefix(xs, x);
      }
      forall x
        ensures x in Distinct(xs) <==> x in xs
      {
        DistinctMember(xs, x);
      }
      if last !in d {
        DistinctMember(p, last);
        assert FirstIndex(xs, last) == |p|;
      }
    }
  }

  // ---------------------------------------------------------------- the merge loop

  function Keys<R, K>(rows: seq<R>, key: R -> K): (ks: seq<K>)
    ensures |ks| == |rows|
    ensures forall i :: 0 <= i < |rows| ==> ks[i] == key(rows[i])
  {
    seq(|rows|, i requires 0 <= i < |rows| => key(rows[i]))
  }

  /** Position of the first row whose key is `k`, or `|rows|`. */
  function FindKey<R, K(==)>(rows: seq<R>, key: R -> K, k: K): (i: nat)
    ensures i <= |rows|
    ensures i < |rows| ==> key(rows[i]) == k
    ensures forall j :: 0 <= j < i ==> key(rows[j]) != k
  {
    if rows == [] then 0
    else if key(rows[0]) == k then 0
    else 1 + FindKey(rows[1..], key, k)
  }

  /** One step of the loop: fold `r` into the first group with its key, or start a new group. */
  function Absorb<R, K(==)>(acc: seq<R>, r: R, key: R -> K, merge: (R, R) -> R): seq<R>
  {
    var i := FindKey(acc, key, key(r));
    if i < |acc| then acc[i := merge(acc[i], r)] else acc + [r]
  }

  /** The whole loop over `rows`, starting from an empty output. */
  function Group<R, K(==)>(rows: seq<R>, key: R -> K, merge: (R, R) -> R): seq<R>
  {
    if rows == [] then []
    else Absorb(Group(rows[..|rows| - 1], key, merge), rows[|rows| - 1], key, merge)
  }

  /** The loop on two rows: one merged group when their keys agree, two groups otherwise. */
  lemma GroupPair<R, K>(a: R, b: R, key: R -> K, merge: (R, R) -> R)
    ensures Group([a, b], key, merge) == if key(a) == key(b) then [merge(a, b)] else [a, b]
  {
    assert [a, b][..1] == [a];
    assert [a][..0] == [];
    assert Group([a], key, merge) == [a];
  }

  /** The input rows carrying key `k`, in input order. */
  function Select<R, K(==)>(rows: seq<R>, key: R -> K, k: K): seq<R>
  {
    if rows == [] then []
    else Select(rows[..|rows| - 1], key, k) + (if key(rows[|rows| - 1]) == k then [rows[|rows| - 1]] else [])
  }

  /** The rows selected for `k` are input rows carrying `k`. */
  lemma {:induction false} SelectIn<R, K>(rows: seq<R>, key: R -> K, k: K)
    ensures forall r :: r in Select(rows, key, k) ==> r in rows && key(r) == k
  {
    if rows != [] {
      var p := rows[..|rows| - 1];
      SelectIn(p, key, k);
      assert forall r :: r in p ==> r in rows;
    }
  }

  /** The left fold of `merge` over a non-empty group, seeded with its first row. */
  function Collapse<R>(s: seq<R>, merge: (R, R) -> R): R
    requires |s| > 0
  {
    if |s| == 1 then s[0] else merge(Collapse(s[..|s| - 1], merge), s[|s| - 1])
  }

  /** Merging never changes the grouping key of the accumulated row. */
  ghost predicate KeyPreserving<R(!new), K>(key: R -> K, merge: (R, R) -> R)
  {
    forall a, b :: key(merge(a, b)) == key(a)
  }

  lemma {:induction false} SelectMissing<R, K>(rows: seq<R>, key: R -> K, k: K)
    requires k !in Keys(rows, key)
    ensures Select(rows, key, k) == []
  {
    if rows != [] {
      var p := rows[..|rows| - 1];
      assert forall i :: 0 <= i < |p| ==> Keys(p, key)[i] == Keys(rows, key)[i];
      SelectMissing(p, key, k);
      assert Keys(rows, key)[|rows| - 1] == key(rows[|rows| - 1]);
    }
  }

  lemma {:induction false} SelectPresent<R, K>(rows: seq<R>, key: R -> K, k: K)
    requires k in Keys(rows, key)
    ensures Select(rows, key, k) != []
  {
    var p := rows[..|rows| - 1];
    if key(rows[|rows| - 1]) != k {
      var i :| 0 <= i < |rows| && Keys(rows, key)[i] == k;
      assert i < |p| && Keys(p, key)[i] == k;
      SelectPresent(p, key, k);
    }
  }

  /** `g` is what the merge loop has produced after reading `rows`. */
  ghost predicate Grouped<R, K>(rows: seq<R>, g: seq<R>, key: R -> K, merge: (R, R) -> R)
  {
    && Keys(g, key) == Distinct(Keys(rows, key))
    && forall i :: 0 <= i < |g| ==>
         Select(rows, key, key(g[i])) != [] && g[i] == Collapse(Select(rows, key, key(g[i])), merge)
  }

  lemma SelectSnoc<R, K>(p: seq<R>, r: R, key: R -> K, k: K)
    ensures Select(p + [r], key, k) == Select(p, key, k) + (if key(r) == k then [r] else [])
  {
    assert (p + [r])[..|p|] == p;
  }

  lemma KeysSnoc<R, K>(p: seq<R>, r: R, key: R -> K)
    ensures Keys(p + [r], key) == Keys(p, key) + [key(r)]
    ensures Distinct(Keys(p + [r], key)) ==
              if key(r) in Distinct(Keys(p, key)) then Distinct(Keys(p, key))
              else Distinct(Keys(p, key)) + [key(r)]
  {
    assert Keys(p + [r], key)[..|p|] == Keys(p, key);
  }

  /** Folding `r` into the group that already has its key. */
  lemma {:induction false} AbsorbExisting<R(!new), K>(p: seq<R>, r: R, g: seq<R>, i: nat, key: R -> K, merge: (R, R) -> R)
    requires KeyPreserving(key, merge) && Grouped(p, g, key, merge)
    requires i < |g| && key(g[i]) == key(r)
    ensures Grouped(p + [r], g[i := merge(g[i], r)], key, merge)
  {
    var out := g[i := merge(g[i], r)];
    var rows := p + [r];
    KeysSnoc(p, r, key);
    DistinctSpec(Keys(p, key));
    assert Keys(g, key)[i] == key(r);
    assert Keys(out, key) == Keys(g, key);
    forall j | 0 <= j < |out|
      ensures Select(rows, key, key(out[j])) != []
      ensures out[j] == Collapse(Select(rows, key, key(out[j])), merge)
    {
      if j == i {
        var s := Select(p, key, key(r));
        SelectSnoc(p, r, key, key(r));
        assert s != [] && g[i] == Collapse(s, merge);
        assert Select(rows, key, key(r)) == s + [r];
        assert (s + [r])[..|s|] == s;
        assert Collapse(s + [r], merge) == merge(g[i], r);
        assert key(out[i]) == key(r);
        assert out[j] == merge(g[i], r);
        assert Select(rows, key, key(out[j])) == s + [r];
      } else {
        assert Keys(g, key)[j] != Keys(g, key)[i];
        SelectSnoc(p, r, key, key(g[j]));
        assert out[j] == g[j];
        assert Select(rows, key, key(out[j])) == Select(p, key, key(g[j]));
        assert g[j] == Collapse(Select(p, key, key(g[j])), merge);
      }
    }
  }

  /** Starting a new group for a key not seen before. */
  lemma {:induction false} AbsorbNew<R(!new), K>(p: seq<R>, r: R, g: seq<R>, key: R -> K, merge: (R, R) -> R)
    requires Grouped(p, g, key, merge)
    requires forall j :: 0 <= j < |g| ==> key(g[j]) != key(r)
    ensures Grouped(p + [r], g + [r], key, merge)
  {
    var out := g + [r];
    var rows := p + [r];
    KeysSnoc(p, r, key);
    DistinctSpec(Keys(p, key));
    assert key(r) !in Keys(g, key);
    assert key(r) !in Distinct(Keys(p, key));
    SelectMissing(p, key, key(r));
    assert Keys(out, key) == Keys(g, key) + [key(r)];
    forall j | 0 <= j < |out|
      ensures Select(rows, key, key(out[j])) != []
      ensures out[j] == Collapse(Select(rows, key, key(out[j])), merge)
    {
      SelectSnoc(p, r, key, key(out[j]));
      if j < |g| {
        assert out[j] == g[j];
        assert key(g[j]) != key(r);
        assert Select(rows, key, key(out[j])) == Select(p, key, key(g[j]));
        assert g[j] == Collapse(Select(p, key, key(g[j])), merge);
      } else {
        assert Select(rows, key, key(r)) == [r];
        assert out[j] == r;
        assert Collapse([r], merge) == r;
      }
    }
  }

  /** What the merge loop computes: the output keys are the input keys
      de-duplicated in first-seen order, and each output row is the fold of
      `merge` over the input rows sharing its key. */
  lemma {:induction false} GroupSpec<R(!new), K>(rows: seq<R>, key: R -> K, merge: (R, R) -> R)
    requires KeyPreserving(key, merge)
    ensures Grouped(rows, Group(rows, key, merge), key, merge)
  {
    if rows != [] {
      var p := rows[..|rows| - 1];
      var r := rows[|rows| - 1];
      assert rows == p + [r];
      GroupSpec(p, key, merge);
      var g := Group(p, key, merge);
      var i := FindKey(g, key, key(r));
      if i < |g| {
        AbsorbExisting(p, r, g, i, key, merge);
      } else {
        AbsorbNew(p, r, g, key, merge);
      }
    }
  }

  /** The output of the loop never holds two groups with the same key. */
  lemma GroupKeysUnique<R(!new), K>(rows: seq<R>, key: R -> K, merge: (R, R) -> R)
    requires KeyPreserving(key, merge)
    ensures NoDup(Keys(Group(rows, key, merge), key))
    ensures forall k :: k in Keys(Group(rows, key, merge), key) <==> k in Keys(rows, key)
  {
    GroupSpec(rows, key, merge);
    DistinctSpec(Keys(rows, key));
  }

  // ---------------------------------------------------------------- measures

  function SumOf<R>(rows: seq<R>, m: R -> int): int
  {
    if rows == [] then 0 else SumOf(rows[..|rows| - 1], m) + m(rows[|rows| - 1])
  }

  function RealSumOf<R>(rows: seq<R>, m: R -> real): real
  {
    if rows == [] then 0.0 else RealSumOf(rows[..|rows| - 1], m) + m(rows[|rows| - 1])
  }

  function MaxReal(a: real, b: real): real { if a >= b then a else b }

  function MaxOf<R>(rows: seq<R>, m: R -> real): real
    requires |rows| > 0
  {
    if |rows| == 1 then m(rows[0]) else MaxReal(MaxOf(rows[..|rows| - 1], m), m(rows[|rows| - 1]))
  }

  /** `merge` adds the measure `m` (`a[f] += b[f]`). */
  ghost predicate Additive<R(!new)>(m: R -> int, merge: (R, R) -> R)
  {
    forall a, b :: m(merge(a, b)) == m(a) + m(b)
  }

  ghost predicate RealAdditive<R(!new)>(m: R -> real, merge: (R, R) -> R)
  {
    forall a, b :: m(merge(a, b)) == m(a) + m(b)
  }

  /** `merge` keeps the larger measure (`a[f] = max(a[f], b[f])`). */
  ghost predicate Maximising<R(!new)>(m: R -> real, merge: (R, R) -> R)
  {
    forall a, b :: m(merge(a, b)) == MaxReal(m(a), m(b))
  }

  /** `merge` leaves the projection `f` of the accumulated row alone: first-seen wins. */
  ghost predicate Keeps<R(!new), F>(f: R -> F, merge: (R, R) -> R)
  {
    forall a, b :: f(merge(a, b)) == f(a)
  }

  lemma {:induction false} CollapseSum<R(!new)>(s: seq<R>, m: R -> int, merge: (R, R) -> R)
    requires |s| > 0 && Additive(m, merge)
    ensures m(Collapse(s, merge)) == SumOf(s, m)
  {
    if |s| > 1 {
      CollapseSum(s[..|s| - 1], m, merge);
    } else {
      assert s[..0] == [];
    }
  }

  lemma {:induction false} CollapseRealSum<R(!new)>(s: seq<R>, m: R -> real, merge: (R, R) -> R)
    requires |s| > 0 && RealAdditive(m, merge)
    ensures m(Collapse(s, merge)) == RealSumOf(s, m)
  {
    if |s| > 1 {
      CollapseRealSum(s[..|s| - 1], m, merge);
    } else {
      assert s[..0] == [];
    }
  }

  lemma {:induction false} CollapseMax<R(!new)>(s: seq<R>, m: R -> real, merge: (R, R) -> R)
    requires |s| > 0 && Maximising(m, merge)
    ensures m(Collapse(s, merge)) == MaxOf(s, m)
  {
    if |s| > 1 {
      CollapseMax(s[..|s| - 1], m, merge);
    }
  }

  lemma {:induction false} CollapseKeeps<R(!new), F>(s: seq<R>, f: R -> F, merge: (R, R) -> R)
    requires |s| > 0 && Keeps(f, merge)
    ensures f(Collapse(s, merge)) == f(s[0])
  {
    if |s| > 1 {
      CollapseKeeps(s[..|s| - 1], f, merge);
    }
  }

  lemma {:induction false} SumOfUpdate<R>(s: seq<R>, i: nat, v: R, m: R -> int)
    requires i < |s|
    ensures SumOf(s[i := v], m) == SumOf(s, m) - m(s[i]) + m(v)
  {
    var n := |s|;
    if i == n - 1 {
      assert s[i := v][..n - 1] == s[..n - 1];
    } else {
      assert s[i := v][..n - 1] == s[..n - 1][i := v];
      SumOfUpdate(s[..n - 1], i, v, m);
    }
  }

  lemma AbsorbTotal<R(!new), K>(g: seq<R>, r: R, key: R -> K, merge: (R, R) -> R, m: R -> int)
    requires Additive(m, merge)
    ensures SumOf(Absorb(g, r, key, merge), m) == SumOf(g, m) + m(r)
  {
    var i := FindKey(g, key, key(r));
    if i < |g| {
      SumOfUpdate(g, i, merge(g[i], r), m);
    } else {
      assert (g + [r])[..|g|] == g;
    }
  }

  /** Count conservation: merging never creates or loses any amount of an additive measure. */
  lemma {:induction false} GroupTotal<R(!new), K>(rows: seq<R>, key: R -> K, merge: (R, R) -> R, m: R -> int)
    requires Additive(m, merge)
    ensures SumOf(Group(rows, key, merge), m) == SumOf(rows, m)
  {
    if rows != [] {
      var p := rows[..|rows| - 1];
      var r := rows[|rows| - 1];
      GroupTotal(p, key, merge, m);
      AbsorbTotal(Group(p, key, merge), r, key, merge, m);
    }
  }
}
