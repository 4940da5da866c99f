/** The path tree of the stats UI: the page URLs of a report are split into
    '/'-separated path segments and inserted into a trie whose nodes record
    whether some URL ends there; the marked nodes are listed back as a
    swagger-style path sample. */
module UrlTree {
  import opened Wrappers
  import opened Strings

  /** `{path, exists, children, level, id}`, `exists` renamed `present`. */
  datatype Node = Node(path: string, present: bool, children: seq<Node>, level: int, id: string)

  const EmptyTree := Node("", false, [], 0, "/")

  function NodeSize(n: Node): nat
  {
    1 + ForestSize(n.children)
  }

  function ForestSize(cs: seq<Node>): nat
  {
    if cs == [] then 0 else NodeSize(cs[0]) + ForestSize(cs[1..])
  }

  // ---------------------------------------------------------------- lookups

  /** `_.find(children, c => c.path === seg)`: the first child with that
      segment, or `|cs|`. */
  function FindChild(cs: seq<Node>, seg: string): (k: nat)
    ensures k <= |cs|
    ensures k < |cs| ==> cs[k].path == seg
    ensures forall j :: 0 <= j < k ==> cs[j].path != seg
  {
    if cs == [] then 0
    else if cs[0].path == seg then 0
    else 1 + FindChild(cs[1..], seg)
  }

  /** Following the segments `p` from `n` reaches a node that is marked. */
  predicate Marked(n: Node, p: seq<string>)
    decreases |p|
  {
    if p == [] then n.present
    else
      var k := FindChild(n.children, p[0]);
      k < |n.children| && Marked(n.children[k], p[1..])
  }

  /** Following the segments `p` from `n` reaches a node. */
  predicate Reaches(n: Node, p: seq<string>)
    decreases |p|
  {
    if p == [] then true
    else
      var k := FindChild(n.children, p[0]);
      k < |n.children| && Reaches(n.children[k], p[1..])
  }

  /** Siblings never share a segment, at every level. */
  predicate Distinct(n: Node)
  {
    (forall i, j :: 0 <= i < j < |n.children| ==> n.children[i].path != n.children[j].path) &&
    (forall i :: 0 <= i < |n.children| ==> Distinct(n.children[i]))
  }

  /** A child reached by the segments `ids + [path]` has level `|ids| + 1`
      and id `ids + [path]` joined by '/'. */
  predicate Shaped(n: Node, ids: seq<string>)
  {
    forall i :: 0 <= i < |n.children| ==>
      n.children[i].level == |ids| + 1 &&
      n.children[i].id == Join(ids + [n.children[i].path], '/') &&
      Shaped(n.children[i], ids + [n.children[i].path])
  }

  // ---------------------------------------------------------------- insertion

  /** The inner loop of `getTree` from a node reached by `ids`: walk the
      segments, reusing the child with the segment or appending a new
      unmarked one, and mark the node of the last segment. */
  function Insert(n: Node, segs: seq<string>, ids: seq<string>): (r: Node)
    requires segs != []
    ensures r.path == n.path && r.present == n.present && r.level == n.level && r.id == n.id
    decreases |segs|
  {
    var seg := segs[0];
    var k := FindChild(n.children, seg);
    var c := ChildFor(n.children, k, seg, ids);
    var c' := if |segs| == 1 then c.(present := true) else Insert(c, segs[1..], ids + [seg]);
    n.(children := Place(n.children, k, c'))
  }

  /** `c` of the loop: the child found at `k`, or a new unmarked one of the
      level and id of its place. */
  function ChildFor(cs: seq<Node>, k: nat, seg: string, ids: seq<string>): Node
  {
    if k < |cs| then cs[k] else Node(seg, false, [], |ids| + 1, Join(ids + [seg], '/'))
  }

  /** The children with `c'` at `k`, appended when `k` is past the end. */
  function Place(cs: seq<Node>, k: nat, c': Node): seq<Node>
  {
    if k < |cs| then cs[k := c'] else cs + [c']
  }

  /** A new node marks nothing. */
  lemma FreshUnmarked(seg: string, level: int, id: string, p: seq<string>)
    ensures !Marked(Node(seg, false, [], level, id), p)
    ensures Reaches(Node(seg, false, [], level, id), p) <==> p == []
  {
  }

  /** The first child with a segment is determined by where it is and what precedes it. */
  lemma FindUnique(cs: seq<Node>, x: string, r: nat)
    requires r <= |cs| && (r < |cs| ==> cs[r].path == x)
    requires forall j :: 0 <= j < r ==> cs[j].path != x
    ensures FindChild(cs, x) == r
  {
  }

  /** After the step at `n`, the child for a segment is the new child when
      the segment is the one inserted, and the old one otherwise. */
  lemma FindAfter(cs: seq<Node>, k: nat, c': Node, x: string)
    requires k <= |cs| && (k < |cs| ==> cs[k].path == c'.path)
    requires forall j :: 0 <= j < k ==> cs[j].path != c'.path
    ensures var cs' := Place(cs, k, c');
      (x == c'.path ==> FindChild(cs', x) == k && cs'[k] == c') &&
      (x != c'.path ==> (
        (FindChild(cs', x) < |cs'| <==> FindChild(cs, x) < |cs|) &&
        (FindChild(cs, x) < |cs| ==> FindChild(cs', x) == FindChild(cs, x) && cs'[FindChild(cs, x)] == cs[FindChild(cs, x)])))
  {
    var cs' := Place(cs, k, c');
    assert forall j :: 0 <= j < |cs| && j != k ==> cs'[j] == cs[j];
    assert cs'[k] == c';
    if x == c'.path {
      FindUnique(cs', x, k);
    } else {
      var f := FindChild(cs, x);
      if f < |cs| {
        FindUnique(cs', x, f);
      } else {
        FindUnique(cs', x, |cs'|);
      }
    }
  }

  /** Insertion marks exactly the inserted path and keeps every other mark. */
  lemma {:induction false} InsertMarks(n: Node, segs: seq<string>, ids: seq<string>, p: seq<string>)
    requires segs != []
    ensures Marked(Insert(n, segs, ids), p) <==> Marked(n, p) || p == segs
    decreases |segs|
  {
    var seg := segs[0];
    var k := FindChild(n.children, seg);
    var c := ChildFor(n.children, k, seg, ids);
    var c' := if |segs| == 1 then c.(present := true) else Insert(c, segs[1..], ids + [seg]);
    var r := Insert(n, segs, ids);
    assert r.children == Place(n.children, k, c');
    if p != [] {
      FindAfter(n.children, k, c', p[0]);
      if p[0] == seg {
        if k == |n.children| {
          FreshUnmarked(seg, |ids| + 1, Join(ids + [seg], '/'), p[1..]);
        }
        if |segs| == 1 {
          assert Marked(c', p[1..]) <==> Marked(c, p[1..]) || p[1..] == [];
        } else {
          InsertMarks(c, segs[1..], ids + [seg], p[1..]);
        }
        assert p == segs <==> p[1..] == segs[1..];
      }
    }
  }

  /** Insertion adds the nodes on the inserted path and keeps every other node. */
  lemma {:induction false} InsertReaches(n: Node, segs: seq<string>, ids: seq<string>, p: seq<string>)
    requires segs != []
    ensures Reaches(Insert(n, segs, ids), p) <==> Reaches(n, p) || p <= segs
    decreases |segs|
  {
    var seg := segs[0];
    var k := FindChild(n.children, seg);
    var c := ChildFor(n.children, k, seg, ids);
    var c' := if |segs| == 1 then c.(present := true) else Insert(c, segs[1..], ids + [seg]);
    var r := Insert(n, segs, ids);
    assert r.children == Place(n.children, k, c');
    if p != [] {
      FindAfter(n.children, k, c', p[0]);
      if p[0] == seg {
        if k == |n.children| {
          FreshUnmarked(seg, |ids| + 1, Join(ids + [seg], '/'), p[1..]);
        }
        if |segs| == 1 {
          assert Reaches(c', p[1..]) <==> Reaches(c, p[1..]);
        } else {
          InsertReaches(c, segs[1..], ids + [seg], p[1..]);
        }
        assert p <= segs <==> p[1..] <= segs[1..];
      }
    }
  }

  /** Inserting a path a second time changes nothing. */
  lemma {:induction false} InsertIdempotent(n: Node, segs: seq<string>, ids: seq<string>)
    requires segs != []
    ensures Insert(Insert(n, segs, ids), segs, ids) == Insert(n, segs, ids)
    decreases |segs|
  {
    var seg := segs[0];
    var k := FindChild(n.children, seg);
    var c := ChildFor(n.children, k, seg, ids);
    var c' := if |segs| == 1 then c.(present := true) else Insert(c, segs[1..], ids + [seg]);
    var r := Insert(n, segs, ids);
    assert r.children == Place(n.children, k, c');
    FindAfter(n.children, k, c', seg);
    assert ChildFor(r.children, k, seg, ids) == c';
    if |segs| > 1 {
      InsertIdempotent(c, segs[1..], ids + [seg]);
    }
    var c2 := if |segs| == 1 then c'.(present := true) else Insert(c', segs[1..], ids + [seg]);
    assert c2 == c';
    assert Place(r.children, k, c2) == r.children;
  }

  /** Insertion keeps siblings apart. */
  lemma {:induction false} InsertDistinct(n: Node, segs: seq<string>, ids: seq<string>)
    requires segs != [] && Distinct(n)
    ensures Distinct(Insert(n, segs, ids))
    decreases |segs|
  {
    var seg := segs[0];
    var k := FindChild(n.children, seg);
    var c := ChildFor(n.children, k, seg, ids);
    var c' := if |segs| == 1 then c.(present := true) else Insert(c, segs[1..], ids + [seg]);
    var r := Insert(n, segs, ids);
    assert r.children == Place(n.children, k, c');
    if |segs| > 1 {
      InsertDistinct(c, segs[1..], ids + [seg]);
    }
    assert Distinct(c');
    assert forall i :: 0 <= i < |r.children| ==> r.children[i] == (if i == k then c' else n.children[i]);
  }

  /** Insertion gives every node it creates the level and id of its place. */
  lemma {:induction false} InsertShaped(n: Node, segs: seq<string>, ids: seq<string>)
    requires segs != [] && Shaped(n, ids)
    ensures Shaped(Insert(n, segs, ids), ids)
    decreases |segs|
  {
    var seg := segs[0];
    var k := FindChild(n.children, seg);
    var c := ChildFor(n.children, k, seg, ids);
    var c' := if |segs| == 1 then c.(present := true) else Insert(c, segs[1..], ids + [seg]);
    var r := Insert(n, segs, ids);
    assert r.children == Place(n.children, k, c');
    assert Shaped(c, ids + [seg]);
    if |segs| > 1 {
      InsertShaped(c, segs[1..], ids + [seg]);
    }
    assert c'.path == seg && c'.level == |ids| + 1 && c'.id == Join(ids + [seg], '/') && Shaped(c', ids + [seg]);
    assert forall i :: 0 <= i < |r.children| ==> r.children[i] == (if i == k then c' else n.children[i]);
  }

  // ---------------------------------------------------------------- getTree

  /** A URL of the list, with the pathname `url.parse` gives it (`None`
      where it is `null`, which makes `split` throw); `None` for a missing
      URL. */
  datatype Url = Url(text: string, pathname: Option<string>)

  /** The segments a pathname inserts: `None` when it only marks the root
      (one part, or two with the second empty), otherwise the parts after
      the first, without one trailing empty part. */
  function Segments(pathname: string): (r: Option<seq<string>>)
    ensures r.Some? ==> r.value != [] && forall i :: 0 <= i < |r.value| ==> '/' !in r.value[i]
  {
    var parts := Split(pathname, '/');
    if |parts| == 1 || (|parts| == 2 && parts[1] == "") then None
    else
      var ps := if parts[|parts| - 1] == "" then parts[..|parts| - 1] else parts;
      Some(ps[1..])
  }

  /** A URL that is skipped: missing, empty or `'undefined'` in any case. */
  predicate Skipped(u: Option<Url>)
  {
    u.None? || u.value.text == "" || IsUndefinedSentinel(u.value.text)
  }

  /** One pass of the outer loop; `None` where it throws. */
  function AddUrl(t: Node, u: Option<Url>): (r: Option<Node>)
    ensures r.None? <==> !Skipped(u) && u.value.pathname.None?
  {
    if Skipped(u) then Some(t)
    else match u.value.pathname
      case None => None
      case Some(p) =>
        match Segments(p)
        case None => Some(t.(present := true))
        case Some(segs) => Some(Insert(t, segs, []))
  }

  /** `getTree`. */
  function GetTree(urls: seq<Option<Url>>): (r: Option<Node>)
    ensures r.Some? <==> forall i :: 0 <= i < |urls| && !Skipped(urls[i]) ==> urls[i].value.pathname.Some?
    ensures r.Some? ==> Distinct(r.value) && Shaped(r.value, []) && r.value.id == "/" && r.value.level == 0
  {
    if urls == [] then Some(EmptyTree)
    else
      var init, u := urls[..|urls| - 1], urls[|urls| - 1];
      assert forall i :: 0 <= i < |init| ==> init[i] == urls[i];
      match GetTree(init)
      case None => None
      case Some(t) =>
        var r := AddUrl(t, u);
        AddKeepsShape(t, u);
        r
  }

  lemma AddKeepsShape(t: Node, u: Option<Url>)
    requires Distinct(t) && Shaped(t, [])
    ensures AddUrl(t, u).Some? ==> (Distinct(AddUrl(t, u).value) && Shaped(AddUrl(t, u).value, []) &&
      AddUrl(t, u).value.id == t.id && AddUrl(t, u).value.level == t.level)
  {
    if !Skipped(u) && u.value.pathname.Some? {
      var segs := Segments(u.value.pathname.value);
      if segs.Some? {
        InsertDistinct(t, segs.value, []);
        InsertShaped(t, segs.value, []);
      } else {
        assert t.(present := true).children == t.children;
      }
    }
  }

  /** Adding a URL marks the root or its segments and nothing else. */
  lemma AddMarks(t: Node, u: Option<Url>, p: seq<string>)
    requires !Skipped(u) && u.value.pathname.Some?
    ensures var segs := Segments(u.value.pathname.value);
      Marked(AddUrl(t, u).value, p) <==>
        Marked(t, p) || (segs.None? && p == []) || (segs.Some? && p == segs.value)
  {
    var segs := Segments(u.value.pathname.value);
    if segs.Some? {
      InsertMarks(t, segs.value, [], p);
    } else if p != [] {
      assert t.(present := true).children == t.children;
    }
  }

  /** Adding the same URL twice leaves the tree as after once. */
  lemma AddIdempotent(t: Node, u: Option<Url>)
    requires AddUrl(t, u).Some?
    ensures AddUrl(AddUrl(t, u).value, u) == AddUrl(t, u)
  {
    if !Skipped(u) {
      var segs := Segments(u.value.pathname.value);
      if segs.Some? {
        InsertIdempotent(t, segs.value, []);
      }
    }
  }

  /** A trailing '/' marks the same node as the path without it. */
  lemma TrailingSlash(pathname: string)
    requires pathname != [] && pathname[|pathname| - 1] != '/'
    ensures Segments(pathname + "/") == Segments(pathname)
  {
    var parts := Split(pathname, '/');
    SplitSlashEnd(pathname, parts);
    if |parts| >= 2 {
      LastPartEmpty(pathname, parts);
    }
  }

  /** The last part is empty only after a closing '/'. */
  lemma LastPartEmpty(s: string, parts: seq<string>)
    requires parts == Split(s, '/') && |parts| >= 2
    ensures parts[|parts| - 1] == "" ==> s != [] && s[|s| - 1] == '/'
  {
    var init, last := parts[..|parts| - 1], parts[|parts| - 1];
    assert parts == init + [last];
    JoinSnoc(init, last);
  }

  lemma SplitSlashEnd(s: string, parts: seq<string>)
    requires parts == Split(s, '/')
    ensures Split(s + "/", '/') == parts + [""]
  {
    var ps := parts + [""];
    forall i | 0 <= i < |ps| ensures '/' !in ps[i] {
      if i < |parts| {
        assert ps[i] == parts[i];
      }
    }
    JoinSnoc(parts, "");
    assert Join(ps, '/') == s + "/";
    SplitJoin(ps, '/');
  }

  lemma {:induction false} JoinSnoc(parts: seq<string>, last: string)
    requires parts != []
    ensures Join(parts + [last], '/') == Join(parts, '/') + "/" + last
    decreases |parts|
  {
    if |parts| > 1 {
      assert (parts + [last])[1..] == parts[1..] + [last];
      JoinSnoc(parts[1..], last);
    } else {
      assert (parts + [last])[1..] == [last];
    }
  }

  // ---------------------------------------------------------------- getPathSample

  /** `checkChild(path, children)`: for each child in order, its path when
      it is marked, then its own children under `path + child.path + '/'`. */
  function Collect(cs: seq<Node>, prefix: string): seq<string>
    decreases ForestSize(cs)
  {
    if cs == [] then []
    else
      var c := cs[0];
      assert ForestSize(cs) == 1 + ForestSize(c.children) + ForestSize(cs[1..]);
      (if c.present then [prefix + c.path] else []) +
      Collect(c.children, prefix + c.path + "/") +
      Collect(cs[1..], prefix)
  }

  /** Following `p` from one of the nodes `cs` reaches a marked node. */
  predicate MarkedIn(cs: seq<Node>, p: seq<string>)
  {
    p != [] && FindChild(cs, p[0]) < |cs| && Marked(cs[FindChild(cs, p[0])], p[1..])
  }

  predicate DistinctForest(cs: seq<Node>)
  {
    (forall i, j :: 0 <= i < j < |cs| ==> cs[i].path != cs[j].path) &&
    (forall i :: 0 <= i < |cs| ==> Distinct(cs[i]))
  }

  lemma JoinCons(a: string, p: seq<string>)
    requires p != []
    ensures Join([a] + p, '/') == a + "/" + Join(p, '/')
  {
    assert ([a] + p)[1..] == p;
  }

  /** The paths `checkChild` lists are exactly those of the marked nodes. */
  lemma {:induction false} CollectSpec(cs: seq<Node>, prefix: string, s: string)
    requires DistinctForest(cs)
    ensures s in Collect(cs, prefix) <==> exists p :: MarkedIn(cs, p) && s == prefix + Join(p, '/')
    decreases ForestSize(cs)
  {
    if cs != [] {
      var c := cs[0];
      var rest := cs[1..];
      assert ForestSize(cs) == 1 + ForestSize(c.children) + ForestSize(rest);
      assert DistinctForest(c.children);
      assert DistinctForest(rest) by {
        forall i | 0 <= i < |rest| ensures Distinct(rest[i]) {
          assert rest[i] == cs[i + 1];
        }
      }
      CollectSpec(c.children, prefix + c.path + "/", s);
      CollectSpec(rest, prefix, s);
      if s in Collect(cs, prefix) {
        CollectForward(cs, prefix, s);
      }
      if exists p :: MarkedIn(cs, p) && s == prefix + Join(p, '/') {
        var p :| MarkedIn(cs, p) && s == prefix + Join(p, '/');
        CollectBackward(cs, prefix, s, p);
      }
    }
  }

  lemma CollectForward(cs: seq<Node>, prefix: string, s: string)
    requires cs != [] && DistinctForest(cs)
    requires s in Collect(cs, prefix)
    requires s in Collect(cs[0].children, prefix + cs[0].path + "/") ==>
      exists p :: MarkedIn(cs[0].children, p) && s == prefix + cs[0].path + "/" + Join(p, '/')
    requires s in Collect(cs[1..], prefix) ==> exists p :: MarkedIn(cs[1..], p) && s == prefix + Join(p, '/')
    ensures exists p :: MarkedIn(cs, p) && s == prefix + Join(p, '/')
  {
    var c := cs[0];
    assert ForestSize(cs) == 1 + ForestSize(c.children) + ForestSize(cs[1..]);
    assert Collect(cs, prefix) == (if c.present then [prefix + c.path] else []) +
      Collect(c.children, prefix + c.path + "/") + Collect(cs[1..], prefix);
    if c.present && s == prefix + c.path {
      ForwardHere(cs, prefix);
    } else if s in Collect(c.children, prefix + c.path + "/") {
      var q :| MarkedIn(c.children, q) && s == prefix + c.path + "/" + Join(q, '/');
      ForwardBelow(cs, prefix, q);
    } else {
      var p :| MarkedIn(cs[1..], p) && s == prefix + Join(p, '/');
      ForwardRest(cs, p);
    }
  }

  lemma ForwardHere(cs: seq<Node>, prefix: string)
    requires cs != [] && cs[0].present
    ensures MarkedIn(cs, [cs[0].path]) && prefix + cs[0].path == prefix + Join([cs[0].path], '/')
  {
    FindUnique(cs, cs[0].path, 0);
  }

  lemma ForwardBelow(cs: seq<Node>, prefix: string, q: seq<string>)
    requires cs != [] && MarkedIn(cs[0].children, q)
    ensures MarkedIn(cs, [cs[0].path] + q) &&
      prefix + cs[0].path + "/" + Join(q, '/') == prefix + Join([cs[0].path] + q, '/')
  {
    var p := [cs[0].path] + q;
    assert p[1..] == q && p[0] == cs[0].path;
    FindUnique(cs, cs[0].path, 0);
    JoinCons(cs[0].path, q);
  }

  lemma ForwardRest(cs: seq<Node>, p: seq<string>)
    requires cs != [] && DistinctForest(cs) && MarkedIn(cs[1..], p)
    ensures MarkedIn(cs, p)
  {
    var k := FindChild(cs[1..], p[0]);
    assert cs[1..][k] == cs[k + 1];
    assert p[0] != cs[0].path;
    assert forall j :: 1 <= j <= k ==> cs[j] == cs[1..][j - 1];
    FindUnique(cs, p[0], k + 1);
  }

  lemma CollectBackward(cs: seq<Node>, prefix: string, s: string, p: seq<string>)
    requires cs != []
    requires MarkedIn(cs, p) && s == prefix + Join(p, '/')
    requires (exists q :: MarkedIn(cs[0].children, q) && s == prefix + cs[0].path + "/" + Join(q, '/')) ==>
      s in Collect(cs[0].children, prefix + cs[0].path + "/")
    requires (exists q :: MarkedIn(cs[1..], q) && s == prefix + Join(q, '/')) ==> s in Collect(cs[1..], prefix)
    ensures s in Collect(cs, prefix)
  {
    var c := cs[0];
    CollectUnfold(cs, prefix);
    if p[0] != c.path {
      BackRest(cs, p);
      assert MarkedIn(cs[1..], p) && s == prefix + Join(p, '/');
      assert s in Collect(cs[1..], prefix);
    } else if p[1..] == [] {
      BackHere(cs, p);
      assert s == prefix + c.path;
    } else {
      var q := p[1..];
      BackBelow(cs, p);
      assert s == prefix + c.path + "/" + Join(q, '/');
      assert s in Collect(c.children, prefix + c.path + "/");
    }
  }

  lemma CollectUnfold(cs: seq<Node>, prefix: string)
    requires cs != []
    ensures Collect(cs, prefix) == (if cs[0].present then [prefix + cs[0].path] else []) +
      Collect(cs[0].children, prefix + cs[0].path + "/") + Collect(cs[1..], prefix)
  {
    assert ForestSize(cs) == 1 + ForestSize(cs[0].children) + ForestSize(cs[1..]);
  }

  lemma BackHere(cs: seq<Node>, p: seq<string>)
    requires cs != [] && MarkedIn(cs, p) && p[0] == cs[0].path && p[1..] == []
    ensures cs[0].present && Join(p, '/') == cs[0].path
  {
    FindUnique(cs, cs[0].path, 0);
  }

  lemma BackBelow(cs: seq<Node>, p: seq<string>)
    requires cs != [] && MarkedIn(cs, p) && p[0] == cs[0].path && p[1..] != []
    ensures MarkedIn(cs[0].children, p[1..]) && Join(p, '/') == cs[0].path + "/" + Join(p[1..], '/')
  {
    FindUnique(cs, cs[0].path, 0);
    assert p == [cs[0].path] + p[1..];
    JoinCons(cs[0].path, p[1..]);
  }

  lemma BackRest(cs: seq<Node>, p: seq<string>)
    requires cs != [] && MarkedIn(cs, p) && p[0] != cs[0].path
    ensures MarkedIn(cs[1..], p)
  {
    var k := FindChild(cs, p[0]);
    assert k > 0;
    assert forall j :: 0 <= j < k - 1 ==> cs[1..][j] == cs[j + 1];
    assert cs[1..][k - 1] == cs[k];
    FindUnique(cs[1..], p[0], k - 1);
  }

  /** The keys of `swagger.paths`: first occurrences in the reversed list. */
  function Dedupe(s: seq<string>): (r: seq<string>)
    ensures forall x :: x in r <==> x in s
    ensures forall i, j :: 0 <= i < j < |r| ==> r[i] != r[j]
  {
    if s == [] then []
    else
      var r := Dedupe(s[..|s| - 1]);
      assert forall x :: x in s <==> x in s[..|s| - 1] || x == s[|s| - 1];
      if s[|s| - 1] in r then r else r + [s[|s| - 1]]
  }

  function Reverse(s: seq<string>): (r: seq<string>)
    ensures |r| == |s| && forall i :: 0 <= i < |s| ==> r[i] == s[|s| - 1 - i]
  {
    seq(|s|, i requires 0 <= i < |s| => s[|s| - 1 - i])
  }

  /** `getPathSample`: `'/'` when the root is marked, then every marked
      node's path, in reverse pre-order, each once. */
  function PathSample(t: Node): (keys: seq<string>)
    ensures forall i, j :: 0 <= i < j < |keys| ==> keys[i] != keys[j]
  {
    Dedupe(Reverse((if t.present then ["/"] else []) + Collect(t.children, "/")))
  }

  /** The sample lists `'/'` iff the root is marked, and the '/'-joined path
      of every marked node, and nothing else. */
  lemma PathSampleSpec(t: Node, s: string)
    requires Distinct(t)
    ensures s in PathSample(t) <==>
      (t.present && s == "/") || exists p :: p != [] && Marked(t, p) && s == "/" + Join(p, '/')
  {
    var all := (if t.present then ["/"] else []) + Collect(t.children, "/");
    ReverseHas(all, s);
    assert s in PathSample(t) <==> (t.present && s == "/") || s in Collect(t.children, "/");
    CollectSpec(t.children, "/", s);
    if p :| MarkedIn(t.children, p) && s == "/" + Join(p, '/') {
      MarkedInRoot(t, p);
    }
    if p :| p != [] && Marked(t, p) && s == "/" + Join(p, '/') {
      MarkedInRoot(t, p);
    }
  }

  lemma ReverseHas(x: seq<string>, s: string)
    ensures s in Reverse(x) <==> s in x
  {
    var rv := Reverse(x);
    if s in x {
      var i :| 0 <= i < |x| && x[i] == s;
      assert rv[|x| - 1 - i] == s;
    }
    if s in rv {
      var i :| 0 <= i < |rv| && rv[i] == s;
      assert x[|x| - 1 - i] == s;
    }
  }

  /** A marked path below the root is a marked path in its children. */
  lemma MarkedInRoot(t: Node, p: seq<string>)
    ensures MarkedIn(t.children, p) <==> p != [] && Marked(t, p)
  {
  }
}
