/**
 What the forest holds: exactly the paths of the parent relation, every item without a cycle above it
 once and no other, in order, whatever the order of the list; and the chain of an item is its path.
 */
module ItemTreeTheorems {
  import opened Sorting
  import opened Text
  import opened ItemTree

  // ---- the paths of the forest ----

  /** path leads from one of the trees down to a node, by ids. */
  predicate LeadsDown(ts: seq<Tree>, path: seq<string>)
    decreases |path|
  {
    path != [] && exists i ::
        0 <= i < |ts| && ts[i].item.uid == path[0] && (|path| == 1 || LeadsDown(ts[i].children, path[1..]))
  }

  lemma {:induction false} TreesUnderAt(ix: Index, path: seq<string>, q: seq<Item>, i: nat)
    requires Keyed(ix) && IsPath(ix, path) && i < |q|
    requires forall k :: 0 <= k < |q| ==> HangsUnder(ix, q[k].uid, Last(path))
    ensures |TreesUnder(ix, path, q)| == |q|
    ensures IsPath(ix, path + [q[i].uid]) && TreesUnder(ix, path, q)[i] == TreeAt(ix, path + [q[i].uid])
    decreases |q|
  {
    var n := |q| - 1;
    PathExtends(ix, path, q[i].uid);
    if n > 0 {
      TreesUnderAt(ix, path, q[..n], if i < n then i else 0);
    } else {
      assert TreesUnder(ix, path, q[..0]) == [];
    }
  }

  lemma {:induction false} RootTreesAt(ix: Index, q: seq<Item>, i: nat)
    requires Keyed(ix) && i < |q|
    requires forall k :: 0 <= k < |q| ==> q[k].uid in ix && ix[q[k].uid] == q[k] && ParentOf(ix, q[k]).None?
    ensures |RootTrees(ix, q)| == |q|
    ensures IsPath(ix, [q[i].uid]) && RootTrees(ix, q)[i] == TreeAt(ix, [q[i].uid])
    decreases |q|
  {
    var n := |q| - 1;
    if n > 0 {
      RootTreesAt(ix, q[..n], if i < n then i else 0);
    } else {
      assert RootTrees(ix, q[..0]) == [];
    }
  }

  lemma {:induction false} SiblingsAre(ix: Index, p: Option<string>, u: string)
    requires Keyed(ix)
    ensures (exists i :: 0 <= i < |Siblings(ix, p)| && Siblings(ix, p)[i].uid == u) <==>
              u in ix && ParentOf(ix, ix[u]) == p
  {
    ItemOrderIsStrict(ix, Hanging(ix, p));
    var q := Siblings(ix, p);
    assert Elems(q) == Hanging(ix, p);
    if u in ix && ParentOf(ix, ix[u]) == p {
      assert ix[u] in Elems(q);
      var i :| 0 <= i < |q| && q[i] == ix[u];
      assert q[i].uid == u;
    }
  }

  /** Going on from a node of the forest is going on along the relation. */
  lemma {:induction false} LeadsFrom(ix: Index, path: seq<string>, more: seq<string>)
    requires Keyed(ix) && IsPath(ix, path) && more != []
    ensures LeadsDown(TreeAt(ix, path).children, more) <==> IsPath(ix, path + more)
    decreases |more|
  {
    var q, ts := Siblings(ix, Some(Last(path))), TreeAt(ix, path).children;
    var u := more[0];
    SiblingsAre(ix, Some(Last(path)), u);
    forall i | 0 <= i < |q| ensures |ts| == |q| && IsPath(ix, path + [q[i].uid]) &&
        ts[i] == TreeAt(ix, path + [q[i].uid]) {
      TreesUnderAt(ix, path, q, i);
    }
    if IsPath(ix, path + more) {
      assert HangsUnder(ix, (path + more)[|path|], (path + more)[|path| - 1]);
      assert HangsUnder(ix, u, Last(path));
    }
    if HangsUnder(ix, u, Last(path)) {
      PathExtends(ix, path, u);
      assert path + [u] + more[1..] == path + more;
      if |more| > 1 {
        LeadsFrom(ix, path + [u], more[1..]);
      } else {
        assert path + more == path + [u];
      }
    }
  }

  /** The item has no parent, or one that is not in the list, or itself. */
  predicate IsTop(ix: Index, it: Item) {
    it.parent == "" || it.parent !in ix || it.parent == it.uid
  }

  predicate IsUnder(ix: Index, u: string, parent: string) {
    u in ix && !IsTop(ix, ix[u]) && ix[u].parent == parent
  }

  /** A path goes from an item at the top, by each item's parent, down to its last. */
  lemma {:induction false} PathsExactly(ix: Index, path: seq<string>)
    requires Keyed(ix)
    ensures IsPath(ix, path) <==>
            && path != [] && (forall i :: 0 <= i < |path| ==> path[i] in ix) && IsTop(ix, ix[path[0]])
            && forall i :: 0 < i < |path| ==> IsUnder(ix, path[i], path[i - 1])
  {
    if path != [] && forall i :: 0 <= i < |path| ==> path[i] in ix {
      forall i | 0 < i < |path|
        ensures HangsUnder(ix, path[i], path[i - 1]) <==> IsUnder(ix, path[i], path[i - 1])
      {}
    }
  }

  /** The paths of the forest are exactly the paths of the parent relation. */
  lemma {:induction false} ForestPaths(ix: Index, path: seq<string>)
    requires Keyed(ix)
    ensures LeadsDown(Forest(ix), path) <==> IsPath(ix, path)
  {
    if path != [] {
      var q, ts := Siblings(ix, None), Forest(ix);
      var u := path[0];
      SiblingsAre(ix, None, u);
      forall i | 0 <= i < |q| ensures |ts| == |q| && IsPath(ix, [q[i].uid]) && ts[i] == TreeAt(ix, [q[i].uid]) {
        RootTreesAt(ix, q, i);
      }
      if u in ix && ParentOf(ix, ix[u]).None? {
        assert IsPath(ix, [u]);
        assert [u] + path[1..] == path;
        if |path| > 1 { LeadsFrom(ix, [u], path[1..]); }
      }
    }
  }

  // ---- how often an item occurs ----

  function Count(t: Tree, u: string): nat
    decreases t, 1, 0
  {
    (if t.item.uid == u then 1 else 0) + CountAll(t.children, u, |t.children|, t)
  }

  /** The occurrences in the first n of the trees below t. */
  function CountAll(ts: seq<Tree>, u: string, n: nat, ghost t: Tree): nat
    requires ts == t.children && n <= |ts|
    decreases t, 0, n
  {
    if n == 0 then 0 else CountAll(ts, u, n - 1, t) + Count(ts[n - 1], u)
  }

  function CountForest(ts: seq<Tree>, u: string): nat {
    if ts == [] then 0 else CountForest(ts[..|ts| - 1], u) + Count(ts[|ts| - 1], u)
  }

  /** The one path from a root to u. */
  ghost function PathTo(ix: Index, u: string): (path: seq<string>)
    requires Rooted(ix, u)
    ensures IsPath(ix, path) && Last(path) == u
  {
    var path :| IsPath(ix, path) && Last(path) == u;
    path
  }

  ghost predicate ReachesThrough(ix: Index, path: seq<string>, u: string) {
    Rooted(ix, u) && path <= PathTo(ix, u)
  }

  ghost predicate AtMostOne(hits: seq<bool>) {
    forall i, j :: 0 <= i < j < |hits| ==> !(hits[i] && hits[j])
  }

  lemma {:induction false} CountAllIs(t: Tree, u: string, n: nat, hits: seq<bool>)
    requires n <= |t.children| == |hits| && AtMostOne(hits)
    requires forall k :: 0 <= k < |hits| ==> Count(t.children[k], u) == if hits[k] then 1 else 0
    ensures CountAll(t.children, u, n, t) == if true in hits[..n] then 1 else 0
    decreases n
  {
    if n > 0 {
      CountAllIs(t, u, n - 1, hits);
      assert hits[..n] == hits[..n - 1] + [hits[n - 1]];
    }
  }

  lemma {:induction false} CountForestIs(ts: seq<Tree>, u: string, hits: seq<bool>)
    requires |ts| == |hits| && AtMostOne(hits)
    requires forall k :: 0 <= k < |hits| ==> Count(ts[k], u) == if hits[k] then 1 else 0
    ensures CountForest(ts, u) == if true in hits then 1 else 0
    decreases |ts|
  {
    if ts != [] {
      var n := |ts| - 1;
      CountForestIs(ts[..n], u, hits[..n]);
      assert hits == hits[..n] + [hits[n]];
    }
  }

  /** Which of the siblings below path the path to u goes through. */
  ghost function Hits(ix: Index, path: seq<string>, q: seq<Item>, u: string): (h: seq<bool>)
    ensures |h| == |q| && forall i :: 0 <= i < |q| ==> h[i] == ReachesThrough(ix, path + [q[i].uid], u)
  {
    seq(|q|, i requires 0 <= i < |q| => ReachesThrough(ix, path + [q[i].uid], u))
  }

  lemma {:induction false} PrefixNext(path: seq<string>, a: string, r: seq<string>)
    ensures path + [a] <= r <==> path <= r && |path| < |r| && r[|path|] == a
  {
    if path <= r && |path| < |r| && r[|path|] == a {
      assert r[..|path| + 1] == path + [a];
    }
    if path + [a] <= r {
      assert r[|path|] == (path + [a])[|path|];
    }
  }

  lemma {:induction false} HitsAtMostOne(ix: Index, path: seq<string>, q: seq<Item>, u: string)
    requires forall i, j :: 0 <= i < j < |q| ==> q[i].uid != q[j].uid
    ensures AtMostOne(Hits(ix, path, q, u))
  {
    if Rooted(ix, u) {
      forall i, j | 0 <= i < j < |q| ensures !(Hits(ix, path, q, u)[i] && Hits(ix, path, q, u)[j]) {
        PrefixNext(path, q[i].uid, PathTo(ix, u));
        PrefixNext(path, q[j].uid, PathTo(ix, u));
      }
    }
  }

  /** A path that goes through a node ends there or goes on through one of its children. */
  lemma {:induction false} ThroughChildren(ix: Index, path: seq<string>, u: string)
    requires Keyed(ix) && IsPath(ix, path)
    ensures true in Hits(ix, path, Siblings(ix, Some(Last(path))), u) <==>
              ReachesThrough(ix, path, u) && Last(path) != u
    ensures Last(path) == u ==> ReachesThrough(ix, path, u)
  {
    var q := Siblings(ix, Some(Last(path)));
    var h := Hits(ix, path, q, u);
    if Last(path) == u {
      assert Rooted(ix, u);
      PathUnique(ix, path, PathTo(ix, u));
    }
    if Rooted(ix, u) {
      var r := PathTo(ix, u);
      forall i | 0 <= i < |q| ensures h[i] <==> path <= r && |path| < |r| && r[|path|] == q[i].uid {
        PrefixNext(path, q[i].uid, r);
      }
      if path <= r && |path| < |r| {
        assert HangsUnder(ix, r[|path|], r[|path| - 1]);
        SiblingsAre(ix, Some(Last(path)), r[|path|]);
        var i :| 0 <= i < |q| && q[i].uid == r[|path|];
        assert h[i];
      }
    }
  }

  /** Below one node an item occurs once if its path goes through the node, and otherwise not. */
  lemma {:induction false} CountBelow(ix: Index, path: seq<string>, u: string)
    requires Keyed(ix) && IsPath(ix, path)
    ensures Count(TreeAt(ix, path), u) == if ReachesThrough(ix, path, u) then 1 else 0
    decreases |ix| - |path|
  {
    var t, q := TreeAt(ix, path), Siblings(ix, Some(Last(path)));
    var h := Hits(ix, path, q, u);
    assert t.item.uid == Last(path);
    forall i | 0 <= i < |q| ensures |t.children| == |q| && Count(t.children[i], u) == if h[i] then 1 else 0 {
      TreesUnderAt(ix, path, q, i);
      PathDistinct(ix, path + [q[i].uid]);
      CountBelow(ix, path + [q[i].uid], u);
    }
    SiblingsDistinct(ix, Some(Last(path)));
    HitsAtMostOne(ix, path, q, u);
    ThroughChildren(ix, path, u);
    CountAllIs(t, u, |t.children|, h);
    assert h[..|h|] == h;
  }

  lemma {:induction false} SiblingsDistinct(ix: Index, p: Option<string>)
    requires Keyed(ix)
    ensures forall i, j :: 0 <= i < j < |Siblings(ix, p)| ==> Siblings(ix, p)[i].uid != Siblings(ix, p)[j].uid
  {
    ItemOrderIsStrict(ix, Hanging(ix, p));
    var q := Siblings(ix, p);
    assert NoDuplicates(q);
    forall i, j | 0 <= i < j < |q| ensures q[i].uid != q[j].uid {
      assert ix[q[i].uid] == q[i] && ix[q[j].uid] == q[j];
    }
  }

  /** Every item whose parents lead up to a root occurs exactly once in the forest, every other not at all. */
  lemma {:induction false} OccursOnce(ix: Index, u: string)
    requires Keyed(ix)
    ensures CountForest(Forest(ix), u) == if Rooted(ix, u) then 1 else 0
  {
    var q, ts := Siblings(ix, None), Forest(ix);
    var h := Hits(ix, [], q, u);
    forall i | 0 <= i < |q| ensures |ts| == |q| && Count(ts[i], u) == if h[i] then 1 else 0 {
      RootTreesAt(ix, q, i);
      CountBelow(ix, [q[i].uid], u);
      assert [] + [q[i].uid] == [q[i].uid];
    }
    SiblingsDistinct(ix, None);
    HitsAtMostOne(ix, [], q, u);
    CountForestIs(ts, u, h);
    if Rooted(ix, u) {
      SomeHit(ix, u);
    }
  }

  /** The path to an item begins with one of the items at the top. */
  lemma {:induction false} SomeHit(ix: Index, u: string)
    requires Keyed(ix) && Rooted(ix, u)
    ensures exists i :: 0 <= i < |Siblings(ix, None)| && Hits(ix, [], Siblings(ix, None), u)[i]
  {
    var q, r := Siblings(ix, None), PathTo(ix, u);
    SiblingsAre(ix, None, r[0]);
    var i :| 0 <= i < |q| && q[i].uid == r[0];
    PrefixNext([], r[0], r);
    assert Hits(ix, [], q, u)[i];
  }

  // ---- cycles ----

  /** The k-th parent above u. */
  function Up(ix: Index, u: string, k: nat): Option<string> {
    if k == 0 then (if u in ix then Some(u) else None)
    else match Up(ix, u, k - 1)
         case None => None
         case Some(v) => if v in ix then ParentOf(ix, ix[v]) else None
  }

  /** u lies on a cycle of parents or below one. */
  ghost predicate CycleAbove(ix: Index, u: string) {
    exists i, j :: 0 <= i < j && Up(ix, u, i).Some? && Up(ix, u, i) == Up(ix, u, j)
  }

  lemma {:induction false} UpIsIn(ix: Index, u: string, k: nat)
    ensures Up(ix, u, k).Some? ==> Up(ix, u, k).value in ix
    decreases k
  {
    if k > 0 { UpIsIn(ix, u, k - 1); }
  }

  lemma {:induction false} UpAlongPath(ix: Index, path: seq<string>, k: nat)
    requires IsPath(ix, path)
    ensures Up(ix, Last(path), k) == if k < |path| then Some(path[|path| - 1 - k]) else None
    decreases k
  {
    if k > 0 {
      UpAlongPath(ix, path, k - 1);
      if k < |path| { assert HangsUnder(ix, path[|path| - k], path[|path| - 1 - k]); }
    }
  }

  /** The parents above u, k steps up, as a path downwards once a root is reached. */
  lemma {:induction false} PathFromUp(ix: Index, u: string, k: nat) returns (path: seq<string>)
    requires Up(ix, u, k).Some? && Up(ix, u, k + 1).None?
    ensures IsPath(ix, path) && Last(path) == u
    decreases k
  {
    var top := Up(ix, u, k).value;
    UpIsIn(ix, u, k);
    path := [top];
    var i := k;
    while i > 0
      invariant 0 <= i <= k
      invariant IsPath(ix, path) && Some(Last(path)) == Up(ix, u, i)
    {
      var below := Up(ix, u, i - 1).value;
      UpIsIn(ix, u, i - 1);
      assert HangsUnder(ix, below, Last(path));
      PathExtends(ix, path, below);
      path := path + [below];
      i := i - 1;
    }
  }

  lemma {:induction false} UpStaysNone(ix: Index, u: string, i: nat, j: nat)
    requires i <= j && Up(ix, u, i).None?
    ensures Up(ix, u, j).None?
    decreases j - i
  {
    if i < j { UpStaysNone(ix, u, i, j - 1); }
  }

  lemma {:induction false} EndOfUp(ix: Index, u: string, n: nat) returns (k: nat)
    requires u in ix && Up(ix, u, n).None?
    ensures Up(ix, u, k).Some? && Up(ix, u, k + 1).None?
    decreases n
  {
    if n == 1 || Up(ix, u, n - 1).Some? {
      k := n - 1;
    } else {
      k := EndOfUp(ix, u, n - 1);
    }
  }

  function UpList(ix: Index, u: string, n: nat): (r: seq<string>)
    requires forall k :: 0 <= k < n ==> Up(ix, u, k).Some?
    ensures |r| == n && forall k :: 0 <= k < n ==> r[k] == Up(ix, u, k).value
  {
    seq(n, k requires 0 <= k < n => Up(ix, u, k).value)
  }

  /** An item of the list reaches a root exactly when it lies neither on a cycle nor below one. */
  lemma {:induction false} RootedUnlessCycle(ix: Index, u: string)
    requires u in ix
    ensures Rooted(ix, u) <==> !CycleAbove(ix, u)
  {
    if Rooted(ix, u) {
      var path :| IsPath(ix, path) && Last(path) == u;
      PathDistinct(ix, path);
      forall i, j | 0 <= i < j && Up(ix, u, i).Some? ensures Up(ix, u, i) != Up(ix, u, j) {
        UpAlongPath(ix, path, i);
        UpAlongPath(ix, path, j);
      }
    } else {
      var n := |ix| + 1;
      forall k | 0 <= k < n ensures Up(ix, u, k).Some? {
        if Up(ix, u, k).None? {
          var e := EndOfUp(ix, u, k);
          var path := PathFromUp(ix, u, e);
        }
      }
      var up := UpList(ix, u, n);
      forall k | 0 <= k < n ensures up[k] in ix.Keys { UpIsIn(ix, u, k); }
      assert |ix.Keys| == |ix|;
      if NoDuplicates(up) {
        DistinctFits(up, ix.Keys);
      }
      var i, j :| 0 <= i < j < n && up[i] == up[j];
      assert Up(ix, u, i) == Up(ix, u, j);
    }
  }

  // ---- order ----

  /** The lower rank, and of one rank the lower id. */
  predicate ComesFirst(a: Item, b: Item) {
    LexLess(a.rank, b.rank) || (a.rank == b.rank && LexLess(a.uid, b.uid))
  }

  predicate SortedTrees(ts: seq<Tree>) {
    && (forall i, j :: 0 <= i < j < |ts| ==> ComesFirst(ts[i].item, ts[j].item))
    && forall i :: 0 <= i < |ts| ==> SortedTrees(ts[i].children)
  }

  lemma {:induction false} TreeIsSorted(ix: Index, path: seq<string>)
    requires Keyed(ix) && IsPath(ix, path)
    ensures SortedTrees(TreeAt(ix, path).children)
    decreases |ix| - |path|
  {
    var q, ts := Siblings(ix, Some(Last(path))), TreeAt(ix, path).children;
    ItemOrderIsStrict(ix, Hanging(ix, Some(Last(path))));
    forall i | 0 <= i < |q| ensures |ts| == |q| && ts[i].item == q[i] && SortedTrees(ts[i].children) {
      TreesUnderAt(ix, path, q, i);
      PathDistinct(ix, path + [q[i].uid]);
      TreeIsSorted(ix, path + [q[i].uid]);
    }
  }

  /** Siblings everywhere in the forest stand in order of rank, then id. */
  lemma {:induction false} ForestIsSorted(ix: Index)
    requires Keyed(ix)
    ensures SortedTrees(Forest(ix))
  {
    var q, ts := Siblings(ix, None), Forest(ix);
    ItemOrderIsStrict(ix, Hanging(ix, None));
    forall i | 0 <= i < |q| ensures |ts| == |q| && ts[i].item == q[i] && SortedTrees(ts[i].children) {
      RootTreesAt(ix, q, i);
      TreeIsSorted(ix, [q[i].uid]);
    }
  }

  /** The list's order does not matter: permutations of it have one index, hence one forest. */
  lemma {:induction false} OrderDoesNotMatter(items: seq<Item>, other: seq<Item>)
    requires DistinctIds(items) && multiset(items) == multiset(other)
    ensures DistinctIds(other) && ToIndex(items) == ToIndex(other)
    ensures Keyed(ToIndex(items)) && Forest(ToIndex(items)) == Forest(ToIndex(other))
  {
    DistinctInAnyOrder(items, other);
    ToIndexHolds(items);
    ToIndexHolds(other);
    OneIndex(items, other, ToIndex(items), ToIndex(other));
  }

  lemma {:induction false} OneIndex(items: seq<Item>, other: seq<Item>, ix: Index, jx: Index)
    requires multiset(items) == multiset(other)
    requires IndexOfItems(ix, items) && IndexOfItems(jx, other)
    ensures ix == jx
  {
    forall it ensures it in items <==> it in other {
      assert it in multiset(items) <==> it in multiset(other);
    }
    forall u ensures u in ix <==> u in jx {
      if u in ix {
        var i :| 0 <= i < |other| && other[i] == ix[u];
      }
      if u in jx {
        var i :| 0 <= i < |items| && items[i] == jx[u];
      }
    }
    forall u | u in ix ensures ix[u] == jx[u] {
      var i :| 0 <= i < |items| && items[i] == jx[u];
    }
  }

  lemma {:induction false} DistinctInAnyOrder(items: seq<Item>, other: seq<Item>)
    requires DistinctIds(items) && multiset(items) == multiset(other)
    ensures DistinctIds(other)
  {
    forall i, j | 0 <= i < j < |other|
      ensures other[i].uid != other[j].uid
    {
      assert other[i] in multiset(items) && other[j] in multiset(items);
      var k :| 0 <= k < |items| && items[k] == other[i];
      var l :| 0 <= l < |items| && items[l] == other[j];
      if k == l {
        TwiceIn(other, i, j);
        OnceIn(items, k);
      }
    }
  }

  lemma {:induction false} TwiceIn(q: seq<Item>, i: nat, j: nat)
    requires i < j < |q| && q[i] == q[j]
    ensures multiset(q)[q[i]] >= 2
  {
    assert q == q[..j] + [q[j]] + q[j + 1..];
    assert q[i] in q[..j];
    assert multiset(q) == multiset(q[..j]) + multiset{q[j]} + multiset(q[j + 1..]);
  }

  lemma {:induction false} OnceIn(q: seq<Item>, k: nat)
    requires DistinctIds(q) && k < |q|
    ensures multiset(q)[q[k]] == 1
  {
    assert q == q[..k] + [q[k]] + q[k + 1..];
    assert q[k] !in q[..k] && q[k] !in q[k + 1..];
    assert multiset(q) == multiset(q[..k]) + multiset{q[k]} + multiset(q[k + 1..]);
  }

  // ---- the chain of an item ----

  function Items(ix: Index, path: seq<string>): seq<Item>
    requires forall i :: 0 <= i < |path| ==> path[i] in ix
  {
    if path == [] then [] else Items(ix, path[..|path| - 1]) + [ix[path[|path| - 1]]]
  }

  /** Walking up from below a stretch of a path collects that stretch. */
  lemma {:induction false} AncestorsAlongPath(ix: Index, path: seq<string>, n: nat, seen: set<string>)
    requires Keyed(ix) && IsPath(ix, path) && n < |path|
    requires seen == set i | n <= i < |path| :: path[i]
    ensures Ancestors(ix, seen, ix[path[n]].parent) == Items(ix, path[..n])
    decreases n
  {
    PathDistinct(ix, path);
    if n == 0 {
      assert path[0] in seen;
      assert ix[path[0]].uid == path[0];
    } else {
      var p := path[n - 1];
      assert HangsUnder(ix, path[n], p);
      assert p !in seen;
      assert seen + {p} == set i | n - 1 <= i < |path| :: path[i];
      AncestorsAlongPath(ix, path, n - 1, seen + {p});
      assert path[..n][..n - 1] == path[..n - 1];
    }
  }

  /** For every item placed in the forest, the chain's folders are the nodes above it, outermost first. */
  lemma {:induction false} ChainIsPath(ix: Index, path: seq<string>)
    requires Keyed(ix) && IsPath(ix, path)
    ensures Ancestors(ix, {Last(path)}, ix[Last(path)].parent) == Items(ix, path[..|path| - 1])
  {
    var n := |path| - 1;
    assert {Last(path)} == set i | n <= i < |path| :: path[i];
    AncestorsAlongPath(ix, path, n, {Last(path)});
  }
}
