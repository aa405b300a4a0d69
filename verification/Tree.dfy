/**
 The two readings of one parent relation: the ordered forest built from a flat item list, and the
 ancestor chain of one item. Parents may be missing, point at the item itself, or form cycles.
 */
module ItemTree {
  import opened Sorting
  import opened Text

  datatype Item = Item(uid: string, parent: string, rank: string, folder: bool)

  datatype Tree = Node(item: Item, children: seq<Tree>)

  type Index = map<string, Item>

  ghost predicate DistinctIds(items: seq<Item>) {
    forall i, j :: 0 <= i < j < |items| ==> items[i].uid != items[j].uid
  }

  /** The index holds exactly the items, under their ids. */
  ghost predicate IndexOfItems(ix: Index, items: seq<Item>) {
    && (forall i :: 0 <= i < |items| ==> items[i].uid in ix && ix[items[i].uid] == items[i])
    && (forall u :: u in ix ==> ix[u] in items && ix[u].uid == u)
  }

  /** The items under their ids. */
  function ToIndex(items: seq<Item>): (ix: Index)
    ensures forall u :: u in ix ==> ix[u] in items && ix[u].uid == u
  {
    if items == [] then map[]
    else ToIndex(items[..|items| - 1])[items[|items| - 1].uid := items[|items| - 1]]
  }

  lemma {:induction false} ToIndexHolds(items: seq<Item>)
    requires DistinctIds(items)
    ensures IndexOfItems(ToIndex(items), items) && Keyed(ToIndex(items))
    decreases |items|
  {
    if items != [] {
      var n := |items| - 1;
      ToIndexHolds(items[..n]);
      assert items == items[..n] + [items[n]];
      IndexSnoc(ToIndex(items[..n]), items[..n], items[n]);
    }
  }

  lemma {:induction false} IndexSnoc(ix: Index, items: seq<Item>, it: Item)
    requires IndexOfItems(ix, items) && DistinctIds(items + [it])
    ensures IndexOfItems(ix[it.uid := it], items + [it])
  {
    assert forall i :: 0 <= i < |items| ==>
             (items + [it])[i] == items[i] && items[i].uid != (items + [it])[|items|].uid;
  }

  predicate Keyed(ix: Index) {
    forall u :: u in ix ==> ix[u].uid == u
  }

  // ---- the relation ----

  /** The parent an item hangs under: one that exists and is not the item itself. */
  function ParentOf(ix: Index, it: Item): Option<string> {
    if it.parent != "" && it.parent in ix && it.parent != it.uid then Some(it.parent) else None
  }

  /** A path from a root down to an item. */
  ghost predicate IsPath(ix: Index, path: seq<string>) {
    && path != []
    && (forall i :: 0 <= i < |path| ==> path[i] in ix)
    && ParentOf(ix, ix[path[0]]).None?
    && forall i :: 0 < i < |path| ==> HangsUnder(ix, path[i], path[i - 1])
  }

  predicate HangsUnder(ix: Index, u: string, p: string) {
    u in ix && ParentOf(ix, ix[u]) == Some(p)
  }

  function Last(path: seq<string>): string
    requires path != []
  {
    path[|path| - 1]
  }

  ghost predicate Rooted(ix: Index, u: string) {
    exists path :: IsPath(ix, path) && Last(path) == u
  }

  /** Two paths to one item are the same path. */
  lemma {:induction false} PathUnique(ix: Index, p: seq<string>, q: seq<string>)
    requires IsPath(ix, p) && IsPath(ix, q) && Last(p) == Last(q)
    ensures p == q
    decreases |p|
  {
    var m, n := |p| - 1, |q| - 1;
    assert m > 0 ==> HangsUnder(ix, p[m], p[m - 1]);
    assert n > 0 ==> HangsUnder(ix, q[n], q[n - 1]);
    if m > 0 && n > 0 {
      PathFront(ix, p);
      PathFront(ix, q);
      PathUnique(ix, p[..m], q[..n]);
      assert p == p[..m] + [p[m]] && q == q[..n] + [q[n]];
    }
  }

  lemma {:induction false} PathFront(ix: Index, p: seq<string>)
    requires IsPath(ix, p) && |p| > 1
    ensures IsPath(ix, p[..|p| - 1])
  {
    var f := p[..|p| - 1];
    forall i | 0 < i < |f| ensures HangsUnder(ix, f[i], f[i - 1]) {
      assert HangsUnder(ix, p[i], p[i - 1]);
    }
  }

  lemma {:induction false} PathPrefix(ix: Index, p: seq<string>, n: nat)
    requires IsPath(ix, p) && 0 < n <= |p|
    ensures IsPath(ix, p[..n])
  {
    forall i | 0 < i < n ensures HangsUnder(ix, p[..n][i], p[..n][i - 1]) {
      assert HangsUnder(ix, p[i], p[i - 1]);
    }
  }

  lemma {:induction false} PathExtends(ix: Index, p: seq<string>, u: string)
    requires IsPath(ix, p) && HangsUnder(ix, u, Last(p))
    ensures IsPath(ix, p + [u])
  {
    var q := p + [u];
    forall i | 0 < i < |q| ensures HangsUnder(ix, q[i], q[i - 1]) {
      if i < |p| { assert HangsUnder(ix, p[i], p[i - 1]); }
    }
  }

  /** A path visits no item twice, so it is no longer than the index. */
  lemma {:induction false} PathDistinct(ix: Index, p: seq<string>)
    requires IsPath(ix, p)
    ensures NoDuplicates(p) && |p| <= |ix|
  {
    forall i, j | 0 <= i < j < |p| ensures p[i] != p[j] {
      PathPrefix(ix, p, i + 1);
      PathPrefix(ix, p, j + 1);
      if p[i] == p[j] {
        PathUnique(ix, p[..i + 1], p[..j + 1]);
      }
    }
    DistinctFits(p, ix.Keys);
    assert |ix.Keys| == |ix|;
  }

  lemma {:induction false} DistinctFits<T>(p: seq<T>, s: set<T>)
    requires NoDuplicates(p) && forall i :: 0 <= i < |p| ==> p[i] in s
    ensures |p| <= |s|
    decreases |p|
  {
    if p != [] {
      var n := |p| - 1;
      DistinctFits(p[..n], s - {p[n]});
    }
  }

  // ---- the forest, as a function of the index ----

  predicate ItemLess(a: Item, b: Item) {
    if a.rank != b.rank then LexLess(a.rank, b.rank) else LexLess(a.uid, b.uid)
  }

  lemma {:induction false} ItemOrderIsStrict(ix: Index, some: set<Item>)
    requires Keyed(ix) && forall it :: it in some ==> it.uid in ix && ix[it.uid] == it
    ensures StrictTotalOn(ItemLess, some)
  {
    forall x | x in some ensures !ItemLess(x, x) { LexIrreflexive(x.uid); }
    forall x, y | x in some && y in some && x != y ensures ItemLess(x, y) || ItemLess(y, x) {
      LexTotal(x.rank, y.rank);
      LexTotal(x.uid, y.uid);
    }
    forall x, y, z | x in some && y in some && z in some && ItemLess(x, y) && ItemLess(y, z) ensures ItemLess(x, z) {
      ItemLessTransitive(x, y, z);
    }
  }

  lemma {:induction false} ItemLessTransitive(x: Item, y: Item, z: Item)
    requires ItemLess(x, y) && ItemLess(y, z)
    ensures ItemLess(x, z)
  {
    if x.rank != y.rank && y.rank != z.rank {
      LexTransitive(x.rank, y.rank, z.rank);
      LexIrreflexive(x.rank);
    } else if x.rank == y.rank == z.rank {
      LexTransitive(x.uid, y.uid, z.uid);
    }
  }

  /** The items that hang under p, or the roots when there is no p. */
  ghost function Hanging(ix: Index, p: Option<string>): set<Item> {
    set u | u in ix && ParentOf(ix, ix[u]) == p :: ix[u]
  }

  ghost function Siblings(ix: Index, p: Option<string>): (q: seq<Item>)
    requires Keyed(ix)
    ensures forall i :: 0 <= i < |q| ==> q[i].uid in ix && ix[q[i].uid] == q[i] && ParentOf(ix, q[i]) == p
  {
    ItemOrderIsStrict(ix, Hanging(ix, p));
    var q := Listing(ItemLess, Hanging(ix, p));
    assert forall i :: 0 <= i < |q| ==> q[i] in Elems(q);
    q
  }

  ghost function TreeAt(ix: Index, path: seq<string>): Tree
    requires Keyed(ix) && IsPath(ix, path)
    decreases |ix| - |path|, 1
  {
    PathDistinct(ix, path);
    Node(ix[Last(path)], TreesUnder(ix, path, Siblings(ix, Some(Last(path)))))
  }

  ghost function TreesUnder(ix: Index, path: seq<string>, q: seq<Item>): (r: seq<Tree>)
    requires Keyed(ix) && IsPath(ix, path)
    requires forall i :: 0 <= i < |q| ==> HangsUnder(ix, q[i].uid, Last(path))
    decreases |ix| - |path|, 0, |q|
  {
    if q == [] then []
    else
      var n := |q| - 1;
      PathExtends(ix, path, q[n].uid);
      PathDistinct(ix, path + [q[n].uid]);
      TreesUnder(ix, path, q[..n]) + [TreeAt(ix, path + [q[n].uid])]
  }

  ghost function RootTrees(ix: Index, q: seq<Item>): seq<Tree>
    requires Keyed(ix)
    requires forall i :: 0 <= i < |q| ==> q[i].uid in ix && ix[q[i].uid] == q[i] && ParentOf(ix, q[i]).None?
  {
    if q == [] then []
    else
      var n := |q| - 1;
      assert IsPath(ix, [q[n].uid]);
      RootTrees(ix, q[..n]) + [TreeAt(ix, [q[n].uid])]
  }

  ghost function Forest(ix: Index): seq<Tree>
    requires Keyed(ix)
  {
    RootTrees(ix, Siblings(ix, None))
  }

  // ---- building it ----

  /** The lists the second pass of the build appends to: distinct items, with their parents. */
  ghost predicate Appended(ix: Index, q: seq<Item>, p: Option<string>, some: set<Item>) {
    NoDuplicates(q) && Elems(q) == set it | it in some && ParentOf(ix, it) == p
  }

  method BuildTree(items: seq<Item>) returns (roots: seq<Tree>)
    requires DistinctIds(items)
    ensures Keyed(ToIndex(items)) && roots == Forest(ToIndex(items))
  {
    var nodes := IndexItems(items);
    ghost var ix := nodes;
    var top, children := HangItems(nodes, items);
    assert Elems(items) == set u | u in ix :: ix[u] by {
      forall it | it in Elems(items) ensures it.uid in ix && ix[it.uid] == it {
        var i :| 0 <= i < |items| && items[i] == it;
      }
    }
    roots := SortRoots(nodes, children, top);
  }

  method IndexItems(items: seq<Item>) returns (ix: Index)
    requires DistinctIds(items)
    ensures ix == ToIndex(items) && IndexOfItems(ix, items) && Keyed(ix)
  {
    ix := map[];
    for i := 0 to |items|
      invariant ix == ToIndex(items[..i])
    {
      assert items[..i + 1][..i] == items[..i];
      ix := ix[items[i].uid := items[i]];
    }
    assert items[..|items|] == items;
    ToIndexHolds(items);
  }

  method HangItems(ix: Index, items: seq<Item>) returns (roots: seq<Item>, children: map<string, seq<Item>>)
    requires DistinctIds(items) && IndexOfItems(ix, items) && Keyed(ix)
    ensures Appended(ix, roots, None, Elems(items))
    ensures AllAppended(ix, children, Elems(items))
  {
    roots := [];
    children := map u | u in ix :: [];
    for i := 0 to |items|
      invariant Appended(ix, roots, None, Elems(items[..i]))
      invariant AllAppended(ix, children, Elems(items[..i]))
    {
      var it := items[i];
      assert Elems(items[..i + 1]) == Elems(items[..i]) + {it} by { assert items[..i + 1] == items[..i] + [it]; }
      assert it !in Elems(items[..i]);
      AppendedElsewhere(ix, roots, children, Elems(items[..i]), it);
      if it.parent in ix && it.parent != "" && it.parent != it.uid {
        AppendOne(ix, children[it.parent], Some(it.parent), Elems(items[..i]), it);
        children := children[it.parent := children[it.parent] + [it]];
      } else {
        AppendOne(ix, roots, None, Elems(items[..i]), it);
        roots := roots + [it];
      }
    }
    assert items[..|items|] == items;
  }

  /** Under each item hang those seen so far that name it. */
  ghost predicate AllAppended(ix: Index, children: map<string, seq<Item>>, some: set<Item>) {
    && children.Keys == ix.Keys
    && forall u :: u in ix ==> Appended(ix, children[u], Some(u), some)
  }

  /** An item seen changes nothing but the place where it hangs. */
  lemma {:induction false} AppendedElsewhere(ix: Index, roots: seq<Item>, children: map<string, seq<Item>>,
                                             some: set<Item>, it: Item)
    requires Appended(ix, roots, None, some) && AllAppended(ix, children, some)
    ensures ParentOf(ix, it) != None ==> Appended(ix, roots, None, some + {it})
    ensures forall u :: u in ix && ParentOf(ix, it) != Some(u) ==> Appended(ix, children[u], Some(u), some + {it})
  {}

  lemma {:induction false} AppendOne(ix: Index, q: seq<Item>, p: Option<string>, some: set<Item>, it: Item)
    requires Appended(ix, q, p, some) && it !in some && ParentOf(ix, it) == p
    ensures Appended(ix, q + [it], p, some + {it})
  {
    assert forall i :: 0 <= i < |q| ==> q[i] in Elems(q);
    assert Elems(q + [it]) == Elems(q) + {it};
  }

  /** What hangs under each item is complete. */
  ghost predicate AllHang(ix: Index, children: map<string, seq<Item>>) {
    && children.Keys == ix.Keys
    && forall u :: u in ix ==> NoDuplicates(children[u]) && Elems(children[u]) == Hanging(ix, Some(u))
  }

  method SortSiblings(ix: Index, q: seq<Item>, p: Option<string>) returns (ns: seq<Item>)
    requires Keyed(ix) && NoDuplicates(q) && Elems(q) == Hanging(ix, p)
    ensures ns == Siblings(ix, p)
  {
    ItemOrderIsStrict(ix, Hanging(ix, p));
    ns := SortSlice(ItemLess, q);
  }

  method SortRoots(ix: Index, children: map<string, seq<Item>>, top: seq<Item>) returns (r: seq<Tree>)
    requires Keyed(ix) && AllHang(ix, children)
    requires NoDuplicates(top) && Elems(top) == Hanging(ix, None)
    ensures r == Forest(ix)
  {
    var ns := SortSiblings(ix, top, None);
    r := [];
    for i := 0 to |ns|
      invariant r == RootTrees(ix, ns[..i])
    {
      assert ns[..i + 1][..i] == ns[..i];
      assert IsPath(ix, [ns[i].uid]);
      var t := SortBelow(ix, children, ns[i], [ns[i].uid]);
      r := r + [t];
    }
    assert ns[..|ns|] == ns;
  }

  /** Sorts the children of n and, recursively, theirs; it stops because paths are no longer than the
      index. */
  method SortBelow(ix: Index, children: map<string, seq<Item>>, n: Item, ghost path: seq<string>) returns (t: Tree)
    requires Keyed(ix) && AllHang(ix, children)
    requires IsPath(ix, path) && n == ix[Last(path)]
    ensures t == TreeAt(ix, path)
    decreases |ix| - |path|
  {
    var ns := SortSiblings(ix, children[n.uid], Some(n.uid));
    var below := [];
    for i := 0 to |ns|
      invariant below == TreesUnder(ix, path, ns[..i])
    {
      assert ns[..i + 1][..i] == ns[..i];
      PathExtends(ix, path, ns[i].uid);
      PathDistinct(ix, path + [ns[i].uid]);
      var s := SortBelow(ix, children, ns[i], path + [ns[i].uid]);
      below := below + [s];
    }
    assert ns[..|ns|] == ns;
    t := Node(n, below);
  }

  // ---- the ancestors of one item ----

  /** The items above p, outermost first, up to a missing, empty or repeated parent. */
  function Ancestors(ix: Index, seen: set<string>, p: string): seq<Item>
    decreases |ix.Keys - seen|
  {
    if p == "" || p !in ix || p in seen then []
    else
      assert ix.Keys - seen - {p} == ix.Keys - (seen + {p});
      Ancestors(ix, seen + {p}, ix[p].parent) + [ix[p]]
  }

  datatype Chain = NotFound | IsFolder | Chain(folders: seq<Item>, item: Item)

  method ChainFromItems(items: seq<Item>, uid: string) returns (c: Chain)
    requires DistinctIds(items)
    ensures var ix := ToIndex(items);
            c == if uid !in ix then NotFound
                 else if ix[uid].folder then IsFolder
                 else Chain(Ancestors(ix, {uid}, ix[uid].parent), ix[uid])
  {
    var index := IndexItems(items);
    if uid !in index {
      return NotFound;
    }
    var it := index[uid];
    if it.folder {
      return IsFolder;
    }
    var folders := WalkUp(index, uid, it.parent);
    return Chain(folders, it);
  }

  method WalkUp(index: Index, uid: string, parent: string) returns (folders: seq<Item>)
    ensures folders == Ancestors(index, {uid}, parent)
  {
    folders := [];
    var seen := {uid};
    var p := parent;
    while p != "" && p in index && p !in seen
      invariant Ancestors(index, {uid}, parent) == Ancestors(index, seen, p) + folders
      decreases |index.Keys - seen|
    {
      AncestorsStep(index, seen, p, folders);
      folders := [index[p]] + folders;
      seen, p := seen + {p}, index[p].parent;
    }
  }

  lemma {:induction false} AncestorsStep(ix: Index, seen: set<string>, p: string, folders: seq<Item>)
    requires p != "" && p in ix && p !in seen
    ensures Ancestors(ix, seen, p) + folders == Ancestors(ix, seen + {p}, ix[p].parent) + ([ix[p]] + folders)
    ensures |ix.Keys - (seen + {p})| < |ix.Keys - seen|
  {
    assert ix.Keys - seen - {p} == ix.Keys - (seen + {p});
    var above := Ancestors(ix, seen + {p}, ix[p].parent);
    assert Ancestors(ix, seen, p) == above + [ix[p]];
    assert above + [ix[p]] + folders == above + ([ix[p]] + folders);
  }
}
