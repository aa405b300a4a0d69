/**
 The order of the change list: by keys in objects and by indices in arrays, which together with the
 changes that belong in it determines the list.
 */
module JsonOrder {
  import opened Sorting
  import opened Text
  import opened JsonPath
  import opened JsonDiff
  import opened JsonDiffTheorems

  /** One child of the container comes before the other: by its key, or by its index. */
  ghost predicate SegmentBefore(v: Json, s: string, t: string) {
    match v
    case Obj(_) => LexLess(s, t)
    case Arr(_) => exists m: nat, n: nat :: m < n && s == IndexSegment(m) && t == IndexSegment(n)
    case _ => false
  }

  /** Where the two paths part, the one goes to an earlier child of the value. */
  ghost predicate Precedes(v: Json, p: seq<string>, q: seq<string>)
    decreases |p|
  {
    && p != [] && q != []
    && if p[0] != q[0] then SegmentBefore(v, p[0], q[0])
       else Child(v, p[0]).Some? && Precedes(Child(v, p[0]).value, p[1..], q[1..])
  }

  lemma {:induction false} SegmentBeforeOnce(v: Json, s: string, t: string, u: string)
    ensures !SegmentBefore(v, s, s)
    ensures SegmentBefore(v, s, t) && SegmentBefore(v, t, u) ==> SegmentBefore(v, s, u)
  {
    LexIrreflexive(s);
    if v.Obj? && LexLess(s, t) && LexLess(t, u) {
      LexTransitive(s, t, u);
    }
    if v.Arr? && SegmentBefore(v, s, s) {
      var m: nat, n: nat :| m < n && s == IndexSegment(m) && s == IndexSegment(n);
      IndexSegmentInjective(m, n);
    }
    if v.Arr? && SegmentBefore(v, s, t) && SegmentBefore(v, t, u) {
      var m: nat, n: nat :| m < n && s == IndexSegment(m) && t == IndexSegment(n);
      var m': nat, n': nat :| m' < n' && t == IndexSegment(m') && u == IndexSegment(n');
      IndexSegmentInjective(n, m');
    }
  }

  lemma {:induction false} PrecedesIrreflexive(v: Json, p: seq<string>)
    ensures !Precedes(v, p, p)
    decreases |p|
  {
    if p != [] && Child(v, p[0]).Some? {
      PrecedesIrreflexive(Child(v, p[0]).value, p[1..]);
    }
  }

  lemma {:induction false} PrecedesTransitive(v: Json, p: seq<string>, q: seq<string>, r: seq<string>)
    requires Precedes(v, p, q) && Precedes(v, q, r)
    ensures Precedes(v, p, r)
    decreases |p|
  {
    SegmentBeforeOnce(v, p[0], q[0], r[0]);
    SegmentBeforeOnce(v, q[0], p[0], q[0]);
    if p[0] == q[0] == r[0] {
      PrecedesTransitive(Child(v, p[0]).value, p[1..], q[1..], r[1..]);
    }
  }

  // ---- the list is in that order ----

  /** Below the first n segments, the path of the one change precedes that of the other. */
  ghost predicate Before(n: nat, v: Json, c: Change, c': Change) {
    |c.path| >= n && |c'.path| >= n && Precedes(v, c.path[n..], c'.path[n..])
  }

  /** The changes are in the order of their paths below `at`. */
  ghost predicate InPathOrder(at: seq<string>, v: Json, d: seq<Change>) {
    forall i, j :: 0 <= i < j < |d| ==> Before(|at|, v, d[i], d[j])
  }

  lemma {:induction false} DiffInOrder(ignore: seq<seq<string>>, at: seq<string>, e: Json, a: Json)
    requires |at| <= MAX_DEPTH + 1
    ensures InPathOrder(at, e, Diff(ignore, at, e, a))
    decreases e, 1, 0
  {
    if KindOf(e) == KindOf(a) && IsContainer(e) && |at| <= MAX_DEPTH {
      var segs := ChildSegments(e, a);
      ChildSegmentsInOrder(e, a);
      ChildrenInOrder(ignore, at, e, a, segs, |segs|);
    }
  }

  /** The children are visited in their order. */
  lemma {:induction false} ChildSegmentsInOrder(e: Json, a: Json)
    requires KindOf(e) == KindOf(a) && IsContainer(e)
    ensures forall m, n :: 0 <= m < n < |ChildSegments(e, a)| ==>
              SegmentBefore(e, ChildSegments(e, a)[m], ChildSegments(e, a)[n])
  {
    if e.Obj? {
      LexStrictTotal(e.fields.Keys + a.fields.Keys);
    }
  }

  /** What is listed for a child lies below it. */
  lemma {:induction false} ChildChangesBelow(ignore: seq<seq<string>>, at: seq<string>, e: Json, a: Json, seg: string,
                                             c: Change)
    requires |at| <= MAX_DEPTH && c in DiffChild(ignore, at, e, a, seg)
    ensures Below(at, seg, c)
  {
    ChildPathsExtend(ignore, at, e, a, seg, c);
  }

  ghost predicate Below(at: seq<string>, seg: string, c: Change) {
    |c.path| > |at| && c.path[|at|] == seg
  }

  /** Below one child the order is that of the child. */
  lemma {:induction false} FirstSegments(at: seq<string>, v: Json, seg: string, c: Change, c': Change)
    requires Below(at, seg, c) && Below(at, seg, c')
    ensures Child(v, seg).Some? && Before(|at| + 1, Child(v, seg).value, c, c') ==> Before(|at|, v, c, c')
  {
    assert c.path[|at|..][1..] == c.path[|at| + 1..] && c'.path[|at|..][1..] == c'.path[|at| + 1..];
  }

  /** Below two children it is that of the children. */
  lemma {:induction false} TwoSegments(at: seq<string>, v: Json, s: string, t: string, c: Change, c': Change)
    requires Below(at, s, c) && Below(at, t, c') && SegmentBefore(v, s, t)
    ensures Before(|at|, v, c, c')
  {
    SegmentBeforeOnce(v, s, t, t);
  }

  lemma {:induction false} ChildInOrder(ignore: seq<seq<string>>, at: seq<string>, e: Json, a: Json, seg: string)
    requires |at| <= MAX_DEPTH
    requires Child(e, seg).Some? && Child(a, seg).Some? ==>
               var x, y := Child(e, seg).value, Child(a, seg).value;
               InPathOrder(at + [seg], x, Diff(ignore, at + [seg], x, y))
    ensures InPathOrder(at, e, DiffChild(ignore, at, e, a, seg))
  {
    var here := DiffChild(ignore, at, e, a, seg);
    if Child(e, seg).Some? && Child(a, seg).Some? {
      assert here == Diff(ignore, at + [seg], Child(e, seg).value, Child(a, seg).value);
      forall i | 0 <= i < |here| ensures Below(at, seg, here[i]) {
        ChildChangesBelow(ignore, at, e, a, seg, here[i]);
      }
      ChildOrderIsOrder(at, e, seg, here);
    } else {
      assert |here| <= 1;
    }
  }

  lemma {:induction false} ChildOrderIsOrder(at: seq<string>, v: Json, seg: string, d: seq<Change>)
    requires Child(v, seg).Some? && InPathOrder(at + [seg], Child(v, seg).value, d)
    requires forall i :: 0 <= i < |d| ==> Below(at, seg, d[i])
    ensures InPathOrder(at, v, d)
  {
    forall i, j | 0 <= i < j < |d|
      ensures Before(|at|, v, d[i], d[j])
    {
      assert Before(|at + [seg]|, Child(v, seg).value, d[i], d[j]);
      FirstSegments(at, v, seg, d[i], d[j]);
    }
  }

  lemma {:induction false} InOrderConcat(at: seq<string>, v: Json, c: seq<Change>, d: seq<Change>)
    requires InPathOrder(at, v, c) && InPathOrder(at, v, d)
    requires forall i, j :: 0 <= i < |c| && 0 <= j < |d| ==> Before(|at|, v, c[i], d[j])
    ensures InPathOrder(at, v, c + d)
  {}

  lemma {:induction false} ChildrenInOrder(ignore: seq<seq<string>>, at: seq<string>, e: Json, a: Json,
                                           segs: seq<string>, n: nat)
    requires |at| <= MAX_DEPTH && n <= |segs|
    requires forall m, k :: 0 <= m < k < |segs| ==> SegmentBefore(e, segs[m], segs[k])
    ensures InPathOrder(at, e, DiffChildren(ignore, at, e, a, segs, n))
    decreases e, 0, n
  {
    if n > 0 {
      var seg := segs[n - 1];
      var before, here := DiffChildren(ignore, at, e, a, segs, n - 1), DiffChild(ignore, at, e, a, seg);
      ChildrenInOrder(ignore, at, e, a, segs, n - 1);
      if Child(e, seg).Some? && Child(a, seg).Some? {
        DiffInOrder(ignore, at + [seg], Child(e, seg).value, Child(a, seg).value);
      }
      ChildInOrder(ignore, at, e, a, seg);
      forall i, j | 0 <= i < |before| && 0 <= j < |here|
        ensures Before(|at|, e, before[i], here[j])
      {
        assert before[i] in before && here[j] in here;
        MembersOfChildren(ignore, at, e, a, segs, n - 1, before[i]);
        var k :| 0 <= k < n - 1 && before[i] in DiffChild(ignore, at, e, a, segs[k]);
        ChildChangesBelow(ignore, at, e, a, segs[k], before[i]);
        ChildChangesBelow(ignore, at, e, a, seg, here[j]);
        TwoSegments(at, e, segs[k], seg, before[i], here[j]);
      }
      InOrderConcat(at, e, before, here);
    }
  }

  /** Earlier in the list is earlier in the documents: by keys and by indices. */
  lemma {:induction false} ListIsInOrder(ignore: seq<seq<string>>, e: Json, a: Json, i: nat, j: nat)
    requires i < j < |Diff(ignore, [], e, a)|
    ensures Precedes(e, Diff(ignore, [], e, a)[i].path, Diff(ignore, [], e, a)[j].path)
  {
    DiffInOrder(ignore, [], e, a);
    var d := Diff(ignore, [], e, a);
    assert Before(0, e, d[i], d[j]);
    assert d[i].path[0..] == d[i].path && d[j].path[0..] == d[j].path;
  }

  /**
   The list is the only one there can be: it holds the difference on every path that is not
   ignored, each once, in the order of the documents. So it is also fixed which are the first 200.
   */
  lemma {:induction false} ListIsDetermined(ignore: seq<seq<string>>, e: Json, a: Json, q: seq<Change>)
    requires forall c :: c in q <==> IsDifference(ignore, e, a, c)
    requires forall i, j :: 0 <= i < j < |q| ==> Precedes(e, q[i].path, q[j].path)
    ensures q == Diff(ignore, [], e, a)
  {
    var d := Diff(ignore, [], e, a);
    var less := (c: Change, c': Change) => Precedes(e, c.path, c'.path);
    forall i, j | 0 <= i < j < |d| ensures less(d[i], d[j]) {
      ListIsInOrder(ignore, e, a, i, j);
    }
    forall c: Change ensures c in q <==> c in d {
      ListedExactly(ignore, e, a, c);
    }
    assert Elems(q) == Elems(d);
    OrderedIsTotal(e, d);
    ListingUnique(less, Elems(d), q, d);
  }

  lemma {:induction false} OrderedIsTotal(v: Json, d: seq<Change>)
    requires forall i, j :: 0 <= i < j < |d| ==> Precedes(v, d[i].path, d[j].path)
    ensures StrictTotalOn((c: Change, c': Change) => Precedes(v, c.path, c'.path), Elems(d))
  {
    forall x, y, z | x in Elems(d) && y in Elems(d) && z in Elems(d)
      ensures !Precedes(v, x.path, x.path)
      ensures x != y ==> Precedes(v, x.path, y.path) || Precedes(v, y.path, x.path)
      ensures Precedes(v, x.path, y.path) && Precedes(v, y.path, z.path) ==> Precedes(v, x.path, z.path)
    {
      PrecedesIrreflexive(v, x.path);
      var i :| 0 <= i < |d| && d[i] == x;
      var j :| 0 <= j < |d| && d[j] == y;
      if Precedes(v, x.path, y.path) && Precedes(v, y.path, z.path) {
        PrecedesTransitive(v, x.path, y.path, z.path);
      }
    }
  }
}
