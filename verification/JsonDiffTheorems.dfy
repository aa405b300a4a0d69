/**
 What the change list of two documents tells a reader: when it is empty, that its paths are
 independent, and what ignoring one more pattern takes away.
 */
module JsonDiffTheorems {
  import opened Sorting
  import opened Text
  import opened JsonPath
  import opened JsonDiff

  // ---- an empty list means agreement ----

  /** Same view; below the depth limit only presence and kind are compared. */
  ghost predicate AgreeAt(e: Json, a: Json, path: seq<string>) {
    if |path| <= MAX_DEPTH then ViewAt(e, path) == ViewAt(a, path)
    else match (Lookup(e, path), Lookup(a, path))
         case (Some(x), Some(y)) => SameShape(x, y)
         case (x, y) => x == y
  }

  lemma {:induction false} NoChangeIsAgreement(e: Json, a: Json, path: seq<string>)
    ensures ChangeAt([], e, a, path).None? <==> AgreeAt(e, a, path)
  {
    assert [] + path == path;
  }

  /** Every disagreement at a path that is not ignored lies at or below a listed change. */
  lemma {:induction false} DisagreementIsListed(ignore: seq<seq<string>>, e: Json, a: Json, path: seq<string>)
      returns (c: Change)
    requires |path| <= MAX_DEPTH + 1 && !Ignored(ignore, path) && !AgreeAt(e, a, path)
    ensures c in Diff(ignore, [], e, a) && c.path <= path
  {
    NoChangeIsAgreement(e, a, path);
    assert path[..|path|] == path;
    var n := FirstDisagreement(e, a, path, 0);
    var p := path[..n];
    c := ChangeAt([], e, a, p).value;
    NotIgnoredAbove(ignore, p, path);
    forall k | 0 <= k < |p| ensures ChangeAt([], e, a, p[..k]) == None {
      assert p[..k] == path[..k];
    }
    ChangePath(e, a, p);
    assert IsFirstChange(ignore, [], e, a, p, c);
    DiffMembers(ignore, e, a, c);
  }

  lemma {:induction false} ChangePath(e: Json, a: Json, p: seq<string>)
    ensures ChangeAt([], e, a, p).Some? ==> ChangeAt([], e, a, p).value.path == p
    ensures [] + p == p
  {
    assert [] + p == p;
  }

  lemma {:induction false} FirstDisagreement(e: Json, a: Json, path: seq<string>, from: nat) returns (n: nat)
    requires from <= |path| && ChangeAt([], e, a, path[..|path|]).Some?
    requires forall k :: 0 <= k < from ==> ChangeAt([], e, a, path[..k]).None?
    ensures n <= |path| && ChangeAt([], e, a, path[..n]).Some?
    ensures forall k :: 0 <= k < n ==> ChangeAt([], e, a, path[..k]).None?
    decreases |path| - from
  {
    if ChangeAt([], e, a, path[..from]).Some? {
      n := from;
    } else {
      n := FirstDisagreement(e, a, path, from + 1);
    }
  }

  lemma {:induction false} NotIgnoredAbove(ignore: seq<seq<string>>, path: seq<string>, below: seq<string>)
    requires path <= below
    ensures !Ignored(ignore, below) ==> !Ignored(ignore, path)
  {
    if Ignored(ignore, path) { IgnoredBelow(ignore, path, below); }
  }

  /** For all documents and patterns: nothing is listed exactly when the documents agree at every
      path that no pattern covers, as far down as the walk reaches. */
  lemma {:induction false} EmptyMeansAgreement(ignore: seq<seq<string>>, e: Json, a: Json)
    ensures Diff(ignore, [], e, a) == [] <==>
            forall p :: |p| <= MAX_DEPTH + 1 && !Ignored(ignore, p) ==> AgreeAt(e, a, p)
  {
    if Diff(ignore, [], e, a) == [] {
      forall p | |p| <= MAX_DEPTH + 1 && !Ignored(ignore, p) ensures AgreeAt(e, a, p) {
        if !AgreeAt(e, a, p) {
          var c := DisagreementIsListed(ignore, e, a, p);
        }
      }
    } else {
      var c := Diff(ignore, [], e, a)[0];
      assert c in Diff(ignore, [], e, a);
      DiffMembers(ignore, e, a, c);
      NoChangeIsAgreement(e, a, c.path);
    }
  }

  ghost predicate Shallow(v: Json) {
    forall p :: Lookup(v, p).Some? ==> |p| <= MAX_DEPTH
  }

  /** Where no path has more than 64 segments, an empty list is agreement of every unignored view. */
  lemma {:induction false} EmptyMeansSameViews(ignore: seq<seq<string>>, e: Json, a: Json)
    requires Shallow(e) && Shallow(a)
    ensures Diff(ignore, [], e, a) == [] <==> forall p :: !Ignored(ignore, p) ==> ViewAt(e, p) == ViewAt(a, p)
  {
    EmptyMeansAgreement(ignore, e, a);
    forall p: seq<string>
      ensures AgreeAt(e, a, p) <==> ViewAt(e, p) == ViewAt(a, p)
      ensures |p| > MAX_DEPTH ==> ViewAt(e, p) == ViewAt(a, p)
    {
      assert |p| > MAX_DEPTH ==> Lookup(e, p).None? && Lookup(a, p).None?;
    }
  }

  // ---- with nothing ignored, an empty list means equal documents ----

  lemma {:induction false} ViewBelow(v: Json, seg: string, r: seq<string>)
    ensures ViewAt(v, [seg] + r) == if Child(v, seg).Some? then ViewAt(Child(v, seg).value, r) else Absent
  {
    assert ([seg] + r)[0] == seg && ([seg] + r)[1..] == r;
  }

  ghost predicate SameViews(e: Json, a: Json) {
    forall p :: ViewAt(e, p) == ViewAt(a, p)
  }

  lemma {:induction false} ChildViews(e: Json, a: Json, seg: string)
    requires SameViews(e, a)
    ensures Child(e, seg).Some? <==> Child(a, seg).Some?
    ensures Child(e, seg).Some? ==> SameViews(Child(e, seg).value, Child(a, seg).value)
  {
    ViewBelow(e, seg, []);
    ViewBelow(a, seg, []);
    assert ViewAt(e, [seg] + []) == ViewAt(a, [seg] + []);
    forall r | Child(e, seg).Some? && Child(a, seg).Some?
      ensures ViewAt(Child(e, seg).value, r) == ViewAt(Child(a, seg).value, r)
    {
      ViewBelow(e, seg, r);
      ViewBelow(a, seg, r);
      assert ViewAt(e, [seg] + r) == ViewAt(a, [seg] + r);
    }
  }

  lemma {:induction false} SameItems(e: Json, a: Json, i: nat)
    requires e.Arr? && a.Arr? && SameViews(e, a)
    ensures i < |e.items| <==> i < |a.items|
    ensures i < |e.items| ==> SameViews(e.items[i], a.items[i])
  {
    ChildViews(e, a, IndexSegment(i));
    ChildAt(e.items, i);
    ChildAt(a.items, i);
  }

  lemma {:induction false} SameViewsAreEqual(e: Json, a: Json)
    requires SameViews(e, a)
    ensures e == a
    decreases e
  {
    assert ViewAt(e, []) == ViewAt(a, []);
    match e
    case Obj(m) =>
      forall seg
        ensures seg in m <==> seg in a.fields
        ensures seg in m ==> m[seg] == a.fields[seg]
      {
        ChildViews(e, a, seg);
        if seg in m {
          SameViewsAreEqual(m[seg], a.fields[seg]);
        }
      }
      assert m == a.fields;
    case Arr(s) =>
      SameItems(e, a, |s|);
      SameItems(e, a, |a.items|);
      forall i | 0 <= i < |s|
        ensures s[i] == a.items[i]
      {
        SameItems(e, a, i);
        SameViewsAreEqual(s[i], a.items[i]);
      }
    case _ =>
  }

  /** Where no path has more than 64 segments and nothing is ignored, the list is empty exactly for equal documents. */
  lemma {:induction false} EmptyMeansEqual(e: Json, a: Json)
    requires Shallow(e) && Shallow(a)
    ensures Diff([], [], e, a) == [] <==> e == a
  {
    EmptyMeansSameViews([], e, a);
    assert forall p :: !Ignored([], p);
    if SameViews(e, a) {
      SameViewsAreEqual(e, a);
    }
  }

  // ---- deeper documents: leaves below the limit are not compared ----

  function Nested(n: nat, leaf: Json): Json {
    if n == 0 then leaf else Arr([Nested(n - 1, leaf)])
  }

  function NestedPath(n: nat): seq<string> {
    if n == 0 then [] else [IndexSegment(0)] + NestedPath(n - 1)
  }

  lemma {:induction false} NestedLookup(n: nat, leaf: Json)
    ensures Lookup(Nested(n, leaf), NestedPath(n)) == Some(leaf) && |NestedPath(n)| == n
  {
    if n > 0 {
      ChildAt([Nested(n - 1, leaf)], 0);
      assert NestedPath(n)[1..] == NestedPath(n - 1);
      NestedLookup(n - 1, leaf);
    }
  }

  lemma {:induction false} NestedDiff(at: seq<string>, n: nat, x: Json, y: Json)
    requires x.Str? && y.Str? && |at| + n == MAX_DEPTH + 1
    ensures Diff([], at, Nested(n, x), Nested(n, y)) == []
    decreases n
  {
    if n > 0 {
      ChildAt([Nested(n - 1, x)], 0);
      ChildAt([Nested(n - 1, y)], 0);
      var e, a := Nested(n, x), Nested(n, y);
      var segs := ChildSegments(e, a);
      assert segs == [IndexSegment(0)];
      NestedDiff(at + segs, n - 1, x, y);
      assert DiffChildren([], at, e, a, segs, 1)
          == DiffChildren([], at, e, a, segs, 0) + DiffChild([], at, e, a, segs[0]);
    }
  }

  /** The promise of the shallow case fails 65 segments down: two documents whose only leaves differ
      there, with nothing ignored, have no listed change. */
  lemma {:induction false} DeepLeafIsNotCompared()
    ensures var e, a := Nested(MAX_DEPTH + 1, Str("a")), Nested(MAX_DEPTH + 1, Str("b"));
            && Diff([], [], e, a) == []
            && ViewAt(e, NestedPath(MAX_DEPTH + 1)) != ViewAt(a, NestedPath(MAX_DEPTH + 1))
  {
    NestedDiff([], MAX_DEPTH + 1, Str("a"), Str("b"));
    NestedLookup(MAX_DEPTH + 1, Str("a"));
    NestedLookup(MAX_DEPTH + 1, Str("b"));
  }

  // ---- no change lies below another ----

  ghost predicate DistinctPaths(d: seq<Change>) {
    forall i, j :: 0 <= i < j < |d| ==> d[i].path != d[j].path
  }

  lemma {:induction false} PathsDistinct(ignore: seq<seq<string>>, at: seq<string>, e: Json, a: Json)
    requires |at| <= MAX_DEPTH + 1
    ensures DistinctPaths(Diff(ignore, at, e, a))
    decreases e, 1, 0
  {
    if KindOf(e) == KindOf(a) && IsContainer(e) && |at| <= MAX_DEPTH {
      var segs := ChildSegments(e, a);
      ChildSegmentsAre(e, a);
      ChildPathsDistinct(ignore, at, e, a, segs, |segs|);
    }
  }

  lemma {:induction false} ChildPathsExtend(ignore: seq<seq<string>>, at: seq<string>, e: Json, a: Json, seg: string,
                                            c: Change)
    requires |at| <= MAX_DEPTH && c in DiffChild(ignore, at, e, a, seg)
    ensures at + [seg] <= c.path
  {
    if Child(e, seg).Some? && Child(a, seg).Some? {
      ListedIsFirst(ignore, at + [seg], Child(e, seg).value, Child(a, seg).value, c);
    }
  }

  lemma {:induction false} ChildPathsDistinct(ignore: seq<seq<string>>, at: seq<string>, e: Json, a: Json,
                                              segs: seq<string>, n: nat)
    requires |at| <= MAX_DEPTH && n <= |segs| && NoDuplicates(segs)
    ensures DistinctPaths(DiffChildren(ignore, at, e, a, segs, n))
    decreases e, 0, n
  {
    if n > 0 {
      var seg := segs[n - 1];
      var before, here := DiffChildren(ignore, at, e, a, segs, n - 1), DiffChild(ignore, at, e, a, seg);
      ChildPathsDistinct(ignore, at, e, a, segs, n - 1);
      if Child(e, seg).Some? && Child(a, seg).Some? {
        PathsDistinct(ignore, at + [seg], Child(e, seg).value, Child(a, seg).value);
      }
      forall i, j | 0 <= i < |before| && 0 <= j < |here| ensures before[i].path != here[j].path {
        assert before[i] in before && here[j] in here;
        MembersOfChildren(ignore, at, e, a, segs, n - 1, before[i]);
        var k :| 0 <= k < n - 1 && before[i] in DiffChild(ignore, at, e, a, segs[k]);
        ChildPathsExtend(ignore, at, e, a, segs[k], before[i]);
        ChildPathsExtend(ignore, at, e, a, seg, here[j]);
        assert before[i].path[|at|] == segs[k] && here[j].path[|at|] == seg;
      }
    }
  }

  /** No listed path is a prefix of another listed path. */
  lemma {:induction false} PathsPrefixFree(ignore: seq<seq<string>>, e: Json, a: Json, i: nat, j: nat)
    requires i < |Diff(ignore, [], e, a)| && j < |Diff(ignore, [], e, a)| && i != j
    ensures !(Diff(ignore, [], e, a)[i].path <= Diff(ignore, [], e, a)[j].path)
  {
    var d := Diff(ignore, [], e, a);
    var p, q := d[i].path, d[j].path;
    PathsDistinct(ignore, [], e, a);
    assert p != q by {
      assert i < j ==> d[i].path != d[j].path;
      assert j < i ==> d[j].path != d[i].path;
    }
    DiffMembers(ignore, e, a, d[i]);
    DiffMembers(ignore, e, a, d[j]);
    assert |p| < |q| ==> ChangeAt([], e, a, q[..|p|]).None?;
    TakePrefix(p, q);
  }

  lemma {:induction false} TakePrefix<T>(p: seq<T>, q: seq<T>)
    ensures p <= q ==> q[..|p|] == p && (p == q || |p| < |q|)
  {}

  // ---- one more pattern removes exactly what it covers ----

  function Uncovered(pat: seq<string>, d: seq<Change>): seq<Change> {
    if d == [] then []
    else (if Covers(pat, d[0].path) then [] else [d[0]]) + Uncovered(pat, d[1..])
  }

  lemma {:induction false} UncoveredConcat(pat: seq<string>, d: seq<Change>, d': seq<Change>)
    ensures Uncovered(pat, d + d') == Uncovered(pat, d) + Uncovered(pat, d')
    decreases |d|
  {
    if d == [] {
      assert d + d' == d';
    } else {
      assert (d + d')[1..] == d[1..] + d';
      UncoveredConcat(pat, d[1..], d');
    }
  }

  lemma {:induction false} UncoveredNone(pat: seq<string>, d: seq<Change>)
    requires forall c :: c in d ==> Covers(pat, c.path)
    ensures Uncovered(pat, d) == []
    decreases |d|
  {
    if d != [] { UncoveredNone(pat, d[1..]); }
  }

  lemma {:induction false} UncoveredAll(pat: seq<string>, d: seq<Change>)
    requires forall c :: c in d ==> !Covers(pat, c.path)
    ensures Uncovered(pat, d) == d
    decreases |d|
  {
    if d != [] { UncoveredAll(pat, d[1..]); }
  }

  lemma {:induction false} IgnoredByOneMore(ignore: seq<seq<string>>, pat: seq<string>, path: seq<string>)
    ensures Ignored(ignore + [pat], path) <==> Ignored(ignore, path) || Covers(pat, path)
  {
    var more := ignore + [pat];
    if Ignored(ignore, path) {
      var i :| 0 <= i < |ignore| && Covers(ignore[i], path);
      assert more[i] == ignore[i];
    }
    assert more[|ignore|] == pat;
  }

  lemma {:induction false} OneMorePattern(ignore: seq<seq<string>>, pat: seq<string>, at: seq<string>, e: Json, a: Json)
    requires |at| <= MAX_DEPTH + 1
    ensures Diff(ignore + [pat], at, e, a) == Uncovered(pat, Diff(ignore, at, e, a))
    decreases e, 1, 0
  {
    IgnoredByOneMore(ignore, pat, at);
    var d := Diff(ignore, at, e, a);
    if Covers(pat, at) {
      forall c | c in d ensures Covers(pat, c.path) {
        ListedIsFirst(ignore, at, e, a, c);
      }
      UncoveredNone(pat, d);
    } else if KindOf(e) == KindOf(a) && IsContainer(e) && |at| <= MAX_DEPTH && !Ignored(ignore, at) {
      var segs := ChildSegments(e, a);
      OneMoreChildren(ignore, pat, at, e, a, segs, |segs|);
    }
  }

  lemma {:induction false} OneMoreChildren(ignore: seq<seq<string>>, pat: seq<string>, at: seq<string>, e: Json,
                                           a: Json, segs: seq<string>, n: nat)
    requires |at| <= MAX_DEPTH && n <= |segs|
    ensures DiffChildren(ignore + [pat], at, e, a, segs, n) == Uncovered(pat, DiffChildren(ignore, at, e, a, segs, n))
    decreases e, 0, n
  {
    if n > 0 {
      var seg := segs[n - 1];
      OneMoreChildren(ignore, pat, at, e, a, segs, n - 1);
      UncoveredConcat(pat, DiffChildren(ignore, at, e, a, segs, n - 1), DiffChild(ignore, at, e, a, seg));
      if Child(e, seg).Some? && Child(a, seg).Some? {
        OneMorePattern(ignore, pat, at + [seg], Child(e, seg).value, Child(a, seg).value);
      } else {
        IgnoredByOneMore(ignore, pat, at + [seg]);
      }
    }
  }
}
