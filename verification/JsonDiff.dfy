/**
 The structural comparison of two JSON documents: what a path looks up to in each, the change list
 as a function of the documents, and exactly which changes that list holds.
 */
module JsonDiff {
  import opened Sorting
  import opened Text
  import opened JsonPath

  const MAX_DEPTH: nat := 64

  datatype Json =
    | Null
    | Bool(value: bool)
    | Number(text: string)
    | Str(text: string)
    | Arr(items: seq<Json>)
    | Obj(fields: map<string, Json>)

  datatype Kind = ObjectKind | ArrayKind | StringKind | NumberKind | BooleanKind | NullKind

  function KindOf(v: Json): Kind {
    match v
    case Obj(_) => ObjectKind
    case Arr(_) => ArrayKind
    case Str(_) => StringKind
    case Number(_) => NumberKind
    case Bool(_) => BooleanKind
    case Null => NullKind
  }

  predicate IsContainer(v: Json) {
    v.Obj? || v.Arr?
  }

  function IndexSegment(i: nat): string {
    "[" + Itoa(i) + "]"
  }

  lemma {:induction false} IndexSegmentInjective(i: nat, j: nat)
    requires IndexSegment(i) == IndexSegment(j)
    ensures i == j
  {
    var s, t := IndexSegment(i), IndexSegment(j);
    assert s[1..|s| - 1] == Itoa(i) && t[1..|t| - 1] == Itoa(j);
    ItoaInjective(i, j);
  }

  // ---- looking paths up ----

  /** The value one segment leads to. */
  ghost function Child(v: Json, seg: string): (r: Option<Json>)
    ensures r.Some? ==> r.value < v && IsContainer(v)
  {
    match v
    case Obj(m) => if seg in m then Some(m[seg]) else None
    case Arr(s) =>
      if exists i: nat :: i < |s| && IndexSegment(i) == seg then
        var i: nat :| i < |s| && IndexSegment(i) == seg;
        Some(s[i])
      else None
    case _ => None
  }

  lemma {:induction false} ChildAt(s: seq<Json>, i: nat)
    ensures Child(Arr(s), IndexSegment(i)) == if i < |s| then Some(s[i]) else None
  {
    forall j: nat | IndexSegment(j) == IndexSegment(i) ensures j == i {
      IndexSegmentInjective(j, i);
    }
  }

  ghost function Lookup(v: Json, path: seq<string>): Option<Json>
    decreases |path|
  {
    if path == [] then Some(v)
    else
      match Child(v, path[0])
      case None => None
      case Some(c) => Lookup(c, path[1..])
  }

  /** What a reader of one document sees at a path. */
  datatype View = Absent | AnObject | AnArray | Leaf(value: Json)

  ghost function ViewAt(v: Json, path: seq<string>): View {
    match Lookup(v, path)
    case None => Absent
    case Some(Obj(_)) => AnObject
    case Some(Arr(_)) => AnArray
    case Some(x) => Leaf(x)
  }

  // ---- changes ----

  datatype ChangeKind = Removed | Added | TypeChanged | Changed

  datatype Change = Change(path: seq<string>, kind: ChangeKind, expected: Option<Json>, actual: Option<Json>)

  /**
   The change, if any, that path `at + r` shows when e and a are the subdocuments at `at`. Leaves
   are compared only down to MAX_DEPTH segments.
   */
  ghost function ChangeAt(at: seq<string>, e: Json, a: Json, r: seq<string>): Option<Change> {
    match (Lookup(e, r), Lookup(a, r))
    case (None, None) => None
    case (Some(x), None) => Some(Change(at + r, Removed, Some(x), None))
    case (None, Some(y)) => Some(Change(at + r, Added, None, Some(y)))
    case (Some(x), Some(y)) =>
      if KindOf(x) != KindOf(y) then Some(Change(at + r, TypeChanged, Some(x), Some(y)))
      else if |at + r| <= MAX_DEPTH && !IsContainer(x) && x != y then Some(Change(at + r, Changed, Some(x), Some(y)))
      else None
  }

  /** c is the first change on its branch, not ignored, and within reach of the walk. */
  ghost predicate IsFirstChange(ignore: seq<seq<string>>, at: seq<string>, e: Json, a: Json, r: seq<string>,
                                c: Change) {
    && c.path == at + r
    && !Ignored(ignore, c.path)
    && |c.path| <= MAX_DEPTH + 1
    && ChangeAt(at, e, a, r) == Some(c)
    && forall k :: 0 <= k < |r| ==> ChangeAt(at, e, a, r[..k]) == None
  }

  // ---- the walk, as a function ----

  /** The segments both documents' children are visited under, in order. */
  ghost function ChildSegments(e: Json, a: Json): seq<string>
    requires KindOf(e) == KindOf(a)
  {
    match e
    case Obj(m) =>
      LexStrictTotal(m.Keys + a.fields.Keys);
      Listing(LexLess, m.Keys + a.fields.Keys)
    case Arr(s) => seq(Longer(s, a.items), i requires 0 <= i => IndexSegment(i))
    case _ => []
  }

  function Longer<T>(s: seq<T>, t: seq<T>): nat {
    if |t| > |s| then |t| else |s|
  }

  ghost function Diff(ignore: seq<seq<string>>, at: seq<string>, e: Json, a: Json): seq<Change>
    decreases e, 2, 0
  {
    if Ignored(ignore, at) then []
    else if KindOf(e) != KindOf(a) then [Change(at, TypeChanged, Some(e), Some(a))]
    else if |at| > MAX_DEPTH then []
    else if IsContainer(e) then
      var segs := ChildSegments(e, a);
      DiffChildren(ignore, at, e, a, segs, |segs|)
    else if e != a then [Change(at, Changed, Some(e), Some(a))]
    else []
  }

  /** The changes below the first n child segments. */
  ghost function DiffChildren(ignore: seq<seq<string>>, at: seq<string>, e: Json, a: Json, segs: seq<string>,
                              n: nat): seq<Change>
    requires n <= |segs|
    decreases e, 1, n
  {
    if n == 0 then []
    else DiffChildren(ignore, at, e, a, segs, n - 1) + DiffChild(ignore, at, e, a, segs[n - 1])
  }

  ghost function DiffChild(ignore: seq<seq<string>>, at: seq<string>, e: Json, a: Json, seg: string): seq<Change>
    decreases e, 0, 0
  {
    var p := at + [seg];
    match (Child(e, seg), Child(a, seg))
    case (Some(x), Some(y)) => Diff(ignore, p, x, y)
    case (Some(x), None) => if Ignored(ignore, p) then [] else [Change(p, Removed, Some(x), None)]
    case (None, Some(y)) => if Ignored(ignore, p) then [] else [Change(p, Added, None, Some(y))]
    case (None, None) => []
  }

  lemma {:induction false} ChildSegmentsAre(e: Json, a: Json)
    requires KindOf(e) == KindOf(a)
    ensures NoDuplicates(ChildSegments(e, a))
    ensures forall s :: s in ChildSegments(e, a) <==> Child(e, s).Some? || Child(a, s).Some?
  {
    var segs := ChildSegments(e, a);
    match e {
      case Obj(m) =>
        LexStrictTotal(m.Keys + a.fields.Keys);
        assert Elems(segs) == m.Keys + a.fields.Keys;
        assert forall s :: s in segs <==> s in Elems(segs);
      case Arr(es) =>
        forall i, j | 0 <= i < j < |segs| ensures segs[i] != segs[j] {
          if segs[i] == segs[j] { IndexSegmentInjective(i, j); }
        }
        forall s | s in segs ensures Child(e, s).Some? || Child(a, s).Some? {
          var i :| 0 <= i < |segs| && segs[i] == s;
          ChildAt(es, i);
          ChildAt(a.items, i);
        }
        forall s | Child(e, s).Some? || Child(a, s).Some? ensures s in segs {
          var i: nat :| i < Longer(es, a.items) && IndexSegment(i) == s;
          assert segs[i] == s;
        }
      case _ =>
    }
  }

  // ---- which changes are listed ----

  /** The lookups below one segment are the lookups in the child. */
  lemma {:induction false} ChangeBelow(at: seq<string>, e: Json, a: Json, seg: string, r: seq<string>)
    ensures Child(e, seg).Some? && Child(a, seg).Some? ==>
              ChangeAt(at, e, a, [seg] + r) == ChangeAt(at + [seg], Child(e, seg).value, Child(a, seg).value, r)
    ensures Child(e, seg).None? && Child(a, seg).None? ==> ChangeAt(at, e, a, [seg] + r).None?
    ensures Child(e, seg).Some? && Child(a, seg).None? ==>
              var x := Lookup(Child(e, seg).value, r);
              ChangeAt(at, e, a, [seg] + r) == if x.None? then None else Some(Change(at + [seg] + r, Removed, x, None))
    ensures Child(e, seg).None? && Child(a, seg).Some? ==>
              var y := Lookup(Child(a, seg).value, r);
              ChangeAt(at, e, a, [seg] + r) == if y.None? then None else Some(Change(at + [seg] + r, Added, None, y))
  {
    assert ([seg] + r)[0] == seg && ([seg] + r)[1..] == r;
    assert at + ([seg] + r) == at + [seg] + r;
  }

  lemma {:induction false} MembersOfChildren(ignore: seq<seq<string>>, at: seq<string>, e: Json, a: Json,
                                             segs: seq<string>, n: nat, c: Change)
    requires n <= |segs|
    ensures c in DiffChildren(ignore, at, e, a, segs, n) <==>
            exists i :: 0 <= i < n && c in DiffChild(ignore, at, e, a, segs[i])
    decreases n
  {
    if n > 0 {
      MembersOfChildren(ignore, at, e, a, segs, n - 1, c);
    }
  }

  lemma {:induction false} BelowPrefix(at: seq<string>, r: seq<string>, path: seq<string>)
    requires path == at + r
    ensures at <= path && path[|at|..] == r
  {}

  /** A change listed at a path itself is the first one there. */
  lemma {:induction false} HereIsFirst(ignore: seq<seq<string>>, at: seq<string>, e: Json, a: Json, c: Change)
    requires |at| <= MAX_DEPTH + 1
    requires c in Diff(ignore, at, e, a) && !(KindOf(e) == KindOf(a) && IsContainer(e))
    ensures c.path == at + [] && IsFirstChange(ignore, at, e, a, [], c)
  {
    assert at + [] == at;
  }

  /** Every listed change is the first one on its branch. */
  lemma {:induction false} ListedIsFirst(ignore: seq<seq<string>>, at: seq<string>, e: Json, a: Json, c: Change)
    requires |at| <= MAX_DEPTH + 1
    requires c in Diff(ignore, at, e, a)
    ensures at <= c.path && IsFirstChange(ignore, at, e, a, c.path[|at|..], c)
    decreases e
  {
    if KindOf(e) == KindOf(a) && IsContainer(e) {
      var seg := ListedUnder(ignore, at, e, a, c);
      var rest := [];
      if Child(e, seg).Some? && Child(a, seg).Some? {
        ListedIsFirst(ignore, at + [seg], Child(e, seg).value, Child(a, seg).value, c);
        rest := c.path[|at + [seg]|..];
        assert c.path == at + [seg] + rest;
      } else {
        assert at + [seg] + [] == at + [seg];
      }
      FirstChangeAbove(ignore, at, e, a, seg, rest, c);
      assert c.path == at + ([seg] + rest);
      BelowPrefix(at, [seg] + rest, c.path);
    } else {
      HereIsFirst(ignore, at, e, a, c);
      BelowPrefix(at, [], c.path);
    }
  }

  /** A change listed for two containers is listed under one of their child segments. */
  lemma {:induction false} ListedUnder(ignore: seq<seq<string>>, at: seq<string>, e: Json, a: Json, c: Change)
      returns (seg: string)
    requires KindOf(e) == KindOf(a) && IsContainer(e) && c in Diff(ignore, at, e, a)
    ensures |at| <= MAX_DEPTH && c in DiffChild(ignore, at, e, a, seg)
    ensures Child(e, seg).Some? || Child(a, seg).Some?
  {
    var segs := ChildSegments(e, a);
    MembersOfChildren(ignore, at, e, a, segs, |segs|, c);
    var i :| 0 <= i < |segs| && c in DiffChild(ignore, at, e, a, segs[i]);
    seg := segs[i];
  }

  /** A first change of a child, or the absence of a child on one side, is a first change of the parent. */
  lemma {:induction false} FirstChangeAbove(ignore: seq<seq<string>>, at: seq<string>, e: Json, a: Json, seg: string,
                                            rest: seq<string>, c: Change)
    requires KindOf(e) == KindOf(a) && IsContainer(e) && |at| <= MAX_DEPTH
    requires Child(e, seg).Some? || Child(a, seg).Some?
    requires if Child(e, seg).Some? && Child(a, seg).Some? then
               IsFirstChange(ignore, at + [seg], Child(e, seg).value, Child(a, seg).value, rest, c)
             else rest == [] && c in DiffChild(ignore, at, e, a, seg)
    ensures IsFirstChange(ignore, at, e, a, [seg] + rest, c)
  {
    var r := [seg] + rest;
    assert at + r == at + [seg] + rest;
    ChangeBelow(at, e, a, seg, rest);
    forall k | 0 <= k < |r| ensures ChangeAt(at, e, a, r[..k]) == None {
      if k > 0 {
        assert r[..k] == [seg] + rest[..k - 1];
        ChangeBelow(at, e, a, seg, rest[..k - 1]);
      }
    }
  }

  /** A first change below the root is a first change of the child it lies in, or the child itself. */
  lemma {:induction false} FirstChangeBelow(ignore: seq<seq<string>>, at: seq<string>, e: Json, a: Json, seg: string,
                                            rest: seq<string>, c: Change)
    requires IsFirstChange(ignore, at, e, a, [seg] + rest, c)
    ensures KindOf(e) == KindOf(a) && |at| <= MAX_DEPTH
    ensures Child(e, seg).Some? || Child(a, seg).Some?
    ensures if Child(e, seg).Some? && Child(a, seg).Some? then
              IsFirstChange(ignore, at + [seg], Child(e, seg).value, Child(a, seg).value, rest, c)
            else c in DiffChild(ignore, at, e, a, seg)
  {
    var r := [seg] + rest;
    assert at + r == at + [seg] + rest;
    assert r[..0] == [] && ChangeAt(at, e, a, r[..0]) == None;
    ChangeBelow(at, e, a, seg, rest);
    if Child(e, seg).Some? && Child(a, seg).Some? {
      forall k | 0 <= k < |rest|
        ensures ChangeAt(at + [seg], Child(e, seg).value, Child(a, seg).value, rest[..k]) == None
      {
        assert r[..k + 1] == [seg] + rest[..k];
        ChangeBelow(at, e, a, seg, rest[..k]);
      }
    } else {
      ChangeBelow(at, e, a, seg, []);
      assert r[..1] == [seg] + [] && at + [seg] + [] == at + [seg];
      assert ChangeAt(at, e, a, r[..1]).Some?;
      assert r == [seg] + [];
    }
  }

  /** Every first change is listed. */
  lemma {:induction false} FirstIsListed(ignore: seq<seq<string>>, at: seq<string>, e: Json, a: Json, r: seq<string>,
                                         c: Change)
    requires IsFirstChange(ignore, at, e, a, r, c)
    ensures c in Diff(ignore, at, e, a)
    decreases e
  {
    assert at + [] == at;
    if Ignored(ignore, at) {
      IgnoredBelow(ignore, at, c.path);
    } else if r != [] {
      var seg, rest := r[0], r[1..];
      assert r == [seg] + rest;
      FirstChangeBelow(ignore, at, e, a, seg, rest, c);
      if Child(e, seg).Some? && Child(a, seg).Some? {
        FirstIsListed(ignore, at + [seg], Child(e, seg).value, Child(a, seg).value, rest, c);
      }
      assert c in DiffChild(ignore, at, e, a, seg);
      ChildSegmentsAre(e, a);
      var segs := ChildSegments(e, a);
      var i :| 0 <= i < |segs| && segs[i] == seg;
      MembersOfChildren(ignore, at, e, a, segs, |segs|, c);
    }
  }

  /**
   The change list of two documents holds exactly the first change on each branch that no pattern
   covers: presence, kind or leaf differ there as the change says, and nothing differs above it.
   */
  lemma {:induction false} DiffMembers(ignore: seq<seq<string>>, e: Json, a: Json, c: Change)
    ensures c in Diff(ignore, [], e, a) <==> IsFirstChange(ignore, [], e, a, c.path, c)
  {
    assert [] + c.path == c.path;
    if c in Diff(ignore, [], e, a) {
      ListedIsFirst(ignore, [], e, a, c);
      assert c.path[0..] == c.path;
    }
    if IsFirstChange(ignore, [], e, a, c.path, c) {
      FirstIsListed(ignore, [], e, a, c.path, c);
    }
  }

  // ---- the same, said of the two values at the path ----

  /** Values of one kind. */
  predicate SameShape(x: Json, y: Json) {
    || (x.Obj? && y.Obj?) || (x.Arr? && y.Arr?) || (x.Str? && y.Str?) || (x.Number? && y.Number?)
    || (x.Bool? && y.Bool?) || (x.Null? && y.Null?)
  }

  /** Two objects, or two arrays. */
  predicate BothContain(x: Option<Json>, y: Option<Json>) {
    && x.Some? && y.Some?
    && ((x.value.Obj? && y.value.Obj?) || (x.value.Arr? && y.value.Arr?))
  }

  /** The change is the one the two values at its path make, with leaves compared down to 64 segments. */
  predicate Tells(x: Option<Json>, y: Option<Json>, c: Change) {
    && c.expected == x && c.actual == y
    && match c.kind
       case Removed => x.Some? && y.None?
       case Added => x.None? && y.Some?
       case TypeChanged => x.Some? && y.Some? && !SameShape(x.value, y.value)
       case Changed =>
         && x.Some? && y.Some? && SameShape(x.value, y.value) && !BothContain(x, y)
         && x.value != y.value && |c.path| <= 64
  }

  lemma {:induction false} TellsExactly(e: Json, a: Json, c: Change)
    ensures ChangeAt([], e, a, c.path) == Some(c) <==> Tells(Lookup(e, c.path), Lookup(a, c.path), c)
  {
    assert [] + c.path == c.path;
    if Lookup(e, c.path).Some? && Lookup(a, c.path).Some? {
      KindsExactly(Lookup(e, c.path).value, Lookup(a, c.path).value);
    }
  }

  lemma {:induction false} KindsExactly(x: Json, y: Json)
    ensures KindOf(x) == KindOf(y) <==> SameShape(x, y)
  {}

  lemma {:induction false} LookupAbove(v: Json, p: seq<string>, k: nat)
    requires k < |p| && Lookup(v, p).Some?
    ensures Lookup(v, p[..k]).Some? && IsContainer(Lookup(v, p[..k]).value)
    decreases k
  {
    if k > 0 {
      assert p[..k][1..] == p[1..][..k - 1];
      LookupAbove(Child(v, p[0]).value, p[1..], k - 1);
    }
  }

  lemma {:induction false} NoChangeAbove(e: Json, a: Json, p: seq<string>, k: nat)
    requires k < |p| && (Lookup(e, p).Some? || Lookup(a, p).Some?)
    ensures ChangeAt([], e, a, p[..k]).None? <==> BothContain(Lookup(e, p[..k]), Lookup(a, p[..k]))
  {
    if Lookup(e, p).Some? { LookupAbove(e, p, k); }
    if Lookup(a, p).Some? { LookupAbove(a, p, k); }
    if Lookup(e, p[..k]).Some? && Lookup(a, p[..k]).Some? {
      KindsExactly(Lookup(e, p[..k]).value, Lookup(a, p[..k]).value);
    }
  }

  /** Above the path there are two objects or two arrays all the way. */
  ghost predicate ContainAbove(e: Json, a: Json, p: seq<string>) {
    forall k :: 0 <= k < |p| ==> BothContain(Lookup(e, p[..k]), Lookup(a, p[..k]))
  }

  /**
   No pattern covers the path, which has at most 65 segments; both documents have objects or both arrays
   everywhere above it; and the change says what the two values there are: one missing, two of different
   kinds, or two leaves of one kind that are not equal.
   */
  ghost predicate IsDifference(ignore: seq<seq<string>>, e: Json, a: Json, c: Change) {
    && !Ignored(ignore, c.path) && |c.path| <= 65
    && ContainAbove(e, a, c.path)
    && Tells(Lookup(e, c.path), Lookup(a, c.path), c)
  }

  /** The change list of two documents holds exactly their differences. */
  lemma {:induction false} ListedExactly(ignore: seq<seq<string>>, e: Json, a: Json, c: Change)
    ensures c in Diff(ignore, [], e, a) <==> IsDifference(ignore, e, a, c)
  {
    var p := c.path;
    DiffMembers(ignore, e, a, c);
    TellsExactly(e, a, c);
    assert [] + p == p;
    if Lookup(e, p).Some? || Lookup(a, p).Some? {
      forall k | 0 <= k < |p|
        ensures ChangeAt([], e, a, p[..k]).None? <==> BothContain(Lookup(e, p[..k]), Lookup(a, p[..k]))
      {
        NoChangeAbove(e, a, p, k);
      }
    }
  }
}
