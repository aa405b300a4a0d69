/**
 Feeding the printed path of a listed change back as an ignore path: exactly which changes it removes,
 and exactly for which paths it removes that change and no other, whatever the documents.
 */
module JsonFeedback {
  import opened Text
  import opened JsonPath
  import opened JsonDiff
  import opened JsonDiffTheorems

  // ---- one more pattern, exactly ----

  lemma {:induction false} UncoveredMembers(pat: seq<string>, d: seq<Change>, c: Change)
    ensures c in Uncovered(pat, d) <==> c in d && !Covers(pat, c.path)
    decreases |d|
  {
    if d != [] {
      UncoveredMembers(pat, d[1..], c);
      assert d == [d[0]] + d[1..];
    }
  }

  lemma {:induction false} UncoveredOne(pat: seq<string>, d: seq<Change>, i: nat)
    requires i < |d| && forall j :: 0 <= j < |d| ==> (Covers(pat, d[j].path) <==> j == i)
    ensures Uncovered(pat, d) == d[..i] + d[i + 1..]
  {
    var before, after := d[..i], d[i + 1..];
    forall c | c in before ensures !Covers(pat, c.path) {
      var k :| 0 <= k < |before| && before[k] == c;
      assert d[k] == c;
    }
    forall c | c in after ensures !Covers(pat, c.path) {
      var k :| 0 <= k < |after| && after[k] == c;
      assert d[i + 1 + k] == c;
    }
    assert d == before + ([d[i]] + after);
    UncoveredAround(pat, before, d[i], after);
  }

  lemma {:induction false} UncoveredAround(pat: seq<string>, before: seq<Change>, c: Change, after: seq<Change>)
    requires Covers(pat, c.path)
    requires forall x :: x in before || x in after ==> !Covers(pat, x.path)
    ensures Uncovered(pat, before + ([c] + after)) == before + after
  {
    UncoveredConcat(pat, before, [c] + after);
    UncoveredAll(pat, before);
    UncoveredAfter(pat, c, after);
  }

  lemma {:induction false} UncoveredAfter(pat: seq<string>, c: Change, after: seq<Change>)
    requires Covers(pat, c.path)
    requires forall x :: x in after ==> !Covers(pat, x.path)
    ensures Uncovered(pat, [c] + after) == after
  {
    UncoveredConcat(pat, [c], after);
    UncoveredAll(pat, after);
    UncoveredNone(pat, [c]);
    assert [] + after == after;
  }

  lemma {:induction false} UncoveredExactly(pat: seq<string>, d: seq<Change>, i: nat)
    requires DistinctPaths(d) && i < |d| && Uncovered(pat, d) == d[..i] + d[i + 1..]
    ensures forall j :: 0 <= j < |d| ==> (Covers(pat, d[j].path) <==> j == i)
  {
    var rest := d[..i] + d[i + 1..];
    OthersDiffer(d, i);
    forall j | 0 <= j < |d|
      ensures Covers(pat, d[j].path) <==> j == i
    {
      UncoveredMembers(pat, d, d[j]);
      if j < i {
        assert rest[j] == d[j];
      } else if j > i {
        assert rest[j - 1] == d[j];
      }
    }
  }

  lemma {:induction false} OthersDiffer(d: seq<Change>, i: nat)
    requires DistinctPaths(d) && i < |d|
    ensures d[i] !in d[..i] + d[i + 1..]
  {}

  /** One more pattern removes one listed change and no other exactly when it covers its path and no other. */
  lemma {:induction false} RemovesOneExactly(ignore: seq<seq<string>>, pat: seq<string>, e: Json, a: Json, i: nat)
    requires i < |Diff(ignore, [], e, a)|
    ensures var d := Diff(ignore, [], e, a);
            Diff(ignore + [pat], [], e, a) == d[..i] + d[i + 1..] <==>
            forall j :: 0 <= j < |d| ==> (Covers(pat, d[j].path) <==> j == i)
  {
    var d := Diff(ignore, [], e, a);
    OneMorePattern(ignore, pat, [], e, a);
    PathsDistinct(ignore, [], e, a);
    if Uncovered(pat, d) == d[..i] + d[i + 1..] {
      UncoveredExactly(pat, d, i);
    }
    if forall j :: 0 <= j < |d| ==> (Covers(pat, d[j].path) <==> j == i) {
      UncoveredOne(pat, d, i);
    }
  }

  // ---- printed paths as ignore paths ----

  lemma {:induction false} PatternsSnoc(ignorePaths: seq<string>, text: string)
    ensures Patterns(ignorePaths + [text]) == Patterns(ignorePaths) + [Pattern(text)]
  {
    assert (ignorePaths + [text])[..|ignorePaths|] == ignorePaths;
  }

  /** The i-th change is listed at the path. */
  ghost predicate ListedAt(ignore: seq<seq<string>>, e: Json, a: Json, i: nat, path: seq<string>) {
    i < |Diff(ignore, [], e, a)| && Diff(ignore, [], e, a)[i].path == path
  }

  /** One more pattern takes the i-th change from the list and keeps all others, in order. */
  ghost predicate TakesOut(ignore: seq<seq<string>>, pat: seq<string>, e: Json, a: Json, i: nat)
    requires i < |Diff(ignore, [], e, a)|
  {
    Diff(ignore + [pat], [], e, a) == Diff(ignore, [], e, a)[..i] + Diff(ignore, [], e, a)[i + 1..]
  }

  /** A document the comparison is given: its text begins with a brace or a bracket. */
  predicate Receivable(v: Json) {
    IsContainer(v)
  }

  /** Whatever the documents given and the patterns so far, the pattern takes out the change at the path. */
  ghost predicate AlwaysTakesOut(pat: seq<string>, path: seq<string>) {
    forall ignore, e, a, i :: Receivable(e) && Receivable(a) && ListedAt(ignore, e, a, i, path) ==>
      TakesOut(ignore, pat, e, a, i)
  }

  /** A path that means itself when it is printed and read back as a pattern, and is not the root. */
  predicate Survives(p: seq<string>) {
    p != [] && !HasWildcard(p) && WellFormed(p) && CleanEdges(RenderPath(p))
  }

  lemma {:induction false} SurvivesExactly(p: seq<string>)
    ensures Survives(p) <==> p != [] && !HasWildcard(p) && Pattern(RenderPath(p)) == p
  {
    PatternOfRenderedPath(p);
  }

  lemma {:induction false} PathTakesItselfOut(path: seq<string>, ignore: seq<seq<string>>, e: Json, a: Json, i: nat)
    requires path != [] && !HasWildcard(path) && ListedAt(ignore, e, a, i, path)
    ensures TakesOut(ignore, path, e, a, i)
  {
    var d := Diff(ignore, [], e, a);
    forall j | 0 <= j < |d| ensures Covers(path, d[j].path) <==> j == i {
      CoversExtensions(path, d[j].path);
      if j != i { PathsPrefixFree(ignore, e, a, i, j); }
    }
    RemovesOneExactly(ignore, path, e, a, i);
  }

  // ---- documents that show a failure ----

  /** A value under a chain of keys. */
  function Nest(path: seq<string>, v: Json): Json {
    if path == [] then v else Obj(map[path[0] := Nest(path[1..], v)])
  }

  /** The value at the path, and again under another key k segments down. */
  function Forked(path: seq<string>, k: nat, other: string, v: Json): Json
    requires k < |path|
  {
    if k == 0 then Obj(map[path[0] := Nest(path[1..], v), other := Nest(path[1..], v)])
    else Obj(map[path[0] := Forked(path[1..], k - 1, other, v)])
  }

  lemma {:induction false} NestLookup(path: seq<string>, v: Json, n: nat)
    requires n <= |path|
    ensures Lookup(Nest(path, v), path[..n]) == Some(Nest(path[n..], v))
    decreases |path|
  {
    if n > 0 {
      assert path[..n][1..] == path[1..][..n - 1];
      NestLookup(path[1..], v, n - 1);
      assert path[1..][n - 1..] == path[n..];
    } else {
      assert path[0..] == path;
    }
  }

  /** What a fork has below the first n segments of either path. */
  function ForkBelow(path: seq<string>, k: nat, other: string, v: Json, n: nat): Json
    requires k < |path| && n <= |path|
  {
    if n <= k then Forked(path[n..], k - n, other, v) else Nest(path[n..], v)
  }

  lemma {:induction false} ForkBelowFirst(path: seq<string>, k: nat, other: string, v: Json, n: nat)
    requires 0 < k < |path| && 0 < n <= |path|
    ensures ForkBelow(path[1..], k - 1, other, v, n - 1) == ForkBelow(path, k, other, v, n)
  {
    assert path[1..][n - 1..] == path[n..];
  }

  lemma {:induction false} ForkedLookup(path: seq<string>, k: nat, other: string, v: Json, n: nat)
    requires k < |path| && n <= |path| && other != path[k]
    ensures Lookup(Forked(path, k, other, v), path[..n]) == Some(ForkBelow(path, k, other, v, n))
    decreases |path|
  {
    if n == 0 {
      assert path[0..] == path;
    } else {
      assert path[..n][1..] == path[1..][..n - 1];
      if k == 0 {
        NestLookup(path[1..], v, n - 1);
        assert path[1..][n - 1..] == path[n..];
      } else {
        ForkedLookup(path[1..], k - 1, other, v, n - 1);
        ForkBelowFirst(path, k, other, v, n);
      }
    }
  }

  lemma {:induction false} ForkedLookupOther(path: seq<string>, k: nat, other: string, v: Json, n: nat)
    requires k < |path| && n <= |path| && other != path[k]
    ensures Lookup(Forked(path, k, other, v), path[k := other][..n]) == Some(ForkBelow(path, k, other, v, n))
    decreases |path|
  {
    var path' := path[k := other];
    if n == 0 {
      assert path[0..] == path;
    } else if k == 0 {
      assert path'[..n][1..] == path[1..][..n - 1];
      NestLookup(path[1..], v, n - 1);
      assert path[1..][n - 1..] == path[n..];
    } else {
      assert path'[..n][1..] == path[1..][k - 1 := other][..n - 1];
      ForkedLookupOther(path[1..], k - 1, other, v, n - 1);
      ForkBelowFirst(path, k, other, v, n);
    }
  }

  lemma {:induction false} ForkedLookups(path: seq<string>, k: nat, other: string, v: Json, p: seq<string>, n: nat)
    requires k < |path| && n <= |path| && other != path[k]
    requires p == path || p == path[k := other]
    ensures Lookup(Forked(path, k, other, v), p[..n]) == Some(ForkBelow(path, k, other, v, n))
  {
    if p == path {
      ForkedLookup(path, k, other, v, n);
    } else {
      ForkedLookupOther(path, k, other, v, n);
    }
  }

  /** A leaf is of one kind in the one document and of another in the other: the first change on either path. */
  lemma {:induction false} ForkedDiffers(path: seq<string>, k: nat, other: string, p: seq<string>)
    requires k < |path| <= MAX_DEPTH + 1 && other != path[k]
    requires p == path || p == path[k := other]
    ensures Change(p, TypeChanged, Some(Null), Some(Str(""))) in
            Diff([], [], Forked(path, k, other, Null), Forked(path, k, other, Str("")))
  {
    var e, a := Forked(path, k, other, Null), Forked(path, k, other, Str(""));
    var c := Change(p, TypeChanged, Some(Null), Some(Str("")));
    forall n | 0 <= n < |p|
      ensures BothContain(Lookup(e, p[..n]), Lookup(a, p[..n]))
    {
      ForkedLookups(path, k, other, Null, p, n);
      ForkedLookups(path, k, other, Str(""), p, n);
    }
    ForkedEnd(path, k, other, Null, p);
    ForkedEnd(path, k, other, Str(""), p);
    ListedExactly([], e, a, c);
  }

  lemma {:induction false} ForkedEnd(path: seq<string>, k: nat, other: string, v: Json, p: seq<string>)
    requires k < |path| && other != path[k]
    requires p == path || p == path[k := other]
    ensures Lookup(Forked(path, k, other, v), p) == Some(v)
  {
    ForkedLookups(path, k, other, v, p, |p|);
    assert p[..|p|] == p && path[|p|..] == [];
  }

  // ---- the exact condition ----

  /** A key that every pattern segment matches that matches the given one otherwise than by being it. */
  lemma {:induction false} LongerMatches(pat: string, seg: string)
    requires SegmentMatches(pat, seg) && (pat != seg || pat == "*" || pat == "[*]")
    ensures SegmentMatches(pat, seg + "x")
  {}

  /** A pattern that covers a path without being it, wildcards aside, covers another path forked off from it. */
  lemma {:induction false} CoversAnother(pat: seq<string>, path: seq<string>) returns (k: nat)
    requires Covers(pat, path) && (pat != path || HasWildcard(pat))
    ensures k < |path| && Covers(pat, path[k := path[k] + "x"])
  {
    if |pat| < |path| {
      k := |pat|;
    } else {
      k :| 0 <= k < |pat| && (pat[k] != path[k] || pat[k] == "*" || pat[k] == "[*]");
      LongerMatches(pat[k], path[k]);
    }
  }

  /** A pattern that is not the path itself, or has a wildcard, fails on some documents. */
  lemma {:induction false} FailsOnSome(pat: seq<string>, path: seq<string>) returns (e: Json, a: Json, i: nat)
    requires path != [] && |path| <= MAX_DEPTH + 1 && (pat != path || HasWildcard(pat))
    ensures Receivable(e) && Receivable(a) && ListedAt([], e, a, i, path) && !TakesOut([], pat, e, a, i)
  {
    var k := 0;
    if Covers(pat, path) {
      k := CoversAnother(pat, path);
    }
    var other := path[k] + "x";
    e, a := Forked(path, k, other, Null), Forked(path, k, other, Str(""));
    var d := Diff([], [], e, a);
    ForkedDiffers(path, k, other, path);
    ForkedDiffers(path, k, other, path[k := other]);
    i :| 0 <= i < |d| && d[i] == Change(path, TypeChanged, Some(Null), Some(Str("")));
    var j :| 0 <= j < |d| && d[j] == Change(path[k := other], TypeChanged, Some(Null), Some(Str("")));
    assert path[k := other][k] != path[k];
    RemovesOneExactly([], pat, e, a, i);
  }

  /** A change of kind at the root is listed under the empty path, and no pattern removes it. */
  lemma {:induction false} RootChangeCannotBeIgnored(ignore: seq<seq<string>>, pat: seq<string>, e: Json, a: Json)
    requires KindOf(e) != KindOf(a)
    ensures Diff(ignore, [], e, a) == [Change([], TypeChanged, Some(e), Some(a))]
    ensures Diff(ignore + [pat], [], e, a) == Diff(ignore, [], e, a)
  {
    IgnoredByOneMore(ignore, pat, []);
  }

  /** The printed root path reads back as the empty pattern, which covers nothing. */
  lemma {:induction false} RootPrintsEmpty()
    ensures Pattern(RenderPath([])) == []
  {
    PatternOfRenderedPath([]);
  }

  /** An object and an array are two documents whose change no pattern takes out. */
  lemma {:induction false} FailsAtRoot(pat: seq<string>) returns (e: Json, a: Json, i: nat)
    ensures e == Obj(map[]) && a == Arr([]) && ListedAt([], e, a, i, []) && !TakesOut([], pat, e, a, i)
  {
    e, a, i := Obj(map[]), Arr([]), 0;
    RootChangeCannotBeIgnored([], pat, e, a);
  }

  lemma {:induction false} NothingListedDeeper(path: seq<string>)
    requires |path| > MAX_DEPTH + 1
    ensures forall ignore, e, a, i :: !ListedAt(ignore, e, a, i, path)
  {
    forall ignore, e, a, i: nat ensures !ListedAt(ignore, e, a, i, path) {
      if i < |Diff(ignore, [], e, a)| {
        DiffMembers(ignore, e, a, Diff(ignore, [], e, a)[i]);
      }
    }
  }

  /** A pattern always takes out the change at a path exactly when it is that path, without wildcards and
      not the root, or no change is ever listed that deep. */
  lemma {:induction false} TakesOutExactly(pat: seq<string>, path: seq<string>)
    ensures AlwaysTakesOut(pat, path) <==> |path| > MAX_DEPTH + 1 || (path != [] && pat == path && !HasWildcard(path))
  {
    if |path| > MAX_DEPTH + 1 {
      NothingListedDeeper(path);
    } else if path == [] {
      var e, a, i := FailsAtRoot(pat);
    } else if pat == path && !HasWildcard(path) {
      forall ignore, e, a, i | Receivable(e) && Receivable(a) && ListedAt(ignore, e, a, i, path)
        ensures TakesOut(ignore, pat, e, a, i)
      {
        PathTakesItselfOut(path, ignore, e, a, i);
      }
    } else {
      var e, a, i := FailsOnSome(pat, path);
    }
  }

  /**
   Feeding the printed path of a listed change back as an ignore path removes that change and no other,
   whatever the documents given and the ignore paths so far, exactly when the path survives printing: its
   segments are of the three shapes the parser yields, none is a wildcard, there is nothing to trim at the
   edges of the text, and it is not the root.
   */
  lemma {:induction false} FeedbackExactly(path: seq<string>)
    requires |path| <= MAX_DEPTH + 1
    ensures AlwaysTakesOut(Pattern(RenderPath(path)), path) <==> Survives(path)
  {
    TakesOutExactly(Pattern(RenderPath(path)), path);
    SurvivesExactly(path);
  }

  /** The same of the ignore paths as they are written: the printed path is one more of them. */
  lemma {:induction false} FeedbackRemovesOne(ignorePaths: seq<string>, e: Json, a: Json, i: nat, printed: string)
    ensures var d := Diff(Patterns(ignorePaths), [], e, a);
            i < |d| && printed == RenderPath(d[i].path) && Survives(d[i].path) ==>
              Diff(Patterns(ignorePaths + [printed]), [], e, a) == d[..i] + d[i + 1..]
  {
    var d := Diff(Patterns(ignorePaths), [], e, a);
    PatternsSnoc(ignorePaths, printed);
    if i < |d| && printed == RenderPath(d[i].path) && Survives(d[i].path) {
      SurvivesExactly(d[i].path);
      PathTakesItselfOut(d[i].path, Patterns(ignorePaths), e, a, i);
    }
  }

  /** Of one comparison: the fed-back text removes the change and no other exactly when it covers its
      path and no other. */
  lemma {:induction false} FeedbackOfOneDiff(ignorePaths: seq<string>, e: Json, a: Json, i: nat, printed: string)
    requires i < |Diff(Patterns(ignorePaths), [], e, a)|
    ensures var d := Diff(Patterns(ignorePaths), [], e, a);
            Diff(Patterns(ignorePaths + [printed]), [], e, a) == d[..i] + d[i + 1..] <==>
            forall j :: 0 <= j < |d| ==> (Covers(Pattern(printed), d[j].path) <==> j == i)
  {
    PatternsSnoc(ignorePaths, printed);
    RemovesOneExactly(Patterns(ignorePaths), Pattern(printed), e, a, i);
  }
}
