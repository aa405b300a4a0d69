/**
 Paths into a JSON document: the text a path is printed as, the pattern such text is read back as,
 and which paths a pattern covers.
 */
module JsonPath {
  import opened Text

  // ---- printing ----

  /** The separator the printer writes before a segment that is not the first. */
  function Separator(seg: string): string {
    if HasPrefix(seg, "[") then "" else "."
  }

  function RenderTail(path: seq<string>): string {
    if path == [] then "" else Separator(path[0]) + path[0] + RenderTail(path[1..])
  }

  function RenderPath(path: seq<string>): string {
    if path == [] then "" else path[0] + RenderTail(path[1..])
  }

  // ---- parsing ----

  function Flush(cur: string): seq<string> {
    if cur == "" then [] else [cur]
  }

  /** The segments of pattern text s, when cur is the segment read so far. */
  function Segments(s: string, cur: string): seq<string>
    decreases |s|
  {
    if s == "" then Flush(cur)
    else if s[0] == '.' then Flush(cur) + Segments(s[1..], "")
    else if s[0] == '[' then
      var j := IndexOf(s, ']');
      if j < 0 then Flush(cur) + [s]
      else Flush(cur) + [s[..j + 1]] + Segments(s[j + 1..], "")
    else Segments(s[1..], cur + [s[0]])
  }

  /** White space and one leading '$' do not belong to a pattern. */
  function Trimmed(p: string): string {
    var t := TrimSpace(p);
    TrimSpace(if HasPrefix(t, "$") then t[1..] else t)
  }

  function Pattern(p: string): seq<string> {
    Segments(Trimmed(p), "")
  }

  function Patterns(ignorePaths: seq<string>): seq<seq<string>> {
    if ignorePaths == [] then []
    else Patterns(ignorePaths[..|ignorePaths| - 1]) + [Pattern(ignorePaths[|ignorePaths| - 1])]
  }

  method ParsePatterns(ignorePaths: seq<string>) returns (pats: seq<seq<string>>)
    ensures pats == Patterns(ignorePaths)
  {
    pats := [];
    for i := 0 to |ignorePaths|
      invariant pats == Patterns(ignorePaths[..i])
    {
      assert ignorePaths[..i + 1][..i] == ignorePaths[..i];
      var p := ParsePattern(ignorePaths[i]);
      pats := pats + [p];
    }
    assert ignorePaths[..|ignorePaths|] == ignorePaths;
  }

  /** Trims blanks and one dollar sign, then scans. */
  method ParsePattern(text: string) returns (seg: seq<string>)
    ensures seg == Pattern(text)
  {
    var p := TrimSpace(text);
    if HasPrefix(p, "$") {
      p := p[1..];
    }
    p := TrimSpace(p);
    seg := ScanSegments(p);
  }

  method ScanSegments(p: string) returns (seg: seq<string>)
    ensures seg == Segments(p, "")
  {
    seg := [];
    var cur := "";
    var i := 0;
    assert p[0..] == p;
    while i < |p|
      invariant 0 <= i <= |p|
      invariant Segments(p, "") == seg + Segments(p[i..], cur)
    {
      ScanStep(p, i, cur, seg);
      if p[i] == '.' {
        seg, cur := seg + Flush(cur), "";
      } else if p[i] == '[' {
        seg, cur := seg + Flush(cur), "";
        var j := IndexOf(p[i..], ']');
        if j < 0 {
          cur := p[i..];
          i := |p|;
          break;
        }
        seg := seg + [p[i..][..j + 1]];
        i := i + j;
      } else {
        cur := cur + [p[i]];
      }
      i := i + 1;
    }
    seg := seg + Flush(cur);
  }

  /** One round of the scan at character i, after the segments seg. */
  lemma {:induction false} ScanStep(p: string, i: nat, cur: string, seg: seq<string>)
    requires i < |p|
    ensures p[i] == '.' ==> seg + Segments(p[i..], cur) == seg + Flush(cur) + Segments(p[i + 1..], "")
    ensures p[i] == '[' ==>
              var j := IndexOf(p[i..], ']');
              seg + Segments(p[i..], cur) == if j < 0 then seg + Flush(cur) + Flush(p[i..])
                                             else seg + Flush(cur) + [p[i..][..j + 1]] + Segments(p[i + j + 1..], "")
    ensures p[i] != '.' && p[i] != '[' ==> Segments(p[i..], cur) == Segments(p[i + 1..], cur + [p[i]])
  {
    var rest := p[i..];
    SegmentsStep(rest, cur);
    assert rest[1..] == p[i + 1..];
    if p[i] == '[' {
      var j := IndexOf(rest, ']');
      if j >= 0 {
        assert p[i + j + 1..] == rest[j + 1..];
        Regroup(seg, Flush(cur) + [rest[..j + 1]], Segments(rest[j + 1..], ""));
        Regroup(seg, Flush(cur), [rest[..j + 1]]);
      } else {
        Regroup(seg, Flush(cur), [rest]);
      }
    } else {
      Regroup(seg, Flush(cur), Segments(rest[1..], ""));
    }
  }

  /** One character of the scan. */
  lemma {:induction false} SegmentsStep(s: string, cur: string)
    requires s != ""
    ensures s[0] == '.' ==> Segments(s, cur) == Flush(cur) + Segments(s[1..], "")
    ensures s[0] == '[' ==>
              var j := IndexOf(s, ']');
              Segments(s, cur) == if j < 0 then Flush(cur) + [s]
                                  else Flush(cur) + [s[..j + 1]] + Segments(s[j + 1..], "")
    ensures s[0] != '.' && s[0] != '[' ==> Segments(s, cur) == Segments(s[1..], cur + [s[0]])
  {}

  lemma {:induction false} Regroup<T>(a: seq<T>, b: seq<T>, c: seq<T>)
    ensures a + (b + c) == a + b + c
  {}

  // ---- coverage ----

  predicate SegmentMatches(pat: string, seg: string) {
    if pat == "*" then true
    else if pat == "[*]" then HasPrefix(seg, "[")
    else pat == seg
  }

  /** A pattern covers a path when it matches a prefix of it; the empty pattern covers nothing. */
  predicate Covers(pat: seq<string>, path: seq<string>) {
    && 0 < |pat| <= |path|
    && forall i :: 0 <= i < |pat| ==> SegmentMatches(pat[i], path[i])
  }

  predicate Ignored(ignore: seq<seq<string>>, path: seq<string>) {
    exists i :: 0 <= i < |ignore| && Covers(ignore[i], path)
  }

  /** The loop of the source over the pattern's segments. */
  method CoversPath(pat: seq<string>, path: seq<string>) returns (b: bool)
    ensures b == Covers(pat, path)
  {
    if |pat| == 0 || |pat| > |path| {
      return false;
    }
    for i := 0 to |pat|
      invariant forall k :: 0 <= k < i ==> SegmentMatches(pat[k], path[k])
    {
      if pat[i] == "*" {
      } else if pat[i] == "[*]" {
        if !HasPrefix(path[i], "[") { return false; }
      } else if pat[i] != path[i] {
        return false;
      }
    }
    return true;
  }

  /** Segment by segment: a star stands for any, a bracketed star for any in brackets, and every other for itself. */
  lemma {:induction false} CoversExactly(pat: seq<string>, path: seq<string>)
    ensures Covers(pat, path) <==>
            && pat != [] && |pat| <= |path|
            && forall i :: 0 <= i < |pat| ==>
                 pat[i] == path[i] || pat[i] == "*" || (pat[i] == "[*]" && path[i] != "" && path[i][0] == '[')
  {
    forall i | 0 <= i < |pat| <= |path|
      ensures SegmentMatches(pat[i], path[i]) <==>
              pat[i] == path[i] || pat[i] == "*" || (pat[i] == "[*]" && path[i] != "" && path[i][0] == '[')
    {}
  }

  /** Ignoring a path ignores everything below it. */
  lemma {:induction false} IgnoredBelow(ignore: seq<seq<string>>, path: seq<string>, below: seq<string>)
    requires path <= below && Ignored(ignore, path)
    ensures Ignored(ignore, below)
  {
    var i :| 0 <= i < |ignore| && Covers(ignore[i], path);
    assert Covers(ignore[i], below);
  }

  predicate HasWildcard(path: seq<string>) {
    "*" in path || "[*]" in path
  }

  /** A path without wildcard segments, used as a pattern, covers exactly its extensions. */
  lemma {:induction false} CoversExtensions(path: seq<string>, other: seq<string>)
    requires path != [] && !HasWildcard(path)
    ensures Covers(path, other) <==> path <= other
  {
    assert forall i :: 0 <= i < |path| ==> path[i] in path;
    if path <= other {
      assert forall i :: 0 <= i < |path| ==> path[i] == other[i];
    }
    if Covers(path, other) {
      assert forall i :: 0 <= i < |path| ==> SegmentMatches(path[i], other[i]) && path[i] == other[i];
      assert other[..|path|] == path;
    }
  }

  // ---- the printed path is read back ----

  predicate Plain(seg: string) {
    seg != "" && '.' !in seg && '[' !in seg
  }

  /** "[...]" whose only closing bracket is its last character. */
  predicate Bracketed(seg: string) {
    |seg| >= 2 && seg[0] == '[' && seg[|seg| - 1] == ']' && ']' !in seg[..|seg| - 1]
  }

  /** An opening bracket that is never closed. */
  predicate Open(seg: string) {
    seg != "" && seg[0] == '[' && ']' !in seg
  }

  predicate WellFormed(path: seq<string>) {
    forall i :: 0 <= i < |path| ==> Plain(path[i]) || Bracketed(path[i]) || (i == |path| - 1 && Open(path[i]))
  }

  /** No white space at either end and no leading '$'. */
  predicate CleanEdges(s: string) {
    s == "" || (!IsSpace(s[0]) && s[0] != '$' && !IsSpace(s[|s| - 1]))
  }

  lemma {:induction false} PlainRun(seg: string, t: string, cur: string)
    requires '.' !in seg && '[' !in seg
    ensures Segments(seg + t, cur) == Segments(t, cur + seg)
    decreases |seg|
  {
    if seg == "" {
      assert seg + t == t && cur + seg == cur;
    } else {
      assert (seg + t)[1..] == seg[1..] + t;
      assert seg[0] in seg;
      assert cur + [seg[0]] + seg[1..] == cur + seg;
      PlainRun(seg[1..], t, cur + [seg[0]]);
    }
  }

  /** A printed tail starts with a character that ends the segment before it. */
  lemma {:induction false} TailEndsSegment(path: seq<string>, cur: string)
    requires WellFormed(path) && cur != ""
    ensures Segments(RenderTail(path), cur) == [cur] + Segments(RenderTail(path), "")
  {
    var t := RenderTail(path);
    if t != "" {
      assert t[0] == '.' || t[0] == '[';
      SegmentsStep(t, cur);
      SegmentsStep(t, "");
      if t[0] == '.' {
        assert Flush("") + Segments(t[1..], "") == Segments(t[1..], "");
      } else {
        var j := IndexOf(t, ']');
        FlushFirst(cur, if j < 0 then t else t[..j + 1], if j < 0 then [] else Segments(t[j + 1..], ""));
        assert j < 0 ==> Flush(cur) + [t] + [] == Flush(cur) + [t] && Flush("") + [t] + [] == Flush("") + [t];
      }
    }
  }

  lemma {:induction false} FlushFirst(cur: string, seg: string, rest: seq<string>)
    requires cur != ""
    ensures Flush(cur) + [seg] + rest == [cur] + (Flush("") + [seg] + rest)
  {}

  /** A printed tail is its first segment's text, after a dot unless that is a bracket, and the rest. */
  lemma {:induction false} TailText(path: seq<string>)
    requires path != []
    ensures HasPrefix(path[0], "[") ==> RenderTail(path) == RenderPath(path)
    ensures !HasPrefix(path[0], "[") ==> RenderTail(path) == ['.'] + RenderPath(path)
  {
    assert HasPrefix(path[0], "[") ==> "" + path[0] == path[0];
  }

  lemma {:induction false} SegmentsOfTail(path: seq<string>)
    requires WellFormed(path)
    ensures Segments(RenderTail(path), "") == path
    decreases |path|, 0
  {
    if path != [] {
      SegmentsOfPath(path);
      TailText(path);
      if !HasPrefix(path[0], "[") {
        var t := RenderPath(path);
        assert (['.'] + t)[1..] == t;
        SegmentsStep(['.'] + t, "");
        assert Flush("") + Segments(t, "") == Segments(t, "");
      }
    }
  }

  lemma {:induction false} RestWellFormed(path: seq<string>)
    requires WellFormed(path) && path != []
    ensures WellFormed(path[1..])
  {
    var rest := path[1..];
    forall i | 0 <= i < |rest|
      ensures Plain(rest[i]) || Bracketed(rest[i]) || (i == |rest| - 1 && Open(rest[i]))
    {
      assert rest[i] == path[i + 1];
    }
  }

  lemma {:induction false} SegmentsOfPath(path: seq<string>)
    requires WellFormed(path)
    ensures Segments(RenderPath(path), "") == path
    decreases |path|, 0, 0
  {
    if path != [] {
      var s, rest := path[0], path[1..];
      var t := RenderTail(rest);
      RestWellFormed(path);
      SegmentsOfTail(rest);
      assert path == [s] + rest;
      if Plain(s) {
        PlainRun(s, t, "");
        assert "" + s == s;
        TailEndsSegment(rest, s);
      } else if Bracketed(s) {
        assert (s + t)[..|s| - 1] == s[..|s| - 1];
        IndexOfIs(s + t, ']', |s| - 1);
        assert (s + t)[..|s|] == s && (s + t)[|s|..] == t;
      } else {
        assert rest == [] && s + t == s;
      }
    }
  }

  /** Whatever the text, the parser yields segments of the three shapes. */
  lemma {:induction false} SegmentsWellFormed(s: string, cur: string)
    requires '.' !in cur && '[' !in cur
    ensures WellFormed(Segments(s, cur))
    decreases |s|
  {
    if s != "" {
      if s[0] == '.' {
        SegmentsWellFormed(s[1..], "");
      } else if s[0] == '[' {
        var j := IndexOf(s, ']');
        if j >= 0 {
          assert s[..j + 1][..j] == s[..j];
          assert Bracketed(s[..j + 1]);
          SegmentsWellFormed(s[j + 1..], "");
        }
      } else {
        SegmentsWellFormed(s[1..], cur + [s[0]]);
      }
    }
  }

  // ---- trimming loses characters that the parser would have kept ----

  function Weight(path: seq<string>): nat {
    if path == [] then 0 else |path[0]| + Weight(path[1..])
  }

  lemma {:induction false} WeightAppend(p: seq<string>, q: seq<string>)
    ensures Weight(p + q) == Weight(p) + Weight(q)
    decreases |p|
  {
    if p == [] {
      assert p + q == q;
    } else {
      assert (p + q)[1..] == p[1..] + q;
      WeightAppend(p[1..], q);
    }
  }

  predicate Ordinary(c: char) {
    c != '.' && c != '[' && c != ']'
  }

  lemma {:induction false} WeightOfPending(s: string, cur: string)
    ensures Weight(Segments(s, cur)) == |cur| + Weight(Segments(s, ""))
    decreases |s|
  {
    if s != "" && s[0] != '.' && s[0] != '[' {
      WeightOfPending(s[1..], cur + [s[0]]);
      WeightOfPending(s[1..], [s[0]]);
      assert "" + [s[0]] == [s[0]];
    } else if s != "" {
      if s[0] == '.' {
        WeightAppend(Flush(cur), Segments(s[1..], ""));
        assert Flush("") + Segments(s[1..], "") == Segments(s[1..], "");
      } else {
        var j := IndexOf(s, ']');
        if j < 0 {
          WeightAppend(Flush(cur), [s]);
        } else {
          var more := [s[..j + 1]] + Segments(s[j + 1..], "");
          assert Flush(cur) + [s[..j + 1]] + Segments(s[j + 1..], "") == Flush(cur) + more;
          assert Flush("") + [s[..j + 1]] + Segments(s[j + 1..], "") == more;
          WeightAppend(Flush(cur), more);
        }
      }
    }
  }

  lemma {:induction false} WeightOfLast(s: string, c: char, cur: string)
    requires Ordinary(c)
    ensures Weight(Segments(s + [c], cur)) == Weight(Segments(s, cur)) + 1
    decreases |s|
  {
    if s == "" {
      assert s + [c] == [c] && [c][1..] == "";
    } else {
      assert (s + [c])[1..] == s[1..] + [c];
      if s[0] == '.' {
        WeightOfLast(s[1..], c, "");
        WeightAppend(Flush(cur), Segments(s[1..], ""));
        WeightAppend(Flush(cur), Segments(s[1..] + [c], ""));
      } else if s[0] == '[' {
        var j := IndexOf(s, ']');
        if j < 0 {
          assert IndexOf(s + [c], ']') < 0;
          WeightAppend(Flush(cur), [s]);
          WeightAppend(Flush(cur), [s + [c]]);
        } else {
          assert (s + [c])[..j] == s[..j] && (s + [c])[..j + 1] == s[..j + 1];
          IndexOfIs(s + [c], ']', j);
          assert (s + [c])[j + 1..] == s[j + 1..] + [c];
          WeightOfLast(s[j + 1..], c, "");
          WeightAppend(Flush(cur) + [s[..j + 1]], Segments(s[j + 1..], ""));
          WeightAppend(Flush(cur) + [s[..j + 1]], Segments(s[j + 1..] + [c], ""));
        }
      } else {
        WeightOfLast(s[1..], c, cur + [s[0]]);
      }
    }
  }

  lemma {:induction false} WeightOfFirst(c: char, s: string)
    requires Ordinary(c)
    ensures Weight(Segments([c] + s, "")) == Weight(Segments(s, "")) + 1
  {
    assert ([c] + s)[1..] == s && "" + [c] == [c];
    WeightOfPending(s, [c]);
  }

  lemma {:induction false} WeightOfFront(s: string, i: nat)
    requires i <= |s|
    ensures Weight(Segments(s[SkipSpaces(s, i)..], "")) == Weight(Segments(s[i..], "")) - (SkipSpaces(s, i) - i)
    decreases |s| - i
  {
    if i < |s| && IsSpace(s[i]) {
      WeightOfFront(s, i + 1);
      WeightOfFirst(s[i], s[i + 1..]);
      assert [s[i]] + s[i + 1..] == s[i..];
    }
  }

  lemma {:induction false} WeightOfBack(s: string, n: nat)
    requires n <= |s|
    ensures Weight(Segments(s[..SkipSpacesBack(s, n)], "")) == Weight(Segments(s[..n], "")) - (n - SkipSpacesBack(s, n))
  {
    if n > 0 && IsSpace(s[n - 1]) {
      WeightOfBack(s, n - 1);
      WeightOfLast(s[..n - 1], s[n - 1], "");
      assert s[..n - 1] + [s[n - 1]] == s[..n];
    }
  }

  lemma {:induction false} WeightOfTrimLeft(s: string)
    ensures Weight(Segments(TrimLeft(s), "")) == Weight(Segments(s, "")) - (|s| - |TrimLeft(s)|)
  {
    WeightOfFront(s, 0);
    assert s[0..] == s;
  }

  lemma {:induction false} WeightOfTrimRight(s: string)
    ensures Weight(Segments(TrimRight(s), "")) == Weight(Segments(s, "")) - (|s| - |TrimRight(s)|)
  {
    WeightOfBack(s, |s|);
    assert s[..|s|] == s;
  }

  lemma {:induction false} WeightOfTrimSpace(s: string)
    ensures Weight(Segments(TrimSpace(s), "")) == Weight(Segments(s, "")) - (|s| - |TrimSpace(s)|)
  {
    WeightOfTrimLeft(s);
    WeightOfTrimRight(TrimLeft(s));
  }

  lemma {:induction false} WeightOfDollar(t: string)
    requires HasPrefix(t, "$")
    ensures Weight(Segments(t[1..], "")) == Weight(Segments(t, "")) - 1
  {
    WeightOfFirst('$', t[1..]);
    assert ['$'] + t[1..] == t;
  }

  lemma {:induction false} WeightOfTrimmed(s: string)
    ensures Weight(Segments(Trimmed(s), "")) == Weight(Segments(s, "")) - (|s| - |Trimmed(s)|)
  {
    WeightOfTrimSpace(s);
    var t := TrimSpace(s);
    if HasPrefix(t, "$") {
      WeightOfDollar(t);
      WeightOfTrimSpace(t[1..]);
    } else {
      WeightOfTrimSpace(t);
    }
  }

  lemma {:induction false} CleanIsWhole(s: string)
    requires CleanEdges(s)
    ensures Trimmed(s) == s
  {
    if s != "" {
      assert SkipSpaces(s, 0) == 0 && SkipSpacesBack(s, |s|) == |s|;
      assert TrimLeft(s) == s && TrimRight(s) == s;
    }
  }

  lemma {:induction false} WholeIsClean(s: string)
    requires |Trimmed(s)| == |s|
    ensures CleanEdges(s)
  {
    var t := TrimSpace(s);
    assert |t| == |s| && t == s;
  }

  /**
   The exact condition under which a path survives being printed and read back: every segment has
   one of the three shapes the parser yields, and the text has nothing at its edges to trim.
   */
  lemma {:induction false} PatternOfRenderedPath(path: seq<string>)
    ensures Pattern(RenderPath(path)) == path <==> WellFormed(path) && CleanEdges(RenderPath(path))
  {
    var s := RenderPath(path);
    if CleanEdges(s) {
      CleanIsWhole(s);
    }
    if |Trimmed(s)| == |s| {
      WholeIsClean(s);
    }
    if WellFormed(path) {
      SegmentsOfPath(path);
      WeightOfTrimmed(s);
    }
    SegmentsWellFormed(Trimmed(s), "");
  }
}
