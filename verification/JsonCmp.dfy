/** The comparison as the program runs it: a recorder that walks both documents and stops at a cap. */
module JsonComparison {
  import opened Sorting
  import opened Text
  import opened JsonPath
  import opened JsonDiff

  const MAX_CHANGES: nat := 200
  const MAX_CLIP: nat := 160

  // ---- the walk, as the class records it ----

  datatype JsonChange = JsonChange(path: string, kind: ChangeKind, expected: string, actual: string)

  function Capped<T>(s: seq<T>): seq<T> {
    if |s| > MAX_CHANGES then s[..MAX_CHANGES] else s
  }

  function Clip(marshal: Json -> string, v: Option<Json>): string {
    match v
    case None => ""
    case Some(x) => if |marshal(x)| > MAX_CLIP then marshal(x)[..MAX_CLIP] + "..." else marshal(x)
  }

  function Shown(marshal: Json -> string, c: Change): JsonChange {
    JsonChange(RenderPath(c.path), c.kind, Clip(marshal, c.expected), Clip(marshal, c.actual))
  }

  function ShownAll(marshal: Json -> string, d: seq<Change>): (r: seq<JsonChange>)
    ensures |r| == |d| && forall i :: 0 <= i < |d| ==> r[i] == Shown(marshal, d[i])
  {
    seq(|d|, i requires 0 <= i < |d| => Shown(marshal, d[i]))
  }

  /** A leaf as the program prints it to compare it; containers are not printed. */
  function LeafText(v: Json): string {
    match v
    case Str(t) => t
    case Number(t) => t
    case Bool(b) => if b then "true" else "false"
    case Null => "<nil>"
    case _ => ""
  }

  /** Leaves of one kind are printed alike exactly when they are equal. */
  lemma {:induction false} LeafTextTells(x: Json, y: Json)
    requires SameShape(x, y) && !IsContainer(x)
    ensures LeafText(x) == LeafText(y) <==> x == y
  {}

  /** Recording in two portions is recording at once. */
  lemma {:induction false} RecordedThen(marshal: Json -> string, out0: seq<JsonChange>, d: seq<Change>, d': seq<Change>)
    requires |out0| <= MAX_CHANGES
    ensures Capped(Capped(out0 + ShownAll(marshal, d)) + ShownAll(marshal, d'))
            == Capped(out0 + ShownAll(marshal, d + d'))
    ensures |out0| + |d| > MAX_CHANGES || |Capped(out0 + ShownAll(marshal, d))| + |d'| > MAX_CHANGES <==>
            |out0| + |d + d'| > MAX_CHANGES
  {
    var x, y := ShownAll(marshal, d), ShownAll(marshal, d');
    assert ShownAll(marshal, d + d') == x + y;
    assert out0 + (x + y) == out0 + x + y;
  }

  /** Go's any compared by printing; marshal is the JSON encoder, of which only its being a function
      of the value matters. */
  class JsonCmp {
    const ignore: seq<seq<string>>
    const marshal: Json -> string
    var out: seq<JsonChange>
    var capped: bool

    constructor (ignore: seq<seq<string>>, marshal: Json -> string)
      ensures this.ignore == ignore && this.marshal == marshal
      ensures out == [] && !capped
    {
      this.ignore, this.marshal := ignore, marshal;
      out, capped := [], false;
    }

    ghost predicate Valid()
      reads this
    {
      |out| <= MAX_CHANGES && (capped ==> |out| == MAX_CHANGES)
    }

    /** What the recorder holds after the changes d, having held out0 and capped0 before them. */
    ghost predicate Recorded(out0: seq<JsonChange>, capped0: bool, d: seq<Change>)
      reads this
    {
      && out == Capped(out0 + ShownAll(marshal, d))
      && capped == (capped0 || |out0| + |d| > MAX_CHANGES)
    }

    method Add(path: seq<string>, kind: ChangeKind, e: Option<Json>, a: Option<Json>)
      requires Valid()
      modifies this
      ensures Valid() && Recorded(old(out), old(capped), [Change(path, kind, e, a)])
    {
      if |out| >= MAX_CHANGES {
        capped := true;
        return;
      }
      out := out + [JsonChange(RenderPath(path), kind, Clip(marshal, e), Clip(marshal, a))];
      assert ShownAll(marshal, [Change(path, kind, e, a)]) == [Shown(marshal, Change(path, kind, e, a))];
    }

    method Compare(path: seq<string>, e: Json, a: Json, depth: nat)
      requires Valid() && depth == |path|
      modifies this
      ensures Valid() && Recorded(old(out), old(capped), Diff(ignore, path, e, a))
      decreases e, 2
    {
      if capped || Ignored(ignore, path) {
        return;
      }
      if KindOf(e) != KindOf(a) {
        Add(path, TypeChanged, Some(e), Some(a));
        return;
      }
      if depth > MAX_DEPTH {
        return;
      }
      if e.Obj? {
        CompareObjects(path, e, a, depth);
      } else if e.Arr? {
        CompareArrays(path, e, a, depth);
      } else {
        LeafTextTells(e, a);
        if Clip(marshal, Some(e)) != Clip(marshal, Some(a)) || LeafText(e) != LeafText(a) {
          Add(path, Changed, Some(e), Some(a));
        }
      }
    }

    /** One entry present on at least one side. */
    method CompareEntry(path: seq<string>, ghost e: Json, ghost a: Json, seg: string, x: Option<Json>,
                        y: Option<Json>, depth: nat)
      requires Valid() && depth == |path|
      requires x == Child(e, seg) && y == Child(a, seg) && (x.Some? || y.Some?)
      modifies this
      ensures Valid() && Recorded(old(out), old(capped), DiffChild(ignore, path, e, a, seg))
      decreases e, 0
    {
      var p := path + [seg];
      if x.Some? && y.Some? {
        Compare(p, x.value, y.value, depth + 1);
      } else if x.Some? {
        if !Ignored(ignore, p) { Add(p, Removed, x, None); }
      } else {
        if !Ignored(ignore, p) { Add(p, Added, None, y); }
      }
    }

    method CompareObjects(path: seq<string>, e: Json, a: Json, depth: nat)
      requires Valid() && depth == |path| && e.Obj? && a.Obj?
      modifies this
      ensures Valid()
      ensures var segs := ChildSegments(e, a);
              Recorded(old(out), old(capped), DiffChildren(ignore, path, e, a, segs, |segs|))
      decreases e, 1, 1
    {
      var ev, av := e.fields, a.fields;
      var keys := ev.Keys + av.Keys;
      var sorted := CollectKeys(keys);
      LexStrictTotal(keys);
      sorted := SortSlice(LexLess, sorted);
      assert forall k :: k in sorted ==> k in Elems(sorted);
      CompareMembers(path, e, a, sorted, depth);
    }

    method CompareMembers(path: seq<string>, e: Json, a: Json, sorted: seq<string>, depth: nat)
      requires Valid() && depth == |path| && e.Obj? && a.Obj?
      requires forall k :: k in sorted ==> k in e.fields || k in a.fields
      modifies this
      ensures Valid()
      ensures Recorded(old(out), old(capped), DiffChildren(ignore, path, e, a, sorted, |sorted|))
      decreases e, 1, 0
    {
      var ev, av := e.fields, a.fields;
      for i := 0 to |sorted|
        invariant Valid() && Recorded(old(out), old(capped), DiffChildren(ignore, path, e, a, sorted, i))
      {
        var k := sorted[i];
        RecordedThen(marshal, old(out), DiffChildren(ignore, path, e, a, sorted, i), DiffChild(ignore, path, e, a, k));
        CompareEntry(path, e, a, k, if k in ev then Some(ev[k]) else None,
                     if k in av then Some(av[k]) else None, depth);
      }
    }

    /** Ranges over the keys in no particular order. */
    static method CollectKeys(keys: set<string>) returns (q: seq<string>)
      ensures NoDuplicates(q) && Elems(q) == keys
    {
      q := [];
      var rest := keys;
      while rest != {}
        invariant rest <= keys && Elems(q) == keys - rest && NoDuplicates(q)
        decreases rest
      {
        var k :| k in rest;
        assert forall i :: 0 <= i < |q| ==> q[i] in Elems(q);
        assert Elems(q + [k]) == Elems(q) + {k};
        q, rest := q + [k], rest - {k};
      }
    }

    method CompareArrays(path: seq<string>, e: Json, a: Json, depth: nat)
      requires Valid() && depth == |path| && e.Arr? && a.Arr?
      modifies this
      ensures Valid()
      ensures var segs := ChildSegments(e, a);
              Recorded(old(out), old(capped), DiffChildren(ignore, path, e, a, segs, |segs|))
      decreases e, 1
    {
      var ev, av := e.items, a.items;
      var n := |ev|;
      if |av| > n {
        n := |av|;
      }
      ghost var segs := ChildSegments(e, a);
      for i := 0 to n
        invariant Valid() && Recorded(old(out), old(capped), DiffChildren(ignore, path, e, a, segs, i))
      {
        ChildAt(ev, i);
        ChildAt(av, i);
        RecordedThen(marshal, old(out), DiffChildren(ignore, path, e, a, segs, i),
                     DiffChild(ignore, path, e, a, segs[i]));
        CompareEntry(path, e, a, "[" + Itoa(i) + "]", if i < |ev| then Some(ev[i]) else None,
                     if i < |av| then Some(av[i]) else None, depth);
      }
    }
  }

  lemma {:induction false} RecordedFromEmpty(marshal: Json -> string, d: seq<Change>)
    ensures Capped([] + ShownAll(marshal, d)) == ShownAll(marshal, Capped(d))
  {
    assert [] + ShownAll(marshal, d) == ShownAll(marshal, d);
  }

  /** A value as it is shown: nothing if there is none, else as it is encoded, cut after 160 characters. */
  ghost predicate ShownAs(marshal: Json -> string, v: Option<Json>, text: string) {
    match v
    case None => text == ""
    case Some(x) =>
      var t := marshal(x);
      if |t| <= 160 then text == t else |text| == 163 && text[..160] == t[..160] && text[160..] == "..."
  }

  /** One line of the report for one change. */
  ghost predicate Reports(marshal: Json -> string, c: Change, j: JsonChange) {
    && j.path == RenderPath(c.path) && j.kind == c.kind
    && ShownAs(marshal, c.expected, j.expected) && ShownAs(marshal, c.actual, j.actual)
  }

  lemma {:induction false} ShownReports(marshal: Json -> string, c: Change)
    ensures Reports(marshal, c, Shown(marshal, c))
  {}

  /** The body part of an example diff: the recorded list is the first 200 of the change list, the flag
      says whether there were more, and the body counts as changed exactly when something was listed. */
  method DiffBodies(ignorePaths: seq<string>, marshal: Json -> string, e: Json, a: Json)
    returns (changes: seq<JsonChange>, changesCapped: bool, bodyChanged: bool)
    ensures var d := Diff(Patterns(ignorePaths), [], e, a);
            && |changes| == (if |d| < 200 then |d| else 200)
            && (forall i :: 0 <= i < |changes| ==> Reports(marshal, d[i], changes[i]))
            && (changesCapped <==> |d| > 200)
            && (bodyChanged <==> d != [])
  {
    var pats := ParsePatterns(ignorePaths);
    var c := new JsonCmp(pats, marshal);
    c.Compare([], e, a, 0);
    ghost var d := Diff(pats, [], e, a);
    RecordedFromEmpty(marshal, d);
    forall i | 0 <= i < |c.out|
      ensures Reports(marshal, d[i], c.out[i])
    {
      ShownReports(marshal, d[i]);
    }
    return c.out, c.capped, |c.out| > 0;
  }
}
