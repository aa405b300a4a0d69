/** The comparison of the headers of a saved example with those of a response. */
module HeaderDiff {
  import opened Text
  import opened Sorting

  datatype Header = Header(name: string, value: string)

  datatype HeaderChange =
    | Removed(name: string, was: string)
    | Changed(name: string, was: string, is_: string)
    | Added(name: string, is_: string)

  /** A header with the key it is collected under and the one it is looked up by. */
  datatype Entry = Entry(header: Header, key: string, sought: string)

  /** The headers under one key, and the first of each, in order. */
  datatype Folded = Folded(values: map<string, string>, order: seq<Entry>)

  /** Names are trimmed to collect headers and not to look them up. */
  function EntryOf(h: Header): Entry {
    Entry(h, Lower(TrimSpace(h.name)), Lower(h.name))
  }

  function Entries(hs: seq<Header>): (r: seq<Entry>)
    ensures |r| == |hs| && forall i :: 0 <= i < |hs| ==> r[i] == EntryOf(hs[i])
  {
    seq(|hs|, i requires 0 <= i < |hs| => EntryOf(hs[i]))
  }

  predicate Skips(skip: seq<string>, k: string) {
    k == "" || exists i :: 0 <= i < |skip| && EqualFold(skip[i], k)
  }

  function FoldEntry(f: Folded, n: Entry, skip: seq<string>): Folded {
    if Skips(skip, n.key) then f
    else if n.key in f.values then f.(values := f.values[n.key := f.values[n.key] + ", " + n.header.value])
    else Folded(f.values[n.key := n.header.value], f.order + [n])
  }

  function FoldAll(ns: seq<Entry>, skip: seq<string>): Folded {
    if ns == [] then Folded(map[], []) else FoldEntry(FoldAll(ns[..|ns| - 1], skip), ns[|ns| - 1], skip)
  }

  /** The words of a text, when one has already begun. */
  function Words(s: string, begun: string): seq<string> {
    var done := if begun == "" then [] else [begun];
    if s == [] then done
    else if IsSpace(s[0]) then done + Words(s[1..], [])
    else Words(s[1..], begun + [s[0]])
  }

  /** A value without regard to case and to how its words are spaced. */
  function Normal(v: string): string {
    Join(Words(Lower(v), []), " ")
  }

  function Get(m: map<string, string>, k: string): string {
    if k in m then m[k] else []
  }

  /** What is reported for a header of the example. */
  function Lost(e: Folded, a: Folded, n: Entry): seq<HeaderChange> {
    var k := n.sought;
    if k !in a.values then [Removed(n.header.name, Get(e.values, k))]
    else if Normal(a.values[k]) != Normal(Get(e.values, k)) then [Changed(n.header.name, Get(e.values, k), a.values[k])]
    else []
  }

  /** What is reported for a header of the response. */
  function Gained(e: Folded, a: Folded, n: Entry): seq<HeaderChange> {
    if n.sought !in e.values then [Added(n.header.name, Get(a.values, n.sought))] else []
  }

  function LostAll(e: Folded, a: Folded, ns: seq<Entry>): seq<HeaderChange> {
    if ns == [] then [] else LostAll(e, a, ns[..|ns| - 1]) + Lost(e, a, ns[|ns| - 1])
  }

  function GainedAll(e: Folded, a: Folded, ns: seq<Entry>): seq<HeaderChange> {
    if ns == [] then [] else GainedAll(e, a, ns[..|ns| - 1]) + Gained(e, a, ns[|ns| - 1])
  }

  function Differences(e: Folded, a: Folded): seq<HeaderChange> {
    LostAll(e, a, e.order) + GainedAll(e, a, a.order)
  }

  method FoldHeaders(hs: seq<Header>, skip: seq<string>) returns (f: Folded)
    ensures f == FoldAll(Entries(hs), skip)
  {
    var m: map<string, string>, order: seq<Entry> := map[], [];
    ghost var ns := Entries(hs);
    for i := 0 to |hs|
      invariant Folded(m, order) == FoldAll(ns[..i], skip)
    {
      assert ns[..i + 1][..i] == ns[..i];
      var n := EntryOf(hs[i]);
      assert n == ns[i];
      if Skips(skip, n.key) {
        continue;
      }
      if n.key in m {
        m := m[n.key := m[n.key] + ", " + n.header.value];
      } else {
        m := m[n.key := n.header.value];
        order := order + [n];
      }
    }
    assert ns[..|hs|] == ns;
    return Folded(m, order);
  }

  method DiffHeaders(exp: seq<Header>, act: seq<Header>, skip: seq<string>) returns (out: seq<HeaderChange>)
    ensures out == Differences(FoldAll(Entries(exp), skip), FoldAll(Entries(act), skip))
  {
    var e := FoldHeaders(exp, skip);
    var a := FoldHeaders(act, skip);
    var lost := ListLost(e, a);
    var gained := ListGained(e, a);
    return lost + gained;
  }

  method ListLost(e: Folded, a: Folded) returns (out: seq<HeaderChange>)
    ensures out == LostAll(e, a, e.order)
  {
    out := [];
    for i := 0 to |e.order|
      invariant out == LostAll(e, a, e.order[..i])
    {
      assert e.order[..i + 1][..i] == e.order[..i];
      var n, k := e.order[i].header.name, e.order[i].sought;
      if k !in a.values {
        out := out + [Removed(n, Get(e.values, k))];
      } else if Normal(a.values[k]) != Normal(Get(e.values, k)) {
        out := out + [Changed(n, Get(e.values, k), a.values[k])];
      }
    }
    assert e.order[..|e.order|] == e.order;
  }

  method ListGained(e: Folded, a: Folded) returns (out: seq<HeaderChange>)
    ensures out == GainedAll(e, a, a.order)
  {
    out := [];
    for i := 0 to |a.order|
      invariant out == GainedAll(e, a, a.order[..i])
    {
      assert a.order[..i + 1][..i] == a.order[..i];
      var n, k := a.order[i].header.name, a.order[i].sought;
      if k !in e.values {
        out := out + [Added(n, Get(a.values, k))];
      }
    }
    assert a.order[..|a.order|] == a.order;
  }

  // ---------------------------------------------------------------- folding

  /** Every key is that of a header in the order, which is one of the headers given, and no other is. */
  ghost predicate WellFolded(f: Folded, ns: seq<Entry>) {
    && (forall n :: n in f.order ==> n.key in f.values && n in ns)
    && (forall k :: k in f.values ==> exists n :: n in f.order && n.key == k)
  }

  lemma {:induction false} FoldEntryWell(f: Folded, ns: seq<Entry>, n: Entry, skip: seq<string>)
    requires WellFolded(f, ns)
    ensures WellFolded(FoldEntry(f, n, skip), ns + [n])
  {
    var f' := FoldEntry(f, n, skip);
    forall k | k in f'.values
      ensures exists n :: n in f'.order && n.key == k
    {
      if k in f.values {
        var other :| other in f.order && other.key == k;
        assert other in f'.order;
      } else {
        assert n in f'.order;
      }
    }
  }

  lemma {:induction false} FoldIsWell(ns: seq<Entry>, skip: seq<string>)
    ensures WellFolded(FoldAll(ns, skip), ns)
    decreases |ns|
  {
    if ns != [] {
      var n := |ns| - 1;
      FoldIsWell(ns[..n], skip);
      FoldEntryWell(FoldAll(ns[..n], skip), ns[..n], ns[n], skip);
      assert ns == ns[..n] + [ns[n]];
    }
  }

  /** The values of the headers collected under the key, in order. */
  function ValuesUnder(ns: seq<Entry>, key: string): seq<string> {
    if ns == [] then []
    else
      var n := ns[|ns| - 1];
      ValuesUnder(ns[..|ns| - 1], key) + if n.key == key then [n.header.value] else []
  }

  lemma {:induction false} JoinSnoc(parts: seq<string>, last: string, sep: string)
    requires parts != []
    ensures Join(parts + [last], sep) == Join(parts, sep) + sep + last
    decreases |parts|
  {
    if |parts| > 1 {
      assert (parts + [last])[1..] == parts[1..] + [last];
      JoinSnoc(parts[1..], last, sep);
      var rest := Join(parts[1..], sep);
      assert parts[0] + sep + (rest + sep + last) == parts[0] + sep + rest + sep + last;
    } else {
      assert (parts + [last])[1..] == [last];
    }
  }

  /** The key is one that is compared: it is not empty, and not one of the names to skip, whatever their case. */
  ghost predicate IsCompared(skip: seq<string>, key: string) {
    key != "" && forall i :: 0 <= i < |skip| ==> !EqualFold(skip[i], key)
  }

  /** Under a key that is compared stand the values of all headers with that key, joined, and under no other
      anything. */
  lemma {:induction false} FoldedExactly(ns: seq<Entry>, skip: seq<string>, key: string)
    ensures var m, values := FoldAll(ns, skip).values, ValuesUnder(ns, key);
            && (key in m <==> IsCompared(skip, key) && values != [])
            && (key in m ==> m[key] == Join(values, ", "))
    decreases |ns|
  {
    if ns != [] {
      var n := |ns| - 1;
      FoldedExactly(ns[..n], skip, key);
      var values := ValuesUnder(ns[..n], key);
      assert values + [] == values;
      if values != [] {
        JoinSnoc(values, ns[n].header.value, ", ");
      }
    }
  }

  // ---------------------------------------------------------------- names with blanks around them

  predicate Trimmed(s: string) {
    s == [] || (!IsSpace(s[0]) && !IsSpace(s[|s| - 1]))
  }

  lemma {:induction false} TrimmedIsKept(s: string)
    ensures TrimSpace(s) == s <==> Trimmed(s)
  {}

  lemma {:induction false} TrimSpaceTrims(s: string)
    ensures Trimmed(TrimSpace(s))
  {
    var t := TrimLeft(s);
    var r := TrimRight(t);
    assert r != [] ==> r[0] == t[0];
  }

  lemma {:induction false} LowerKeepsSpace(c: char)
    ensures IsSpace(LowerChar(c)) <==> IsSpace(c)
  {}

  lemma {:induction false} LowerKeepsEnds(s: string)
    ensures Trimmed(s) <==> Trimmed(Lower(s))
  {
    if s != [] {
      LowerKeepsSpace(s[0]);
      LowerKeepsSpace(s[|s| - 1]);
    }
  }

  /** The name has no blanks around it, so that it is sought under its own key. */
  predicate Clean(n: Entry) {
    n.key == n.sought
  }

  /** Keys have no blanks around them, and only a clean name is sought under such a text. */
  lemma {:induction false} CleanExactly(h: Header)
    ensures Trimmed(EntryOf(h).key)
    ensures Clean(EntryOf(h)) <==> Trimmed(EntryOf(h).sought)
    ensures Clean(EntryOf(h)) <==> TrimSpace(h.name) == h.name
  {
    var t := TrimSpace(h.name);
    TrimSpaceTrims(h.name);
    LowerKeepsEnds(t);
    LowerKeepsEnds(h.name);
    TrimmedIsKept(h.name);
    assert Lower(t) == Lower(h.name) ==> |t| == |h.name|;
  }

  /** In a list of headers, one is sought under a key of the list only if its name is clean. */
  ghost predicate SoughtIfClean(f: Folded, g: Folded) {
    forall n :: n in f.order && n.sought in g.values ==> Clean(n)
  }

  /** What CleanExactly says of an entry. */
  predicate Proper(n: Entry) {
    Trimmed(n.key) && (Clean(n) <==> Trimmed(n.sought))
  }

  ghost predicate AllProper(ns: seq<Entry>) {
    forall n :: n in ns ==> Proper(n)
  }

  lemma {:induction false} EntriesAreProper(hs: seq<Header>)
    ensures AllProper(Entries(hs))
  {
    forall n | n in Entries(hs)
      ensures Proper(n)
    {
      var i :| 0 <= i < |hs| && n == Entries(hs)[i];
      CleanExactly(hs[i]);
    }
  }

  lemma {:induction false} SoughtAreClean(f: Folded, ns: seq<Entry>, g: Folded, ms: seq<Entry>)
    requires WellFolded(f, ns) && WellFolded(g, ms) && AllProper(ns) && AllProper(ms)
    ensures SoughtIfClean(f, g)
  {
    forall n | n in f.order && n.sought in g.values
      ensures Clean(n)
    {
      var m :| m in g.order && m.key == n.sought;
      assert Proper(n) && Proper(m);
    }
  }

  // ---------------------------------------------------------------- when nothing is reported

  lemma {:induction false} LostNothing(e: Folded, a: Folded, ns: seq<Entry>)
    ensures LostAll(e, a, ns) == [] <==> forall n :: n in ns ==> Lost(e, a, n) == []
    decreases |ns|
  {
    if ns != [] {
      LostNothing(e, a, ns[..|ns| - 1]);
      assert ns == ns[..|ns| - 1] + [ns[|ns| - 1]];
    }
  }

  lemma {:induction false} GainedNothing(e: Folded, a: Folded, ns: seq<Entry>)
    ensures GainedAll(e, a, ns) == [] <==> forall n :: n in ns ==> Gained(e, a, n) == []
    decreases |ns|
  {
    if ns != [] {
      GainedNothing(e, a, ns[..|ns| - 1]);
      assert ns == ns[..|ns| - 1] + [ns[|ns| - 1]];
    }
  }

  /** The same headers with the same values, but for case and spacing. */
  ghost predicate SameHeaders(e: Folded, a: Folded) {
    && e.values.Keys == a.values.Keys
    && forall k :: k in e.values ==> Normal(a.values[k]) == Normal(e.values[k])
  }

  ghost predicate CleanNames(f: Folded) {
    forall n :: n in f.order ==> Clean(n)
  }

  lemma {:induction false} ReportedNothing(e: Folded, a: Folded, es: seq<Entry>, bs: seq<Entry>)
    requires WellFolded(e, es) && WellFolded(a, bs) && SoughtIfClean(e, a) && SoughtIfClean(a, e)
    ensures (forall n :: n in e.order ==> Lost(e, a, n) == []) && (forall n :: n in a.order ==> Gained(e, a, n) == [])
            <==> SameHeaders(e, a) && CleanNames(e) && CleanNames(a)
  {
    if (forall n :: n in e.order ==> Lost(e, a, n) == []) && (forall n :: n in a.order ==> Gained(e, a, n) == []) {
      forall n | n in e.order
        ensures Clean(n) && n.key in a.values && Normal(a.values[n.key]) == Normal(Get(e.values, n.key))
      {
        assert Lost(e, a, n) == [];
      }
      forall n | n in a.order
        ensures Clean(n) && n.key in e.values
      {
        assert Gained(e, a, n) == [];
      }
    }
  }

  /**
   No difference is reported exactly when the headers are the same and no header name counted, in
   either list, has blanks around it: one that has is reported even against itself.
   */
  lemma {:induction false} NoDifferenceExactly(exp: seq<Header>, act: seq<Header>, skip: seq<string>)
    ensures var e, a := FoldAll(Entries(exp), skip), FoldAll(Entries(act), skip);
            Differences(e, a) == [] <==> SameHeaders(e, a) && CleanNames(e) && CleanNames(a)
  {
    var e, a := FoldAll(Entries(exp), skip), FoldAll(Entries(act), skip);
    FoldIsWell(Entries(exp), skip);
    FoldIsWell(Entries(act), skip);
    EntriesAreProper(exp);
    EntriesAreProper(act);
    SoughtAreClean(e, Entries(exp), a, Entries(act));
    SoughtAreClean(a, Entries(act), e, Entries(exp));
    ReportedNothing(e, a, Entries(exp), Entries(act));
    LostNothing(e, a, e.order);
    GainedNothing(e, a, a.order);
  }

  lemma {:induction false} LostMembers(e: Folded, a: Folded, ns: seq<Entry>, c: HeaderChange)
    ensures c in LostAll(e, a, ns) <==> exists n :: n in ns && c in Lost(e, a, n)
    decreases |ns|
  {
    if ns != [] {
      LostMembers(e, a, ns[..|ns| - 1], c);
      assert ns == ns[..|ns| - 1] + [ns[|ns| - 1]];
    }
  }

  lemma {:induction false} GainedMembers(e: Folded, a: Folded, ns: seq<Entry>, c: HeaderChange)
    ensures c in GainedAll(e, a, ns) <==> exists n :: n in ns && c in Gained(e, a, n)
    decreases |ns|
  {
    if ns != [] {
      GainedMembers(e, a, ns[..|ns| - 1], c);
      assert ns == ns[..|ns| - 1] + [ns[|ns| - 1]];
    }
  }

  /** The change is that of a header the example has, and the response lacks or has with another value. */
  ghost predicate IsLoss(e: Folded, a: Folded, c: HeaderChange, n: Entry) {
    && n in e.order && n.key in e.values
    && if n.key !in a.values then c == Removed(n.header.name, e.values[n.key])
       else Normal(a.values[n.key]) != Normal(e.values[n.key])
            && c == Changed(n.header.name, e.values[n.key], a.values[n.key])
  }

  /** The change is that of a header the response has and the example lacks. */
  ghost predicate IsGain(e: Folded, a: Folded, c: HeaderChange, n: Entry) {
    && n in a.order && n.key in a.values && n.key !in e.values
    && c == Added(n.header.name, a.values[n.key])
  }

  lemma {:induction false} LossIs(e: Folded, a: Folded, c: HeaderChange, n: Entry)
    requires n in e.order && n.key in e.values && Clean(n)
    ensures c in Lost(e, a, n) <==> IsLoss(e, a, c, n)
  {}

  lemma {:induction false} GainIs(e: Folded, a: Folded, c: HeaderChange, n: Entry)
    requires n in a.order && n.key in a.values && Clean(n)
    ensures c in Gained(e, a, n) <==> IsGain(e, a, c, n)
  {}

  lemma {:induction false} ReportedOf(e: Folded, a: Folded, es: seq<Entry>, bs: seq<Entry>, c: HeaderChange)
    requires WellFolded(e, es) && WellFolded(a, bs) && CleanNames(e) && CleanNames(a)
    ensures c in LostAll(e, a, e.order) <==> exists n :: IsLoss(e, a, c, n)
    ensures c in GainedAll(e, a, a.order) <==> exists n :: IsGain(e, a, c, n)
  {
    LostMembers(e, a, e.order, c);
    GainedMembers(e, a, a.order, c);
    forall n | n in e.order ensures c in Lost(e, a, n) <==> IsLoss(e, a, c, n) {
      LossIs(e, a, c, n);
    }
    forall n | n in a.order ensures c in Gained(e, a, n) <==> IsGain(e, a, c, n) {
      GainIs(e, a, c, n);
    }
  }

  /** When no name has blanks around it, a change is reported exactly when it is a difference between the
      headers collected under one key, under the name as it was first written. */
  lemma {:induction false} ReportedExactly(exp: seq<Header>, act: seq<Header>, skip: seq<string>, c: HeaderChange)
    requires CleanNames(FoldAll(Entries(exp), skip)) && CleanNames(FoldAll(Entries(act), skip))
    ensures var e, a := FoldAll(Entries(exp), skip), FoldAll(Entries(act), skip);
            c in Differences(e, a) <==> (exists n :: IsLoss(e, a, c, n)) || exists n :: IsGain(e, a, c, n)
  {
    FoldIsWell(Entries(exp), skip);
    FoldIsWell(Entries(act), skip);
    ReportedOf(FoldAll(Entries(exp), skip), FoldAll(Entries(act), skip), Entries(exp), Entries(act), c);
  }

  // ---------------------------------------------------------------- which values count as the same

  predicate IsWord(s: string) {
    s != "" && forall i :: 0 <= i < |s| ==> !IsSpace(s[i])
  }

  predicate AllSpace(s: string) {
    forall i :: 0 <= i < |s| ==> IsSpace(s[i])
  }

  /** The text is blanks, the first word up to the next blank or the end, and then the other words. */
  ghost predicate AreWords(v: string, ws: seq<string>)
    decreases |ws|
  {
    if ws == [] then AllSpace(v)
    else exists i, j :: FirstWordAt(v, ws[0], i, j) && AreWords(v[j..], ws[1..])
  }

  ghost predicate FirstWordAt(v: string, word: string, i: int, j: int) {
    && 0 <= i < j <= |v| && AllSpace(v[..i]) && IsWord(word) && v[i..j] == word
    && (j < |v| ==> IsSpace(v[j]))
  }

  lemma {:induction false} WordsAfterSpace(a: string, v: string)
    requires AllSpace(a)
    ensures Words(a + v, "") == Words(v, "")
    decreases |a|
  {
    if a == "" {
      assert a + v == v;
    } else {
      assert (a + v)[1..] == a[1..] + v;
      WordsAfterSpace(a[1..], v);
    }
  }

  lemma {:induction false} WordGrows(t: string, rest: string, begun: string)
    requires forall i :: 0 <= i < |t| ==> !IsSpace(t[i])
    ensures Words(t + rest, begun) == Words(rest, begun + t)
    decreases |t|
  {
    if t == "" {
      assert t + rest == rest && begun + t == begun;
    } else {
      assert (t + rest)[1..] == t[1..] + rest;
      assert begun + [t[0]] + t[1..] == begun + t;
      WordGrows(t[1..], rest, begun + [t[0]]);
    }
  }

  lemma {:induction false} FirstWord(v: string, word: string, i: int, j: int)
    requires FirstWordAt(v, word, i, j)
    ensures Words(v, "") == [word] + Words(v[j..], "")
  {
    assert v == v[..i] + (word + v[j..]);
    WordsAfterSpace(v[..i], word + v[j..]);
    WordGrows(word, v[j..], "");
    assert "" + word == word;
  }

  lemma {:induction false} WordsAreOnly(v: string, ws: seq<string>)
    requires AreWords(v, ws)
    ensures Words(v, "") == ws
    decreases |ws|
  {
    if ws == [] {
      assert v + "" == v;
      WordsAfterSpace(v, "");
    } else {
      var i, j :| FirstWordAt(v, ws[0], i, j) && AreWords(v[j..], ws[1..]);
      FirstWord(v, ws[0], i, j);
      WordsAreOnly(v[j..], ws[1..]);
    }
  }

  lemma {:induction false} WordsAreWords(v: string)
    ensures AreWords(v, Words(v, ""))
    ensures forall w :: w in Words(v, "") ==> IsWord(w)
    decreases |v|
  {
    var i := SkipSpaces(v, 0);
    if i == |v| {
      assert v + "" == v && AllSpace(v);
      WordsAfterSpace(v, "");
    } else {
      var j := EndOfWord(v, i + 1);
      assert FirstWordAt(v, v[i..j], i, j);
      FirstWord(v, v[i..j], i, j);
      WordsAreWords(v[j..]);
      var ws := Words(v, "");
      assert ws[0] == v[i..j] && ws[1..] == Words(v[j..], "");
    }
  }

  /** The first index from i on that holds a blank. */
  function EndOfWord(v: string, i: nat): (j: nat)
    requires i <= |v|
    ensures i <= j <= |v| && (j < |v| ==> IsSpace(v[j]))
    ensures forall k :: i <= k < j ==> !IsSpace(v[k])
    decreases |v| - i
  {
    if i < |v| && !IsSpace(v[i]) then EndOfWord(v, i + 1) else i
  }

  lemma {:induction false} JoinedAreWords(ws: seq<string>)
    requires forall w :: w in ws ==> IsWord(w)
    ensures AreWords(Join(ws, " "), ws)
    ensures ws != [] ==> Join(ws, " ") != "" && !IsSpace(Join(ws, " ")[0])
    decreases |ws|
  {
    if ws != [] {
      var v, word := Join(ws, " "), ws[0];
      assert word in ws && v[0..|word|] == word && v[..0] == "";
      assert forall w :: w in ws[1..] ==> w in ws;
      assert FirstWordAt(v, word, 0, |word|);
      JoinedAreWords(ws[1..]);
      if |ws| == 1 {
        assert v[|word|..] == "";
      } else {
        assert v[|word|..] == " " + Join(ws[1..], " ");
        BlankBefore(Join(ws[1..], " "), ws[1..]);
      }
    }
  }

  lemma {:induction false} BlankBefore(v: string, ws: seq<string>)
    requires ws != [] && AreWords(v, ws)
    ensures AreWords(" " + v, ws)
  {
    var i, j :| FirstWordAt(v, ws[0], i, j) && AreWords(v[j..], ws[1..]);
    var v' := " " + v;
    assert v'[..i + 1] == " " + v[..i] && v'[i + 1..j + 1] == v[i..j] && v'[j + 1..] == v[j..];
    assert FirstWordAt(v', ws[0], i + 1, j + 1);
  }

  lemma {:induction false} JoinedWordsDiffer(x: seq<string>, y: seq<string>)
    requires forall w :: w in x ==> IsWord(w)
    requires forall w :: w in y ==> IsWord(w)
    requires Join(x, " ") == Join(y, " ")
    ensures x == y
  {
    JoinedAreWords(x);
    JoinedAreWords(y);
    WordsAreOnly(Join(x, " "), x);
    WordsAreOnly(Join(y, " "), y);
  }

  lemma {:induction false} SameWords(v: string, w: string, ws: seq<string>)
    requires AreWords(Lower(v), ws) && AreWords(Lower(w), ws)
    ensures Normal(v) == Normal(w)
  {
    WordsAreOnly(Lower(v), ws);
    WordsAreOnly(Lower(w), ws);
  }

  /** Two values count as the same exactly when they have the same words, in lower case and in order. */
  lemma {:induction false} SameValueExactly(v: string, w: string)
    ensures Normal(v) == Normal(w) <==> exists ws :: AreWords(Lower(v), ws) && AreWords(Lower(w), ws)
  {
    if Normal(v) == Normal(w) {
      SharedWords(v, w);
    }
    forall ws | AreWords(Lower(v), ws) && AreWords(Lower(w), ws)
      ensures Normal(v) == Normal(w)
    {
      SameWords(v, w, ws);
    }
  }

  lemma {:induction false} SharedWords(v: string, w: string)
    requires Normal(v) == Normal(w)
    ensures exists ws :: AreWords(Lower(v), ws) && AreWords(Lower(w), ws)
  {
    var x, y := Words(Lower(v), ""), Words(Lower(w), "");
    WordsAreWords(Lower(v));
    WordsAreWords(Lower(w));
    JoinedWordsDiffer(x, y);
    assert AreWords(Lower(v), x) && AreWords(Lower(w), x);
  }

  // ---------------------------------------------------------------- the order of the list

  /** Where a name is first written in a list of headers. */
  function FirstWritten(ns: seq<Entry>, name: string): nat {
    if ns == [] || ns[0].header.name == name then 0 else 1 + FirstWritten(ns[1..], name)
  }

  ghost predicate Writes(ns: seq<Entry>, name: string) {
    exists n :: n in ns && n.header.name == name
  }

  lemma {:induction false} FirstWrittenSnoc(ns: seq<Entry>, n: Entry, name: string)
    ensures FirstWritten(ns, name) <= |ns|
    ensures Writes(ns, name) <==> FirstWritten(ns, name) < |ns|
    ensures Writes(ns, name) ==> FirstWritten(ns + [n], name) == FirstWritten(ns, name)
    ensures !Writes(ns, name) && n.header.name == name ==> FirstWritten(ns + [n], name) == |ns|
    decreases |ns|
  {
    if ns != [] {
      FirstWrittenSnoc(ns[1..], n, name);
      assert ns == [ns[0]] + ns[1..];
      assert (ns + [n])[1..] == ns[1..] + [n];
      assert ns[0] in ns;
    }
  }

  ghost predicate Earlier(ns: seq<Entry>, x: Entry, y: Entry) {
    FirstWritten(ns, x.header.name) < FirstWritten(ns, y.header.name)
  }

  /** The entries are in the order in which their names are first written. */
  ghost predicate ByFirstWriting(ns: seq<Entry>, order: seq<Entry>) {
    && (forall n :: n in order ==> Writes(ns, n.header.name))
    && (forall i, j :: 0 <= i < j < |order| ==> Earlier(ns, order[i], order[j]))
  }

  /** The entries are those of headers, and each is collected under its key unless it is skipped. */
  ghost predicate Collected(f: Folded, ns: seq<Entry>, skip: seq<string>) {
    forall n :: n in ns ==> n == EntryOf(n.header) && (Skips(skip, n.key) || n.key in f.values)
  }

  /** One more entry leaves the others where they are, and comes last if its name is new. */
  lemma {:induction false} OneMoreEntry(ns: seq<Entry>, n: Entry, order: seq<Entry>)
    requires ByFirstWriting(ns, order)
    ensures ByFirstWriting(ns + [n], order)
    ensures !Writes(ns, n.header.name) ==> ByFirstWriting(ns + [n], order + [n])
  {
    forall x | x in order
      ensures Writes(ns + [n], x.header.name)
      ensures FirstWritten(ns + [n], x.header.name) == FirstWritten(ns, x.header.name) < |ns|
    {
      FirstWrittenSnoc(ns, n, x.header.name);
      var y :| y in ns && y.header.name == x.header.name;
      assert y in ns + [n];
    }
    forall i, j | 0 <= i < j < |order|
      ensures Earlier(ns + [n], order[i], order[j])
    {
      assert Earlier(ns, order[i], order[j]);
      assert order[i] in order && order[j] in order;
    }
    if !Writes(ns, n.header.name) {
      NewEntryIsLast(ns, n, order);
    }
  }

  lemma {:induction false} NewEntryIsLast(ns: seq<Entry>, n: Entry, order: seq<Entry>)
    requires ByFirstWriting(ns + [n], order) && !Writes(ns, n.header.name)
    requires forall x :: x in order ==> FirstWritten(ns + [n], x.header.name) < |ns|
    ensures ByFirstWriting(ns + [n], order + [n])
  {
    FirstWrittenSnoc(ns, n, n.header.name);
    assert n in ns + [n];
    forall i, j | 0 <= i < j < |order + [n]|
      ensures Earlier(ns + [n], (order + [n])[i], (order + [n])[j])
    {
      assert order[i] in order;
      if j < |order| {
        assert Earlier(ns + [n], order[i], order[j]);
      }
    }
  }

  lemma {:induction false} FoldEntryByFirstWriting(f: Folded, ns: seq<Entry>, h: Header, skip: seq<string>)
    requires Collected(f, ns, skip) && ByFirstWriting(ns, f.order)
    ensures Collected(FoldEntry(f, EntryOf(h), skip), ns + [EntryOf(h)], skip)
    ensures ByFirstWriting(ns + [EntryOf(h)], FoldEntry(f, EntryOf(h), skip).order)
  {
    var n := EntryOf(h);
    if !Skips(skip, n.key) && n.key !in f.values {
      NotCollectedIsNew(f, ns, n, skip);
    }
    OneMoreEntry(ns, n, f.order);
  }

  lemma {:induction false} NotCollectedIsNew(f: Folded, ns: seq<Entry>, n: Entry, skip: seq<string>)
    requires Collected(f, ns, skip)
    requires n == EntryOf(n.header) && !Skips(skip, n.key) && n.key !in f.values
    ensures !Writes(ns, n.header.name)
  {
    forall y | y in ns
      ensures y.header.name == n.header.name ==> y.key == n.key
    {}
  }

  lemma {:induction false} FoldIsByFirstWriting(hs: seq<Header>, skip: seq<string>)
    ensures Collected(FoldAll(Entries(hs), skip), Entries(hs), skip)
    ensures ByFirstWriting(Entries(hs), FoldAll(Entries(hs), skip).order)
    decreases |hs|
  {
    if hs != [] {
      var n := |hs| - 1;
      var ns := Entries(hs);
      assert ns[..n] == Entries(hs[..n]) && ns == ns[..n] + [EntryOf(hs[n])];
      FoldIsByFirstWriting(hs[..n], skip);
      FoldEntryByFirstWriting(FoldAll(ns[..n], skip), ns[..n], hs[n], skip);
    }
  }

  /** The place of a change: first what the example has, then what is new, each where it is first written. */
  function Place(es: seq<Entry>, bs: seq<Entry>, c: HeaderChange): nat {
    if c.Added? then |es| + FirstWritten(bs, c.name) else FirstWritten(es, c.name)
  }

  ghost predicate Comes(es: seq<Entry>, bs: seq<Entry>, c: HeaderChange, d: HeaderChange) {
    Place(es, bs, c) < Place(es, bs, d)
  }

  ghost predicate InPlace(es: seq<Entry>, bs: seq<Entry>, q: seq<HeaderChange>) {
    forall i, j :: 0 <= i < j < |q| ==> Comes(es, bs, q[i], q[j])
  }

  lemma {:induction false} InPlaceConcat(es: seq<Entry>, bs: seq<Entry>, p: seq<HeaderChange>, q: seq<HeaderChange>)
    requires InPlace(es, bs, p) && InPlace(es, bs, q)
    requires forall c, d :: c in p && d in q ==> Comes(es, bs, c, d)
    ensures InPlace(es, bs, p + q)
  {
    forall i, j | 0 <= i < j < |p + q|
      ensures Comes(es, bs, (p + q)[i], (p + q)[j])
    {
      if i < |p| <= j {
        assert (p + q)[i] in p && (p + q)[j] in q;
      }
    }
  }

  lemma {:induction false} LostAfterFormer(e: Folded, a: Folded, es: seq<Entry>, bs: seq<Entry>, ns: seq<Entry>,
                                           c: HeaderChange, d: HeaderChange)
    requires ns != [] && ByFirstWriting(es, ns)
    requires c in LostAll(e, a, ns[..|ns| - 1]) && d in Lost(e, a, ns[|ns| - 1])
    ensures Comes(es, bs, c, d)
  {
    var k := |ns| - 1;
    LostMembers(e, a, ns[..k], c);
    var i :| 0 <= i < k && c in Lost(e, a, ns[..k][i]);
    assert Earlier(es, ns[i], ns[k]);
  }

  lemma {:induction false} LostInPlace(e: Folded, a: Folded, es: seq<Entry>, bs: seq<Entry>, ns: seq<Entry>)
    requires ByFirstWriting(es, ns)
    ensures InPlace(es, bs, LostAll(e, a, ns))
    decreases |ns|
  {
    if ns != [] {
      var k := |ns| - 1;
      LostInPlace(e, a, es, bs, ns[..k]);
      forall c, d | c in LostAll(e, a, ns[..k]) && d in Lost(e, a, ns[k])
        ensures Comes(es, bs, c, d)
      {
        LostAfterFormer(e, a, es, bs, ns, c, d);
      }
      InPlaceConcat(es, bs, LostAll(e, a, ns[..k]), Lost(e, a, ns[k]));
    }
  }

  lemma {:induction false} GainedAfterFormer(e: Folded, a: Folded, es: seq<Entry>, bs: seq<Entry>, ns: seq<Entry>,
                                             c: HeaderChange, d: HeaderChange)
    requires ns != [] && ByFirstWriting(bs, ns)
    requires c in GainedAll(e, a, ns[..|ns| - 1]) && d in Gained(e, a, ns[|ns| - 1])
    ensures Comes(es, bs, c, d)
  {
    var k := |ns| - 1;
    GainedMembers(e, a, ns[..k], c);
    var i :| 0 <= i < k && c in Gained(e, a, ns[..k][i]);
    assert Earlier(bs, ns[i], ns[k]);
  }

  lemma {:induction false} GainedInPlace(e: Folded, a: Folded, es: seq<Entry>, bs: seq<Entry>, ns: seq<Entry>)
    requires ByFirstWriting(bs, ns)
    ensures InPlace(es, bs, GainedAll(e, a, ns))
    decreases |ns|
  {
    if ns != [] {
      var k := |ns| - 1;
      GainedInPlace(e, a, es, bs, ns[..k]);
      forall c, d | c in GainedAll(e, a, ns[..k]) && d in Gained(e, a, ns[k])
        ensures Comes(es, bs, c, d)
      {
        GainedAfterFormer(e, a, es, bs, ns, c, d);
      }
      InPlaceConcat(es, bs, GainedAll(e, a, ns[..k]), Gained(e, a, ns[k]));
    }
  }

  lemma {:induction false} LostBeforeGained(e: Folded, a: Folded, es: seq<Entry>, bs: seq<Entry>,
                                            c: HeaderChange, d: HeaderChange)
    requires ByFirstWriting(es, e.order)
    requires c in LostAll(e, a, e.order) && d in GainedAll(e, a, a.order)
    ensures Comes(es, bs, c, d)
  {
    LostMembers(e, a, e.order, c);
    GainedMembers(e, a, a.order, d);
    var n :| n in e.order && c in Lost(e, a, n);
    FirstWrittenSnoc(es, n, c.name);
  }

  /**
   What is removed or changed comes before what is added, and each of the two follows the list of
   headers it is about, by where its name is first written there.
   */
  lemma {:induction false} ReportIsInOrder(exp: seq<Header>, act: seq<Header>, skip: seq<string>)
    ensures InPlace(Entries(exp), Entries(act),
                    Differences(FoldAll(Entries(exp), skip), FoldAll(Entries(act), skip)))
  {
    var es, bs := Entries(exp), Entries(act);
    FoldIsByFirstWriting(exp, skip);
    FoldIsByFirstWriting(act, skip);
    DifferencesInPlace(FoldAll(es, skip), FoldAll(bs, skip), es, bs);
  }

  lemma {:induction false} DifferencesInPlace(e: Folded, a: Folded, es: seq<Entry>, bs: seq<Entry>)
    requires ByFirstWriting(es, e.order) && ByFirstWriting(bs, a.order)
    ensures InPlace(es, bs, Differences(e, a))
  {
    LostInPlace(e, a, es, bs, e.order);
    GainedInPlace(e, a, es, bs, a.order);
    forall c, d | c in LostAll(e, a, e.order) && d in GainedAll(e, a, a.order)
      ensures Comes(es, bs, c, d)
    {
      LostBeforeGained(e, a, es, bs, c, d);
    }
    InPlaceConcat(es, bs, LostAll(e, a, e.order), GainedAll(e, a, a.order));
  }

  /** When no name has blanks around it, the differences in that order are one list, the reported one. */
  lemma {:induction false} ReportIsDetermined(exp: seq<Header>, act: seq<Header>, skip: seq<string>,
                                              q: seq<HeaderChange>)
    requires CleanNames(FoldAll(Entries(exp), skip)) && CleanNames(FoldAll(Entries(act), skip))
    requires var e, a := FoldAll(Entries(exp), skip), FoldAll(Entries(act), skip);
             forall c :: c in q <==> (exists n :: IsLoss(e, a, c, n)) || exists n :: IsGain(e, a, c, n)
    requires InPlace(Entries(exp), Entries(act), q)
    ensures q == Differences(FoldAll(Entries(exp), skip), FoldAll(Entries(act), skip))
  {
    var es, bs := Entries(exp), Entries(act);
    var d := Differences(FoldAll(es, skip), FoldAll(bs, skip));
    forall c: HeaderChange ensures c in q <==> c in d {
      ReportedExactly(exp, act, skip, c);
    }
    ReportIsInOrder(exp, act, skip);
    OnePlaceEach(es, bs, q, d);
  }

  lemma {:induction false} OnePlaceEach(es: seq<Entry>, bs: seq<Entry>, q: seq<HeaderChange>, d: seq<HeaderChange>)
    requires InPlace(es, bs, q) && InPlace(es, bs, d)
    requires forall c :: c in q <==> c in d
    ensures q == d
  {
    var less := (x: HeaderChange, y: HeaderChange) => Place(es, bs, x) < Place(es, bs, y);
    assert forall i, j :: 0 <= i < j < |q| ==> Comes(es, bs, q[i], q[j]);
    assert forall i, j :: 0 <= i < j < |d| ==> Comes(es, bs, d[i], d[j]);
    forall x, y | x in Elems(d) && y in Elems(d) && x != y
      ensures less(x, y) || less(y, x)
    {
      var i :| 0 <= i < |d| && d[i] == x;
      var j :| 0 <= j < |d| && d[j] == y;
      assert Comes(es, bs, d[i], d[j]) || Comes(es, bs, d[j], d[i]);
    }
    assert Elems(q) == Elems(d);
    ListingUnique(less, Elems(d), q, d);
  }

  // ---------------------------------------------------------------- a name with blanks

  /** A header whose name has blanks around it and something between them, compared with itself, is reported. */
  lemma {:induction false} BlankNameDiffersFromItself(h: Header)
    requires EntryOf(h).key != [] && TrimSpace(h.name) != h.name
    ensures var f := FoldAll(Entries([h]), []);
            Differences(f, f) != []
  {
    var n := EntryOf(h);
    CleanExactly(h);
    assert Entries([h]) == [n];
    assert [n][..0] == [];
    assert FoldAll([n], []) == FoldEntry(Folded(map[], []), n, []);
    assert n in FoldAll([n], []).order;
    NoDifferenceExactly([h], [h], []);
  }
}
