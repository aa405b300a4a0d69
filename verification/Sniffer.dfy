/** The writer that watches the server's output, line by line, for the address it announces. */
module Sniffer {
  import opened Text

  type Bytes = seq<Byte>

  const NEWLINE: Byte := 10

  /** How much of an unfinished line is kept. */
  const MAX_KEPT: nat := 8192

  /** What a line announces, if anything: a regular expression over it and a rewriting of the match. */
  type Announces = Bytes -> Option<string>

  datatype State = Watching(kept: Bytes) | Found(url: string)

  /** What reading the complete lines of a text one by one comes to. */
  function Scan(parse: Announces, text: Bytes): State
    decreases |text|
  {
    var i := IndexOf(text, NEWLINE);
    if i < 0 then Watching(text)
    else
      var u := parse(text[..i]);
      if u.Some? then Found(u.value) else Scan(parse, text[i + 1..])
  }

  function Capped(kept: Bytes): (r: Bytes)
    ensures |r| <= MAX_KEPT
  {
    if |kept| > MAX_KEPT then kept[|kept| - MAX_KEPT..] else kept
  }

  /** One write. */
  function Feed(parse: Announces, st: State, p: Bytes): State {
    if st.Found? then st
    else
      var next := Scan(parse, st.kept + p);
      if next.Found? then next else Watching(Capped(next.kept))
  }

  /** The writes one after the other. */
  function FeedAll(parse: Announces, ps: seq<Bytes>): State {
    if ps == [] then Watching([]) else Feed(parse, FeedAll(parse, ps[..|ps| - 1]), ps[|ps| - 1])
  }

  function Stream(ps: seq<Bytes>): Bytes {
    if ps == [] then [] else Stream(ps[..|ps| - 1]) + ps[|ps| - 1]
  }

  class URLSniffer {
    const parse: Announces
    var buf: Bytes
    var done: bool
    /** What has been sent on the channel, which has room for one value. */
    var found: seq<string>
    /** What has been written. */
    ghost var writes: seq<Bytes>

    ghost predicate Valid()
      reads this
    {
      && FeedAll(parse, writes) == (if done then Found(if found == [] then [] else found[0]) else Watching(buf))
      && |found| == (if done then 1 else 0)
      && |buf| <= MAX_KEPT && (done ==> buf == [])
    }

    constructor (parse: Announces)
      ensures Valid() && writes == [] && this.parse == parse
    {
      this.parse := parse;
      buf, done, found, writes := [], false, [], [];
    }

    /** Takes all it is given, keeps no more than the bound, and sends at most one value ever. */
    method Write(p: Bytes) returns (n: nat)
      requires Valid()
      modifies this
      ensures Valid() && writes == old(writes) + [p] && n == |p|
      ensures old(done) ==> done && found == old(found)
    {
      writes := writes + [p];
      assert writes[..|writes| - 1] == old(writes);
      if done {
        return |p|;
      }
      buf := buf + p;
      while true
        invariant Scan(parse, buf) == Scan(parse, old(buf) + p)
        invariant !done && found == [] && writes == old(writes) + [p]
        decreases |buf|
      {
        var i := IndexOf(buf, NEWLINE);
        if i < 0 {
          break;
        }
        var line := buf[..i];
        var u := parse(line);
        var rest := buf[i + 1..];
        if u.Some? {
          done, buf := true, [];
          if |found| < 1 {
            found := found + [u.value];
          }
          return |p|;
        }
        buf := rest;
      }
      if |buf| > MAX_KEPT {
        buf := buf[|buf| - MAX_KEPT..];
      }
      return |p|;
    }
  }

  // ---------------------------------------------------------------- what reading line by line finds

  /** The lines of a text that are complete. */
  function Lines(text: Bytes): seq<Bytes>
    decreases |text|
  {
    var i := IndexOf(text, NEWLINE);
    if i < 0 then [] else [text[..i]] + Lines(text[i + 1..])
  }

  /** The line that is not. */
  function Unfinished(text: Bytes): Bytes
    decreases |text|
  {
    var i := IndexOf(text, NEWLINE);
    if i < 0 then text else Unfinished(text[i + 1..])
  }

  /** The k-th line is the first that announces something. */
  ghost predicate FirstToAnnounce(parse: Announces, lines: seq<Bytes>, k: nat) {
    k < |lines| && parse(lines[k]).Some? && forall j :: 0 <= j < k ==> parse(lines[j]).None?
  }

  lemma {:induction false} LinesOf(text: Bytes, i: nat, line: Bytes, rest: Bytes)
    requires IndexOf(text, NEWLINE) == i && line == text[..i] && rest == text[i + 1..]
    ensures Lines(text) == [line] + Lines(rest) && Unfinished(text) == Unfinished(rest)
  {}

  lemma {:induction false} ScanLine(parse: Announces, text: Bytes, i: nat, line: Bytes, rest: Bytes)
    requires IndexOf(text, NEWLINE) == i && i < |text| && line == text[..i] && rest == text[i + 1..]
    ensures Scan(parse, text) == if parse(line).Some? then Found(parse(line).value) else Scan(parse, rest)
  {}

  /** What is found is what the first complete line to announce anything announces. */
  lemma {:induction false} ScanFindsFirst(parse: Announces, text: Bytes, k: nat)
    requires FirstToAnnounce(parse, Lines(text), k)
    ensures Scan(parse, text) == Found(parse(Lines(text)[k]).value)
    decreases |text|
  {
    var i := IndexOf(text, NEWLINE);
    var line, rest := text[..i], text[i + 1..];
    LinesOf(text, i, line, rest);
    ScanLine(parse, text, i, line, rest);
    if k > 0 {
      LaterLines(parse, line, Lines(rest), k);
      ScanFindsFirst(parse, rest, k - 1);
    }
  }

  lemma {:induction false} LaterLines(parse: Announces, line: Bytes, lines: seq<Bytes>, k: nat)
    requires k > 0 && FirstToAnnounce(parse, [line] + lines, k)
    ensures parse(line).None? && FirstToAnnounce(parse, lines, k - 1) && ([line] + lines)[k] == lines[k - 1]
  {
    assert ([line] + lines)[0] == line;
    assert forall j :: 0 <= j < |lines| ==> ([line] + lines)[j + 1] == lines[j];
  }

  ghost predicate NoneAnnounces(parse: Announces, lines: seq<Bytes>) {
    forall k :: 0 <= k < |lines| ==> parse(lines[k]).None?
  }

  /** While none does, the unfinished line is what is kept. */
  lemma {:induction false} ScanFindsNothing(parse: Announces, text: Bytes)
    requires NoneAnnounces(parse, Lines(text))
    ensures Scan(parse, text) == Watching(Unfinished(text))
    decreases |text|
  {
    var i := IndexOf(text, NEWLINE);
    if i >= 0 {
      var line, rest := text[..i], text[i + 1..];
      LinesOf(text, i, line, rest);
      ScanLine(parse, text, i, line, rest);
      assert ([line] + Lines(rest))[0] == line;
      assert forall j :: 0 <= j < |Lines(rest)| ==> ([line] + Lines(rest))[j + 1] == Lines(rest)[j];
      ScanFindsNothing(parse, rest);
    }
  }

  // ---------------------------------------------------------------- independence of the chunks

  lemma {:induction false} FirstLineOf(a: Bytes, b: Bytes, i: nat)
    requires IndexOf(a, NEWLINE) == i
    ensures IndexOf(a + b, NEWLINE) == i && i < |a|
    ensures (a + b)[..i] == a[..i] && (a + b)[i + 1..] == a[i + 1..] + b
  {
    assert (a + b)[..i] == a[..i];
    IndexOfIs(a + b, NEWLINE, i);
  }

  /** Reading may stop anywhere and go on from the unfinished line. */
  lemma {:induction false} ScanResumes(parse: Announces, a: Bytes, b: Bytes)
    ensures Scan(parse, a + b) == if Scan(parse, a).Found? then Scan(parse, a) else Scan(parse, Scan(parse, a).kept + b)
    decreases |a|
  {
    var i := IndexOf(a, NEWLINE);
    if i >= 0 {
      FirstLineOf(a, b, i);
      ScanResumes(parse, a[i + 1..], b);
      ScanLine(parse, a + b, i, a[..i], a[i + 1..] + b);
      ScanLine(parse, a, i, a[..i], a[i + 1..]);
    }
  }

  /** No line is longer than what is kept, the unfinished one included. */
  predicate Fits(text: Bytes)
    decreases |text|
  {
    var i := IndexOf(text, NEWLINE);
    if i < 0 then |text| <= MAX_KEPT else i <= MAX_KEPT && Fits(text[i + 1..])
  }

  lemma {:induction false} FitsPrefix(a: Bytes, b: Bytes)
    requires Fits(a + b)
    ensures Fits(a)
    decreases |a|
  {
    var i := IndexOf(a, NEWLINE);
    if i >= 0 {
      FirstLineOf(a, b, i);
      FitsPrefix(a[i + 1..], b);
    } else {
      var j := IndexOf(a + b, NEWLINE);
      assert j >= 0 ==> j >= |a|;
    }
  }

  lemma {:induction false} FitsOf(text: Bytes, i: nat, rest: Bytes)
    requires IndexOf(text, NEWLINE) == i && i < |text| && rest == text[i + 1..]
    ensures Fits(text) <==> i <= MAX_KEPT && Fits(rest)
  {}

  lemma {:induction false} KeptFits(parse: Announces, text: Bytes)
    requires Fits(text) && Scan(parse, text).Watching?
    ensures |Scan(parse, text).kept| <= MAX_KEPT
    decreases |text|
  {
    var i := IndexOf(text, NEWLINE);
    if i >= 0 {
      var rest := text[i + 1..];
      FitsOf(text, i, rest);
      ScanLine(parse, text, i, text[..i], rest);
      KeptFits(parse, rest);
    }
  }

  /** However the output is split into writes, what is found and kept is what the whole of it comes to. */
  lemma {:induction false} ChunksDoNotMatter(parse: Announces, ps: seq<Bytes>)
    requires Fits(Stream(ps))
    ensures FeedAll(parse, ps) == Scan(parse, Stream(ps))
    decreases |ps|
  {
    if ps != [] {
      var before, p := Stream(ps[..|ps| - 1]), ps[|ps| - 1];
      FitsPrefix(before, p);
      ChunksDoNotMatter(parse, ps[..|ps| - 1]);
      ScanResumes(parse, before, p);
      if Scan(parse, before + p).Watching? {
        KeptFits(parse, before + p);
      }
    }
  }

  // ---------------------------------------------------------------- one split and another

  /** No complete line is longer than what is kept; the unfinished one may be. */
  predicate LinesFit(text: Bytes) {
    forall k :: 0 <= k < |Lines(text)| ==> |Lines(text)[k]| <= MAX_KEPT
  }

  /** What is left of a state when its unfinished line is cut down. */
  function Cut(st: State): State {
    if st.Found? then st else Watching(Capped(st.kept))
  }

  lemma {:induction false} LinesFitOf(text: Bytes, i: nat, line: Bytes, rest: Bytes)
    requires IndexOf(text, NEWLINE) == i && line == text[..i] && rest == text[i + 1..]
    ensures LinesFit(text) <==> |line| <= MAX_KEPT && LinesFit(rest)
  {
    LinesOf(text, i, line, rest);
    assert ([line] + Lines(rest))[0] == line;
    assert forall k :: 0 <= k < |Lines(rest)| ==> ([line] + Lines(rest))[k + 1] == Lines(rest)[k];
  }

  /** The lines of a beginning, and those that go on from its unfinished line, are lines of the whole. */
  lemma {:induction false} LinesFitParts(parse: Announces, a: Bytes, b: Bytes)
    requires LinesFit(a + b)
    ensures LinesFit(a)
    ensures Scan(parse, a).Watching? ==> NEWLINE !in Scan(parse, a).kept && LinesFit(Scan(parse, a).kept + b)
    decreases |a|
  {
    var i := IndexOf(a, NEWLINE);
    if i >= 0 {
      FirstLineOf(a, b, i);
      LinesFitOf(a + b, i, a[..i], a[i + 1..] + b);
      LinesFitOf(a, i, a[..i], a[i + 1..]);
      LinesFitParts(parse, a[i + 1..], b);
      ScanLine(parse, a, i, a[..i], a[i + 1..]);
    }
  }

  /** Cutting the unfinished line down before more is read makes no difference after. */
  lemma {:induction false} CutResumes(parse: Announces, kept: Bytes, p: Bytes)
    requires NEWLINE !in kept && LinesFit(kept + p)
    ensures Cut(Scan(parse, Capped(kept) + p)) == Cut(Scan(parse, kept + p))
  {
    var i := IndexOf(kept + p, NEWLINE);
    if i >= 0 {
      LinesFitOf(kept + p, i, (kept + p)[..i], (kept + p)[i + 1..]);
      assert |kept| <= i;
    } else {
      assert NEWLINE !in Capped(kept) + p;
      assert Capped(Capped(kept) + p) == Capped(kept + p);
    }
  }

  /** When the complete lines fit, every split comes to what the whole comes to, its unfinished line cut down. */
  lemma {:induction false} SplitsComeToTheWhole(parse: Announces, ps: seq<Bytes>)
    requires LinesFit(Stream(ps))
    ensures FeedAll(parse, ps) == Cut(Scan(parse, Stream(ps)))
    decreases |ps|
  {
    if ps != [] {
      var front, p := ps[..|ps| - 1], ps[|ps| - 1];
      var before := Stream(front);
      LinesFitParts(parse, before, p);
      SplitsComeToTheWhole(parse, front);
      ScanResumes(parse, before, p);
      if Scan(parse, before).Watching? {
        CutResumes(parse, Scan(parse, before).kept, p);
      }
    } else {
      assert Scan(parse, []) == Watching([]);
    }
  }

  // ---------------------------------------------------------------- lines that are too long

  function Singles(text: Bytes): (r: seq<Bytes>)
    ensures |r| == |text| && forall i :: 0 <= i < |text| ==> r[i] == [text[i]]
  {
    seq(|text|, i requires 0 <= i < |text| => [text[i]])
  }

  /** Announcements that only long lines make. */
  function OnlyLong(line: Bytes): Option<string> {
    if |line| > MAX_KEPT then Some("") else None
  }

  lemma {:induction false} StreamOfSingles(text: Bytes)
    ensures Stream(Singles(text)) == text
    decreases |text|
  {
    if text != [] {
      var n := |text| - 1;
      assert Singles(text)[..n] == Singles(text[..n]);
      StreamOfSingles(text[..n]);
      assert text == text[..n] + [text[n]];
    }
  }

  lemma {:induction false} SinglesFindNothing(text: Bytes)
    ensures FeedAll(OnlyLong, Singles(text)).Watching?
    ensures |FeedAll(OnlyLong, Singles(text)).kept| <= MAX_KEPT
    ensures NEWLINE !in FeedAll(OnlyLong, Singles(text)).kept
    decreases |text|
  {
    if text != [] {
      var n := |text| - 1;
      assert Singles(text)[..n] == Singles(text[..n]);
      SinglesFindNothing(text[..n]);
      OneByte(FeedAll(OnlyLong, Singles(text[..n])).kept, text[n]);
    }
  }

  lemma {:induction false} OneByte(kept: Bytes, c: Byte)
    requires |kept| <= MAX_KEPT && NEWLINE !in kept
    ensures var st := Feed(OnlyLong, Watching(kept), [c]);
            st.Watching? && |st.kept| <= MAX_KEPT && NEWLINE !in st.kept
  {
    var t := kept + [c];
    if c == NEWLINE {
      assert t[..|kept|] == kept && t[|kept| + 1..] == [];
      IndexOfIs(t, NEWLINE, |kept|);
      ScanLine(OnlyLong, t, |kept|, kept, []);
      assert Scan(OnlyLong, []) == Watching([]);
    } else {
      assert NEWLINE !in t;
      assert Scan(OnlyLong, t) == Watching(t);
    }
  }

  lemma {:induction false} LongLineShows(text: Bytes)
    requires !LinesFit(text)
    ensures Scan(OnlyLong, text).Found?
    decreases |text|
  {
    var i := IndexOf(text, NEWLINE);
    if i >= 0 {
      LinesFitOf(text, i, text[..i], text[i + 1..]);
      ScanLine(OnlyLong, text, i, text[..i], text[i + 1..]);
      if i <= MAX_KEPT {
        LongLineShows(text[i + 1..]);
      }
    }
  }

  lemma {:induction false} OneWrite(parse: Announces, text: Bytes)
    ensures Stream([text]) == text && FeedAll(parse, [text]) == Cut(Scan(parse, text))
  {
    assert [text][..0] == [];
    assert [] + text == text;
    assert Stream([]) == [] && FeedAll(parse, []) == Watching([]);
  }

  /** Both are splits of the text, and they come to one state. */
  ghost predicate Alike(parse: Announces, text: Bytes, ps: seq<Bytes>, qs: seq<Bytes>) {
    Stream(ps) == text && Stream(qs) == text ==> FeedAll(parse, ps) == FeedAll(parse, qs)
  }

  /** All splits of the text come to one state, whatever is looked for. */
  ghost predicate AllAlike(text: Bytes) {
    forall parse, ps, qs :: Alike(parse, text, ps, qs)
  }

  lemma {:induction false} AlikeWhenLinesFit(text: Bytes)
    requires LinesFit(text)
    ensures AllAlike(text)
  {
    forall parse, ps, qs ensures Alike(parse, text, ps, qs) {
      if Stream(ps) == text && Stream(qs) == text {
        SplitsComeToTheWhole(parse, ps);
        SplitsComeToTheWhole(parse, qs);
      }
    }
  }

  /** A complete line that is too long is found in one write, and missed byte by byte. */
  lemma {:induction false} NotAlikeOtherwise(text: Bytes)
    requires !LinesFit(text)
    ensures !Alike(OnlyLong, text, [text], Singles(text))
  {
    StreamOfSingles(text);
    SinglesFindNothing(text);
    LongLineShows(text);
    OneWrite(OnlyLong, text);
  }

  /**
   All splits of a text come to one state, whatever is looked for, exactly when no complete line of it is
   too long. The unfinished line may be: every split keeps the same end of it.
   */
  lemma {:induction false} AlikeExactlyWhenLinesFit(text: Bytes)
    ensures LinesFit(text) <==> AllAlike(text)
  {
    if LinesFit(text) {
      AlikeWhenLinesFit(text);
    } else {
      NotAlikeOtherwise(text);
    }
  }

  // ---------------------------------------------------------------- an address at the front of a long line

  /** A line that is too long and announces something its end does not is missed if its newline comes later. */
  lemma {:induction false} LateNewlineMisses(parse: Announces, line: Bytes)
    requires |line| > MAX_KEPT && NEWLINE !in line && parse(line).Some? && parse(Capped(line)).None?
    ensures Stream([line + [NEWLINE]]) == Stream([line, [NEWLINE]]) == line + [NEWLINE]
    ensures FeedAll(parse, [line + [NEWLINE]]) == Found(parse(line).value)
    ensures FeedAll(parse, [line, [NEWLINE]]) == Watching([])
  {
    OneWrite(parse, line + [NEWLINE]);
    OneWrite(parse, line);
    LineAlone(parse, line);
    LineAlone(parse, Capped(line));
    assert [line, [NEWLINE]][..1] == [line];
    assert Scan(parse, line) == Watching(line);
  }

  lemma {:induction false} LineAlone(parse: Announces, line: Bytes)
    requires NEWLINE !in line
    ensures Scan(parse, line + [NEWLINE]) == if parse(line).Some? then Found(parse(line).value) else Watching([])
  {
    var text, i := line + [NEWLINE], |line|;
    assert text[..i] == line && text[i + 1..] == [];
    IndexOfIs(text, NEWLINE, i);
    ScanLine(parse, text, i, line, []);
    assert Scan(parse, []) == Watching([]);
  }

  /** "UI on http://a", as bytes: the least the program's expression takes for an announcement. */
  const ADDRESS: Bytes := [85, 73, 32, 111, 110, 32, 104, 116, 116, 112, 58, 47, 47, 97]

  predicate AddressAt(line: Bytes, i: int) {
    0 <= i && i + |ADDRESS| <= |line| && line[i..i + |ADDRESS|] == ADDRESS
  }

  /** Finds that address wherever in the line it stands. */
  function FindsAddress(line: Bytes): Option<string> {
    if exists i :: 0 <= i < |line| && AddressAt(line, i) then Some("http://a") else None
  }

  /** The address, then blanks up to where the line is too long. */
  function LongAnnouncement(): Bytes {
    ADDRESS + seq(MAX_KEPT, i => 32)
  }

  /** Such a line is found when it comes with its newline and missed when the newline comes after it. */
  lemma {:induction false} AddressAtTheFrontIsMissed()
    ensures var line := LongAnnouncement();
            && Stream([line + [NEWLINE]]) == Stream([line, [NEWLINE]])
            && FeedAll(FindsAddress, [line + [NEWLINE]]) == Found("http://a")
            && FeedAll(FindsAddress, [line, [NEWLINE]]) == Watching([])
  {
    var line := LongAnnouncement();
    assert line[0..0 + |ADDRESS|] == ADDRESS;
    assert AddressAt(line, 0);
    assert FindsAddress(line) == Some("http://a");
    BlanksAnnounceNothing(Capped(line));
    LateNewlineMisses(FindsAddress, line);
  }

  lemma {:induction false} BlanksAnnounceNothing(line: Bytes)
    requires forall i :: 0 <= i < |line| ==> line[i] == 32
    ensures FindsAddress(line) == None
  {
    forall i | 0 <= i < |line|
      ensures !AddressAt(line, i)
    {
      if i + |ADDRESS| <= |line| {
        assert line[i..i + |ADDRESS|][0] == 32 && ADDRESS[0] == 85;
      }
    }
  }
}
