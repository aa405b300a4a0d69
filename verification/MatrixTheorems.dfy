/**
 The identity matrix told from the reports: which result a cell shows, when two identities had the same access,
 what is flagged, and what the summary counts.
 */
module IdentityMatrixTheorems {
  import opened Sorting
  import opened Text
  import opened IdentityMatrix

  // ---- the last result of an identity ----

  /** Result i of report si is one of the first iteration, for this request and owner. */
  ghost predicate ResultAt(owners: seq<string>, reports: seq<Option<seq<Item>>>, key: Key, si: int, i: int)
    requires |reports| <= |owners|
  {
    && 0 <= si < |reports| && reports[si].Some? && 0 <= i < |reports[si].value|
    && reports[si].value[i].iteration == 0 && reports[si].value[i].uid == key.0 && owners[si] == key.1
  }

  /** It is the last such result: of the last report that has one, and the last in it. */
  ghost predicate LastAt(owners: seq<string>, reports: seq<Option<seq<Item>>>, key: Key, si: int, i: int)
    requires |reports| <= |owners|
  {
    && ResultAt(owners, reports, key, si, i)
    && forall sj, j :: ResultAt(owners, reports, key, sj, j) ==> sj < si || (sj == si && j <= i)
  }

  ghost predicate LastResult(owners: seq<string>, reports: seq<Option<seq<Item>>>, key: Key, it: Item)
    requires |reports| <= |owners|
  {
    exists si, i :: LastAt(owners, reports, key, si, i) && reports[si].value[i] == it
  }

  ghost predicate NoResult(owners: seq<string>, reports: seq<Option<seq<Item>>>, key: Key)
    requires |reports| <= |owners|
  {
    forall si, i :: !ResultAt(owners, reports, key, si, i)
  }

  /** The item of an identity's last event for the key. */
  function LastIn(events: seq<Event>, key: Key, ci: nat): Option<Item> {
    if events == [] then None
    else
      var ev := events[|events| - 1];
      if ev.key == key && ev.by_ == ci then Some(ev.item) else LastIn(events[..|events| - 1], key, ci)
  }

  lemma {:induction false} LastInIs(events: seq<Event>, key: Key, ci: nat)
    ensures LastIn(events, key, ci).None? <==> NoneOf(events, key, ci)
    ensures forall i :: LastOf(events, key, ci, i) ==> LastIn(events, key, ci) == Some(events[i].item)
    decreases |events|
  {
    if events != [] {
      var n := |events| - 1;
      LastInIs(events[..n], key, ci);
      assert forall j :: 0 <= j < n ==> events[..n][j] == events[j];
      forall i | LastOf(events, key, ci, i)
        ensures LastIn(events, key, ci) == Some(events[i].item)
      {
        if i < n {
          assert LastOf(events[..n], key, ci, i);
        }
      }
    }
  }

  lemma {:induction false} LastInConcat(a: seq<Event>, b: seq<Event>, key: Key, ci: nat)
    ensures LastIn(a + b, key, ci) == if LastIn(b, key, ci).Some? then LastIn(b, key, ci) else LastIn(a, key, ci)
    decreases |b|
  {
    if b == [] {
      assert a + b == a;
    } else {
      assert (a + b)[..|a + b| - 1] == a + b[..|b| - 1];
      LastInConcat(a, b[..|b| - 1], key, ci);
    }
  }

  /** The last item of the first iteration for the request. */
  function LastItem(items: seq<Item>, uid: string): Option<Item> {
    if items == [] then None
    else
      var it := items[|items| - 1];
      if it.iteration == 0 && it.uid == uid then Some(it) else LastItem(items[..|items| - 1], uid)
  }

  lemma {:induction false} LastInItems(ci: nat, owner: string, items: seq<Item>, key: Key, cj: nat)
    ensures LastIn(ItemEvents(ci, owner, items), key, cj)
            == if ci == cj && owner == key.1 then LastItem(items, key.0) else None
    decreases |items|
  {
    if items != [] {
      var n := |items| - 1;
      LastInItems(ci, owner, items[..n], key, cj);
      if items[n].iteration == 0 {
        var ev := Event(ci, (items[n].uid, owner), items[n]);
        LastInConcat(ItemEvents(ci, owner, items[..n]), [ev], key, cj);
        assert [ev][..0] == [];
      } else {
        assert ItemEvents(ci, owner, items) == ItemEvents(ci, owner, items[..n]);
      }
    }
  }

  /** The last result over all reports of an identity. */
  function LastReported(owners: seq<string>, reports: seq<Option<seq<Item>>>, key: Key): Option<Item>
    requires |reports| <= |owners|
  {
    if reports == [] then None
    else
      var n := |reports| - 1;
      if reports[n].Some? && owners[n] == key.1 && LastItem(reports[n].value, key.0).Some? then
        LastItem(reports[n].value, key.0)
      else LastReported(owners, reports[..n], key)
  }

  lemma {:induction false} LastInScenarios(ci: nat, owners: seq<string>, reports: seq<Option<seq<Item>>>, key: Key,
                                           cj: nat)
    requires |reports| <= |owners|
    ensures LastIn(ScenarioEvents(ci, owners, reports), key, cj)
            == if ci == cj then LastReported(owners, reports, key) else None
    decreases |reports|
  {
    if reports != [] {
      var n := |reports| - 1;
      LastInScenarios(ci, owners, reports[..n], key, cj);
      LastInConcat(ScenarioEvents(ci, owners, reports[..n]), ReportEvents(ci, owners[n], reports[n]), key, cj);
      if reports[n].Some? {
        LastInItems(ci, owners[n], reports[n].value, key, cj);
      }
    }
  }

  lemma {:induction false} LastInEvents(owners: seq<string>, reports: seq<seq<Option<seq<Item>>>>, key: Key, ci: nat)
    requires forall cj :: 0 <= cj < |reports| ==> |reports[cj]| <= |owners|
    ensures LastIn(Events(owners, reports), key, ci)
            == if ci < |reports| then LastReported(owners, reports[ci], key) else None
    decreases |reports|
  {
    if reports != [] {
      var n := |reports| - 1;
      LastInEvents(owners, reports[..n], key, ci);
      LastInConcat(Events(owners, reports[..n]), ScenarioEvents(n, owners, reports[n]), key, ci);
      LastInScenarios(n, owners, reports[n], key, ci);
    }
  }

  lemma {:induction false} LastItemIs(items: seq<Item>, uid: string) returns (i: int)
    ensures LastItem(items, uid).None? ==>
              forall j :: 0 <= j < |items| ==> items[j].iteration != 0 || items[j].uid != uid
    ensures LastItem(items, uid).Some? ==>
              && 0 <= i < |items| && LastItem(items, uid) == Some(items[i])
              && items[i].iteration == 0 && items[i].uid == uid
              && forall j :: i < j < |items| ==> items[j].iteration != 0 || items[j].uid != uid
    decreases |items|
  {
    i := -1;
    if items != [] {
      var n := |items| - 1;
      if items[n].iteration == 0 && items[n].uid == uid {
        i := n;
      } else {
        i := LastItemIs(items[..n], uid);
        assert forall j :: 0 <= j < n ==> items[..n][j] == items[j];
      }
    }
  }

  lemma {:induction false} LastReportedIs(owners: seq<string>, reports: seq<Option<seq<Item>>>, key: Key)
    requires |reports| <= |owners|
    ensures LastReported(owners, reports, key).None? ==> NoResult(owners, reports, key)
    ensures LastReported(owners, reports, key).Some? ==>
              LastResult(owners, reports, key, LastReported(owners, reports, key).value)
    decreases |reports|
  {
    if reports != [] {
      var n := |reports| - 1;
      var front := reports[..n];
      LastReportedIs(owners, front, key);
      forall si, i | si < n
        ensures ResultAt(owners, reports, key, si, i) <==> ResultAt(owners, front, key, si, i)
      {}
      var i := -1;
      if reports[n].Some? {
        i := LastItemIs(reports[n].value, key.0);
      }
      if reports[n].Some? && owners[n] == key.1 && LastItem(reports[n].value, key.0).Some? {
        assert LastAt(owners, reports, key, n, i);
      } else {
        assert forall si, j :: si == n ==> !ResultAt(owners, reports, key, si, j);
        if LastReported(owners, front, key).Some? {
          StillLast(owners, reports, key, LastReported(owners, front, key).value);
        }
      }
    }
  }

  /** The last result stays the last when the next report has none. */
  lemma {:induction false} StillLast(owners: seq<string>, reports: seq<Option<seq<Item>>>, key: Key, it: Item)
    requires 0 < |reports| <= |owners| && LastResult(owners, reports[..|reports| - 1], key, it)
    requires forall si, j :: si == |reports| - 1 ==> !ResultAt(owners, reports, key, si, j)
    ensures LastResult(owners, reports, key, it)
  {
    var front := reports[..|reports| - 1];
    var si, i :| LastAt(owners, front, key, si, i) && front[si].value[i] == it;
    forall sj, j | ResultAt(owners, reports, key, sj, j)
      ensures sj < si || (sj == si && j <= i)
    {
      assert ResultAt(owners, front, key, sj, j);
    }
    assert ResultAt(owners, reports, key, si, i);
    assert LastAt(owners, reports, key, si, i);
  }

  /** Whether and as what the identity's column has a result for the row. */
  ghost predicate HasResult(owners: seq<string>, reports: seq<Option<seq<Item>>>, key: Key, got: Option<Item>)
    requires |reports| <= |owners|
  {
    match got
    case None => NoResult(owners, reports, key)
    case Some(it) => LastResult(owners, reports, key, it)
  }

  lemma {:induction false} OneLastResult(owners: seq<string>, reports: seq<Option<seq<Item>>>, key: Key,
                                         got: Option<Item>)
    requires |reports| <= |owners| && HasResult(owners, reports, key, got)
    ensures LastReported(owners, reports, key) == got
  {
    LastReportedIs(owners, reports, key);
    var last := LastReported(owners, reports, key);
    if last.Some? {
      LastIsOnly(owners, reports, key, last.value, got);
    }
  }

  lemma {:induction false} LastIsOnly(owners: seq<string>, reports: seq<Option<seq<Item>>>, key: Key, it: Item,
                                      got: Option<Item>)
    requires |reports| <= |owners| && LastResult(owners, reports, key, it) && HasResult(owners, reports, key, got)
    ensures got == Some(it)
  {
    var si, i :| LastAt(owners, reports, key, si, i) && reports[si].value[i] == it;
    assert ResultAt(owners, reports, key, si, i);
  }

  // ---- what a cell shows of it ----

  /** What is stored of the exchange. */
  function Stored(it: Item, flows: Flows): Option<Flow> {
    if it.flow > 0 && it.flow in flows then Some(flows[it.flow]) else None
  }

  /** Turned away: 401 or 403, or a redirect to a login page. */
  predicate TurnedAway(it: Item, flows: Flows) {
    && it.outcome == Sent
    && (it.status == 401 || it.status == 403
        || (300 <= it.status < 400 && Stored(it, flows).Some? && Stored(it, flows).value.login))
  }

  predicate Succeeded(it: Item) {
    it.outcome == Sent && 200 <= it.status < 300
  }

  /** The size reported, or else that of what is stored. */
  function SizeOf(it: Item, flows: Flows): int {
    if it.size == 0 && Stored(it, flows).Some? then Stored(it, flows).value.length else it.size
  }

  function HashOf(it: Item, flows: Flows): string {
    if Stored(it, flows).Some? then Stored(it, flows).value.bodyHash else ""
  }

  /** The two were sent and answered alike: one status and, where both bodies have a hash, one hash, else one size. */
  predicate SameAnswer(a: Item, b: Item, flows: Flows) {
    && a.outcome == Sent && b.outcome == Sent && a.status == b.status
    && if HashOf(a, flows) != "" && HashOf(b, flows) != "" then HashOf(a, flows) == HashOf(b, flows)
       else SizeOf(a, flows) == SizeOf(b, flows)
  }

  /** What the program makes of the identity's last result. */
  function Shown(got: Option<Item>, hasAuth: bool, flows: Flows): Cell {
    if got.None? then BLANK else CellOf(got.value, hasAuth, flows)
  }

  lemma {:induction false} CellIsShown(c: Cell, events: seq<Event>, key: Key, ci: nat, run: seq<Identity>, flows: Flows)
    requires ci < |run| && Shows(c, events, key, ci, run, flows)
    ensures c == Shown(LastIn(events, key, ci), !run[ci].anonymous, flows)
  {
    LastInIs(events, key, ci);
    if !NoneOf(events, key, ci) {
      var i := LastExists(events, key, ci);
    }
  }

  /** The inputs of a matrix, as the program has them: one list of reports for each identity, no name twice. */
  ghost predicate IsMatrixRun(run: seq<Identity>, owners: seq<string>, reports: seq<seq<Option<seq<Item>>>>) {
    && |reports| == |run| && DistinctNames(run)
    && forall ci :: 0 <= ci < |reports| ==> |reports[ci]| <= |owners|
  }

  /** The row is one of the finished matrix: folded from the reports, then judged. */
  ghost predicate IsRow(row: Row, run: seq<Identity>, owners: seq<string>, reports: seq<seq<Option<seq<Item>>>>,
                        flows: Flows, baseline: string)
    requires IsMatrixRun(run, owners, reports)
  {
    exists folded: Row ::
      && RowShows(folded, Events(owners, reports), run, flows)
      && IsJudged(folded, row, run, Names(run), baseline)
  }

  /** The rows of an assembled matrix are such rows. */
  lemma {:induction false} AssembledRows(folded: seq<Row>, rows: seq<Row>, run: seq<Identity>, owners: seq<string>,
                                         reports: seq<seq<Option<seq<Item>>>>, flows: Flows, baseline: string, ri: nat)
    requires IsMatrixRun(run, owners, reports) && ri < |folded| == |rows|
    requires Assembled(folded, Events(owners, reports), run, flows)
    requires IsJudged(folded[ri], rows[ri], run, Names(run), baseline)
    ensures IsRow(rows[ri], run, owners, reports, flows, baseline)
  {
    assert RowShows(folded[ri], Events(owners, reports), run, flows);
  }

  lemma {:induction false} FoldedCell(folded: Row, run: seq<Identity>, owners: seq<string>,
                                      reports: seq<seq<Option<seq<Item>>>>, flows: Flows, ci: nat, got: Option<Item>)
    requires IsMatrixRun(run, owners, reports) && RowShows(folded, Events(owners, reports), run, flows) && ci < |run|
    requires HasResult(owners, reports[ci], KeyOf(folded), got)
    ensures folded.cells[ci] == Shown(got, !run[ci].anonymous, flows)
  {
    CellIsShown(folded.cells[ci], Events(owners, reports), KeyOf(folded), ci, run, flows);
    LastInEvents(owners, reports, KeyOf(folded), ci);
    OneLastResult(owners, reports[ci], KeyOf(folded), got);
  }

  /** What became of the last result, if there is one. */
  ghost predicate ClassSays(c: Cell, got: Option<Item>, anonymous: bool, flows: Flows) {
    match c.class_
    case NotRun => got.None? || got.value.outcome == Skipped
    case Barred => got.Some? && got.value.outcome == Blocked
    case Error => got.Some? && got.value.outcome == Failed
    case Success => got.Some? && Succeeded(got.value)
    case AuthzFailure => got.Some? && got.value.outcome == Sent && got.value.status == 403 && !anonymous
    case AuthFailure =>
      got.Some? && TurnedAway(got.value, flows) && !(got.value.status == 403 && !anonymous)
    case Validation => got.Some? && got.value.outcome == Sent && got.value.status in {400, 411, 413, 415, 422}
    case Other =>
      && got.Some? && got.value.outcome == Sent && !Succeeded(got.value) && !TurnedAway(got.value, flows)
      && got.value.status !in {400, 411, 413, 415, 422}
  }

  lemma {:induction false} ShownSays(got: Option<Item>, anonymous: bool, flows: Flows)
    ensures ClassSays(Shown(got, !anonymous, flows), got, anonymous, flows)
    ensures Shown(got, !anonymous, flows).denied <==> got.Some? && TurnedAway(got.value, flows)
    ensures got.Some? ==> Shown(got, !anonymous, flows).status == got.value.status
  {}

  lemma {:induction false} ShownAlike(base: Option<Item>, a: bool, got: Option<Item>, b: bool, flows: Flows)
    ensures SameAccess(Shown(base, a, flows), Shown(got, b, flows)) <==>
            base.Some? && got.Some? && SameAnswer(base.value, got.value, flows)
    ensures Shown(got, b, flows).class_ != NotRun <==> got.Some? && got.value.outcome != Skipped
  {}

  /** A judged cell keeps its result, and is compared with the baseline's. */
  lemma {:induction false} JudgedCell(folded: Row, row: Row, run: seq<Identity>, baseline: string, ci: nat)
    requires ci < |run| && IsJudged(folded, row, run, Names(run), baseline)
    ensures var b, c, d := IndexIn(Names(run), baseline), folded.cells[ci], row.cells[ci];
            && d.class_ == c.class_ && d.status == c.status && d.denied == c.denied
            && (ci == b ==> (d.same <==> c.class_ != NotRun))
            && (ci != b && b >= 0 ==> (d.same <==> SameAccess(folded.cells[b], c)))
            && (b < 0 ==> d.same == c.same)
  {}

  /** The class of a cell is that of the identity's last result for the row, and so is its status. */
  lemma {:induction false} CellsExactly(row: Row, run: seq<Identity>, owners: seq<string>,
                                        reports: seq<seq<Option<seq<Item>>>>, flows: Flows, baseline: string, ci: nat,
                                        got: Option<Item>)
    requires IsMatrixRun(run, owners, reports) && IsRow(row, run, owners, reports, flows, baseline) && ci < |run|
    requires HasResult(owners, reports[ci], KeyOf(row), got)
    ensures |row.cells| == |run| && ClassSays(row.cells[ci], got, run[ci].anonymous, flows)
    ensures got.Some? ==> row.cells[ci].status == got.value.status
    ensures row.cells[ci].denied <==> got.Some? && TurnedAway(got.value, flows)
  {
    var folded :| RowShows(folded, Events(owners, reports), run, flows)
                  && IsJudged(folded, row, run, Names(run), baseline);
    FoldedCell(folded, run, owners, reports, flows, ci, got);
    JudgedCell(folded, row, run, baseline, ci);
    ShownSays(got, run[ci].anonymous, flows);
  }

  lemma {:induction false} BaselineColumn(run: seq<Identity>, b: nat)
    requires DistinctNames(run) && b < |run|
    ensures IndexIn(Names(run), run[b].name) == b
  {
    DistinctNamesDiffer(run);
    assert Names(run)[b] == run[b].name;
  }

  /**
   Which cells count as the same as the baseline's: of another identity, exactly those whose last result and the
   baseline's are one answer; of the baseline, those that have been run.
   */
  lemma {:induction false} SameExactly(row: Row, run: seq<Identity>, owners: seq<string>,
                                       reports: seq<seq<Option<seq<Item>>>>, flows: Flows, b: nat, ci: nat,
                                       base: Option<Item>, got: Option<Item>)
    requires IsMatrixRun(run, owners, reports) && b < |run| && ci < |run|
    requires IsRow(row, run, owners, reports, flows, run[b].name)
    requires HasResult(owners, reports[b], KeyOf(row), base) && HasResult(owners, reports[ci], KeyOf(row), got)
    ensures |row.cells| == |run|
    ensures row.cells[ci].same <==>
            if ci == b then got.Some? && got.value.outcome != Skipped
            else base.Some? && got.Some? && SameAnswer(base.value, got.value, flows)
  {
    var folded :| RowShows(folded, Events(owners, reports), run, flows)
                  && IsJudged(folded, row, run, Names(run), run[b].name);
    FoldedCell(folded, run, owners, reports, flows, ci, got);
    FoldedCell(folded, run, owners, reports, flows, b, base);
    BaselineColumn(run, b);
    JudgedCell(folded, row, run, run[b].name, ci);
    ShownAlike(base, !run[b].anonymous, got, !run[ci].anonymous, flows);
  }

  /** The identity should be turned away: it is said to, or nothing is said and it is the anonymous one. */
  predicate ShouldBeDenied(id: Identity) {
    id.should == Deny || (id.should == Unspecified && id.anonymous)
  }

  /**
   What is flagged. If the row's object is owned by an identity of the run: every success of another. If not: every
   success of one that should be denied, and every turning away of one that should be allowed, the baseline aside.
   */
  lemma {:induction false} FlagsOfResults(row: Row, run: seq<Identity>, owners: seq<string>,
                                          reports: seq<seq<Option<seq<Item>>>>, flows: Flows, baseline: string,
                                          ci: nat, got: Option<Item>)
    requires IsMatrixRun(run, owners, reports) && IsRow(row, run, owners, reports, flows, baseline) && ci < |run|
    requires HasResult(owners, reports[ci], KeyOf(row), got)
    ensures |row.cells| == |run|
    ensures var id, owned := run[ci], row.owner != "" && row.owner in Names(run);
            && (row.cells[ci].flag == Violation <==>
                got.Some? && Succeeded(got.value)
                && if owned then id.name != row.owner else id.name != baseline && ShouldBeDenied(id))
            && (row.cells[ci].flag == UnexpectedDenial <==>
                got.Some? && TurnedAway(got.value, flows) && !owned && id.name != baseline && id.should == Allow)
  {
    var folded :| RowShows(folded, Events(owners, reports), run, flows)
                  && IsJudged(folded, row, run, Names(run), baseline);
    CellsExactly(row, run, owners, reports, flows, baseline, ci, got);
    FlagsExactly(folded, row, Events(owners, reports), run, flows, baseline, ci);
    BaselineColumn(run, ci);
  }

  /** The expectations a matrix tells of: each identity's own but the baseline's, and denial for the anonymous one. */
  lemma {:induction false} ExpectationsExactly(run: seq<Identity>, baseline: string, ci: nat)
    requires DistinctNames(run) && ci < |run|
    ensures var id, m := run[ci], ExpectedAll(run, baseline);
            && (id.name in m <==> id.name != baseline && (id.should != Unspecified || id.anonymous))
            && (id.name in m ==> m[id.name] == if id.should != Unspecified then id.should else Deny)
  {
    DistinctNamesDiffer(run);
    ExpectedAt(run, baseline, ci);
    NoneUnspecified(run, baseline);
  }

  lemma {:induction false} NoneUnspecified(run: seq<Identity>, baseline: string)
    ensures forall name :: name in ExpectedAll(run, baseline) ==> ExpectedAll(run, baseline)[name] != Unspecified
    decreases |run|
  {
    if run != [] {
      NoneUnspecified(run[..|run| - 1], baseline);
    }
  }

  lemma {:induction false} ShownIsNotCompared(got: Option<Item>, hasAuth: bool, flows: Flows)
    ensures !Shown(got, hasAuth, flows).same
  {}

  /** Without the baseline's column no cell counts as the same as it. */
  lemma {:induction false} NoBaseline(row: Row, run: seq<Identity>, owners: seq<string>,
                                      reports: seq<seq<Option<seq<Item>>>>, flows: Flows, baseline: string, ci: nat,
                                      got: Option<Item>)
    requires IsMatrixRun(run, owners, reports) && ci < |run| && baseline !in Names(run)
    requires IsRow(row, run, owners, reports, flows, baseline)
    requires HasResult(owners, reports[ci], KeyOf(row), got)
    ensures |row.cells| == |run| && !row.cells[ci].same
  {
    var folded :| RowShows(folded, Events(owners, reports), run, flows)
                  && IsJudged(folded, row, run, Names(run), baseline);
    FoldedCell(folded, run, owners, reports, flows, ci, got);
    JudgedCell(folded, row, run, baseline, ci);
    ShownIsNotCompared(got, !run[ci].anonymous, flows);
  }

  // ---- what is counted ----

  /** The places of the cells that have the property. */
  ghost function Where(rows: seq<Row>, p: Cell -> bool): set<(int, int)> {
    set r, i | 0 <= r < |rows| && 0 <= i < |rows[r].cells| && p(rows[r].cells[i]) :: (r, i)
  }

  ghost function WhereIn(cells: seq<Cell>, r: int, p: Cell -> bool): set<(int, int)> {
    set i | 0 <= i < |cells| && p(cells[i]) :: (r, i)
  }

  lemma {:induction false} CountInIsSize(cells: seq<Cell>, r: int, p: Cell -> bool)
    ensures CountIn(cells, p) == |WhereIn(cells, r, p)|
    decreases |cells|
  {
    if cells != [] {
      var n := |cells| - 1;
      CountInIsSize(cells[..n], r, p);
      assert WhereIn(cells, r, p) == WhereIn(cells[..n], r, p) + if p(cells[n]) then {(r, n)} else {};
    }
  }

  lemma {:induction false} CountIsSize(rows: seq<Row>, p: Cell -> bool)
    ensures Count(rows, p) == |Where(rows, p)|
    decreases |rows|
  {
    if rows != [] {
      var n := |rows| - 1;
      CountIsSize(rows[..n], p);
      CountInIsSize(rows[n].cells, n, p);
      var a, b := Where(rows[..n], p), WhereIn(rows[n].cells, n, p);
      assert Where(rows, p) == a + b;
      assert a !! b;
    }
  }

  /** The summary counts the cells there are, and those with each flag, class and difference. */
  lemma {:induction false} SummaryExactly(identities: nat, rows: seq<Row>)
    ensures var s := Recount(identities, rows);
            && s.identities == identities && s.rows == |rows|
            && s.cells == |Where(rows, c => true)|
            && s.violations == |Where(rows, (c: Cell) => c.flag == Violation)|
            && s.unexpectedDenials == |Where(rows, (c: Cell) => c.flag == UnexpectedDenial)|
            && s.differs == |Where(rows, (c: Cell) => !c.same && c.class_ != NotRun)|
            && s.blocked == |Where(rows, (c: Cell) => c.class_ == Barred)|
            && s.errors == |Where(rows, (c: Cell) => c.class_ == Error)|
  {
    CountIsSize(rows, IsAny());
    CountIsSize(rows, IsViolation());
    CountIsSize(rows, IsDenial());
    CountIsSize(rows, IsDifferent());
    CountIsSize(rows, IsBlocked());
    CountIsSize(rows, IsError());
  }
}
