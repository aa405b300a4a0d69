/**
 The identity matrix: the results of one run per identity, folded into one row for each request and
 owner of an object, compared with a baseline and judged against what each identity should get.
 */
module IdentityMatrix {
  import opened Sorting
  import opened Text

  datatype Outcome = Sent | Blocked | Failed | Skipped

  datatype Class = Success | AuthFailure | AuthzFailure | Validation | Other | Error | Barred | NotRun

  datatype Flag = NoFlag | Violation | UnexpectedDenial

  datatype Expectation = Unspecified | Allow | Deny

  datatype Identity = Identity(name: string, anonymous: bool, should: Expectation, headers: nat, broken: bool)

  /** A result of a run: of one request in one iteration. */
  datatype Item = Item(uid: string, iteration: int, outcome: Outcome, status: int, size: int, flow: int)

  /** What is stored about an exchange; login is whether its redirect looks like one to a login page. */
  datatype Flow = Flow(login: bool, bodyHash: string, length: int)

  datatype Cell = Cell(class_: Class, status: int, size: int, same: bool, denied: bool, flag: Flag, bodyHash: string)

  const BLANK := Cell(NotRun, 0, 0, false, false, NoFlag, "")

  datatype Row = Row(uid: string, owner: string, cells: seq<Cell>)

  type Key = (string, string)

  function KeyOf(r: Row): Key {
    (r.uid, r.owner)
  }

  const MAX_IDENTITIES: nat := 12
  const MAX_ROWS: nat := 200

  // ---------------------------------------------------------------- who is run

  const ANONYMOUS_NAME := "anonymous"

  const ANONYMOUS := Identity(ANONYMOUS_NAME, true, Deny, 0, false)

  datatype Resolved = Run(run: seq<Identity>) | Unknown(name: string) | Nobody

  /** No two of the names are the same but for case. */
  ghost predicate DistinctNames(run: seq<Identity>) {
    forall i, j :: 0 <= i < j < |run| ==> Lower(run[i].name) != Lower(run[j].name)
  }

  predicate Usable(id: Identity) {
    !id.broken && (id.anonymous || id.headers > 0)
  }

  function Wanted(saved: seq<Identity>, names: seq<string>): seq<string> {
    if names == [] then Names(saved) + [ANONYMOUS_NAME] else names
  }

  function KeyName(name: string): string {
    Lower(TrimSpace(name))
  }

  /** Some identity has the name, the anonymous one included. */
  predicate IsKnown(saved: seq<Identity>, key: string) {
    key == ANONYMOUS_NAME || IsSaved(saved, key)
  }

  function Names(run: seq<Identity>): (r: seq<string>)
    ensures |r| == |run| && forall i :: 0 <= i < |run| ==> r[i] == run[i].name
  {
    seq(|run|, i requires 0 <= i < |run| => run[i].name)
  }

  lemma {:induction false} AnonymousIsLower()
    ensures Lower(ANONYMOUS_NAME) == ANONYMOUS_NAME
  {}

  /** Some saved identity has the name. */
  predicate IsSaved(saved: seq<Identity>, key: string) {
    exists i :: 0 <= i < |saved| && Lower(saved[i].name) == key
  }

  /** The saved identity of each name in lower case; of several, the last. */
  function SavedDirectory(saved: seq<Identity>): (m: map<string, Identity>)
    ensures forall k :: k in m ==> Lower(m[k].name) == k && m[k] in saved
    ensures forall k :: k in m <==> IsSaved(saved, k)
  {
    if saved == [] then map[]
    else
      var n := |saved| - 1;
      assert forall i :: 0 <= i < n ==> saved[..n][i] == saved[i];
      assert forall k :: IsSaved(saved, k) <==> IsSaved(saved[..n], k) || Lower(saved[n].name) == k;
      SavedDirectory(saved[..n])[Lower(saved[n].name) := saved[n]]
  }

  /** Who is meant by each name: the anonymous identity is always there. */
  function Directory(saved: seq<Identity>): map<string, Identity> {
    SavedDirectory(saved)[ANONYMOUS_NAME := ANONYMOUS]
  }

  lemma {:induction false} DirectoryIs(saved: seq<Identity>)
    ensures var m := Directory(saved);
            && (forall k :: k in m ==> Lower(m[k].name) == k && (m[k] in saved || m[k] == ANONYMOUS))
            && (forall k :: k in m <==> IsKnown(saved, k))
  {
    AnonymousIsLower();
  }

  method ByName(saved: seq<Identity>) returns (byName: map<string, Identity>)
    ensures byName == Directory(saved)
  {
    byName := map[];
    for i := 0 to |saved|
      invariant byName == SavedDirectory(saved[..i])
    {
      assert saved[..i + 1][..i] == saved[..i];
      byName := byName[Lower(saved[i].name) := saved[i]];
    }
    assert saved[..|saved|] == saved;
    byName := byName[ANONYMOUS_NAME := ANONYMOUS];
  }

  /** The name is not blank and no identity has it. */
  predicate NamesNobody(saved: seq<Identity>, name: string) {
    KeyName(name) != [] && !IsKnown(saved, KeyName(name))
  }

  lemma {:induction false} KeysOfNobody(saved: seq<Identity>, want: seq<string>, byName: map<string, Identity>,
                                        keys: seq<string>)
    requires keys == KeyNames(want) && forall k :: k in byName <==> IsKnown(saved, k)
    ensures |keys| == |want| && forall i :: 0 <= i < |want| ==>
              (NamesNobody(saved, want[i]) <==> keys[i] != [] && keys[i] !in byName)
  {
    assert forall i :: 0 <= i < |want| ==> keys[i] == KeyName(want[i]);
  }

  /** Each key that is not blank, once, in the order of first occurrence. */
  function KeyOrder(keys: seq<string>): seq<string> {
    if keys == [] then []
    else
      var d, k := KeyOrder(keys[..|keys| - 1]), keys[|keys| - 1];
      if k == [] || k in d then d else d + [k]
  }

  /** The identities of the keys that can be run, in the order of the keys. */
  function UsableOf(byName: map<string, Identity>, keys: seq<string>): seq<Identity> {
    if keys == [] then []
    else
      var k := keys[|keys| - 1];
      UsableOf(byName, keys[..|keys| - 1]) + if k in byName && Usable(byName[k]) then [byName[k]] else []
  }

  /** Everyone wanted who can be run, each once. */
  function Candidates(saved: seq<Identity>, names: seq<string>): seq<Identity> {
    UsableOf(Directory(saved), KeyOrder(KeyNames(Wanted(saved, names))))
  }

  /**
   The identities to run as: all those wanted that can be run, in the order they are wanted, up to the
   bound; the first name that nobody has, if there is one; or nobody, if none of those wanted can be run.
   */
  method ResolveIdentities(saved: seq<Identity>, names: seq<string>) returns (r: Resolved)
    ensures r.Unknown? ==> exists i ::
              0 <= i < |Wanted(saved, names)| && FirstUnknown(saved, Wanted(saved, names), i) &&
              r.name == Wanted(saved, names)[i]
    ensures !r.Unknown? ==> forall n :: n in Wanted(saved, names) ==> !NamesNobody(saved, n)
    ensures !r.Unknown? ==>
              var all := Candidates(saved, names);
              r == if all == [] then Nobody else Run(Take(all, MAX_IDENTITIES))
    ensures r.Run? ==> r.run != [] && |r.run| <= MAX_IDENTITIES && DistinctNames(r.run)
  {
    var byName := ByName(saved);
    DirectoryIs(saved);
    var want := Wanted(saved, names);
    var keys := KeyNames(want);
    KeysOfNobody(saved, want, byName, keys);
    var unknown, run := ChooseIdentities(byName, keys);
    if unknown >= 0 {
      assert FirstUnknown(saved, want, unknown);
      return Unknown(want[unknown]);
    }
    if |run| == 0 {
      return Nobody;
    }
    return Run(if |run| > MAX_IDENTITIES then run[..MAX_IDENTITIES] else run);
  }

  /** The i-th name is the first that nobody has. */
  ghost predicate FirstUnknown(saved: seq<Identity>, want: seq<string>, i: int) {
    0 <= i < |want| && NamesNobody(saved, want[i]) && forall j :: 0 <= j < i ==> !NamesNobody(saved, want[j])
  }

  function KeyNames(names: seq<string>): seq<string> {
    seq(|names|, i requires 0 <= i < |names| => KeyName(names[i]))
  }

  lemma {:induction false} DistinctSnoc(run: seq<Identity>, id: Identity)
    requires DistinctNames(run) && forall other :: other in run ==> Lower(other.name) != Lower(id.name)
    ensures DistinctNames(run + [id])
  {}

  lemma {:induction false} UsableSnoc(byName: map<string, Identity>, keys: seq<string>, k: string)
    ensures UsableOf(byName, keys + [k])
            == UsableOf(byName, keys) + if k in byName && Usable(byName[k]) then [byName[k]] else []
  {
    assert (keys + [k])[..|keys|] == keys;
  }

  lemma {:induction false} KeyOrderMembers(keys: seq<string>, k: string)
    ensures k in KeyOrder(keys) <==> k in keys && k != []
    decreases |keys|
  {
    if keys != [] {
      KeyOrderMembers(keys[..|keys| - 1], k);
      assert keys == keys[..|keys| - 1] + [keys[|keys| - 1]];
    }
  }

  lemma {:induction false} UsableOfMembers(byName: map<string, Identity>, keys: seq<string>, id: Identity)
    ensures id in UsableOf(byName, keys) <==> Usable(id) && exists k :: k in keys && k in byName && byName[k] == id
    decreases |keys|
  {
    if keys != [] {
      UsableOfMembers(byName, keys[..|keys| - 1], id);
      assert keys == keys[..|keys| - 1] + [keys[|keys| - 1]];
    }
  }

  lemma {:induction false} KeyOrderInOrder(keys: seq<string>)
    ensures InFirstOrder(KeyOrder(keys), keys)
    decreases |keys|
  {
    if keys != [] {
      var n := |keys| - 1;
      KeyOrderInOrder(keys[..n]);
      KeyOrderMembers(keys[..n], keys[n]);
      assert keys == keys[..n] + [keys[n]];
      FirstOrderSnoc(KeyOrder(keys[..n]), keys[..n], keys[n]);
    }
  }

  /** The name wanted, in lower case and without blanks around it, means this identity: the anonymous one if it is
      its name, and else the last that is saved under it. */
  ghost predicate Means(saved: seq<Identity>, key: string, id: Identity) {
    if key == "anonymous" then id == Identity("anonymous", true, Deny, 0, false)
    else exists i :: LastSaved(saved, key, i) && saved[i] == id
  }

  ghost predicate LastSaved(saved: seq<Identity>, key: string, i: int) {
    && 0 <= i < |saved| && Lower(saved[i].name) == key
    && forall j :: i < j < |saved| ==> Lower(saved[j].name) != key
  }

  /** The name is wanted: it is in the list, or the list is empty and it is anybody's. */
  ghost predicate IsWanted(saved: seq<Identity>, names: seq<string>, key: string) {
    if names != [] then exists i :: 0 <= i < |names| && Lower(TrimSpace(names[i])) == key
    else key == Lower(TrimSpace("anonymous")) || exists i :: 0 <= i < |saved| && Lower(TrimSpace(saved[i].name)) == key
  }

  lemma {:induction false} LastSavedSnoc(saved: seq<Identity>, key: string, i: int)
    requires saved != []
    ensures var n := |saved| - 1;
            LastSaved(saved, key, i) <==>
            if Lower(saved[n].name) == key then i == n else LastSaved(saved[..n], key, i)
  {
    var n := |saved| - 1;
    assert forall j :: 0 <= j < n ==> saved[..n][j] == saved[j];
  }

  lemma {:induction false} SavedMeans(saved: seq<Identity>, key: string, id: Identity)
    requires key != "anonymous"
    ensures key in SavedDirectory(saved) && SavedDirectory(saved)[key] == id <==> Means(saved, key, id)
    decreases |saved|
  {
    if saved != [] {
      var n := |saved| - 1;
      SavedMeans(saved[..n], key, id);
      forall i
        ensures LastSaved(saved, key, i) <==>
                if Lower(saved[n].name) == key then i == n else LastSaved(saved[..n], key, i)
      {
        LastSavedSnoc(saved, key, i);
      }
    }
  }

  lemma {:induction false} WantedExactly(saved: seq<Identity>, names: seq<string>, key: string)
    ensures key in KeyNames(Wanted(saved, names)) <==> IsWanted(saved, names, key)
  {
    var want, keys := Wanted(saved, names), KeyNames(Wanted(saved, names));
    assert forall i :: 0 <= i < |want| ==> keys[i] == Lower(TrimSpace(want[i]));
    if names == [] {
      assert want[|saved|] == "anonymous" && forall i :: 0 <= i < |saved| ==> want[i] == saved[i].name;
    }
  }

  /** An identity is a candidate exactly when it is not broken, has headers or is anonymous, and some name that is
      wanted means it. */
  lemma {:induction false} CandidatesExactly(saved: seq<Identity>, names: seq<string>, id: Identity)
    ensures id in Candidates(saved, names) <==>
            && !id.broken && (id.anonymous || id.headers > 0)
            && exists k :: IsWanted(saved, names, k) && k != "" && Means(saved, k, id)
  {
    var keys := KeyNames(Wanted(saved, names));
    UsableOfMembers(Directory(saved), KeyOrder(keys), id);
    forall k: string ensures k in KeyOrder(keys) <==> k in keys && k != [] {
      KeyOrderMembers(keys, k);
    }
    forall k: string
      ensures k in keys <==> IsWanted(saved, names, k)
      ensures k in Directory(saved) && Directory(saved)[k] == id <==> Means(saved, k, id)
    {
      WantedExactly(saved, names, k);
      if k != "anonymous" {
        SavedMeans(saved, k, id);
      }
    }
  }

  /** The usable identities the keys name, each once, or where there is the first key that names none. */
  method ChooseIdentities(byName: map<string, Identity>, keys: seq<string>) returns (unknown: int, run: seq<Identity>)
    requires forall k :: k in byName ==> Lower(byName[k].name) == k
    ensures DistinctNames(run)
    ensures unknown >= 0 ==> unknown < |keys| && keys[unknown] != [] && keys[unknown] !in byName
    ensures forall i :: 0 <= i < (if unknown >= 0 then unknown else |keys|) && keys[i] != [] ==> keys[i] in byName
    ensures unknown < 0 ==> run == UsableOf(byName, KeyOrder(keys))
  {
    ghost var order: seq<string> := [];
    var seen: set<string> := {};
    run := [];
    for i := 0 to |keys|
      invariant forall j :: 0 <= j < i && keys[j] != [] ==> keys[j] in byName
      invariant order == KeyOrder(keys[..i]) && (forall k :: k in seen <==> k in order)
      invariant forall k :: k in seen ==> k in byName
      invariant DistinctNames(run) && forall id :: id in run ==> Lower(id.name) in seen
      invariant run == UsableOf(byName, order)
    {
      assert keys[..i + 1][..i] == keys[..i];
      var k := keys[i];
      if k == [] || k in seen {
        continue;
      }
      seen := seen + {k};
      if k !in byName {
        return i, run;
      }
      UsableSnoc(byName, order, k);
      order := order + [k];
      var id := byName[k];
      if Usable(id) {
        DistinctSnoc(run, id);
        run := run + [id];
      }
    }
    assert keys[..|keys|] == keys;
    return -1, run;
  }

  /** The i-th identity is the baseline: the first of the name wanted, else the first that is not
      anonymous, else the first. */
  ghost predicate IsBaseline(run: seq<Identity>, want: string, i: int)
    requires 0 <= i < |run|
  {
    if want != [] && exists j :: 0 <= j < |run| && EqualFold(run[j].name, want) then
      EqualFold(run[i].name, want) && forall j :: 0 <= j < i ==> !EqualFold(run[j].name, want)
    else if exists j :: 0 <= j < |run| && !run[j].anonymous then
      !run[i].anonymous && forall j :: 0 <= j < i ==> run[j].anonymous
    else
      i == 0
  }

  method PickBaseline(run: seq<Identity>, want: string) returns (name: string)
    requires run != []
    ensures exists i :: 0 <= i < |run| && IsBaseline(run, want, i) && name == run[i].name
    ensures name in Names(run)
  {
    assert forall i :: 0 <= i < |run| ==> run[i].name == Names(run)[i];
    for i := 0 to |run|
      invariant want != [] ==> forall j :: 0 <= j < i ==> !EqualFold(run[j].name, want)
    {
      if want != [] && EqualFold(run[i].name, want) {
        assert IsBaseline(run, want, i);
        return run[i].name;
      }
    }
    for i := 0 to |run|
      invariant forall j :: 0 <= j < i ==> run[j].anonymous
    {
      if !run[i].anonymous {
        assert IsBaseline(run, want, i);
        return run[i].name;
      }
    }
    assert IsBaseline(run, want, 0);
    return run[0].name;
  }

  lemma {:induction false} DistinctNamesDiffer(run: seq<Identity>)
    requires DistinctNames(run)
    ensures NoDuplicates(Names(run))
  {
    forall i, j | 0 <= i < j < |run|
      ensures Names(run)[i] != Names(run)[j]
    {
      assert Lower(run[i].name) != Lower(run[j].name);
    }
  }

  // ---------------------------------------------------------------- one result

  /** Only a status of success is one, and a refusal is one for want of authentication or of authority. */
  function Classify(status: int, hasAuth: bool, login: bool): (c: Class)
    ensures c == Success <==> 200 <= status < 300
    ensures c == AuthFailure || c == AuthzFailure <==> status == 401 || status == 403 || (300 <= status < 400 && login)
    ensures c != NotRun && c != Barred && c != Error
  {
    if status == 401 then AuthFailure
    else if status == 403 then (if hasAuth then AuthzFailure else AuthFailure)
    else if 300 <= status < 400 && login then AuthFailure
    else if status == 400 || status == 411 || status == 413 || status == 415 || status == 422 then Validation
    else if 200 <= status < 300 then Success
    else Other
  }

  type Flows = map<int, Flow>

  function CellOf(it: Item, hasAuth: bool, flows: Flows): Cell {
    match it.outcome
    case Blocked => Cell(Barred, it.status, it.size, false, false, NoFlag, "")
    case Failed => Cell(Error, it.status, it.size, false, false, NoFlag, "")
    case Skipped => Cell(NotRun, it.status, it.size, false, false, NoFlag, "")
    case Sent =>
      var known := it.flow > 0 && it.flow in flows;
      var class_ := Classify(it.status, hasAuth, known && flows[it.flow].login);
      Cell(class_, it.status, if known && it.size == 0 then flows[it.flow].length else it.size, false,
           class_ == AuthFailure || class_ == AuthzFailure, NoFlag, if known then flows[it.flow].bodyHash else "")
  }

  // ---------------------------------------------------------------- the results in the order they are taken

  /** One result of the first iteration: by which identity, for which request and owner. */
  datatype Event = Event(by_: nat, key: Key, item: Item)

  function ItemEvents(ci: nat, owner: string, items: seq<Item>): seq<Event> {
    if items == [] then []
    else
      var it := items[|items| - 1];
      ItemEvents(ci, owner, items[..|items| - 1]) + if it.iteration != 0 then [] else [Event(ci, (it.uid, owner), it)]
  }

  function ReportEvents(ci: nat, owner: string, report: Option<seq<Item>>): seq<Event> {
    if report.None? then [] else ItemEvents(ci, owner, report.value)
  }

  /** The reports of one identity: one for each scenario that was run. */
  function ScenarioEvents(ci: nat, owners: seq<string>, reports: seq<Option<seq<Item>>>): seq<Event>
    requires |reports| <= |owners|
  {
    if reports == [] then []
    else
      var n := |reports| - 1;
      ScenarioEvents(ci, owners, reports[..n]) + ReportEvents(ci, owners[n], reports[n])
  }

  function Events(owners: seq<string>, reports: seq<seq<Option<seq<Item>>>>): seq<Event>
    requires forall ci :: 0 <= ci < |reports| ==> |reports[ci]| <= |owners|
  {
    if reports == [] then []
    else
      var n := |reports| - 1;
      Events(owners, reports[..n]) + ScenarioEvents(n, owners, reports[n])
  }

  function Keys(events: seq<Event>): seq<Key> {
    seq(|events|, i requires 0 <= i < |events| => events[i].key)
  }

  /** Each key once, in the order of first occurrence. */
  function Distinct(keys: seq<Key>): (r: seq<Key>) {
    if keys == [] then []
    else
      var d := Distinct(keys[..|keys| - 1]);
      if keys[|keys| - 1] in d then d else d + [keys[|keys| - 1]]
  }

  function Take<T>(q: seq<T>, n: nat): seq<T> {
    if |q| <= n then q else q[..n]
  }

  /** The i-th event is the last of the identity for the key. */
  ghost predicate LastOf(events: seq<Event>, key: Key, ci: nat, i: int) {
    && 0 <= i < |events| && events[i].key == key && events[i].by_ == ci
    && forall j :: i < j < |events| ==> events[j].key != key || events[j].by_ != ci
  }

  ghost predicate NoneOf(events: seq<Event>, key: Key, ci: nat) {
    forall j :: 0 <= j < |events| ==> events[j].key != key || events[j].by_ != ci
  }

  /** The cell shows the identity's last result for the key, or that there is none. */
  ghost predicate Shows(c: Cell, events: seq<Event>, key: Key, ci: nat, run: seq<Identity>, flows: Flows)
    requires ci < |run|
  {
    && (NoneOf(events, key, ci) ==> c == BLANK)
    && (forall i :: LastOf(events, key, ci, i) ==> c == CellOf(events[i].item, !run[ci].anonymous, flows))
  }

  ghost predicate RowShows(r: Row, events: seq<Event>, run: seq<Identity>, flows: Flows) {
    |r.cells| == |run| && forall ci :: 0 <= ci < |run| ==> Shows(r.cells[ci], events, KeyOf(r), ci, run, flows)
  }

  function RowKeys(rows: seq<Row>): (r: seq<Key>)
    ensures |r| == |rows| && forall i :: 0 <= i < |rows| ==> r[i] == KeyOf(rows[i])
  {
    seq(|rows|, i requires 0 <= i < |rows| => KeyOf(rows[i]))
  }

  /** One row for each of the first distinct keys, each cell with the last result that belongs there. */
  ghost predicate Assembled(rows: seq<Row>, events: seq<Event>, run: seq<Identity>, flows: Flows) {
    && RowKeys(rows) == Take(Distinct(Keys(events)), MAX_ROWS)
    && forall ri :: 0 <= ri < |rows| ==> RowShows(rows[ri], events, run, flows)
  }

  lemma {:induction false} DistinctOnce(keys: seq<Key>)
    ensures NoDuplicates(Distinct(keys)) && Elems(Distinct(keys)) == Elems(keys)
    decreases |keys|
  {
    if keys != [] {
      var n := |keys| - 1;
      DistinctOnce(keys[..n]);
      assert keys == keys[..n] + [keys[n]];
      assert Elems(keys) == Elems(keys[..n]) + {keys[n]};
      var d := Distinct(keys[..n]);
      assert Elems(d + [keys[n]]) == Elems(d) + {keys[n]};
      assert keys[n] in Elems(d) <==> keys[n] in d;
    }
  }

  lemma {:induction false} DistinctInOrder(keys: seq<Key>)
    ensures InFirstOrder(Distinct(keys), keys)
    decreases |keys|
  {
    if keys != [] {
      var n := |keys| - 1;
      DistinctInOrder(keys[..n]);
      DistinctOnce(keys[..n]);
      assert keys == keys[..n] + [keys[n]];
      assert keys[n] in Elems(keys[..n]) <==> keys[n] in keys[..n];
      assert keys[n] in Elems(Distinct(keys[..n])) <==> keys[n] in Distinct(keys[..n]);
      FirstOrderSnoc(Distinct(keys[..n]), keys[..n], keys[n]);
    }
  }

  lemma {:induction false} KeysSnoc(events: seq<Event>, ev: Event)
    ensures var d := Distinct(Keys(events));
            Distinct(Keys(events + [ev])) == if ev.key in d then d else d + [ev.key]
  {
    var keys := Keys(events + [ev]);
    assert keys[..|keys| - 1] == Keys(events);
  }

  lemma {:induction false} ShowsSnoc(c: Cell, events: seq<Event>, ev: Event, key: Key, ci: nat, run: seq<Identity>,
                                     flows: Flows)
    requires ci < |run| && Shows(c, events, key, ci, run, flows)
    ensures Shows(if ev.key == key && ev.by_ == ci then CellOf(ev.item, !run[ci].anonymous, flows) else c,
                  events + [ev], key, ci, run, flows)
  {
    var n, events' := |events|, events + [ev];
    if ev.key == key && ev.by_ == ci {
      assert events'[n] == ev && !NoneOf(events', key, ci);
      forall i | 0 <= i < n
        ensures !LastOf(events', key, ci, i)
      {
        assert events'[n] == ev;
      }
    } else {
      forall i | LastOf(events', key, ci, i)
        ensures LastOf(events, key, ci, i) && events'[i] == events[i]
      {
        assert forall j :: 0 <= j < n ==> events'[j] == events[j];
      }
      assert NoneOf(events', key, ci) ==> NoneOf(events, key, ci) by {
        assert forall j :: 0 <= j < n ==> events'[j] == events[j];
      }
    }
  }

  function Placed(r: Row, ev: Event, run: seq<Identity>, flows: Flows): Row
    requires ev.by_ < |run| == |r.cells|
  {
    r.(cells := r.cells[ev.by_ := CellOf(ev.item, !run[ev.by_].anonymous, flows)])
  }

  function BlankRow(key: Key, n: nat): (r: Row)
    ensures |r.cells| == n && forall i :: 0 <= i < n ==> r.cells[i] == BLANK
  {
    Row(key.0, key.1, seq(n, i => BLANK))
  }

  lemma {:induction false} RowSnoc(r: Row, events: seq<Event>, ev: Event, run: seq<Identity>, flows: Flows)
    requires RowShows(r, events, run, flows) && ev.by_ < |run|
    ensures RowShows(if KeyOf(r) == ev.key then Placed(r, ev, run, flows) else r, events + [ev], run, flows)
  {
    forall ci | 0 <= ci < |run|
      ensures Shows(if ev.key == KeyOf(r) && ev.by_ == ci then CellOf(ev.item, !run[ci].anonymous, flows)
                    else r.cells[ci],
                    events + [ev], KeyOf(r), ci, run, flows)
    {
      ShowsSnoc(r.cells[ci], events, ev, KeyOf(r), ci, run, flows);
    }
  }

  /** A key that has not occurred has a blank row. */
  lemma {:induction false} BlankShows(key: Key, events: seq<Event>, run: seq<Identity>, flows: Flows)
    requires key !in Distinct(Keys(events))
    ensures RowShows(BlankRow(key, |run|), events, run, flows)
  {
    DistinctOnce(Keys(events));
    forall j | 0 <= j < |events|
      ensures events[j].key != key
    {
      assert Keys(events)[j] in Elems(Keys(events));
      assert events[j].key in Elems(Distinct(Keys(events)));
    }
    var r := BlankRow(key, |run|);
    assert KeyOf(r) == key;
    forall ci | 0 <= ci < |run|
      ensures Shows(r.cells[ci], events, key, ci, run, flows)
    {
      assert NoneOf(events, key, ci);
      assert forall i :: !LastOf(events, key, ci, i);
    }
  }

  /** The rows after one more result, when there is a row for it or room for one. */
  lemma {:induction false} AssembledPlaced(rows: seq<Row>, events: seq<Event>, ev: Event, run: seq<Identity>,
                                           flows: Flows, ri: nat)
    requires Assembled(rows, events, run, flows) && ev.by_ < |run|
    requires ri < |rows| && KeyOf(rows[ri]) == ev.key
    ensures |rows[ri].cells| == |run|
    ensures Assembled(rows[ri := Placed(rows[ri], ev, run, flows)], events + [ev], run, flows)
  {
    assert RowShows(rows[ri], events, run, flows);
    var rows' := rows[ri := Placed(rows[ri], ev, run, flows)];
    var d := Distinct(Keys(events));
    KeysSnoc(events, ev);
    DistinctOnce(Keys(events));
    assert RowKeys(rows)[ri] == ev.key && ev.key in d;
    assert RowKeys(rows') == RowKeys(rows);
    forall i | 0 <= i < |rows'|
      ensures RowShows(rows'[i], events + [ev], run, flows)
    {
      RowSnoc(rows[i], events, ev, run, flows);
      assert i != ri ==> KeyOf(rows[i]) != ev.key by {
        assert RowKeys(rows)[i] == d[i] && RowKeys(rows)[ri] == d[ri];
      }
    }
  }

  lemma {:induction false} AssembledAdded(rows: seq<Row>, events: seq<Event>, ev: Event, run: seq<Identity>,
                                          flows: Flows)
    requires Assembled(rows, events, run, flows) && ev.by_ < |run|
    requires ev.key !in RowKeys(rows) && |rows| < MAX_ROWS
    ensures Assembled(rows + [Placed(BlankRow(ev.key, |run|), ev, run, flows)], events + [ev], run, flows)
  {
    var d := Distinct(Keys(events));
    var row := BlankRow(ev.key, |run|);
    KeysSnoc(events, ev);
    BlankShows(ev.key, events, run, flows);
    RowSnoc(row, events, ev, run, flows);
    var rows' := rows + [Placed(row, ev, run, flows)];
    assert RowKeys(rows') == RowKeys(rows) + [ev.key];
    forall i | 0 <= i < |rows|
      ensures RowShows(rows[i], events + [ev], run, flows)
    {
      RowSnoc(rows[i], events, ev, run, flows);
      assert RowKeys(rows)[i] == KeyOf(rows[i]);
    }
  }

  lemma {:induction false} AssembledDropped(rows: seq<Row>, events: seq<Event>, ev: Event, run: seq<Identity>,
                                            flows: Flows)
    requires Assembled(rows, events, run, flows) && ev.by_ < |run|
    requires ev.key !in RowKeys(rows) && |rows| >= MAX_ROWS
    ensures Assembled(rows, events + [ev], run, flows)
  {
    KeysSnoc(events, ev);
    assert |rows| == MAX_ROWS;
    forall i | 0 <= i < |rows|
      ensures RowShows(rows[i], events + [ev], run, flows)
    {
      RowSnoc(rows[i], events, ev, run, flows);
      assert RowKeys(rows)[i] == KeyOf(rows[i]);
    }
  }

  // ---------------------------------------------------------------- comparing and judging

  function IndexIn(list: seq<string>, v: string): (r: int)
    ensures -1 <= r < |list|
    ensures r < 0 <==> v !in list
    ensures r >= 0 ==> list[r] == v
  {
    IndexOf(list, v)
  }

  /** Results that were not got by sending are the same as nothing. */
  predicate Comparable(c: Cell) {
    c.class_ != NotRun && c.class_ != Barred && c.class_ != Error
  }

  function SameAccess(base: Cell, c: Cell): bool {
    && Comparable(base) && Comparable(c)
    && base.status == c.status
    && (if base.bodyHash != "" && c.bodyHash != "" then base.bodyHash == c.bodyHash else base.size == c.size)
  }

  function Expected(id: Identity, baseline: bool): Expectation {
    if baseline then Unspecified
    else if id.should != Unspecified then id.should
    else if id.anonymous then Deny
    else Unspecified
  }

  function FlagFor(e: Expectation, c: Cell): Flag {
    if e == Deny && c.class_ == Success then Violation
    else if e == Allow && c.denied then UnexpectedDenial
    else NoFlag
  }

  /** A cell with its comparison and its flag: base is the baseline's column, owner the object owner's, or -1. */
  function Judged(cells: seq<Cell>, ci: nat, base: int, owner: int, e: Expectation): Cell
    requires ci < |cells| && base < |cells|
  {
    var c := cells[ci];
    var same :=
      if base >= 0 && ci != base then SameAccess(cells[base], c)
      else if ci == base then c.class_ != NotRun
      else c.same;
    var flag :=
      if owner >= 0 then (if ci != owner && c.class_ == Success then Violation else c.flag)
      else if ci != base then FlagFor(e, c)
      else c.flag;
    c.(same := same, flag := flag)
  }

  function OwnerColumn(r: Row, names: seq<string>): (i: int)
    ensures -1 <= i < |names|
  {
    if r.owner != "" then IndexIn(names, r.owner) else -1
  }

  /** What each name is expected to get, of identities of one name the last. */
  function ExpectedAll(run: seq<Identity>, baseline: string): map<string, Expectation> {
    if run == [] then map[]
    else
      var id := run[|run| - 1];
      var e := Expected(id, id.name == baseline);
      var m := ExpectedAll(run[..|run| - 1], baseline);
      if e == Unspecified then m - {id.name} else m[id.name := e]
  }

  function ExpectedOf(m: map<string, Expectation>, name: string): Expectation {
    if name in m then m[name] else Unspecified
  }

  lemma {:induction false} ExpectedElsewhere(run: seq<Identity>, baseline: string, name: string)
    requires name !in Names(run)
    ensures name !in ExpectedAll(run, baseline)
    decreases |run|
  {
    if run != [] {
      var n := |run| - 1;
      assert Names(run)[n] == run[n].name;
      assert forall i :: 0 <= i < n ==> Names(run[..n])[i] == Names(run)[i];
      ExpectedElsewhere(run[..n], baseline, name);
    }
  }

  /** With distinct names each identity gets its own expectation. */
  lemma {:induction false} ExpectedAt(run: seq<Identity>, baseline: string, ci: nat)
    requires ci < |run| && NoDuplicates(Names(run))
    ensures ExpectedOf(ExpectedAll(run, baseline), run[ci].name) == Expected(run[ci], run[ci].name == baseline)
    decreases |run|
  {
    var n := |run| - 1;
    assert Names(run)[n] == run[n].name && Names(run)[ci] == run[ci].name;
    assert forall i :: 0 <= i < n ==> Names(run[..n])[i] == Names(run)[i];
    if ci < n {
      ExpectedAt(run[..n], baseline, ci);
    } else {
      ExpectedElsewhere(run[..n], baseline, run[n].name);
    }
  }

  // ---------------------------------------------------------------- counting

  datatype Summary = Summary(identities: nat, rows: nat, cells: nat, violations: nat, unexpectedDenials: nat,
                             differs: nat, blocked: nat, errors: nat)

  /** The cells of a row for which the property holds. */
  function CountIn(cells: seq<Cell>, p: Cell -> bool): nat {
    if cells == [] then 0 else CountIn(cells[..|cells| - 1], p) + if p(cells[|cells| - 1]) then 1 else 0
  }

  function Count(rows: seq<Row>, p: Cell -> bool): nat {
    if rows == [] then 0 else Count(rows[..|rows| - 1], p) + CountIn(rows[|rows| - 1].cells, p)
  }

  function IsAny(): Cell -> bool { c => true }
  function IsViolation(): Cell -> bool { (c: Cell) => c.flag == Violation }
  function IsDenial(): Cell -> bool { (c: Cell) => c.flag == UnexpectedDenial }
  function IsDifferent(): Cell -> bool { (c: Cell) => !c.same && c.class_ != NotRun }
  function IsBlocked(): Cell -> bool { (c: Cell) => c.class_ == Barred }
  function IsError(): Cell -> bool { (c: Cell) => c.class_ == Error }

  /** The summary is a recount of the rows. */
  function Recount(identities: nat, rows: seq<Row>): Summary {
    Summary(identities, |rows|, Count(rows, IsAny()), Count(rows, IsViolation()), Count(rows, IsDenial()),
            Count(rows, IsDifferent()), Count(rows, IsBlocked()), Count(rows, IsError()))
  }

  class Matrix {
    var identities: seq<string>
    var baseline: string
    var shouldGet: map<string, Expectation>
    var rows: seq<Row>
    var summary: Summary

    constructor (identities: seq<string>, baseline: string)
      ensures this.identities == identities && this.baseline == baseline && rows == [] && shouldGet == map[]
    {
      this.identities, this.baseline, rows, shouldGet := identities, baseline, [], map[];
      summary := Summary(0, 0, 0, 0, 0, 0, 0, 0);
    }

    /** Folds the reports into rows. */
    method Fold(run: seq<Identity>, owners: seq<string>, reports: seq<seq<Option<seq<Item>>>>, flows: Flows)
      requires rows == [] && |reports| == |run|
      requires forall ci :: 0 <= ci < |reports| ==> |reports[ci]| <= |owners|
      modifies this`rows
      ensures Assembled(rows, Events(owners, reports), run, flows)
    {
      ghost var events: seq<Event> := [];
      var rowIdx: map<Key, nat> := map[];
      for ci := 0 to |run|
        invariant events == Events(owners, reports[..ci])
        invariant Holds(rowIdx, events, run, flows)
      {
        assert reports[..ci + 1][..ci] == reports[..ci];
        rowIdx := AssembleRun(rowIdx, run, ci, owners, reports[ci], flows, events);
        events := events + ScenarioEvents(ci, owners, reports[ci]);
      }
      assert reports[..|reports|] == reports;
    }

    /** The matrix of the reports: what was folded, then judged and counted. */
    method Assemble(run: seq<Identity>, owners: seq<string>, reports: seq<seq<Option<seq<Item>>>>, flows: Flows)
        returns (ghost folded: seq<Row>)
      requires rows == [] && shouldGet == map[] && identities == Names(run) && |reports| == |run|
      requires forall ci :: 0 <= ci < |reports| ==> |reports[ci]| <= |owners|
      modifies this
      ensures identities == old(identities) && baseline == old(baseline)
      ensures Assembled(folded, Events(owners, reports), run, flows)
      ensures |rows| == |folded| && forall ri :: 0 <= ri < |rows| ==>
                IsJudged(folded[ri], rows[ri], run, identities, baseline)
      ensures summary == Recount(|identities|, rows)
    {
      Fold(run, owners, reports, flows);
      folded := rows;
      assert forall ri :: 0 <= ri < |rows| ==> RowShows(rows[ri], Events(owners, reports), run, flows);
      Finalize(run);
    }

    /** Folds in the reports of one identity. */
    method AssembleRun(idx: map<Key, nat>, run: seq<Identity>, ci: nat, owners: seq<string>,
                       reports: seq<Option<seq<Item>>>, flows: Flows,
                       ghost before: seq<Event>) returns (rowIdx: map<Key, nat>)
      requires ci < |run| && |reports| <= |owners| && Holds(idx, before, run, flows)
      modifies this`rows
      ensures Holds(rowIdx, before + ScenarioEvents(ci, owners, reports), run, flows)
    {
      rowIdx := idx;
      ghost var events := before;
      for si := 0 to |reports|
        invariant events == before + ScenarioEvents(ci, owners, reports[..si])
        invariant Holds(rowIdx, events, run, flows)
      {
        RunSnoc(before, ci, owners, reports, si);
        rowIdx := AssembleReport(rowIdx, run, ci, owners[si], reports[si], flows, events);
        events := before + ScenarioEvents(ci, owners, reports[..si + 1]);
      }
      assert reports[..|reports|] == reports;
    }

    lemma {:induction false} RunSnoc(before: seq<Event>, ci: nat, owners: seq<string>,
                                     reports: seq<Option<seq<Item>>>, si: nat)
      requires si < |reports| <= |owners|
      ensures before + ScenarioEvents(ci, owners, reports[..si + 1])
              == before + ScenarioEvents(ci, owners, reports[..si]) + ReportEvents(ci, owners[si], reports[si])
    {
      assert reports[..si + 1][..si] == reports[..si];
    }

    method AssembleReport(idx: map<Key, nat>, run: seq<Identity>, ci: nat, owner: string, report: Option<seq<Item>>,
                          flows: Flows, ghost before: seq<Event>) returns (rowIdx: map<Key, nat>)
      requires ci < |run| && Holds(idx, before, run, flows)
      modifies this`rows
      ensures Holds(rowIdx, before + ReportEvents(ci, owner, report), run, flows)
    {
      rowIdx := idx;
      if report.None? {
        assert before + [] == before;
        return;
      }
      rowIdx := AssembleItems(rowIdx, run, ci, owner, report.value, flows, before);
    }

    /** Folds in the results of one run. */
    method AssembleItems(idx: map<Key, nat>, run: seq<Identity>, ci: nat, owner: string, items: seq<Item>,
                         flows: Flows, ghost before: seq<Event>) returns (rowIdx: map<Key, nat>)
      requires ci < |run| && Holds(idx, before, run, flows)
      modifies this`rows
      ensures Holds(rowIdx, before + ItemEvents(ci, owner, items), run, flows)
    {
      rowIdx := idx;
      ghost var events := before;
      for i := 0 to |items|
        invariant events == before + ItemEvents(ci, owner, items[..i])
        invariant Holds(rowIdx, events, run, flows)
      {
        ItemsSnoc(before, ci, owner, items, i);
        if items[i].iteration != 0 {
          continue;
        }
        rowIdx := Place(rowIdx, run, ci, owner, items[i], flows, events);
        events := before + ItemEvents(ci, owner, items[..i + 1]);
      }
      assert items[..|items|] == items;
    }

    lemma {:induction false} ItemsSnoc(before: seq<Event>, ci: nat, owner: string, items: seq<Item>, i: nat)
      requires i < |items|
      ensures before + ItemEvents(ci, owner, items[..i + 1])
              == before + ItemEvents(ci, owner, items[..i])
                 + if items[i].iteration != 0 then [] else [Event(ci, (items[i].uid, owner), items[i])]
    {
      assert items[..i + 1][..i] == items[..i];
    }

    /** The index finds each key's row. */
    ghost predicate Indexed(rowIdx: map<Key, nat>)
      reads this`rows
    {
      && (forall k :: k in rowIdx <==> k in RowKeys(rows))
      && (forall k :: k in rowIdx ==> rowIdx[k] < |rows| && KeyOf(rows[rowIdx[k]]) == k)
    }

    /** The rows are those of the results so far, and the index finds them. */
    ghost predicate Holds(rowIdx: map<Key, nat>, events: seq<Event>, run: seq<Identity>, flows: Flows)
      reads this`rows
    {
      Indexed(rowIdx) && Assembled(rows, events, run, flows)
    }

    method Place(idx: map<Key, nat>, run: seq<Identity>, ci: nat, owner: string, it: Item, flows: Flows,
                 ghost events: seq<Event>) returns (rowIdx: map<Key, nat>)
      requires ci < |run| && Holds(idx, events, run, flows)
      modifies this`rows
      ensures Holds(rowIdx, events + [Event(ci, (it.uid, owner), it)], run, flows)
    {
      rowIdx := idx;
      var key := (it.uid, owner);
      ghost var ev := Event(ci, key, it);
      var cell := CellOf(it, !run[ci].anonymous, flows);
      if key !in rowIdx {
        if |rows| >= MAX_ROWS {
          AssembledDropped(rows, events, ev, run, flows);
          return;
        }
        AssembledAdded(rows, events, ev, run, flows);
        var row := BlankRow(key, |run|);
        rowIdx := rowIdx[key := |rows|];
        assert RowKeys(rows + [row.(cells := row.cells[ci := cell])]) == RowKeys(rows) + [key];
        rows := rows + [row.(cells := row.cells[ci := cell])];
      } else {
        var ri := rowIdx[key];
        AssembledPlaced(rows, events, ev, run, flows, ri);
        assert RowKeys(rows[ri := rows[ri].(cells := rows[ri].cells[ci := cell])]) == RowKeys(rows);
        rows := rows[ri := rows[ri].(cells := rows[ri].cells[ci := cell])];
      }
    }

    /** Compares every cell with the baseline's and judges it, then counts. */
    method Finalize(run: seq<Identity>)
      requires |identities| == |run| && shouldGet == map[]
      requires forall ri :: 0 <= ri < |rows| ==> |rows[ri].cells| == |run|
      modifies this
      ensures identities == old(identities) && baseline == old(baseline)
      ensures shouldGet == ExpectedAll(run, baseline)
      ensures |rows| == |old(rows)|
      ensures forall ri :: 0 <= ri < |rows| ==> IsJudged(old(rows)[ri], rows[ri], run, identities, baseline)
      ensures summary == Recount(|identities|, rows)
    {
      var base := IndexIn(identities, baseline);
      for i := 0 to |run|
        invariant identities == old(identities) && baseline == old(baseline) && rows == old(rows)
        invariant shouldGet == ExpectedAll(run[..i], baseline)
      {
        assert run[..i + 1][..i] == run[..i];
        var e := Expected(run[i], run[i].name == baseline);
        shouldGet := shouldGet[run[i].name := e];
        if shouldGet[run[i].name] == Unspecified {
          shouldGet := shouldGet - {run[i].name};
        }
      }
      assert run[..|run|] == run;
      for ri := 0 to |rows|
        invariant identities == old(identities) && baseline == old(baseline) && |rows| == |old(rows)|
        invariant shouldGet == ExpectedAll(run, baseline)
        invariant forall r :: ri <= r < |rows| ==> rows[r] == old(rows)[r]
        invariant forall r :: 0 <= r < ri ==> IsJudged(old(rows)[r], rows[r], run, identities, baseline)
      {
        var row := JudgeRow(rows[ri], run, base);
        rows := rows[ri := row];
      }
      summary := Summarize();
    }

    method JudgeRow(before: Row, run: seq<Identity>, base: int) returns (row: Row)
      requires |identities| == |run| == |before.cells| && base == IndexIn(identities, baseline)
      requires shouldGet == ExpectedAll(run, baseline)
      ensures IsJudged(before, row, run, identities, baseline)
    {
      var ownerIdx := -1;
      if before.owner != "" {
        ownerIdx := IndexIn(identities, before.owner);
      }
      row := before;
      for ci := 0 to |before.cells|
        invariant |row.cells| == |run| && row.uid == before.uid && row.owner == before.owner
        invariant forall i :: ci <= i < |run| ==> row.cells[i] == before.cells[i]
        invariant forall i :: 0 <= i < ci ==>
                    row.cells[i] == Judged(before.cells, i, base, ownerIdx, ExpectedOf(shouldGet, run[i].name))
      {
        var c := row.cells[ci];
        if base >= 0 && ci != base {
          JudgedIsComparedAlike(before.cells, base, ownerIdx, row.cells[base], shouldGet, run, c);
          c := c.(same := SameAccess(row.cells[base], c));
        } else if ci == base {
          c := c.(same := c.class_ != NotRun);
        }
        if ownerIdx >= 0 {
          if ci != ownerIdx && c.class_ == Success {
            c := c.(flag := Violation);
          }
        } else if ci != base {
          c := c.(flag := FlagFor(ExpectedOf(shouldGet, run[ci].name), c));
        }
        row := row.(cells := row.cells[ci := c]);
      }
    }

    /** Comparing with the baseline's cell does not depend on whether that has been judged yet. */
    lemma {:induction false} JudgedIsComparedAlike(cells: seq<Cell>, base: int, owner: int, b: Cell,
                                                   m: map<string, Expectation>, run: seq<Identity>, c: Cell)
      requires 0 <= base < |cells| == |run|
      requires b == cells[base] || b == Judged(cells, base, base, owner, ExpectedOf(m, run[base].name))
      ensures SameAccess(b, c) == SameAccess(cells[base], c)
    {}

    method Summarize() returns (sum: Summary)
      ensures sum == Recount(|identities|, rows)
    {
      var cells, violations, denials, differs, blocked, errors := 0, 0, 0, 0, 0, 0;
      for r := 0 to |rows|
        invariant cells == Count(rows[..r], IsAny()) && violations == Count(rows[..r], IsViolation()) &&
                    denials == Count(rows[..r], IsDenial())
        invariant differs == Count(rows[..r], IsDifferent()) && blocked == Count(rows[..r], IsBlocked()) &&
                    errors == Count(rows[..r], IsError())
      {
        assert rows[..r + 1][..r] == rows[..r];
        var q := rows[r].cells;
        for i := 0 to |q|
          invariant cells == Count(rows[..r], IsAny()) + CountIn(q[..i], IsAny())
          invariant violations == Count(rows[..r], IsViolation()) + CountIn(q[..i], IsViolation())
          invariant denials == Count(rows[..r], IsDenial()) + CountIn(q[..i], IsDenial())
          invariant differs == Count(rows[..r], IsDifferent()) + CountIn(q[..i], IsDifferent())
          invariant blocked == Count(rows[..r], IsBlocked()) + CountIn(q[..i], IsBlocked())
          invariant errors == Count(rows[..r], IsError()) + CountIn(q[..i], IsError())
        {
          assert q[..i + 1][..i] == q[..i];
          var c := q[i];
          cells := cells + 1;
          match c.flag {
            case Violation => violations := violations + 1;
            case UnexpectedDenial => denials := denials + 1;
            case NoFlag =>
          }
          match c.class_ {
            case Barred => blocked := blocked + 1;
            case Error => errors := errors + 1;
            case _ =>
          }
          if !c.same && c.class_ != NotRun {
            differs := differs + 1;
          }
        }
        assert q[..|q|] == q;
      }
      assert rows[..|rows|] == rows;
      return Summary(|identities|, |rows|, cells, violations, denials, differs, blocked, errors);
    }
  }

  ghost predicate IsJudged(before: Row, after: Row, run: seq<Identity>, identities: seq<string>, baseline: string)
    requires |identities| == |run|
  {
    && |before.cells| == |after.cells| == |run| && KeyOf(after) == KeyOf(before)
    && forall ci :: 0 <= ci < |run| ==>
         after.cells[ci] == Judged(before.cells, ci, IndexIn(identities, baseline), OwnerColumn(before, identities),
                                   ExpectedOf(ExpectedAll(run, baseline), run[ci].name))
  }

  // ---------------------------------------------------------------- what the matrix says

  /** Rows stand in the order in which their requests and owners are first met, and only later ones are missing. */
  lemma {:induction false} RowsInOrder(rows: seq<Row>, events: seq<Event>, run: seq<Identity>, flows: Flows)
    requires Assembled(rows, events, run, flows)
    ensures InFirstOrder(RowKeys(rows), Keys(events))
    ensures forall ev, i :: ev in events && ev.key !in RowKeys(rows) && 0 <= i < |rows| ==>
              FirstBefore(Keys(events), KeyOf(rows[i]), ev.key)
  {
    var all := Distinct(Keys(events));
    DistinctInOrder(Keys(events));
    DistinctOnce(Keys(events));
    assert forall k :: 0 <= k < |rows| ==> RowKeys(rows)[k] == all[k] && all[k] in RowKeys(rows);
    forall ev, i | ev in events && ev.key !in RowKeys(rows) && 0 <= i < |rows|
      ensures FirstBefore(Keys(events), KeyOf(rows[i]), ev.key)
    {
      var e :| 0 <= e < |events| && events[e] == ev;
      assert Keys(events)[e] in Elems(Keys(events));
      assert ev.key in Elems(all);
      var j :| 0 <= j < |all| && all[j] == ev.key;
    }
  }

  /** Rows are of distinct requests and owners, no more than the bound, and the first of them when there are more. */
  lemma {:induction false} RowsAreDistinct(rows: seq<Row>, events: seq<Event>, run: seq<Identity>, flows: Flows)
    requires Assembled(rows, events, run, flows)
    ensures NoDuplicates(RowKeys(rows)) && |rows| <= MAX_ROWS
    ensures forall ev :: ev in events && |rows| < MAX_ROWS ==> ev.key in RowKeys(rows)
  {
    DistinctOnce(Keys(events));
    forall ev | ev in events
      ensures ev.key in Distinct(Keys(events))
    {
      var i :| 0 <= i < |events| && events[i] == ev;
      assert Keys(events)[i] in Elems(Keys(events));
      assert ev.key in Elems(Distinct(Keys(events)));
    }
  }

  /** A cell is blank or has its last result: it is not run exactly when there is none, or that one was skipped. */
  lemma {:induction false} NotRunExactly(c: Cell, events: seq<Event>, key: Key, ci: nat, run: seq<Identity>,
                                         flows: Flows)
    requires ci < |run| && Shows(c, events, key, ci, run, flows)
    ensures c.class_ == NotRun <==> NoneOf(events, key, ci) || exists i ::
              LastOf(events, key, ci, i) && events[i].item.outcome == Skipped
  {
    if !NoneOf(events, key, ci) {
      var i := LastExists(events, key, ci);
      assert c == CellOf(events[i].item, !run[ci].anonymous, flows);
      assert forall j :: LastOf(events, key, ci, j) ==> c == CellOf(events[j].item, !run[ci].anonymous, flows);
    }
  }

  lemma {:induction false} LastExists(events: seq<Event>, key: Key, ci: nat) returns (i: int)
    requires !NoneOf(events, key, ci)
    ensures LastOf(events, key, ci, i)
    decreases |events|
  {
    var n := |events| - 1;
    if events[n].key == key && events[n].by_ == ci {
      i := n;
    } else {
      assert !NoneOf(events[..n], key, ci) by {
        var j :| 0 <= j < |events| && events[j].key == key && events[j].by_ == ci;
        assert events[..n][j] == events[j];
      }
      i := LastExists(events[..n], key, ci);
    }
  }

  /**
   The flags of a matrix just assembled: with an object owner, every other identity that succeeded is
   a violation and nothing else is flagged; without one, exactly what contradicts the expectation of an
   identity other than the baseline.
   */
  lemma {:induction false} FlagsExactly(before: Row, after: Row, events: seq<Event>, run: seq<Identity>, flows: Flows,
                                        baseline: string, ci: nat)
    requires DistinctNames(run) && ci < |run|
    requires RowShows(before, events, run, flows) && IsJudged(before, after, run, Names(run), baseline)
    ensures var c, owner, e := after.cells[ci], OwnerColumn(before, Names(run)), Expected(run[ci], false);
            && c.class_ == before.cells[ci].class_ && Shows(before.cells[ci], events, KeyOf(after), ci, run, flows)
            && (c.flag == Violation <==>
                c.class_ == Success && if owner >= 0 then ci != owner else run[ci].name != baseline && e == Deny)
            && (c.flag == UnexpectedDenial <==> c.denied && owner < 0 && run[ci].name != baseline && e == Allow)
  {
    DistinctNamesDiffer(run);
    ExpectedAt(run, baseline, ci);
    var base := IndexIn(Names(run), baseline);
    assert Names(run)[ci] == run[ci].name;
    assert ci == base <==> run[ci].name == baseline;
    ShownIsUnflagged(before.cells[ci], events, KeyOf(before), ci, run, flows);
  }

  /** A result has no flag of its own, and is denied exactly when it is a failure to be let in. */
  lemma {:induction false} ShownIsUnflagged(c: Cell, events: seq<Event>, key: Key, ci: nat, run: seq<Identity>,
                                            flows: Flows)
    requires ci < |run| && Shows(c, events, key, ci, run, flows)
    ensures c.flag == NoFlag && (c.denied <==> c.class_ == AuthFailure || c.class_ == AuthzFailure)
  {
    if !NoneOf(events, key, ci) {
      var i := LastExists(events, key, ci);
      assert c == CellOf(events[i].item, !run[ci].anonymous, flows);
    }
  }

  /** A count is of something exactly when some cell has the property. */
  lemma {:induction false} CountedExactly(rows: seq<Row>, p: Cell -> bool)
    ensures Count(rows, p) > 0 <==> exists r, i :: 0 <= r < |rows| && 0 <= i < |rows[r].cells| && p(rows[r].cells[i])
    decreases |rows|
  {
    if rows != [] {
      var n := |rows| - 1;
      CountedExactly(rows[..n], p);
      CountedInExactly(rows[n].cells, p);
      assert forall r :: 0 <= r < n ==> rows[..n][r] == rows[r];
    }
  }

  lemma {:induction false} CountedInExactly(cells: seq<Cell>, p: Cell -> bool)
    ensures CountIn(cells, p) > 0 <==> exists i :: 0 <= i < |cells| && p(cells[i])
    decreases |cells|
  {
    if cells != [] {
      var n := |cells| - 1;
      CountedInExactly(cells[..n], p);
      assert forall i :: 0 <= i < n ==> cells[..n][i] == cells[i];
    }
  }
}
