/**
 The proxy's listeners: starting them, and reconciling them to a new address set by opening what is
 missing before closing what is dropped.
 */
module Listeners {
  import opened Sorting
  import opened Text

  /** A server on a listener it owns; ids are never reused, so equal servers are the same object. */
  datatype Server = Server(id: nat, addr: string)

  /** What the operating system says to attempt number n to listen on an address. */
  type Listen = (string, nat) -> bool

  /** Where the proxy listens when nothing else is said. */
  const DEFAULT_ADDR := "127.0.0.1:8080"

  function Trim(a: string): string {
    TrimSpace(a)
  }

  /** Blanks trimmed away, first occurrences kept in order. */
  function Dedupe(addrs: seq<string>): seq<string> {
    if addrs == [] then []
    else
      var d := Dedupe(addrs[..|addrs| - 1]);
      var a := Trim(addrs[|addrs| - 1]);
      if a == "" || a in d then d else d + [a]
  }

  /** The addresses of want that are not in have, in order. */
  function Missing(want: seq<string>, have: set<string>): seq<string> {
    if want == [] then []
    else Missing(want[..|want| - 1], have) + if want[|want| - 1] in have then [] else [want[|want| - 1]]
  }

  function Addrs(srvs: seq<Server>): (r: seq<string>)
    ensures |r| == |srvs| && forall i :: 0 <= i < |srvs| ==> r[i] == srvs[i].addr
  {
    seq(|srvs|, i requires 0 <= i < |srvs| => srvs[i].addr)
  }

  /** A manager's state: its addresses and their servers, and what is open or on its way to be closed. */
  datatype Manager = Manager(addrs: seq<string>, srvs: seq<Server>, open: set<Server>, draining: set<Server>)

  /** The listeners that are open and nothing will ever close. */
  ghost function LostOf(m: Manager): set<Server> {
    m.open - Elems(m.srvs) - m.draining
  }

  /** What is done to a manager, and whether it succeeds. */
  datatype Call = Start(want: seq<string>, ok: bool) | Rebind(want: seq<string>, ok: bool) | Drain(s: Server)

  /** The call takes a manager from one state to the other. */
  ghost predicate Does(m: Manager, c: Call, m': Manager)
    requires |m.addrs| == |m.srvs|
  {
    match c
    case Start(want, ok) =>
      m.addrs == [] && if ok then HasStarted(m, want, m') else m' == m
    case Rebind(want, ok) =>
      if ok then
        && m'.addrs == Dedupe(want) != []
        && Reconciled(m.addrs, m.srvs, m.open, m.draining, m'.addrs, m'.srvs, m'.open, m'.draining)
      else m' == m
    case Drain(s) =>
      s in m.draining && m' == m.(open := m.open - {s}, draining := m.draining - {s})
  }

  ghost predicate HasStarted(m: Manager, want: seq<string>, m': Manager) {
    && m'.addrs == (if want == [] then [DEFAULT_ADDR] else want)
    && m'.open == m.open + Elems(m'.srvs) && m.open !! Elems(m'.srvs) && m'.draining == m.draining
  }

  class ProxyManager {
    const listen: Listen
    var addrs: seq<string>
    var srvs: seq<Server>
    /** The listeners that are open, those being drained included. */
    var open: set<Server>
    /** Dropped servers on their way to being shut down. */
    var draining: set<Server>
    var attempts: nat
    var nextId: nat

    constructor (listen: Listen)
      ensures Valid() && addrs == [] && srvs == [] && open == {} && this.listen == listen
    {
      this.listen := listen;
      addrs, srvs, open, draining, attempts, nextId := [], [], {}, {}, 0, 0;
    }

    /** Servers are aligned with their addresses, and what is managed or draining is open. */
    ghost predicate Consistent()
      reads this
    {
      Owned(addrs, srvs, open, draining, nextId)
    }

    /** What is open is exactly what is managed or draining, and no address is served twice. */
    ghost predicate Valid()
      reads this
    {
      Consistent() && NoDuplicates(addrs) && Lost() == {}
    }

    ghost function Value(): Manager
      reads this
    {
      Manager(addrs, srvs, open, draining)
    }

    ghost function Lost(): set<Server>
      reads this
    {
      LostOf(Value())
    }

    /** Opens every address, or closes what it opened and opens none. */
    method ListenAll(want: seq<string>) returns (ok: bool, started: seq<Server>)
      requires forall s :: s in open ==> s.id < nextId
      modifies this`open, this`attempts, this`nextId
      ensures ok ==>
                Addrs(started) == want && NoDuplicates(started) && open == old(open) + Elems(started) &&
                old(open) !! Elems(started)
      ensures ok <==> CanListen(listen, want, old(attempts))
      ensures !ok ==> open == old(open)
      ensures forall s :: s in open ==> s.id < nextId
      ensures nextId >= old(nextId)
    {
      started := [];
      for i := 0 to |want|
        invariant |started| == i && Addrs(started) == want[..i]
        invariant attempts == old(attempts) + i && nextId == old(nextId) + i
        invariant open == old(open) + Elems(started)
        invariant forall k :: 0 <= k < i ==> started[k].id == old(nextId) + k
        invariant forall k :: 0 <= k < i ==> listen(want[k], old(attempts) + k)
      {
        attempts := attempts + 1;
        if !listen(want[i], attempts - 1) {
          CloseAll(started);
          Reopened(old(open), started, old(nextId));
          return false, [];
        }
        var s := Server(nextId, want[i]);
        nextId := nextId + 1;
        assert Elems(started + [s]) == Elems(started) + {s};
        assert Addrs(started + [s]) == want[..i + 1];
        started, open := started + [s], open + {s};
      }
      Reopened(old(open), started, old(nextId));
      assert want[..|want|] == want;
      return true, started;
    }

    lemma {:induction false} Reopened(before: set<Server>, started: seq<Server>, from: nat)
      requires forall s :: s in before ==> s.id < from
      requires forall k :: 0 <= k < |started| ==> started[k].id == from + k
      ensures before !! Elems(started) && NoDuplicates(started) && before + Elems(started) - Elems(started) == before
    {}

    method CloseAll(ss: seq<Server>)
      modifies this`open
      ensures open == old(open) - Elems(ss)
    {
      for i := 0 to |ss|
        invariant open == old(open) - Elems(ss[..i])
      {
        assert Elems(ss[..i + 1]) == Elems(ss[..i]) + {ss[i]} by { assert ss[..i + 1] == ss[..i] + [ss[i]]; }
        open := open - {ss[i]};
      }
      assert ss[..|ss|] == ss;
    }

    /** Brings up the first listeners, on the addresses as they are given: repeated ones too, if they can be started. */
    method StartAddrs(want: seq<string>) returns (ok: bool)
      requires Valid() && addrs == []
      modifies this
      ensures Consistent() && Lost() == {} && Does(old(Value()), Start(want, ok), Value())
      ensures !ok || NoDuplicates(want) ==> Valid()
      ensures ok <==> CanListen(listen, if want == [] then [DEFAULT_ADDR] else want, old(attempts))
      ensures addrs == if !ok then [] else if want == [] then ["127.0.0.1:8080"] else want
    {
      var list := if want == [] then [DEFAULT_ADDR] else want;
      var started;
      ok, started := ListenAll(list);
      if ok {
        addrs, srvs := list, started;
      }
    }

    /**
     Reconciles the live listeners to the desired addresses. On success exactly the deduplicated
     addresses are served, retained ones by the server they had, and exactly the servers no longer
     wanted are drained; on failure nothing has changed. A server is lost exactly when another one
     served the same address, which cannot be so after a first success.
     */
    method RebindAddrs(want: seq<string>) returns (ok: bool)
      requires Consistent()
      modifies this
      ensures Consistent()
      ensures ok <==> Dedupe(want) != [] && CanListen(listen, Missing(Dedupe(want), Elems(old(addrs))), old(attempts))
      ensures Does(old(Value()), Rebind(want, ok), Value())
      ensures old(Valid()) ==> Valid()
    {
      ok := Reconcile(want);
      LostByCall(old(Value()), Rebind(want, ok), Value());
    }

    method Reconcile(want: seq<string>) returns (ok: bool)
      requires Consistent()
      modifies this
      ensures Consistent()
      ensures ok <==> Dedupe(want) != [] && CanListen(listen, Missing(Dedupe(want), Elems(old(addrs))), old(attempts))
      ensures Does(old(Value()), Rebind(want, ok), Value())
    {
      var desired := DedupeAddrs(want);
      if |desired| == 0 {
        return false;
      }
      var cur := Current();
      ServingKeys(addrs, srvs);
      var toAdd := NotServed(desired, cur);
      var started;
      ok, started := ListenAll(toAdd);
      if !ok {
        return false;
      }
      DedupeDistinct(want);
      var added := ByAddr(started);
      Covered(desired, addrs, srvs, started);
      var newSrvs := Merge(desired, cur, added);
      Rebound(addrs, srvs, old(open), draining, nextId, desired, started, newSrvs, Dropped(cur, desired));
      addrs, srvs, draining := desired, newSrvs, draining + Dropped(cur, desired);
    }

    method Current() returns (cur: map<string, Server>)
      requires |addrs| == |srvs|
      ensures cur == Serving(addrs, srvs)
    {
      cur := map[];
      for i := 0 to |addrs|
        invariant cur == Serving(addrs[..i], srvs[..i])
      {
        assert addrs[..i + 1][..i] == addrs[..i] && srvs[..i + 1][..i] == srvs[..i];
        cur := cur[addrs[i] := srvs[i]];
      }
      assert addrs[..|addrs|] == addrs && srvs[..|srvs|] == srvs;
    }

    /** One dropped server finishes: its listener is closed and nothing else changes. */
    method DrainOne(s: Server)
      requires Consistent() && s in draining
      modifies this`open, this`draining
      ensures Does(old(Value()), Drain(s), Value())
      ensures old(Valid()) ==> Valid()
      ensures Consistent() && Lost() == old(Lost()) && draining == old(draining) - {s} && open == old(open) - {s}
    {
      open, draining := open - {s}, draining - {s};
    }
  }

  /** Every address of the list can be listened on, from attempt n on. */
  ghost predicate CanListen(listen: Listen, want: seq<string>, n: nat) {
    forall k :: 0 <= k < |want| ==> listen(want[k], n + k)
  }

  method DedupeAddrs(want: seq<string>) returns (out: seq<string>)
    ensures out == Dedupe(want)
  {
    var seen: set<string> := {};
    out := [];
    for i := 0 to |want|
      invariant out == Dedupe(want[..i]) && seen == Elems(out)
    {
      assert want[..i + 1][..i] == want[..i];
      var a := Trim(want[i]);
      if a == "" || a in seen {
        continue;
      }
      assert Elems(out + [a]) == Elems(out) + {a};
      seen := seen + {a};
      out := out + [a];
    }
    assert want[..|want|] == want;
  }

  lemma {:induction false} DedupeDistinct(want: seq<string>)
    ensures NoDuplicates(Dedupe(want))
    decreases |want|
  {
    if want != [] {
      DedupeDistinct(want[..|want| - 1]);
    }
  }

  /** Some entry of the list is the address, blanks aside. */
  predicate Named(want: seq<string>, a: string) {
    exists i :: 0 <= i < |want| && Trim(want[i]) == a
  }

  function Trimmed(want: seq<string>): (r: seq<string>)
    ensures |r| == |want| && forall i :: 0 <= i < |want| ==> r[i] == Trim(want[i])
  {
    seq(|want|, i requires 0 <= i < |want| => Trim(want[i]))
  }

  /** The addresses stand in the order in which they are first named. */
  lemma {:induction false} DedupeInOrder(want: seq<string>)
    ensures InFirstOrder(Dedupe(want), Trimmed(want))
    decreases |want|
  {
    if want != [] {
      var n := |want| - 1;
      DedupeInOrder(want[..n]);
      DedupeKeeps(want[..n], Trim(want[n]));
      assert Trimmed(want) == Trimmed(want[..n]) + [Trim(want[n])];
      assert Trim(want[n]) in Trimmed(want[..n]) <==> Named(want[..n], Trim(want[n])) by {
        assert forall i :: 0 <= i < n ==> Trimmed(want[..n])[i] == Trim(want[..n][i]);
      }
      FirstOrderSnoc(Dedupe(want[..n]), Trimmed(want[..n]), Trim(want[n]));
    }
  }

  lemma {:induction false} NamedSnoc(want: seq<string>, last: string, a: string)
    ensures Named(want + [last], a) <==> Named(want, a) || Trim(last) == a
  {
    var w := want + [last];
    assert w[|want|] == last;
    if i :| 0 <= i < |want| && Trim(want[i]) == a {
      assert w[i] == want[i];
    }
  }

  lemma {:induction false} DedupeKeeps(want: seq<string>, a: string)
    ensures a in Dedupe(want) <==> a != "" && Named(want, a)
    decreases |want|
  {
    if want != [] {
      var n := |want| - 1;
      DedupeKeeps(want[..n], a);
      NamedSnoc(want[..n], want[n], a);
      assert want == want[..n] + [want[n]];
    }
  }

  /** The server each address is served by; of servers on one address, the last. */
  function Serving(addrs: seq<string>, srvs: seq<Server>): map<string, Server>
    requires |addrs| == |srvs|
  {
    if addrs == [] then map[]
    else Serving(addrs[..|addrs| - 1], srvs[..|srvs| - 1])[addrs[|addrs| - 1] := srvs[|srvs| - 1]]
  }

  lemma {:induction false} ServingKeys(addrs: seq<string>, srvs: seq<Server>)
    requires |addrs| == |srvs| && Addrs(srvs) == addrs
    ensures Serving(addrs, srvs).Keys == Elems(addrs)
    ensures forall a :: a in Serving(addrs, srvs) ==>
              Serving(addrs, srvs)[a] in srvs && Serving(addrs, srvs)[a].addr == a
    decreases |addrs|
  {
    if addrs != [] {
      var n := |addrs| - 1;
      assert Addrs(srvs[..n]) == addrs[..n];
      ServingKeys(addrs[..n], srvs[..n]);
      assert addrs == addrs[..n] + [addrs[n]] && srvs == srvs[..n] + [srvs[n]];
    }
  }

  /** With distinct addresses every server serves its address; a shadowed server serves none. */
  lemma {:induction false} ServingAt(addrs: seq<string>, srvs: seq<Server>, i: nat)
    requires |addrs| == |srvs| && NoDuplicates(srvs) && i < |addrs|
    ensures addrs[i] in Serving(addrs, srvs)
    ensures Serving(addrs, srvs)[addrs[i]] == srvs[i] <==> addrs[i] !in addrs[i + 1..]
    decreases |addrs|
  {
    var n := |addrs| - 1;
    if i < n {
      var front, last := addrs[..n], addrs[n];
      ServingAt(front, srvs[..n], i);
      assert addrs[i + 1..] == front[i + 1..] + [last];
      assert addrs[i] in addrs[i + 1..] <==> addrs[i] in front[i + 1..] || addrs[i] == last;
    } else {
      assert addrs[i + 1..] == [];
    }
  }

  method NotServed(want: seq<string>, cur: map<string, Server>) returns (out: seq<string>)
    ensures out == Missing(want, cur.Keys)
  {
    out := [];
    for i := 0 to |want|
      invariant out == Missing(want[..i], cur.Keys)
    {
      assert want[..i + 1][..i] == want[..i];
      if want[i] !in cur {
        out := out + [want[i]];
      }
    }
    assert want[..|want|] == want;
  }

  lemma {:induction false} MissingAre(want: seq<string>, have: set<string>)
    requires NoDuplicates(want)
    ensures NoDuplicates(Missing(want, have))
    ensures forall a :: a in Missing(want, have) <==> a in want && a !in have
    decreases |want|
  {
    if want != [] {
      var n := |want| - 1;
      MissingAre(want[..n], have);
      assert want == want[..n] + [want[n]];
    }
  }

  method ByAddr(started: seq<Server>) returns (added: map<string, Server>)
    ensures added == Serving(Addrs(started), started)
  {
    added := map[];
    for i := 0 to |started|
      invariant added == Serving(Addrs(started[..i]), started[..i])
    {
      assert started[..i + 1][..i] == started[..i] && Addrs(started[..i + 1])[..i] == Addrs(started[..i]);
      added := added[started[i].addr := started[i]];
    }
    assert started[..|started|] == started;
  }

  /** The servers of the new set: the one an address has, else the one just started for it. */
  function Merged(want: seq<string>, cur: map<string, Server>, added: map<string, Server>): (r: seq<Server>)
    requires forall a :: a in want ==> a in cur || a in added
    ensures |r| == |want| && forall i :: 0 <= i < |want| ==>
              r[i] == if want[i] in cur then cur[want[i]] else added[want[i]]
  {
    seq(|want|, i requires 0 <= i < |want| => if want[i] in cur then cur[want[i]] else added[want[i]])
  }

  method Merge(want: seq<string>, cur: map<string, Server>, added: map<string, Server>) returns (out: seq<Server>)
    requires forall a :: a in want ==> a in cur || a in added
    ensures out == Merged(want, cur, added)
  {
    out := [];
    for i := 0 to |want|
      invariant |out| == i
      invariant forall k :: 0 <= k < i ==> out[k] == if want[k] in cur then cur[want[k]] else added[want[k]]
    {
      out := out + [if want[i] in cur then cur[want[i]] else added[want[i]]];
    }
  }

  ghost predicate Owned(addrs: seq<string>, srvs: seq<Server>, open: set<Server>, draining: set<Server>, nextId: nat) {
    && Addrs(srvs) == addrs
    && NoDuplicates(srvs)
    && Elems(srvs) + draining <= open && Elems(srvs) !! draining
    && forall s :: s in open ==> s.id < nextId
  }

  /** An address that was served keeps the very server it had; any other has a new one. */
  ghost predicate Retained(addrs: seq<string>, srvs: seq<Server>, open: set<Server>, addrs': seq<string>,
                           srvs': seq<Server>)
    requires |addrs| == |srvs|
  {
    && |addrs'| == |srvs'|
    && var cur := Serving(addrs, srvs);
       forall i :: 0 <= i < |addrs'| ==> if addrs'[i] in cur then srvs'[i] == cur[addrs'[i]] else srvs'[i] !in open
  }

  /** The servers newly drained are those that served an address no longer wanted. */
  ghost predicate Drained(addrs: seq<string>, srvs: seq<Server>, draining: set<Server>, addrs': seq<string>,
                          draining': set<Server>)
    requires |addrs| == |srvs|
  {
    var cur := Serving(addrs, srvs);
    && draining <= draining'
    && (forall s :: s in draining' - draining ==> s.addr in cur && cur[s.addr] == s && s.addr !in addrs')
    && forall a :: a in cur && a !in addrs' ==> cur[a] in draining'
  }

  /** A successful rebind: what is retained, what is drained, and what is lost. */
  ghost predicate Reconciled(addrs: seq<string>, srvs: seq<Server>, open: set<Server>, draining: set<Server>,
                             addrs': seq<string>, srvs': seq<Server>, open': set<Server>, draining': set<Server>)
    requires |addrs| == |srvs|
  {
    && NoDuplicates(addrs')
    && Retained(addrs, srvs, open, addrs', srvs')
    && Drained(addrs, srvs, draining, addrs', draining')
    && open' - Elems(srvs') - draining' == (open - Elems(srvs) - draining) + (Elems(srvs) - Serving(addrs, srvs).Values)
  }

  /** Exactly with distinct addresses is every server reachable through the address it serves. */
  lemma {:induction false} NothingShadowed(addrs: seq<string>, srvs: seq<Server>)
    requires Addrs(srvs) == addrs && NoDuplicates(srvs)
    ensures Elems(srvs) <= Serving(addrs, srvs).Values <==> NoDuplicates(addrs)
  {
    var cur := Serving(addrs, srvs);
    ServingKeys(addrs, srvs);
    forall i | 0 <= i < |addrs|
      ensures srvs[i] in cur.Values <==> addrs[i] !in addrs[i + 1..]
    {
      ServingAt(addrs, srvs, i);
      assert srvs[i].addr == addrs[i];
    }
    assert NoDuplicates(addrs) ==> forall i :: 0 <= i < |addrs| ==> addrs[i] !in addrs[i + 1..];
    if i, j :| 0 <= i < j < |addrs| && addrs[i] == addrs[j] {
      assert addrs[i + 1..][j - i - 1] == addrs[j];
      assert srvs[i] in Elems(srvs);
    }
  }

  lemma {:induction false} Covered(desired: seq<string>, addrs: seq<string>, srvs: seq<Server>, started: seq<Server>)
    requires NoDuplicates(desired) && Addrs(srvs) == addrs && Addrs(started) == Missing(desired, Elems(addrs))
    ensures forall a :: a in desired ==> a in Serving(addrs, srvs) || a in Serving(Addrs(started), started)
  {
    MissingAre(desired, Elems(addrs));
    ServingKeys(addrs, srvs);
    ServingKeys(Addrs(started), started);
  }

  lemma {:induction false} Rebound(addrs: seq<string>, srvs: seq<Server>, open: set<Server>, draining: set<Server>,
                                   nextId: nat, desired: seq<string>, started: seq<Server>, srvs': seq<Server>,
      toClose: set<Server>)
    requires Owned(addrs, srvs, open, draining, nextId)
    requires NoDuplicates(desired) && Addrs(started) == Missing(desired, Elems(addrs)) && open !! Elems(started)
    requires forall s :: s in started ==> s.id < nextId
    requires forall a :: a in desired ==> a in Serving(addrs, srvs) || a in Serving(Addrs(started), started)
    requires srvs' == Merged(desired, Serving(addrs, srvs), Serving(Addrs(started), started))
    requires toClose == Dropped(Serving(addrs, srvs), desired)
    ensures Owned(desired, srvs', open + Elems(started), draining + toClose, nextId)
    ensures Reconciled(addrs, srvs, open, draining, desired, srvs', open + Elems(started), draining + toClose)
  {
    var cur, added := Serving(addrs, srvs), Serving(Addrs(started), started);
    ServingKeys(addrs, srvs);
    ServingKeys(Addrs(started), started);
    MissingAre(desired, Elems(addrs));
    StartedServe(started);
    MergedDistinct(desired, cur, added, srvs');
    MergedElems(desired, cur, added, srvs');
    assert added.Values == Elems(started);
    assert cur.Values <= Elems(srvs);
    Balance(cur, desired, Elems(srvs), Elems(started), Elems(srvs'), open, draining);
  }

  /** The servers of the addresses no longer wanted. */
  function Dropped(cur: map<string, Server>, desired: seq<string>): set<Server> {
    set a | a in cur && a !in desired :: cur[a]
  }

  function Kept(cur: map<string, Server>, desired: seq<string>): set<Server> {
    set a | a in cur && a in desired :: cur[a]
  }

  ghost predicate ByAddress(m: map<string, Server>) {
    forall a :: a in m ==> m[a].addr == a
  }

  lemma {:induction false} StartedServe(started: seq<Server>)
    requires NoDuplicates(Addrs(started))
    ensures Serving(Addrs(started), started).Values == Elems(started)
    ensures ByAddress(Serving(Addrs(started), started))
  {
    ServingKeys(Addrs(started), started);
    NothingShadowed(Addrs(started), started);
  }

  lemma {:induction false} MergedDistinct(desired: seq<string>, cur: map<string, Server>, added: map<string, Server>,
                                          srvs': seq<Server>)
    requires NoDuplicates(desired) && ByAddress(cur) && ByAddress(added)
    requires forall a :: a in desired ==> a in cur || a in added
    requires srvs' == Merged(desired, cur, added)
    ensures Addrs(srvs') == desired && NoDuplicates(srvs')
  {
    assert forall i :: 0 <= i < |desired| ==> srvs'[i].addr == desired[i];
  }

  lemma {:induction false} MergedElems(desired: seq<string>, cur: map<string, Server>, added: map<string, Server>,
                                       srvs': seq<Server>)
    requires forall a :: a in desired ==> a in cur || a in added
    requires forall a :: a in added ==> a in desired && a !in cur
    requires srvs' == Merged(desired, cur, added)
    ensures Elems(srvs') == Kept(cur, desired) + added.Values
  {
    forall a | a in desired
      ensures (if a in cur then cur[a] else added[a]) in Elems(srvs')
    {
      var i :| 0 <= i < |desired| && desired[i] == a;
      assert srvs'[i] in Elems(srvs');
    }
    forall s | s in Elems(srvs')
      ensures s in Kept(cur, desired) + added.Values
    {
      var i :| 0 <= i < |srvs'| && srvs'[i] == s;
      assert desired[i] in desired;
    }
  }

  /** What the old servers were is kept, dropped or lost; what was started is all in use. */
  lemma {:induction false} Balance(cur: map<string, Server>, desired: seq<string>, old': set<Server>,
                                   started: set<Server>, new': set<Server>, open: set<Server>, draining: set<Server>)
    requires cur.Values <= old' && ByAddress(cur) && old' + draining <= open && old' !! draining && open !! started
    requires new' == Kept(cur, desired) + started
    ensures new' + (draining + Dropped(cur, desired)) <= open + started
    ensures new' !! draining + Dropped(cur, desired)
    ensures open + started - new' - (draining + Dropped(cur, desired)) == (open - old' - draining) + (old' - cur.Values)
  {
    assert Kept(cur, desired) + Dropped(cur, desired) == cur.Values;
    assert Kept(cur, desired) !! Dropped(cur, desired);
  }

  /** A rebind loses a listener exactly when some address had been given twice; after it none is. */
  lemma {:induction false} LostOnlyByRepeatedAddresses(addrs: seq<string>, srvs: seq<Server>, open: set<Server>,
                                                       draining: set<Server>, addrs': seq<string>, srvs': seq<Server>,
      open': set<Server>, draining': set<Server>)
    requires Addrs(srvs) == addrs && NoDuplicates(srvs) && Elems(srvs) <= open && Elems(srvs) !! draining
    requires Reconciled(addrs, srvs, open, draining, addrs', srvs', open', draining')
    ensures open' - Elems(srvs') - draining' == open - Elems(srvs) - draining <==> NoDuplicates(addrs)
    ensures open - Elems(srvs) - draining <= open' - Elems(srvs') - draining'
    ensures NoDuplicates(addrs')
  {
    NothingShadowed(addrs, srvs);
    var lost := open - Elems(srvs) - draining;
    var shadowed := Elems(srvs) - Serving(addrs, srvs).Values;
    assert shadowed !! lost;
    assert forall s :: s in Elems(srvs) && s !in Serving(addrs, srvs).Values ==> s in shadowed;
  }

  // ---------------------------------------------------------------- sequences of calls

  /** States from the empty manager, each reached from the one before by the call between them. */
  ghost predicate IsRun(states: seq<Manager>, calls: seq<Call>, nextIds: seq<nat>) {
    && |states| == |nextIds| == |calls| + 1 && states[0] == Manager([], [], {}, {})
    && (forall i :: 0 <= i < |states| ==> OwnedAt(states[i], nextIds[i]))
    && forall i :: 0 <= i < |calls| ==> Does(states[i], calls[i], states[i + 1])
  }

  ghost predicate OwnedAt(m: Manager, nextId: nat) {
    Owned(m.addrs, m.srvs, m.open, m.draining, nextId)
  }

  /** The call is a rebind that succeeds while some address is served twice. */
  ghost predicate LosesServers(m: Manager, c: Call) {
    c.Rebind? && c.ok && !NoDuplicates(m.addrs)
  }

  lemma {:induction false} LostByCall(m: Manager, c: Call, m': Manager)
    requires Addrs(m.srvs) == m.addrs && NoDuplicates(m.srvs) && Elems(m.srvs) <= m.open && Elems(m.srvs) !! m.draining
    requires Does(m, c, m')
    ensures LostOf(m) <= LostOf(m')
    ensures LostOf(m') == LostOf(m) <==> !LosesServers(m, c)
  {
    if c.Rebind? && c.ok {
      LostOnlyByRepeatedAddresses(m.addrs, m.srvs, m.open, m.draining, m'.addrs, m'.srvs, m'.open, m'.draining);
    }
  }

  /**
   Over every sequence of starts, rebinds and drains, whatever fails: the listeners open are exactly
   those managed or draining, exactly if no rebind has succeeded while an address was served twice.
   */
  lemma {:induction false} OpenIsManaged(states: seq<Manager>, calls: seq<Call>, nextIds: seq<nat>, n: nat)
    requires IsRun(states, calls, nextIds) && n <= |calls|
    ensures states[n].open == Elems(states[n].srvs) + states[n].draining <==> forall i :: 0 <= i < n ==>
              !LosesServers(states[i], calls[i])
    decreases n
  {
    assert OwnedAt(states[n], nextIds[n]);
    assert states[n].open == Elems(states[n].srvs) + states[n].draining <==> LostOf(states[n]) == {};
    if n > 0 {
      OpenIsManaged(states, calls, nextIds, n - 1);
      assert OwnedAt(states[n - 1], nextIds[n - 1]);
      assert states[n - 1].open == Elems(states[n - 1].srvs) + states[n - 1].draining <==> LostOf(states[n - 1]) == {};
      LostByCall(states[n - 1], calls[n - 1], states[n]);
    }
  }

  /** After a first rebind that succeeds the addresses are distinct for good, so nothing more is lost. */
  lemma {:induction false} DistinctForGood(states: seq<Manager>, calls: seq<Call>, nextIds: seq<nat>, i: nat, n: nat)
    requires IsRun(states, calls, nextIds) && i < n <= |calls| && calls[i].Rebind? && calls[i].ok
    ensures NoDuplicates(states[n].addrs) && states[n].addrs != [] && LostOf(states[n]) == LostOf(states[i + 1])
    decreases n
  {
    assert OwnedAt(states[n - 1], nextIds[n - 1]);
    assert Does(states[n - 1], calls[n - 1], states[n]);
    if n > i + 1 {
      DistinctForGood(states, calls, nextIds, i, n - 1);
      LostByCall(states[n - 1], calls[n - 1], states[n]);
    }
  }

  // ---------------------------------------------------------------- as the program starts it

  /** The addresses without blanks and repetitions, or the default when none is left. */
  function Normalized(addrs: seq<string>): seq<string> {
    if Dedupe(addrs) == [] then [DEFAULT_ADDR] else Dedupe(addrs)
  }

  method NormalizeProxyAddrs(addrs: seq<string>) returns (out: seq<string>)
    ensures out == Normalized(addrs)
  {
    var seen: set<string> := {};
    out := [];
    for i := 0 to |addrs|
      invariant out == Dedupe(addrs[..i]) && seen == Elems(out)
    {
      assert addrs[..i + 1][..i] == addrs[..i];
      var a := Trim(addrs[i]);
      if a == "" || a in seen {
        continue;
      }
      assert Elems(out + [a]) == Elems(out) + {a};
      seen := seen + {a};
      out := out + [a];
    }
    assert addrs[..|addrs|] == addrs;
    if |out| == 0 {
      return [DEFAULT_ADDR];
    }
  }

  /** What says where to listen: the lines of one setting, the other, the environment, and the port flag. */
  datatype Settings = Settings(addrs: Option<seq<string>>, addr: Option<string>, env: string, flag: Option<string>)

  /** The addresses the program starts on: the flag's, else the environment's, else the saved ones. */
  function RuntimeAddrs(s: Settings): seq<string> {
    if s.flag.Some? then [s.flag.value]
    else if s.env != "" then [s.env]
    else if s.addrs.Some? then Normalized(s.addrs.value)
    else if s.addr.Some? && Trim(s.addr.value) != "" then [Trim(s.addr.value)]
    else [DEFAULT_ADDR]
  }

  /** The saved addresses, unless the environment says where, unless the flag does. */
  method ChooseAddrs(s: Settings) returns (addrs: seq<string>)
    ensures addrs == RuntimeAddrs(s)
  {
    addrs := LoadProxyAddrs(s.addrs, s.addr);
    if s.env != "" {
      addrs := [s.env];
    }
    if s.flag.Some? {
      addrs := [s.flag.value];
    }
  }

  method LoadProxyAddrs(lines: Option<seq<string>>, addr: Option<string>) returns (addrs: seq<string>)
    ensures addrs == RuntimeAddrs(Settings(lines, addr, "", None))
  {
    if lines.Some? {
      addrs := NormalizeProxyAddrs(lines.value);
    } else if addr.Some? && Trim(addr.value) != "" {
      addrs := [Trim(addr.value)];
    } else {
      addrs := [DEFAULT_ADDR];
    }
  }

  /** The saved lines are served, blanks and repetitions aside, or the default alone if they are all blank. */
  lemma {:induction false} NormalizedExactly(lines: seq<string>, a: string)
    ensures a in Normalized(lines) <==>
            if exists i :: 0 <= i < |lines| && Trim(lines[i]) != "" then a != "" && Named(lines, a)
            else a == "127.0.0.1:8080"
  {
    DedupeKeeps(lines, a);
    if i :| 0 <= i < |lines| && Trim(lines[i]) != "" {
      DedupeKeeps(lines, Trim(lines[i]));
      assert Named(lines, Trim(lines[i]));
    } else if Dedupe(lines) != [] {
      DedupeKeeps(lines, Dedupe(lines)[0]);
    }
  }

  /** The flag goes before the environment, and that before what is saved: the list, else the one address. */
  lemma {:induction false} RuntimeAddrsExactly(s: Settings)
    ensures s.flag.Some? ==> RuntimeAddrs(s) == [s.flag.value]
    ensures s.flag.None? && s.env != "" ==> RuntimeAddrs(s) == [s.env]
    ensures s.flag.None? && s.env == "" && s.addrs.Some? ==> RuntimeAddrs(s) == Normalized(s.addrs.value)
    ensures s.flag.None? && s.env == "" && s.addrs.None? ==>
              RuntimeAddrs(s) == if s.addr.Some? && TrimSpace(s.addr.value) != "" then [TrimSpace(s.addr.value)]
                                 else ["127.0.0.1:8080"]
  {}

  /** Whatever is said, the program starts on distinct addresses. */
  lemma {:induction false} RuntimeAddrsAreDistinct(s: Settings)
    ensures NoDuplicates(RuntimeAddrs(s)) && RuntimeAddrs(s) != []
  {
    if s.addrs.Some? {
      DedupeDistinct(s.addrs.value);
    }
  }

  /** Every start in the run is on the addresses the program starts on. */
  ghost predicate StartedByProgram(calls: seq<Call>) {
    forall i :: 0 <= i < |calls| && calls[i].Start? ==> exists s :: calls[i].want == RuntimeAddrs(s)
  }

  /**
   In every run of the program, whatever its settings and whatever fails: the addresses served are distinct,
   and the listeners open are exactly the managed ones and those being drained.
   */
  lemma {:induction false} ProgramLosesNothing(states: seq<Manager>, calls: seq<Call>, nextIds: seq<nat>, n: nat)
    requires IsRun(states, calls, nextIds) && n <= |calls| && StartedByProgram(calls)
    ensures NoDuplicates(states[n].addrs) && states[n].open == Elems(states[n].srvs) + states[n].draining
  {
    forall i | 0 <= i <= n ensures NoDuplicates(states[i].addrs) {
      AddressesStayDistinct(states, calls, nextIds, i);
    }
    OpenIsManaged(states, calls, nextIds, n);
  }

  lemma {:induction false} AddressesStayDistinct(states: seq<Manager>, calls: seq<Call>, nextIds: seq<nat>, n: nat)
    requires IsRun(states, calls, nextIds) && n <= |calls| && StartedByProgram(calls)
    ensures NoDuplicates(states[n].addrs)
    decreases n
  {
    if n > 0 {
      var c := calls[n - 1];
      AddressesStayDistinct(states, calls, nextIds, n - 1);
      assert OwnedAt(states[n - 1], nextIds[n - 1]);
      assert Does(states[n - 1], c, states[n]);
      if c.Start? {
        var s :| c.want == RuntimeAddrs(s);
        RuntimeAddrsAreDistinct(s);
      }
    }
  }

  // ---------------------------------------------------------------- a listener lost

  /** Any free port, as the operating system picks it: the one address it grants more than once. */
  const ANY_PORT := "127.0.0.1:0"

  lemma {:induction false} AnyPortIsItself()
    ensures Dedupe([ANY_PORT]) == [ANY_PORT] && ANY_PORT != "" && ANY_PORT != DEFAULT_ADDR
  {
    assert SkipSpaces(ANY_PORT, 0) == 0 && SkipSpacesBack(ANY_PORT, 11) == 11;
    assert Trim(ANY_PORT) == ANY_PORT;
    assert [ANY_PORT][..0] == [];
    assert Dedupe([]) == [];
  }

  lemma {:induction false} ServedTwice(a: string, first: Server, second: Server)
    ensures Serving([a, a], [first, second]) == map[a := second]
  {
    assert [a, a][..1] == [a] && [first, second][..1] == [first];
    assert [a][..0] == [] && [first][..0] == [];
    assert Serving([a], [first]) == map[][a := first];
  }

  lemma {:induction false} FirstIsLost(first: Server, second: Server)
    requires first == Server(0, ANY_PORT) && second == Server(1, ANY_PORT)
    ensures Reconciled([ANY_PORT, ANY_PORT], [first, second], {first, second}, {}, [ANY_PORT], [second],
                       {first, second}, {})
  {
    var open, cur := {first, second}, Serving([ANY_PORT, ANY_PORT], [first, second]);
    ServedTwice(ANY_PORT, first, second);
    assert cur == map[ANY_PORT := second] && cur[ANY_PORT] == second;
    assert cur.Values == {second};
    assert Elems([first, second]) == open && Elems([second]) == {second};
    assert open - {second} - {} == {first} == (open - open - {}) + (open - cur.Values);
  }

  lemma {:induction false} TwoAreOwned(first: Server, second: Server)
    requires first == Server(0, ANY_PORT) && second == Server(1, ANY_PORT)
    ensures OwnedAt(Manager([], [], {}, {}), 0)
    ensures OwnedAt(Manager([ANY_PORT, ANY_PORT], [first, second], {first, second}, {}), 2)
    ensures OwnedAt(Manager([ANY_PORT], [second], {first, second}, {}), 2)
  {}

  lemma {:induction false} TwoAreStarted(first: Server, second: Server)
    requires first == Server(0, ANY_PORT) && second == Server(1, ANY_PORT)
    ensures Does(Manager([], [], {}, {}), Start([ANY_PORT, ANY_PORT], true),
                 Manager([ANY_PORT, ANY_PORT], [first, second], {first, second}, {}))
  {
    assert Elems([first, second]) == {first, second};
  }

  lemma {:induction false} OneIsRebound(first: Server, second: Server)
    requires first == Server(0, ANY_PORT) && second == Server(1, ANY_PORT)
    ensures Does(Manager([ANY_PORT, ANY_PORT], [first, second], {first, second}, {}), Rebind([ANY_PORT], true),
                 Manager([ANY_PORT], [second], {first, second}, {}))
  {
    AnyPortIsItself();
    FirstIsLost(first, second);
  }

  /** Started on any port twice and then asked to serve it once, the manager forgets its first listener. */
  lemma {:induction false} AnyPortTwiceLosesOne()
    ensures var first, second := Server(0, ANY_PORT), Server(1, ANY_PORT);
            var m0 := Manager([], [], {}, {});
            var m1 := Manager([ANY_PORT, ANY_PORT], [first, second], {first, second}, {});
            var m2 := Manager([ANY_PORT], [second], {first, second}, {});
            && IsRun([m0, m1, m2], [Start([ANY_PORT, ANY_PORT], true), Rebind([ANY_PORT], true)], [0, 2, 2])
            && LostOf(m2) == {first}
  {
    var first, second := Server(0, ANY_PORT), Server(1, ANY_PORT);
    TwoAreOwned(first, second);
    TwoAreStarted(first, second);
    OneIsRebound(first, second);
    assert Elems([second]) == {second};
  }
}
