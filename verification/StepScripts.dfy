/**
 Which scripts of a step run, and in what order: by trust, before and after the sends, and from the
 outermost level of the chain to the innermost.
 */
module StepScripts {
  import opened Redirect
  import opened CollectionStep
  import opened StepSafety

  // ---- scripts ----

  /** Pre-request scripts, then checks and sends, then test scripts. */
  function PhaseOf(e: Event): nat {
    match e
    case Ran(listen, _, _) => if listen == PreRequest then 0 else 2
    case _ => 1
  }

  ghost predicate InOrder(a: Event, b: Event) {
    PhaseOf(a) <= PhaseOf(b) && (a.Ran? && b.Ran? && a.listen == b.listen ==> a.index < b.index)
  }

  ghost predicate ScriptEventOk(p: Pipeline, x: Input, e: Event) {
    e.Ran? ==>
      var refs := if e.listen == PreRequest then x.pre else x.tests;
      e.index < |refs| && e.ref == refs[e.index] && Trusted(p, x, e.ref.hash) && p.hasEngine
  }

  ghost predicate ScriptsOk(p: Pipeline, x: Input, tr: seq<Event>) {
    && (forall i :: 0 <= i < |tr| ==> ScriptEventOk(p, x, tr[i]))
    && (forall i, j :: 0 <= i < j < |tr| ==> InOrder(tr[i], tr[j]))
  }

  /** Every event so far may come before a script with number k of this phase. */
  ghost predicate Before(tr: seq<Event>, listen: Listen, k: nat) {
    forall i :: 0 <= i < |tr| ==> InOrder(tr[i], Ran(listen, k, ScriptRef(0, listen, "")))
  }

  lemma {:induction false} ScriptsOkGrows(p: Pipeline, x: Input, tr: seq<Event>, e: Event)
    requires ScriptsOk(p, x, tr) && ScriptEventOk(p, x, e) && forall i :: 0 <= i < |tr| ==> InOrder(tr[i], e)
    ensures ScriptsOk(p, x, tr + [e])
  {}

  lemma {:induction false} ScriptsPhaseOk(p: Pipeline, x: Input, w: World, listen: Listen, refs: seq<ScriptRef>,
                                          k: nat, r: Run)
    requires k <= |refs| && refs == (if listen == PreRequest then x.pre else x.tests)
    requires ScriptsOk(p, x, r.trace) && Before(r.trace, listen, k)
    ensures ScriptsOk(p, x, RunScripts(p, x, w, listen, refs, k, r).run.trace)
    ensures r.trace <= RunScripts(p, x, w, listen, refs, k, r).run.trace
    ensures forall i :: |r.trace| <= i < |RunScripts(p, x, w, listen, refs, k, r).run.trace| ==>
                        RunScripts(p, x, w, listen, refs, k, r).run.trace[i].Ran? &&
                            RunScripts(p, x, w, listen, refs, k, r).run.trace[i].listen == listen
    decreases |refs| - k
  {
    if k < |refs| {
      var s := refs[k];
      assert Before(r.trace, listen, k + 1);
      if x.noScripts {
        ScriptsPhaseOk(p, x, w, listen, refs, k + 1, r.(notes := r.notes + [Note(s, Disabled)]));
      } else if !Trusted(p, x, s.hash) {
        ScriptsPhaseOk(p, x, w, listen, refs, k + 1, r.(notes := r.notes + [Note(s, NotTrusted)]));
      } else if !p.hasEngine {
        ScriptsPhaseOk(p, x, w, listen, refs, k + 1, r.(notes := r.notes + [Note(s, NoEngine)]));
      } else {
        var e := Ran(listen, k, s);
        var t := r.(trace := r.trace + [e]);
        forall i | 0 <= i < |r.trace| ensures InOrder(r.trace[i], e) {
          assert InOrder(r.trace[i], Ran(listen, k, ScriptRef(0, listen, "")));
        }
        ScriptsOkGrows(p, x, r.trace, e);
        var a := w.script(listen, k);
        ScriptsPhaseOk(p, x, w, listen, refs, k + 1, t);
        ScriptsPhaseOk(p, x, w, listen, refs, k + 1,
                       t.(notes := t.notes
                                  + [Note(s, if a.error == Unsupported then EndedUnsupported else EndedInError)]));
      }
    }
  }

  /** From a run r the run t goes on with checks and sends only. */
  ghost predicate OnlySends(r: Run, t: Run) {
    r.trace <= t.trace && forall i :: |r.trace| <= i < |t.trace| ==> PhaseOf(t.trace[i]) == 1
  }

  lemma {:induction false} OnlySendsThen(a: Run, b: Run, c: Run)
    requires OnlySends(a, b) && OnlySends(b, c)
    ensures OnlySends(a, c)
  {
    assert forall i :: |a.trace| <= i < |b.trace| ==> c.trace[i] == b.trace[i];
  }

  lemma {:induction false} PassOnlySends(p: Pipeline, x: Input, w: World, policy: Policy, jar: bool, req: Request,
                                         hop: nat, r: Run)
    ensures OnlySends(r, SendPass(p, x, w, policy, jar, req, hop, r).run)
  {
    ReportsKeepTrace(p, x, w.send(r.sends).reported, r.(trace := r.trace + [SentMain(req)], sends := r.sends + 1));
  }

  lemma {:induction false} SendOnlySends(p: Pipeline, x: Input, w: World, policy: Policy, jar: bool, req: Request,
                                         hop: nat, r: Run)
    requires hop <= MaxRedirects(x)
    ensures OnlySends(r, Send(p, x, w, policy, jar, req, hop, r).run)
    decreases MaxRedirects(x) - hop
  {
    PassOnlySends(p, x, w, policy, jar, req, hop, r);
    match SendPass(p, x, w, policy, jar, req, hop, r)
    case Stop(_, _) =>
    case Continue(c, n) =>
      SendOnlySends(p, x, w, policy, jar, n, hop + 1, c);
      OnlySendsThen(r, c, Send(p, x, w, policy, jar, n, hop + 1, c).run);
  }

  lemma {:induction false} DispatchOnlySends(p: Pipeline, x: Input, w: World, b: Built, r: Run)
    ensures OnlySends(r, Dispatch(p, x, w, b, r).run)
  {
    var sends, u, jar, req := DispatchShape(p, x, w, b, r);
    if sends {
      CheckAndSendOnlySends(p, x, w, jar, req, u);
      OnlySendsThen(r, u, Dispatch(p, x, w, b, r).run);
    }
  }

  lemma {:induction false} CheckAndSendOnlySends(p: Pipeline, x: Input, w: World, jar: bool, req: Request, u: Run)
    ensures OnlySends(u, CheckAndSend(p, x, w, ScopePolicy(x), jar, req, u).run)
  {
    var c := AfterCheck(p, u, req.url, ScopePolicy(x), x.pin);
    assert OnlySends(u, c);
    SendOnlySends(p, x, w, ScopePolicy(x), jar, req, 0, c);
    OnlySendsThen(u, c, Send(p, x, w, ScopePolicy(x), jar, req, 0, c).run);
  }

  lemma {:induction false} ScriptsOkThroughSends(p: Pipeline, x: Input, r: Run, t: Run)
    requires ScriptsOk(p, x, r.trace) && OnlySends(r, t) && forall i :: 0 <= i < |r.trace| ==> PhaseOf(r.trace[i]) <= 1
    ensures ScriptsOk(p, x, t.trace) && Before(t.trace, TestPhase, 0)
  {
    assert forall i :: 0 <= i < |r.trace| ==> t.trace[i] == r.trace[i];
  }

  /**
   In every run a script runs only if scripts are enabled, its hash is trusted and there is an engine;
   scripts run in the order they are listed, each at most once, all pre-request scripts before any
   check or send and all test scripts after them.
   */
  lemma {:induction false} ScriptsRunInOrder(p: Pipeline, x: Input, w: World)
    ensures ScriptsOk(p, x, Step(p, x, w).trace)
  {
    if Dispatches(p, x, w) {
      DispatchedRun(p, x, w);
    } else {
      ScriptsPhaseOk(p, x, w, PreRequest, x.pre, 0, START);
    }
  }

  function MainRequests(tr: seq<Event>): seq<Request> {
    if tr == [] then []
    else MainRequests(tr[..|tr| - 1]) + if tr[|tr| - 1].SentMain? then [tr[|tr| - 1].request] else []
  }

  lemma {:induction false} MainRequestsConcat(a: seq<Event>, b: seq<Event>)
    ensures MainRequests(a + b) == MainRequests(a) + MainRequests(b)
    decreases |b|
  {
    if b == [] {
      assert a + b == a;
    } else {
      assert (a + b)[..|a + b| - 1] == a + b[..|b| - 1];
      MainRequestsConcat(a, b[..|b| - 1]);
    }
  }

  lemma {:induction false} NoMainRequests(tr: seq<Event>)
    requires forall i :: 0 <= i < |tr| ==> !tr[i].SentMain?
    ensures MainRequests(tr) == []
    decreases |tr|
  {
    if tr != [] { NoMainRequests(tr[..|tr| - 1]); }
  }

  lemma {:induction false} ScriptsKeep(p: Pipeline, x: Input, w: World, listen: Listen, refs: seq<ScriptRef>, k: nat,
                                       r: Run)
    requires k <= |refs|
    ensures var s := RunScripts(p, x, w, listen, refs, k, r);
            && s.run.sends == r.sends && s.run.reason == r.reason && s.run.flowIDs == r.flowIDs && s.run.rows == r.rows
            && s.run.warnings == r.warnings
            && (s.run.outcome == r.outcome || (listen == PreRequest && !s.ok && s.run.outcome == OutcomeError))
            && (listen == TestPhase ==> s.ok)
    decreases |refs| - k
  {
    if k < |refs| {
      var s := refs[k];
      if x.noScripts {
        ScriptsKeep(p, x, w, listen, refs, k + 1, r.(notes := r.notes + [Note(s, Disabled)]));
      } else if !Trusted(p, x, s.hash) {
        ScriptsKeep(p, x, w, listen, refs, k + 1, r.(notes := r.notes + [Note(s, NotTrusted)]));
      } else if !p.hasEngine {
        ScriptsKeep(p, x, w, listen, refs, k + 1, r.(notes := r.notes + [Note(s, NoEngine)]));
      } else {
        var t := r.(trace := r.trace + [Ran(listen, k, s)]);
        var a := w.script(listen, k);
        ScriptsKeep(p, x, w, listen, refs, k + 1, t);
        ScriptsKeep(p, x, w, listen, refs, k + 1,
                    t.(notes := t.notes
                               + [Note(s, if a.error == Unsupported then EndedUnsupported else EndedInError)]));
      }
    }
  }

  lemma {:induction false} TestsKeepRequests(p: Pipeline, x: Input, w: World, r: Run)
    requires ScriptsOk(p, x, r.trace) && Before(r.trace, TestPhase, 0)
    ensures var s := RunScripts(p, x, w, TestPhase, x.tests, 0, r).run;
            MainRequests(s.trace) == MainRequests(r.trace) && s.sends == r.sends && s.outcome == r.outcome &&
                s.reason == r.reason
  {
    ScriptsPhaseOk(p, x, w, TestPhase, x.tests, 0, r);
    ScriptsKeep(p, x, w, TestPhase, x.tests, 0, r);
    var u := RunScripts(p, x, w, TestPhase, x.tests, 0, r).run;
    assert u.trace == r.trace + u.trace[|r.trace|..];
    NoMainRequests(u.trace[|r.trace|..]);
    MainRequestsConcat(r.trace, u.trace[|r.trace|..]);
  }

  // ---- the shape of a run ----

  /** u is r after the authenticator's requests: no main request, no change of outcome or flows. */
  ghost predicate Prelude(r: Run, u: Run) {
    && OnlySends(r, u)
    && MainRequests(u.trace) == MainRequests(r.trace)
    && u.outcome == r.outcome && u.reason == r.reason && u.flowIDs == r.flowIDs && u.rows == r.rows
  }

  lemma {:induction false} AuthIsPrelude(p: Pipeline, w: World, policy: Policy, calls: seq<AuthCall>, r: Run)
    ensures Prelude(r, AuthRequests(p, w, policy, calls, r))
    decreases |calls|
  {
    if calls != [] {
      var u := AuthRequests(p, w, policy, calls[..|calls| - 1], r);
      AuthIsPrelude(p, w, policy, calls[..|calls| - 1], r);
      OneAuthIsPrelude(p, w, policy, calls[|calls| - 1], u);
      OnlySendsThen(r, u, AuthRequests(p, w, policy, calls, r));
    }
  }

  lemma {:induction false} OneAuthIsPrelude(p: Pipeline, w: World, policy: Policy, c: AuthCall, u: Run)
    ensures Prelude(u, AuthRequest(p, w, policy, c, u))
  {
    var t := AfterCheck(p, u, c.dest, policy, Unpinned);
    assert t.trace[..|u.trace|] == u.trace;
    assert (t.trace + [SentAuth(c.dest)])[..|t.trace|] == t.trace;
  }

  /** Either dispatching stops before the check, with no flow, or it is the check and the send loop of
      some request after a prelude. */
  lemma {:induction false} DispatchShape(p: Pipeline, x: Input, w: World, b: Built, r: Run)
    returns (sends: bool, u: Run, jar: bool, req: Request)
    ensures Prelude(r, u) && jar == !HasCookie(b.headers)
    ensures if sends then Dispatch(p, x, w, b, r) == CheckAndSend(p, x, w, ScopePolicy(x), jar, req, u)
            else Dispatch(p, x, w, b, r).flow.None?
                 && (Dispatch(p, x, w, b, r).run == u || Dispatch(p, x, w, b, r).run == u.(outcome := OutcomeError))
  {
    sends, u, jar := false, r, !HasCookie(b.headers);
    req := RequestFor(b.verb, b.url, [], [], false);
    if !(p.hasEncoder && w.encode.EncodeFailed?) {
      AuthIsPrelude(p, w, ScopePolicy(x), w.authCalls, r);
      var body := if p.hasEncoder && w.encode.Encoded? then w.encode.body else b.body;
      match Authenticate(p, x, w, b, r) {
        case NotReady(t) => u := AuthRequests(p, w, ScopePolicy(x), w.authCalls, r);
        case Ready(t, hs, url) =>
          sends, u, req := true, t, RequestFor(b.verb, url, hs, body, x.settings.rawHeaders);
      }
    }
  }

  /** A run that gets as far as dispatching a request. */
  predicate Dispatches(p: Pipeline, x: Input, w: World) {
    var s := RunScripts(p, x, w, PreRequest, x.pre, 0, START);
    !QuarantineBlocks(p, x) && s.ok && !s.skip && w.resolve.Resolved?
  }

  function PreRun(p: Pipeline, x: Input, w: World): Run {
    RunScripts(p, x, w, PreRequest, x.pre, 0, START).run
  }

  function Dispatched(p: Pipeline, x: Input, w: World): Delivery
    requires Dispatches(p, x, w)
  {
    Dispatch(p, x, w, w.resolve.built, PreRun(p, x, w))
  }

  /** The run as it stands when nothing is dispatched. */
  lemma {:induction false} UndispatchedRun(p: Pipeline, x: Input, w: World)
    requires !Dispatches(p, x, w)
    ensures var r := Step(p, x, w);
            && (forall i :: 0 <= i < |r.trace| ==> r.trace[i].Ran? && r.trace[i].listen == PreRequest)
            && r.sends == 0 && r.flowIDs == [] && r.rows == []
            && r.outcome != OutcomeSent && (r.outcome == OutcomeBlocked <==> r.reason != NoReason)
            && r.reason in {NoReason, Quarantined, Unresolved}
  {
    ScriptsPhaseOk(p, x, w, PreRequest, x.pre, 0, START);
    ScriptsKeep(p, x, w, PreRequest, x.pre, 0, START);
  }

  lemma {:induction false} PreRunFacts(p: Pipeline, x: Input, w: World)
    requires Dispatches(p, x, w)
    ensures var r := PreRun(p, x, w);
            && (forall i :: 0 <= i < |r.trace| ==> r.trace[i].Ran? && r.trace[i].listen == PreRequest)
            && ScriptsOk(p, x, r.trace) && MainRequests(r.trace) == []
            && r.sends == 0 && r.flowIDs == [] && r.rows == [] && r.outcome == OutcomeError && r.reason == NoReason
  {
    ScriptsPhaseOk(p, x, w, PreRequest, x.pre, 0, START);
    ScriptsKeep(p, x, w, PreRequest, x.pre, 0, START);
    NoMainRequests(PreRun(p, x, w).trace);
  }

  /** What follows a response: an outcome, and the test scripts if it has no error. */
  lemma {:induction false} AfterResponseFacts(p: Pipeline, x: Input, w: World, f: Flow, d: Run)
    requires ScriptsOk(p, x, d.trace) && Before(d.trace, TestPhase, 0)
    ensures var r := AfterResponse(p, x, w, f, d);
            && ScriptsOk(p, x, r.trace) && MainRequests(r.trace) == MainRequests(d.trace)
            && r.sends == d.sends && r.flowIDs == d.flowIDs && r.rows == d.rows
            && (f.error != NoError ==> r.trace == d.trace)
            && (r.outcome, r.reason) == match f.error
                                        case NoError => (OutcomeSent, d.reason)
                                        case OtherError => (OutcomeError, d.reason)
                                        case GuardBlocked => (OutcomeBlocked, IpGuard)
  {
    var t := d.(outcome := OutcomeSent);
    ScriptsPhaseOk(p, x, w, TestPhase, x.tests, 0, t);
    TestsKeepRequests(p, x, w, t);
    ScriptsKeep(p, x, w, TestPhase, x.tests, 0, t);
  }

  lemma {:induction false} DispatchedTrace(p: Pipeline, x: Input, w: World)
    requires Dispatches(p, x, w)
    ensures var d := Dispatched(p, x, w).run; ScriptsOk(p, x, d.trace) && Before(d.trace, TestPhase, 0)
  {
    PreRunFacts(p, x, w);
    DispatchOnlySends(p, x, w, w.resolve.built, PreRun(p, x, w));
    ScriptsOkThroughSends(p, x, PreRun(p, x, w), Dispatched(p, x, w).run);
  }

  /** What a finished run keeps of the delivery it follows, and the outcome it is given. */
  ghost predicate Finished(d: Delivery, r: Run) {
    && MainRequests(r.trace) == MainRequests(d.run.trace)
    && r.sends == d.run.sends && r.flowIDs == d.run.flowIDs && r.rows == d.run.rows
    && (d.flow.None? || d.flow.value.error != NoError ==> r.trace == d.run.trace)
    && (r.outcome, r.reason) == match d.flow
                                case None => (d.run.outcome, d.run.reason)
                                case Some(f) =>
                                  match f.error
                                  case NoError => (OutcomeSent, d.run.reason)
                                  case OtherError => (OutcomeError, d.run.reason)
                                  case GuardBlocked => (OutcomeBlocked, IpGuard)
  }

  /** The finished run of a dispatched request: the delivery's, then what follows the response. */
  lemma {:induction false} DispatchedRun(p: Pipeline, x: Input, w: World)
    requires Dispatches(p, x, w)
    ensures ScriptsOk(p, x, Step(p, x, w).trace) && Finished(Dispatched(p, x, w), Step(p, x, w))
  {
    DispatchedTrace(p, x, w);
    var d := Dispatched(p, x, w);
    if d.flow.Some? { AfterResponseFacts(p, x, w, d.flow.value, d.run); }
  }

  // ---- the scripts of a chain, outer to inner ----

  datatype EventScript = EventScript(listen: Listen, disabled: bool, readable: bool, blank: bool, source: string)

  /** The scripts of one level that listen to a phase. */
  function LevelScripts(hash: (Listen, string) -> string, level: nat, events: seq<EventScript>,
                        listen: Listen): seq<ScriptRef> {
    if events == [] then []
    else
      var e := events[|events| - 1];
      LevelScripts(hash, level, events[..|events| - 1], listen)
      + if e.listen == listen && !e.disabled && e.readable &&
          !e.blank then [ScriptRef(level, listen, hash(listen, e.source))] else []
  }

  /** Collection first, then folders from the outermost, then the request itself. */
  function ChainScripts(hash: (Listen, string) -> string, levels: seq<seq<EventScript>>,
                        listen: Listen): seq<ScriptRef> {
    if levels == [] then []
    else ChainScripts(hash, levels[..|levels| - 1], listen) + LevelScripts(hash, |levels| - 1, levels[|levels| - 1],
          listen)
  }

  lemma {:induction false} LevelScriptsLevel(hash: (Listen, string) -> string, level: nat, events: seq<EventScript>,
                                             listen: Listen)
    ensures forall i :: 0 <= i < |LevelScripts(hash, level, events, listen)| ==>
              LevelScripts(hash, level, events, listen)[i].level == level
    decreases |events|
  {
    if events != [] { LevelScriptsLevel(hash, level, events[..|events| - 1], listen); }
  }

  lemma {:induction false} ChainScriptsOrdered(hash: (Listen, string) -> string, levels: seq<seq<EventScript>>,
                                               listen: Listen)
    ensures Leveled(ChainScripts(hash, levels, listen), |levels|)
    decreases |levels|
  {
    if levels != [] {
      var a := ChainScripts(hash, levels[..|levels| - 1], listen);
      var b := LevelScripts(hash, |levels| - 1, levels[|levels| - 1], listen);
      ChainScriptsOrdered(hash, levels[..|levels| - 1], listen);
      LevelScriptsLevel(hash, |levels| - 1, levels[|levels| - 1], listen);
      OrderedConcat(a, b, |levels| - 1);
    }
  }

  ghost predicate Leveled(q: seq<ScriptRef>, n: nat) {
    && (forall i, j :: 0 <= i < j < |q| ==> q[i].level <= q[j].level)
    && (forall i :: 0 <= i < |q| ==> q[i].level < n)
  }

  lemma {:induction false} OrderedConcat(a: seq<ScriptRef>, b: seq<ScriptRef>, n: nat)
    requires Leveled(a, n)
    requires forall i :: 0 <= i < |b| ==> b[i].level == n
    ensures Leveled(a + b, n + 1)
  {}

  /** The event has a script for the phase that is to run. */
  predicate IsFor(e: EventScript, listen: Listen) {
    e.listen == listen && !e.disabled && e.readable && !e.blank
  }

  /** The scripts of a level are those of its events, one after the other. */
  lemma {:induction false} LevelScriptsExactly(hash: (Listen, string) -> string, level: nat, events: seq<EventScript>,
                                               listen: Listen, more: seq<EventScript>)
    ensures LevelScripts(hash, level, events + more, listen)
            == LevelScripts(hash, level, events, listen) + LevelScripts(hash, level, more, listen)
    decreases |more|
  {
    if more == [] {
      assert events + more == events;
    } else {
      assert (events + more)[..|events + more| - 1] == events + more[..|more| - 1];
      LevelScriptsExactly(hash, level, events, listen, more[..|more| - 1]);
    }
  }

  lemma {:induction false} OneLevelScript(hash: (Listen, string) -> string, level: nat, e: EventScript, listen: Listen)
    ensures LevelScripts(hash, level, [e], listen)
            == if IsFor(e, listen) then [ScriptRef(level, listen, hash(listen, e.source))] else []
  {
    assert [e][..0] == [];
  }

  lemma {:induction false} LevelScriptsMembers(hash: (Listen, string) -> string, level: nat, events: seq<EventScript>,
                                               listen: Listen, s: ScriptRef)
    ensures s in LevelScripts(hash, level, events, listen) <==> IsOfLevel(hash, level, events, listen, s)
    decreases |events|
  {
    if events != [] {
      var n := |events| - 1;
      LevelScriptsMembers(hash, level, events[..n], listen, s);
      assert forall i :: 0 <= i < n ==> events[..n][i] == events[i];
    }
  }

  /** The script is one of the level's for the phase. */
  ghost predicate IsOfLevel(hash: (Listen, string) -> string, level: nat, events: seq<EventScript>, listen: Listen,
                            s: ScriptRef) {
    exists i :: 0 <= i < |events| && IsFor(events[i], listen)
                && s == ScriptRef(level, listen, hash(listen, events[i].source))
  }

  /** Every enabled, readable script that is not blank, of every level and for the phase, is listed, and no other. */
  lemma {:induction false} ChainScriptsExactly(hash: (Listen, string) -> string, levels: seq<seq<EventScript>>,
                                               listen: Listen, s: ScriptRef)
    ensures s in ChainScripts(hash, levels, listen) <==>
            exists l :: 0 <= l < |levels| && IsOfLevel(hash, l, levels[l], listen, s)
    decreases |levels|
  {
    if levels != [] {
      var n := |levels| - 1;
      ChainScriptsExactly(hash, levels[..n], listen, s);
      LevelScriptsMembers(hash, n, levels[n], listen, s);
      if l :| 0 <= l < n && IsOfLevel(hash, l, levels[..n][l], listen, s) {
        assert levels[..n][l] == levels[l];
      }
      if l :| 0 <= l < n && IsOfLevel(hash, l, levels[l], listen, s) {
        assert levels[..n][l] == levels[l];
      }
    }
  }

  /** Scripts of a chain run outer to inner within each phase. */
  lemma {:induction false} OuterToInner(p: Pipeline, x: Input, w: World, hash: (Listen, string) -> string,
                                        levels: seq<seq<EventScript>>, i: nat, j: nat)
    requires x.pre == ChainScripts(hash, levels, PreRequest) && x.tests == ChainScripts(hash, levels, TestPhase)
    requires var tr := Step(p, x, w).trace; i < j < |tr| && tr[i].Ran? && tr[j].Ran? && tr[i].listen == tr[j].listen
    ensures Step(p, x, w).trace[i].ref.level <= Step(p, x, w).trace[j].ref.level
  {
    ScriptsRunInOrder(p, x, w);
    ChainScriptsOrdered(hash, levels, PreRequest);
    ChainScriptsOrdered(hash, levels, TestPhase);
    var tr := Step(p, x, w).trace;
    assert InOrder(tr[i], tr[j]) && ScriptEventOk(p, x, tr[i]) && ScriptEventOk(p, x, tr[j]);
  }
}
