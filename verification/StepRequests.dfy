/**
 What a step sends, and when: the first main request in terms of what was built, exactly when there is one,
 which redirects are followed and which scripts run.
 */
module StepRequests {
  import opened Text
  import opened Redirect
  import opened CollectionStep
  import opened StepSafety
  import opened StepScripts
  import opened StepOutcomes

  // ---- the headers of the first request ----

  /** The authenticator's, if it gives any; else the built ones, and with them the jar's cookies exactly if none of
      them is a cookie and the jar has some. */
  ghost predicate ListsHeaders(p: Pipeline, w: World, b: Built, hs: seq<RawHeader>) {
    if p.hasAuth && b.deferredAuth && w.authResult.AuthDone? then hs == w.authResult.headers
    else if w.cookie(0) == "" || exists i :: 0 <= i < |b.headers| && b.headers[i].name.kind == CookieName then
      hs == b.headers
    else hs == b.headers + [RawHeader(HeaderName(CookieName, "Cookie"), w.cookie(0))]
  }

  /** The i-th header is the last Host header. */
  ghost predicate LastHost(hs: seq<RawHeader>, i: int) {
    && 0 <= i < |hs| && hs[i].name.kind == NameKind.Host
    && forall j :: i < j < |hs| ==> hs[j].name.kind != NameKind.Host
  }

  /** The host is what the last Host header says, and nothing if there is none. */
  ghost predicate HostSays(hs: seq<RawHeader>, host: string) {
    || (exists i :: LastHost(hs, i) && hs[i].value == host)
    || (host == "" && forall i :: 0 <= i < |hs| ==> hs[i].name.kind != NameKind.Host)
  }

  ghost predicate Names(hs: seq<RawHeader>, k: HeaderName) {
    exists i :: 0 <= i < |hs| && hs[i].name == k
  }

  /** The map has every header but Host, with its one value. */
  ghost predicate MapSays(hs: seq<RawHeader>, m: HeaderMap) {
    && (forall k :: k in m <==> k.kind != NameKind.Host && Names(hs, k))
    && (forall i :: 0 <= i < |hs| && hs[i].name.kind != NameKind.Host ==>
          hs[i].name in m && m[hs[i].name] == [hs[i].value])
  }

  /** The headers are in the ordered form if that is asked for or two names differ at most in case, and in the map
      form otherwise. */
  ghost predicate HasHeaders(r: Request, hs: seq<RawHeader>, forceRaw: bool) {
    if forceRaw || exists i, j :: 0 <= i < j < |hs| && Lower(hs[i].name.spelling) == Lower(hs[j].name.spelling) then
      r.raw == hs && r.headers == None && r.host == ""
    else
      r.raw == [] && r.headers.Some? && MapSays(hs, r.headers.value) && HostSays(hs, r.host)
  }

  lemma {:induction false} HostIs(hs: seq<RawHeader>)
    ensures HostSays(hs, HostOf(hs))
    decreases |hs|
  {
    if hs != [] {
      var n := |hs| - 1;
      if hs[n].name.kind == NameKind.Host {
        assert LastHost(hs, n);
      } else {
        HostIs(hs[..n]);
        HostStays(hs, HostOf(hs[..n]));
      }
    }
  }

  lemma {:induction false} HostStays(hs: seq<RawHeader>, host: string)
    requires hs != [] && hs[|hs| - 1].name.kind != NameKind.Host && HostSays(hs[..|hs| - 1], host)
    ensures HostSays(hs, host)
  {
    var front := hs[..|hs| - 1];
    assert forall j :: 0 <= j < |front| ==> front[j] == hs[j];
    if i :| LastHost(front, i) && front[i].value == host {
      assert LastHost(hs, i);
    }
  }

  lemma {:induction false} MapIs(hs: seq<RawHeader>)
    requires forall i, j :: 0 <= i < j < |hs| ==> hs[i].name != hs[j].name
    ensures MapSays(hs, MapOf(hs))
    decreases |hs|
  {
    if hs != [] {
      var front, h := hs[..|hs| - 1], hs[|hs| - 1];
      MapIs(front);
      assert forall i :: 0 <= i < |front| ==> front[i] == hs[i];
      assert h.name !in MapOf(front);
      forall k
        ensures Names(hs, k) <==> k == h.name || Names(front, k)
      {
        if Names(front, k) {
          var i :| 0 <= i < |front| && front[i].name == k;
          assert hs[i].name == k;
        }
      }
    }
  }

  lemma {:induction false} RequestHasHeaders(verb: string, url: Url, hs: seq<RawHeader>, body: seq<char>, raw: bool)
    ensures HasHeaders(RequestFor(verb, url, hs, body, raw), hs, raw)
  {
    if !raw && !RepeatsName(hs) {
      forall i, j | 0 <= i < j < |hs|
        ensures hs[i].name != hs[j].name
      {
        assert Lower(hs[i].name.spelling) != Lower(hs[j].name.spelling);
      }
      MapIs(hs);
      HostIs(hs);
    }
  }

  // ---- the first request ----

  /** The authenticator has the last word on the URL. */
  function FirstUrl(p: Pipeline, w: World, b: Built): Url {
    if p.hasAuth && b.deferredAuth && w.authResult.AuthDone? then w.authResult.url else b.url
  }

  ghost predicate IsFirst(p: Pipeline, x: Input, w: World, b: Built, r: Request) {
    && r.verb == b.verb
    && r.url == FirstUrl(p, w, b)
    && r.body == (if p.hasEncoder && w.encode.Encoded? then w.encode.body else b.body)
    && exists hs :: ListsHeaders(p, w, b, hs) && HasHeaders(r, hs, x.settings.rawHeaders)
  }

  /** Neither the codec nor the authenticator fails. */
  predicate Prepared(p: Pipeline, w: World, b: Built) {
    && !(p.hasEncoder && w.encode.EncodeFailed?)
    && !(p.hasAuth && b.deferredAuth && w.authResult.AuthFailed?)
  }

  function FirstHeaders(p: Pipeline, w: World, b: Built): seq<RawHeader> {
    if p.hasAuth && b.deferredAuth && w.authResult.AuthDone? then w.authResult.headers else WithJarCookies(w, b)
  }

  function FirstRequest(p: Pipeline, x: Input, w: World, b: Built): Request {
    var body := if p.hasEncoder && w.encode.Encoded? then w.encode.body else b.body;
    RequestFor(b.verb, FirstUrl(p, w, b), FirstHeaders(p, w, b), body, x.settings.rawHeaders)
  }

  lemma {:induction false} FirstRequestIs(p: Pipeline, x: Input, w: World, b: Built)
    ensures IsFirst(p, x, w, b, FirstRequest(p, x, w, b))
  {
    var body := if p.hasEncoder && w.encode.Encoded? then w.encode.body else b.body;
    RequestHasHeaders(b.verb, FirstUrl(p, w, b), FirstHeaders(p, w, b), body, x.settings.rawHeaders);
    assert ListsHeaders(p, w, b, FirstHeaders(p, w, b));
  }

  /** Authentication fails, or leaves what the first request is made of. */
  lemma {:induction false} AuthenticateIs(p: Pipeline, x: Input, w: World, b: Built, r: Run)
    ensures match Authenticate(p, x, w, b, r)
            case NotReady(t) =>
              && p.hasAuth && b.deferredAuth && w.authResult.AuthFailed? && Prelude(r, t.(outcome := r.outcome))
            case Ready(t, hs, url) =>
              && !(p.hasAuth && b.deferredAuth && w.authResult.AuthFailed?) && Prelude(r, t)
              && hs == FirstHeaders(p, w, b) && url == FirstUrl(p, w, b)
  {
    AuthIsPrelude(p, w, ScopePolicy(x), w.authCalls, r);
  }

  /** What is dispatched is checked and sent when it could be prepared, and nothing is sent when not. */
  lemma {:induction false} DispatchIs(p: Pipeline, x: Input, w: World, b: Built, r: Run) returns (u: Run)
    ensures Prelude(r, u)
    ensures if Prepared(p, w, b) then
              Dispatch(p, x, w, b, r)
              == CheckAndSend(p, x, w, ScopePolicy(x), !HasCookie(b.headers), FirstRequest(p, x, w, b), u)
            else MainRequests(Dispatch(p, x, w, b, r).run.trace) == MainRequests(r.trace)
  {
    AuthenticateIs(p, x, w, b, r);
    u := r;
    if Prepared(p, w, b) {
      u := Authenticate(p, x, w, b, r).run;
    }
  }

  /** The checks let the URL pass. */
  predicate Allowed(p: Pipeline, x: Input, u: Url) {
    !IsOwn(p, u) && (Blocks(x) ==> PinMatches(x.pin, u) && (p.scope.None? || p.scope.value(u)))
  }

  lemma {:induction false} AllowedExactly(p: Pipeline, x: Input, u: Url)
    ensures Allowed(p, x, u) <==> !CheckDest(p, u, ScopePolicy(x), x.pin).Refused?
  {
    ClearedMeans(p, u, ScopePolicy(x), x.pin);
    PolicyExactly(x);
  }

  lemma {:induction false} CheckAndSendSends(p: Pipeline, x: Input, w: World, jar: bool, req: Request, u: Run)
    requires MainRequests(u.trace) == []
    ensures var rs := MainRequests(CheckAndSend(p, x, w, ScopePolicy(x), jar, req, u).run.trace);
            if Allowed(p, x, req.url) then rs != [] && rs[0] == req else rs == []
  {
    var policy := ScopePolicy(x);
    AllowedExactly(p, x, req.url);
    CheckRequests(p, u, req.url, policy, x.pin);
    if Allowed(p, x, req.url) {
      var c := AfterCheck(p, u, req.url, policy, x.pin);
      var rs, hops := SendIsChain(p, x, w, policy, jar, req, 0, c);
      assert [] + rs == rs;
    }
  }

  // ---- which scripts run ----

  /** There is a trust store, and it says yes. */
  predicate Trusts(p: Pipeline, s: ScriptRef) {
    p.trust.Some? && p.trust.value(s.hash) == Some(true)
  }

  /** Scripts are on, this one is trusted, and there is an engine to run it. */
  predicate Runs(p: Pipeline, x: Input, s: ScriptRef) {
    !x.noScripts && Trusts(p, s) && p.hasEngine
  }

  /** Script j, if it runs, neither fails nor skips the request, or it is a test script. */
  predicate LetsPass(p: Pipeline, x: Input, w: World, listen: Listen, refs: seq<ScriptRef>, j: nat)
    requires j < |refs|
  {
    listen == TestPhase || (Runs(p, x, refs[j]) ==> w.script(listen, j) == ScriptAnswer(NoScriptError, false))
  }

  ghost predicate AllPass(p: Pipeline, x: Input, w: World, listen: Listen, refs: seq<ScriptRef>, k: nat, n: nat)
    requires n <= |refs|
  {
    forall j :: k <= j < n ==> LetsPass(p, x, w, listen, refs, j)
  }

  /** What is noted of a script: why it does not run, or how it ended if not well. */
  function NoteFor(p: Pipeline, x: Input, w: World, listen: Listen, k: nat, s: ScriptRef): seq<Note> {
    if x.noScripts then [Note(s, Disabled)]
    else if !Trusts(p, s) then [Note(s, NotTrusted)]
    else if !p.hasEngine then [Note(s, NoEngine)]
    else match w.script(listen, k).error
         case NoScriptError => []
         case Unsupported => [Note(s, EndedUnsupported)]
         case ScriptFailed => [Note(s, EndedInError)]
  }

  /** What is noted of a phase, up to the script that does not let the step go on. */
  function NotesFrom(p: Pipeline, x: Input, w: World, listen: Listen, refs: seq<ScriptRef>, k: nat): seq<Note>
    requires k <= |refs|
    decreases |refs| - k
  {
    if k == |refs| then []
    else NoteFor(p, x, w, listen, k, refs[k])
         + if LetsPass(p, x, w, listen, refs, k) then NotesFrom(p, x, w, listen, refs, k + 1) else []
  }

  lemma {:induction false} PhaseNotes(p: Pipeline, x: Input, w: World, listen: Listen, refs: seq<ScriptRef>, k: nat,
                                      r: Run)
    requires k <= |refs|
    ensures RunScripts(p, x, w, listen, refs, k, r).run.notes == r.notes + NotesFrom(p, x, w, listen, refs, k)
    decreases |refs| - k
  {
    if k < |refs| {
      var t := OneScript(p, x, w, listen, refs, k, r);
      if LetsPass(p, x, w, listen, refs, k) {
        PhaseNotes(p, x, w, listen, refs, k + 1, t);
      }
    }
  }

  lemma {:induction false} OneScript(p: Pipeline, x: Input, w: World, listen: Listen, refs: seq<ScriptRef>, k: nat,
                                     r: Run) returns (t: Run)
    requires k < |refs|
    ensures t.trace == r.trace + if Runs(p, x, refs[k]) then [Ran(listen, k, refs[k])] else []
    ensures t.notes == r.notes + NoteFor(p, x, w, listen, k, refs[k]) && t.outcome == r.outcome
    ensures var s := RunScripts(p, x, w, listen, refs, k, r);
            if LetsPass(p, x, w, listen, refs, k) then s == RunScripts(p, x, w, listen, refs, k + 1, t)
            else s.run.trace == t.trace && s.run.notes == t.notes && !(s.ok && !s.skip)
  {
    var s, a := refs[k], w.script(listen, k);
    t := r;
    if x.noScripts {
      t := r.(notes := r.notes + [Note(s, Disabled)]);
    } else if !Trusted(p, x, s.hash) {
      t := r.(notes := r.notes + [Note(s, NotTrusted)]);
    } else if !p.hasEngine {
      t := r.(notes := r.notes + [Note(s, NoEngine)]);
    } else {
      t := r.(trace := r.trace + [Ran(listen, k, s)]);
      if a.error != NoScriptError {
        t := t.(notes := t.notes + [Note(s, if a.error == Unsupported then EndedUnsupported else EndedInError)]);
      }
    }
  }

  /** The scripts of a phase run up to the first that does not let the step go on. */
  lemma {:induction false} PhaseRuns(p: Pipeline, x: Input, w: World, listen: Listen, refs: seq<ScriptRef>, k: nat,
                                     r: Run, i: nat)
    requires k <= |refs| && i < |refs|
    ensures Ran(listen, i, refs[i]) in RunScripts(p, x, w, listen, refs, k, r).run.trace <==>
            Ran(listen, i, refs[i]) in r.trace
            || (k <= i && Runs(p, x, refs[i]) && AllPass(p, x, w, listen, refs, k, i))
    decreases |refs| - k
  {
    if k < |refs| {
      var t := OneScript(p, x, w, listen, refs, k, r);
      if LetsPass(p, x, w, listen, refs, k) {
        PhaseRuns(p, x, w, listen, refs, k + 1, t, i);
      }
    }
  }

  lemma {:induction false} PhasePasses(p: Pipeline, x: Input, w: World, listen: Listen, refs: seq<ScriptRef>, k: nat,
                                       r: Run)
    requires k <= |refs|
    ensures var s := RunScripts(p, x, w, listen, refs, k, r);
            s.ok && !s.skip <==> AllPass(p, x, w, listen, refs, k, |refs|)
    decreases |refs| - k
  {
    if k < |refs| {
      var t := OneScript(p, x, w, listen, refs, k, r);
      if LetsPass(p, x, w, listen, refs, k) {
        PhasePasses(p, x, w, listen, refs, k + 1, t);
      }
    }
  }

  ghost predicate TrustsAll(p: Pipeline, refs: seq<ScriptRef>) {
    forall i :: 0 <= i < |refs| ==> Trusts(p, refs[i])
  }

  /** The step does not end because some script is not trusted. */
  ghost predicate NotQuarantined(p: Pipeline, x: Input) {
    x.failOnQuarantine && !x.noScripts ==> TrustsAll(p, x.pre + x.tests)
  }

  lemma {:induction false} NotQuarantinedExactly(p: Pipeline, x: Input)
    ensures NotQuarantined(p, x) <==> !QuarantineBlocks(p, x)
  {
    var refs := x.pre + x.tests;
    if x.failOnQuarantine && !x.noScripts {
      assert forall i :: 0 <= i < |refs| ==> (Trusts(p, refs[i]) <==> Trusted(p, x, refs[i].hash));
    }
  }

  // ---- whole runs ----

  /** What lets a step get as far as its request: no quarantine, pre-request scripts that let it pass, variables
      that resolve. */
  ghost predicate GetsToRequest(p: Pipeline, x: Input, w: World) {
    NotQuarantined(p, x) && AllPass(p, x, w, PreRequest, x.pre, 0, |x.pre|) && w.resolve.Resolved?
  }

  lemma {:induction false} DispatchesExactly(p: Pipeline, x: Input, w: World)
    ensures Dispatches(p, x, w) <==> GetsToRequest(p, x, w)
  {
    NotQuarantinedExactly(p, x);
    PhasePasses(p, x, w, PreRequest, x.pre, 0, START);
  }

  /**
   A step sends a request exactly when it gets as far, the codec and the authenticator do not fail, and the checks
   let the URL pass; and the first request it sends is then the one that was built.
   */
  lemma {:induction false} StepSendsFirst(p: Pipeline, x: Input, w: World)
    ensures var rs := MainRequests(Step(p, x, w).trace);
            if GetsToRequest(p, x, w) && Prepared(p, w, w.resolve.built)
               && Allowed(p, x, FirstUrl(p, w, w.resolve.built))
            then rs != [] && IsFirst(p, x, w, w.resolve.built, rs[0])
            else rs == []
  {
    DispatchesExactly(p, x, w);
    if Dispatches(p, x, w) {
      var b, r := w.resolve.built, PreRun(p, x, w);
      PreRunFacts(p, x, w);
      DispatchedRun(p, x, w);
      var u := DispatchIs(p, x, w, b, r);
      CheckAndSendSends(p, x, w, !HasCookie(b.headers), FirstRequest(p, x, w, b), u);
      FirstRequestIs(p, x, w, b);
    } else {
      UndispatchedRun(p, x, w);
      NoMainRequests(Step(p, x, w).trace);
    }
  }

  /** A run's events are the pre-request scripts', then checks and sends, then the test scripts'. */
  lemma {:induction false} RunsIn(p: Pipeline, x: Input, w: World, e: Event)
    requires Dispatches(p, x, w) && e.Ran?
    ensures var d := Dispatched(p, x, w);
            && (e in d.run.trace <==> e in PreRun(p, x, w).trace)
            && (e in PreRun(p, x, w).trace ==> e.listen == PreRequest)
  {
    PreRunFacts(p, x, w);
    var r, d := PreRun(p, x, w), Dispatched(p, x, w);
    DispatchOnlySends(p, x, w, w.resolve.built, r);
    assert forall i :: 0 <= i < |r.trace| ==> r.trace[i] == d.run.trace[i];
    if e in d.run.trace {
      var i :| 0 <= i < |d.run.trace| && d.run.trace[i] == e;
      assert e.listen == TestPhase ==> PhaseOf(e) == 2;
    }
  }

  /** A pre-request script runs exactly when it can and every one before it that ran let the step go on. */
  lemma {:induction false} PreScriptRunsExactly(p: Pipeline, x: Input, w: World, i: nat)
    requires i < |x.pre|
    ensures Ran(PreRequest, i, x.pre[i]) in Step(p, x, w).trace <==>
            NotQuarantined(p, x) && Runs(p, x, x.pre[i]) && AllPass(p, x, w, PreRequest, x.pre, 0, i)
  {
    var e := Ran(PreRequest, i, x.pre[i]);
    NotQuarantinedExactly(p, x);
    PhaseRuns(p, x, w, PreRequest, x.pre, 0, START, i);
    if Dispatches(p, x, w) {
      RunsIn(p, x, w, e);
      TestsAfter(p, x, w, e);
    }
  }

  /** The test scripts are the only ones that run after the response. */
  lemma {:induction false} TestsAfter(p: Pipeline, x: Input, w: World, e: Event)
    requires Dispatches(p, x, w) && e.Ran? && e.listen == PreRequest
    ensures e in Step(p, x, w).trace <==> e in Dispatched(p, x, w).run.trace
  {
    var d := Dispatched(p, x, w);
    DispatchedTrace(p, x, w);
    if d.flow.Some? {
      TestsAreNot(p, x, w, d.flow.value, d.run, e);
    }
  }

  lemma {:induction false} TestsAreNot(p: Pipeline, x: Input, w: World, f: Flow, d: Run, e: Event)
    requires ScriptsOk(p, x, d.trace) && Before(d.trace, TestPhase, 0) && e.Ran? && e.listen == PreRequest
    ensures e in AfterResponse(p, x, w, f, d).trace <==> e in d.trace
  {
    ScriptsPhaseOk(p, x, w, TestPhase, x.tests, 0, d.(outcome := OutcomeSent));
    var t := AfterResponse(p, x, w, f, d).trace;
    assert forall i :: 0 <= i < |d.trace| ==> t[i] == d.trace[i];
  }

  /** A test script runs exactly when it can and the step has its response. */
  lemma {:induction false} TestScriptRunsExactly(p: Pipeline, x: Input, w: World, i: nat)
    requires i < |x.tests|
    ensures Ran(TestPhase, i, x.tests[i]) in Step(p, x, w).trace <==>
            Step(p, x, w).outcome == OutcomeSent && Runs(p, x, x.tests[i])
  {
    var e := Ran(TestPhase, i, x.tests[i]);
    if Dispatches(p, x, w) {
      var d := Dispatched(p, x, w);
      RunsIn(p, x, w, e);
      DispatchedRun(p, x, w);
      PreRunFacts(p, x, w);
      DispatchOutcome(p, x, w, w.resolve.built, PreRun(p, x, w));
      PhaseRuns(p, x, w, TestPhase, x.tests, 0, d.run.(outcome := OutcomeSent), i);
      assert AllPass(p, x, w, TestPhase, x.tests, 0, i);
    } else {
      UndispatchedRun(p, x, w);
    }
  }

  // ---- what is noted ----

  lemma {:induction false} ReportsKeepNotes(p: Pipeline, x: Input, w: World, req: Request, r: Run)
    ensures SendOnce(p, x, w, req, r).notes == r.notes
  {
    ReportsKeepTrace(p, x, w.send(r.sends).reported, r.(trace := r.trace + [SentMain(req)], sends := r.sends + 1));
  }

  lemma {:induction false} SendKeepsNotes(p: Pipeline, x: Input, w: World, policy: Policy, jar: bool, req: Request,
                                          hop: nat, r: Run)
    requires hop <= MaxRedirects(x)
    ensures Send(p, x, w, policy, jar, req, hop, r).run.notes == r.notes
    decreases MaxRedirects(x) - hop
  {
    ReportsKeepNotes(p, x, w, req, r);
    match SendPass(p, x, w, policy, jar, req, hop, r)
    case Stop(_, _) =>
    case Continue(c, n) => SendKeepsNotes(p, x, w, policy, jar, n, hop + 1, c);
  }

  lemma {:induction false} AuthKeepsNotes(p: Pipeline, w: World, policy: Policy, calls: seq<AuthCall>, r: Run)
    ensures AuthRequests(p, w, policy, calls, r).notes == r.notes
    decreases |calls|
  {
    if calls != [] {
      AuthKeepsNotes(p, w, policy, calls[..|calls| - 1], r);
    }
  }

  lemma {:induction false} DispatchKeepsNotes(p: Pipeline, x: Input, w: World, b: Built, r: Run)
    ensures Dispatch(p, x, w, b, r).run.notes == r.notes
  {
    AuthKeepsNotes(p, w, ScopePolicy(x), w.authCalls, r);
    match Authenticate(p, x, w, b, r)
    case NotReady(_) =>
    case Ready(t, hs, url) =>
      var body := if p.hasEncoder && w.encode.Encoded? then w.encode.body else b.body;
      var req := RequestFor(b.verb, url, hs, body, x.settings.rawHeaders);
      CheckAndSendKeepsNotes(p, x, w, !HasCookie(b.headers), req, t);
  }

  lemma {:induction false} CheckAndSendKeepsNotes(p: Pipeline, x: Input, w: World, jar: bool, req: Request, r: Run)
    ensures CheckAndSend(p, x, w, ScopePolicy(x), jar, req, r).run.notes == r.notes
  {
    SendKeepsNotes(p, x, w, ScopePolicy(x), jar, req, 0, AfterCheck(p, r, req.url, ScopePolicy(x), x.pin));
  }

  /** Every script that is not trusted, in order. */
  function Untrusted(p: Pipeline, refs: seq<ScriptRef>): seq<Note> {
    if refs == [] then []
    else (if Trusts(p, refs[0]) then [] else [Note(refs[0], IsQuarantined)]) + Untrusted(p, refs[1..])
  }

  lemma {:induction false} UntrustedSnoc(p: Pipeline, refs: seq<ScriptRef>, s: ScriptRef)
    ensures Untrusted(p, refs + [s]) == Untrusted(p, refs) + if Trusts(p, s) then [] else [Note(s, IsQuarantined)]
    decreases |refs|
  {
    if refs == [] {
      assert [s][1..] == [];
    } else {
      assert (refs + [s])[1..] == refs[1..] + [s];
      UntrustedSnoc(p, refs[1..], s);
    }
  }

  lemma {:induction false} QuarantineNotesExactly(p: Pipeline, x: Input, refs: seq<ScriptRef>)
    requires !x.noScripts
    ensures QuarantineNotes(p, x, refs) == Untrusted(p, refs)
    decreases |refs|
  {
    if refs != [] {
      var n := |refs| - 1;
      QuarantineNotesExactly(p, x, refs[..n]);
      UntrustedSnoc(p, refs[..n], refs[n]);
      assert refs == refs[..n] + [refs[n]];
    }
  }

  /**
   The notes of every run: on quarantine each script that is not trusted; otherwise what the pre-request scripts
   leave, and what the test scripts leave if the step has its response.
   */
  lemma {:induction false} StepNotes(p: Pipeline, x: Input, w: World)
    ensures Step(p, x, w).notes ==
            if !NotQuarantined(p, x) then Untrusted(p, x.pre + x.tests)
            else NotesFrom(p, x, w, PreRequest, x.pre, 0)
                 + if Step(p, x, w).outcome == OutcomeSent then NotesFrom(p, x, w, TestPhase, x.tests, 0) else []
  {
    NotQuarantinedExactly(p, x);
    if !NotQuarantined(p, x) {
      QuarantineNotesExactly(p, x, x.pre + x.tests);
    } else {
      PhaseNotes(p, x, w, PreRequest, x.pre, 0, START);
      assert PreRun(p, x, w).notes == NotesFrom(p, x, w, PreRequest, x.pre, 0);
      if Dispatches(p, x, w) {
        DispatchedNotes(p, x, w);
      } else {
        UndispatchedNotes(p, x, w);
      }
    }
  }

  lemma {:induction false} UndispatchedNotes(p: Pipeline, x: Input, w: World)
    requires !Dispatches(p, x, w) && !QuarantineBlocks(p, x)
    ensures Step(p, x, w).notes == PreRun(p, x, w).notes && Step(p, x, w).outcome != OutcomeSent
  {
    UndispatchedRun(p, x, w);
  }

  lemma {:induction false} DispatchedNotes(p: Pipeline, x: Input, w: World)
    requires Dispatches(p, x, w)
    ensures Step(p, x, w).notes == PreRun(p, x, w).notes
                + if Step(p, x, w).outcome == OutcomeSent then NotesFrom(p, x, w, TestPhase, x.tests, 0) else []
  {
    PreRunFacts(p, x, w);
    DispatchKeepsNotes(p, x, w, w.resolve.built, PreRun(p, x, w));
    DispatchOutcome(p, x, w, w.resolve.built, PreRun(p, x, w));
    var d := Dispatched(p, x, w);
    PhaseNotes(p, x, w, TestPhase, x.tests, 0, d.run.(outcome := OutcomeSent));
    ScriptsKeep(p, x, w, TestPhase, x.tests, 0, d.run.(outcome := OutcomeSent));
  }

  // ---- what the authenticator sends ----

  function AuthSent(tr: seq<Event>): seq<Url> {
    if tr == [] then []
    else AuthSent(tr[..|tr| - 1]) + if tr[|tr| - 1].SentAuth? then [tr[|tr| - 1].url] else []
  }

  lemma {:induction false} AuthSentConcat(a: seq<Event>, b: seq<Event>)
    ensures AuthSent(a + b) == AuthSent(a) + AuthSent(b)
    decreases |b|
  {
    if b == [] {
      assert a + b == a;
    } else {
      assert (a + b)[..|a + b| - 1] == a + b[..|b| - 1];
      AuthSentConcat(a, b[..|b| - 1]);
    }
  }

  /** Where the authenticator's requests go: those with a URL, to where the checks let them, whose body can be read. */
  function Deliverable(p: Pipeline, x: Input, calls: seq<AuthCall>): seq<Url> {
    if calls == [] then []
    else
      var c := calls[|calls| - 1];
      Deliverable(p, x, calls[..|calls| - 1]) + if IsDeliverable(p, x, c) then [c.dest] else []
  }

  /** The authenticator's request is one that may be sent. */
  predicate IsDeliverable(p: Pipeline, x: Input, c: AuthCall) {
    && c.validUrl && c.bodyReadable && !IsOwn(p, c.dest)
    && (Blocks(x) ==> p.scope.None? || p.scope.value(c.dest))
  }

  lemma {:induction false} OneAuthSends(p: Pipeline, x: Input, w: World, c: AuthCall, u: Run)
    ensures AuthSent(AuthRequest(p, w, ScopePolicy(x), c, u).trace)
            == AuthSent(u.trace) + if IsDeliverable(p, x, c) then [c.dest] else []
  {
    ClearedMeans(p, c.dest, ScopePolicy(x), Unpinned);
    PolicyExactly(x);
    var checked := Checked(c.dest, Unpinned, CheckDest(p, c.dest, ScopePolicy(x), Unpinned));
    AuthSentConcat(u.trace, [checked]);
    AuthSentConcat(u.trace + [checked], [SentAuth(c.dest)]);
    assert [checked][..0] == [] && [SentAuth(c.dest)][..0] == [];
  }

  lemma {:induction false} AuthRequestsSend(p: Pipeline, x: Input, w: World, calls: seq<AuthCall>, r: Run)
    ensures AuthSent(AuthRequests(p, w, ScopePolicy(x), calls, r).trace) == AuthSent(r.trace) + Deliverable(p, x, calls)
    decreases |calls|
  {
    if calls != [] {
      var n := |calls| - 1;
      AuthRequestsSend(p, x, w, calls[..n], r);
      OneAuthSends(p, x, w, calls[n], AuthRequests(p, w, ScopePolicy(x), calls[..n], r));
    }
  }

  lemma {:induction false} AuthSentIsOnly(tr: seq<Event>)
    requires forall i :: 0 <= i < |tr| ==> !tr[i].SentAuth?
    ensures AuthSent(tr) == []
    decreases |tr|
  {
    if tr != [] {
      AuthSentIsOnly(tr[..|tr| - 1]);
    }
  }

  lemma {:induction false} CheckSendsNoAuth(p: Pipeline, r: Run, u: Url, policy: Policy, pin: Pin)
    ensures AuthSent(AfterCheck(p, r, u, policy, pin).trace) == AuthSent(r.trace)
  {
    var c := AfterCheck(p, r, u, policy, pin);
    assert c.trace[..|c.trace| - 1] == r.trace;
  }

  lemma {:induction false} PassSendsNoAuth(p: Pipeline, x: Input, w: World, policy: Policy, jar: bool, req: Request,
                                           hop: nat, r: Run)
    ensures AuthSent(SendPass(p, x, w, policy, jar, req, hop, r).run.trace) == AuthSent(r.trace)
  {
    ReportsKeepTrace(p, x, w.send(r.sends).reported, r.(trace := r.trace + [SentMain(req)], sends := r.sends + 1));
    var t := SendOnce(p, x, w, req, r);
    assert t.trace[..|t.trace| - 1] == r.trace;
    var a := w.send(r.sends).result;
    if a.Got? && NextHop(w.resolveRef, req, a.flow).Some? {
      CheckSendsNoAuth(p, t, NextHop(w.resolveRef, req, a.flow).value.url, policy, x.pin);
    }
  }

  lemma {:induction false} SendSendsNoAuth(p: Pipeline, x: Input, w: World, policy: Policy, jar: bool, req: Request,
                                           hop: nat, r: Run)
    requires hop <= MaxRedirects(x)
    ensures AuthSent(Send(p, x, w, policy, jar, req, hop, r).run.trace) == AuthSent(r.trace)
    decreases MaxRedirects(x) - hop
  {
    PassSendsNoAuth(p, x, w, policy, jar, req, hop, r);
    match SendPass(p, x, w, policy, jar, req, hop, r)
    case Stop(_, _) =>
    case Continue(c, n) => SendSendsNoAuth(p, x, w, policy, jar, n, hop + 1, c);
  }

  lemma {:induction false} CheckAndSendSendsNoAuth(p: Pipeline, x: Input, w: World, jar: bool, req: Request, r: Run)
    ensures AuthSent(CheckAndSend(p, x, w, ScopePolicy(x), jar, req, r).run.trace) == AuthSent(r.trace)
  {
    CheckSendsNoAuth(p, r, req.url, ScopePolicy(x), x.pin);
    SendSendsNoAuth(p, x, w, ScopePolicy(x), jar, req, 0, AfterCheck(p, r, req.url, ScopePolicy(x), x.pin));
    CheckAndSendIs(p, x, w, jar, req, r);
  }

  /** What the authenticator gets sent when it is asked, and nothing when it is not. */
  function AuthFor(p: Pipeline, x: Input, w: World, b: Built): seq<Url> {
    if p.hasAuth && b.deferredAuth && !(p.hasEncoder && w.encode.EncodeFailed?) then Deliverable(p, x, w.authCalls)
    else []
  }

  lemma {:induction false} AuthenticateSends(p: Pipeline, x: Input, w: World, b: Built, r: Run)
    ensures AuthSent(Authenticate(p, x, w, b, r).run.trace)
            == AuthSent(r.trace) + if p.hasAuth && b.deferredAuth then Deliverable(p, x, w.authCalls) else []
  {
    AuthRequestsSend(p, x, w, w.authCalls, r);
  }

  lemma {:induction false} DispatchAuth(p: Pipeline, x: Input, w: World, b: Built, r: Run)
    ensures AuthSent(Dispatch(p, x, w, b, r).run.trace) == AuthSent(r.trace) + AuthFor(p, x, w, b)
  {
    AuthenticateSends(p, x, w, b, r);
    if !(p.hasEncoder && w.encode.EncodeFailed?) {
      match Authenticate(p, x, w, b, r)
      case NotReady(_) =>
      case Ready(t, hs, url) =>
        var body := if p.hasEncoder && w.encode.Encoded? then w.encode.body else b.body;
        var req := RequestFor(b.verb, url, hs, body, x.settings.rawHeaders);
        CheckAndSendSendsNoAuth(p, x, w, !HasCookie(b.headers), req, t);
    }
  }

  /** In every run that gets as far, every request of the authenticator that may be sent is, in order, and no other. */
  lemma {:induction false} StepSendsAuth(p: Pipeline, x: Input, w: World)
    ensures AuthSent(Step(p, x, w).trace)
            == if GetsToRequest(p, x, w) then AuthFor(p, x, w, w.resolve.built) else []
  {
    DispatchesExactly(p, x, w);
    if Dispatches(p, x, w) {
      PreRunFacts(p, x, w);
      AuthSentIsOnly(PreRun(p, x, w).trace);
      DispatchAuth(p, x, w, w.resolve.built, PreRun(p, x, w));
      DispatchedTrace(p, x, w);
      TestsSendNoAuth(p, x, w);
    } else {
      UndispatchedRun(p, x, w);
      AuthSentIsOnly(Step(p, x, w).trace);
    }
  }

  lemma {:induction false} TestsSendNoAuth(p: Pipeline, x: Input, w: World)
    requires Dispatches(p, x, w)
    ensures AuthSent(Step(p, x, w).trace) == AuthSent(Dispatched(p, x, w).run.trace)
  {
    var d := Dispatched(p, x, w);
    DispatchedTrace(p, x, w);
    if d.flow.Some? {
      ResponseSendsNoAuth(p, x, w, d.flow.value, d.run);
    }
  }

  lemma {:induction false} ResponseSendsNoAuth(p: Pipeline, x: Input, w: World, f: Flow, d: Run)
    requires ScriptsOk(p, x, d.trace) && Before(d.trace, TestPhase, 0)
    ensures AuthSent(AfterResponse(p, x, w, f, d).trace) == AuthSent(d.trace)
  {
    ScriptsPhaseOk(p, x, w, TestPhase, x.tests, 0, d.(outcome := OutcomeSent));
    var t := AfterResponse(p, x, w, f, d).trace;
    var rest := t[|d.trace|..];
    assert t == d.trace + rest;
    if f.error == NoError {
      AuthSentIsOnly(rest);
      AuthSentConcat(d.trace, rest);
    }
  }

  // ---- which redirects are followed ----

  /** The answer redirects to the URL t: its status is one of five, it has a location, and that resolves to an http or
      https URL with a host. */
  predicate RedirectsTo(w: World, from: Url, f: Flow, t: Url) {
    && f.status in {301, 302, 303, 307, 308}
    && f.location != "" && w.resolveRef(from, f.location) == Some(t)
    && (t.scheme == "http" || t.scheme == "https") && t.host != ""
  }

  /** A redirect that is not followed is one too many, or leads where the checks refuse to go. */
  ghost predicate EndsRightly(p: Pipeline, x: Input, w: World, last: Request, a: SendResult, hops: int) {
    a.Got? && a.flow.error == NoError && x.settings.follow
    && hops < (if x.settings.maxRedirects <= 0 then 10 else x.settings.maxRedirects) ==>
      forall t :: RedirectsTo(w, last.url, a.flow, t) ==> !Allowed(p, x, t)
  }

  lemma {:induction false} StopsRightly(p: Pipeline, x: Input, w: World, jar: bool, req: Request, hop: nat, r: Run)
    requires SendPass(p, x, w, ScopePolicy(x), jar, req, hop, r).Stop?
    ensures EndsRightly(p, x, w, req, w.send(r.sends).result, hop)
  {
    var a := w.send(r.sends).result;
    forall t | a.Got? && RedirectsTo(w, req.url, a.flow, t)
      ensures a.flow.error == NoError && x.settings.follow && hop < MaxRedirects(x) ==> !Allowed(p, x, t)
    {
      assert NextHop(w.resolveRef, req, a.flow).Some? && NextHop(w.resolveRef, req, a.flow).value.url == t;
      AllowedExactly(p, x, t);
    }
  }

  /** From r to d, sent to after so many hops, main requests are sent and the last of them ends for a reason. */
  ghost predicate EndsAfter(p: Pipeline, x: Input, w: World, hop: int, r: Run, d: Run) {
    var rs, n := MainRequests(d.trace), |MainRequests(r.trace)|;
    |rs| > n && EndsRightly(p, x, w, rs[|rs| - 1], LastAnswer(w, d), hop + |rs| - n - 1)
  }

  lemma {:induction false} EndsLater(p: Pipeline, x: Input, w: World, hop: int, r: Run, c: Run, d: Run)
    requires |MainRequests(c.trace)| == |MainRequests(r.trace)| + 1 && EndsAfter(p, x, w, hop + 1, c, d)
    ensures EndsAfter(p, x, w, hop, r, d)
  {}

  lemma {:induction false} EndsHere(p: Pipeline, x: Input, w: World, jar: bool, req: Request, hop: nat, r: Run)
    requires SendPass(p, x, w, ScopePolicy(x), jar, req, hop, r).Stop?
    ensures EndsAfter(p, x, w, hop, r, SendPass(p, x, w, ScopePolicy(x), jar, req, hop, r).run)
  {
    PassRequests(p, x, w, ScopePolicy(x), jar, req, hop, r);
    StopsRightly(p, x, w, jar, req, hop, r);
  }

  lemma {:induction false} SendEndsRightly(p: Pipeline, x: Input, w: World, jar: bool, req: Request, hop: nat, r: Run)
    requires hop <= MaxRedirects(x)
    ensures EndsAfter(p, x, w, hop, r, Send(p, x, w, ScopePolicy(x), jar, req, hop, r).run)
    decreases MaxRedirects(x) - hop
  {
    match SendPass(p, x, w, ScopePolicy(x), jar, req, hop, r)
    case Stop(_, _) => EndsHere(p, x, w, jar, req, hop, r);
    case Continue(c, n) =>
      PassRequests(p, x, w, ScopePolicy(x), jar, req, hop, r);
      SendEndsRightly(p, x, w, jar, n, hop + 1, c);
      EndsLater(p, x, w, hop, r, c, Send(p, x, w, ScopePolicy(x), jar, n, hop + 1, c).run);
  }

  /** The chain of main requests ends with the answer a for a reason. */
  ghost predicate ChainEnds(p: Pipeline, x: Input, w: World, rs: seq<Request>, a: SendResult) {
    rs != [] ==> EndsRightly(p, x, w, rs[|rs| - 1], a, |rs| - 1)
  }

  lemma {:induction false} LoopEnds(p: Pipeline, x: Input, w: World, jar: bool, req: Request, c: Run)
    requires MainRequests(c.trace) == []
    ensures var d := Send(p, x, w, ScopePolicy(x), jar, req, 0, c).run;
            ChainEnds(p, x, w, MainRequests(d.trace), LastAnswer(w, d))
  {
    SendEndsRightly(p, x, w, jar, req, 0, c);
  }

  /** The request is refused, or the run ends as the loop leaves it. */
  lemma {:induction false} CheckAndSendIs(p: Pipeline, x: Input, w: World, jar: bool, req: Request, u: Run)
    ensures var c := AfterCheck(p, u, req.url, ScopePolicy(x), x.pin);
            var s, d := Send(p, x, w, ScopePolicy(x), jar, req, 0, c).run,
                        CheckAndSend(p, x, w, ScopePolicy(x), jar, req, u).run;
            || d.trace == c.trace
            || (d.trace == s.trace && d.sends == s.sends && LastAnswer(w, d) == LastAnswer(w, s))
  {}

  lemma {:induction false} CheckAndSendEnds(p: Pipeline, x: Input, w: World, jar: bool, req: Request, u: Run)
    requires MainRequests(u.trace) == []
    ensures var d := CheckAndSend(p, x, w, ScopePolicy(x), jar, req, u).run;
            ChainEnds(p, x, w, MainRequests(d.trace), LastAnswer(w, d))
  {
    CheckRequests(p, u, req.url, ScopePolicy(x), x.pin);
    LoopEnds(p, x, w, jar, req, AfterCheck(p, u, req.url, ScopePolicy(x), x.pin));
    CheckAndSendIs(p, x, w, jar, req, u);
  }

  lemma {:induction false} DispatchEnds(p: Pipeline, x: Input, w: World, b: Built, r: Run)
    requires MainRequests(r.trace) == []
    ensures var d := Dispatch(p, x, w, b, r).run;
            ChainEnds(p, x, w, MainRequests(d.trace), LastAnswer(w, d))
  {
    var u := DispatchIs(p, x, w, b, r);
    CheckAndSendEnds(p, x, w, !HasCookie(b.headers), FirstRequest(p, x, w, b), u);
  }

  lemma {:induction false} StepEnds(p: Pipeline, x: Input, w: World)
    ensures ChainEnds(p, x, w, MainRequests(Step(p, x, w).trace), LastAnswer(w, Step(p, x, w)))
  {
    if Dispatches(p, x, w) {
      DispatchedEnds(p, x, w);
    } else {
      UndispatchedRun(p, x, w);
      NoMainRequests(Step(p, x, w).trace);
    }
  }

  lemma {:induction false} DispatchedKeeps(p: Pipeline, x: Input, w: World)
    requires Dispatches(p, x, w)
    ensures MainRequests(Step(p, x, w).trace) == MainRequests(Dispatched(p, x, w).run.trace)
    ensures LastAnswer(w, Step(p, x, w)) == LastAnswer(w, Dispatched(p, x, w).run)
  {
    DispatchedRun(p, x, w);
  }

  lemma {:induction false} DispatchedEnds(p: Pipeline, x: Input, w: World)
    requires Dispatches(p, x, w)
    ensures ChainEnds(p, x, w, MainRequests(Step(p, x, w).trace), LastAnswer(w, Step(p, x, w)))
  {
    PreRunFacts(p, x, w);
    DispatchEnds(p, x, w, w.resolve.built, PreRun(p, x, w));
    DispatchedKeeps(p, x, w);
  }

  /** The answer redirects to t without an error, and redirects are followed. */
  predicate GoesOn(x: Input, w: World, from: Url, a: SendResult, t: Url) {
    x.settings.follow && a.Got? && a.flow.error == NoError && RedirectsTo(w, from, a.flow, t)
  }

  /**
   The redirects of every run. Each main request after the first goes where the answer to the one before redirects,
   and the answer to the last is not a redirect, or it is one more than the limit allows, or it leads where the
   checks refuse to go, unless redirects are not followed or that exchange failed.
   */
  lemma {:induction false} StepFollowsRedirects(p: Pipeline, x: Input, w: World) returns (k: nat)
    ensures ChainEnds(p, x, w, MainRequests(Step(p, x, w).trace), LastAnswer(w, Step(p, x, w)))
    ensures var rs := MainRequests(Step(p, x, w).trace);
            forall i :: 0 <= i < |rs| - 1 ==> GoesOn(x, w, rs[i].url, w.send(k + i).result, rs[i + 1].url)
  {
    var rs := MainRequests(Step(p, x, w).trace);
    var hops;
    k, hops := StepSendsAChain(p, x, w);
    forall i | 0 <= i < |rs| - 1
      ensures GoesOn(x, w, rs[i].url, w.send(k + i).result, rs[i + 1].url)
    {
      assert HopIs(w, k + i, !SetsCookie(w), hops[i]);
      assert Follow(w.resolveRef, rs[i], hops[i]) == Some(rs[i + 1]);
    }
    StepEnds(p, x, w);
  }
}
