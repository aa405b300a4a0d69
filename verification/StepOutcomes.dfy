/**
 What a step sends and what it reports: its main requests are one redirect chain, its outcome tells what
 was sent, and its flow rows are one chain by their parents.
 */
module StepOutcomes {
  import opened Text
  import opened Redirect
  import opened CollectionStep
  import opened StepSafety
  import opened StepScripts

  // ---- redirects ----

  lemma {:induction false} ChainGrows(resolve: (Url, string) -> Option<Url>, req: Request, hop: Hop, rs: seq<Request>,
                                      hops: seq<Hop>)
    requires IsChain(resolve, rs, hops) && Follow(resolve, req, hop) == Some(rs[0])
    ensures IsChain(resolve, [req] + rs, [hop] + hops)
  {
    var rs', hops' := [req] + rs, [hop] + hops;
    forall i | 0 <= i < |hops'| ensures Follow(resolve, rs'[i], hops'[i]) == Some(rs'[i + 1]) {
      if i > 0 {
        assert rs'[i] == rs[i - 1] && hops'[i] == hops[i - 1] && rs'[i + 1] == rs[i];
      }
    }
  }

  lemma {:induction false} OneMainRequest(tr: seq<Event>, req: Request)
    ensures MainRequests(tr + [SentMain(req)]) == MainRequests(tr) + [req]
  {
    assert (tr + [SentMain(req)])[..|tr|] == tr;
  }

  lemma {:induction false} SendOnceRequests(p: Pipeline, x: Input, w: World, req: Request, r: Run)
    ensures MainRequests(SendOnce(p, x, w, req, r).trace) == MainRequests(r.trace) + [req]
  {
    var t := r.(trace := r.trace + [SentMain(req)], sends := r.sends + 1);
    ReportsKeepTrace(p, x, w.send(r.sends).reported, t);
    OneMainRequest(r.trace, req);
  }

  lemma {:induction false} CheckRequests(p: Pipeline, r: Run, u: Url, policy: Policy, pin: Pin)
    ensures MainRequests(AfterCheck(p, r, u, policy, pin).trace) == MainRequests(r.trace)
  {
    var c := AfterCheck(p, r, u, policy, pin);
    assert c.trace[..|c.trace| - 1] == r.trace;
  }

  /** A pass sends one main request, and counts it. */
  lemma {:induction false} PassRequests(p: Pipeline, x: Input, w: World, policy: Policy, jar: bool, req: Request,
                                        hop: nat, r: Run)
    ensures var t := SendPass(p, x, w, policy, jar, req, hop, r).run;
            MainRequests(t.trace) == MainRequests(r.trace) + [req] && t.sends == r.sends + 1
  {
    SendOnceRequests(p, x, w, req, r);
    ReportsKeepTrace(p, x, w.send(r.sends).reported, r.(trace := r.trace + [SentMain(req)], sends := r.sends + 1));
    var u := PassRun(p, x, w, policy, jar, req, hop, r);
    CheckRequests(p, SendOnce(p, x, w, req, r), u, policy, x.pin);
  }

  /** After its call of the sender a pass does no more than check one URL. */
  lemma {:induction false} PassRun(p: Pipeline, x: Input, w: World, policy: Policy, jar: bool, req: Request,
                                   hop: nat, r: Run) returns (u: Url)
    ensures var t, s := SendPass(p, x, w, policy, jar, req, hop, r).run, SendOnce(p, x, w, req, r);
            t.sends == s.sends && (t.trace == s.trace || t.trace == AfterCheck(p, s, u, policy, x.pin).trace)
  {
    var a := w.send(r.sends).result;
    u := req.url;
    if a.Got? && NextHop(w.resolveRef, req, a.flow).Some? {
      u := NextHop(w.resolveRef, req, a.flow).value.url;
    }
  }

  /** A pass goes on only with what follows the answer, and only if redirects are followed and hops are left. */
  lemma {:induction false} PassFollows(p: Pipeline, x: Input, w: World, policy: Policy, jar: bool, req: Request,
                                       hop: nat, r: Run)
    ensures match SendPass(p, x, w, policy, jar, req, hop, r)
            case Stop(_, _) => true
            case Continue(_, n) =>
              && x.settings.follow && hop < MaxRedirects(x)
              && w.send(r.sends).result.Got? && w.send(r.sends).result.flow.error == NoError
              && Follow(w.resolveRef, req, HopAfter(w, r.sends, jar)) == Some(n)
  {
    ReportsKeepTrace(p, x, w.send(r.sends).reported, r.(trace := r.trace + [SentMain(req)], sends := r.sends + 1));
  }

  /** The hop that follows the sender's k-th answer, with what the jar says then if the cookies are the jar's. */
  function HopAfter(w: World, k: nat, jar: bool): Hop
    requires w.send(k).result.Got?
  {
    Hop(w.send(k).result.flow, if jar then Some(w.cookie(k + 1)) else None)
  }

  ghost predicate HopIs(w: World, k: nat, jar: bool, hop: Hop) {
    w.send(k).result.Got? && w.send(k).result.flow.error == NoError && hop == HopAfter(w, k, jar)
  }

  /** Each hop follows the sender's answer to the request before it, the first of them being its answer to call k. */
  ghost predicate HopsOf(w: World, k: nat, jar: bool, hops: seq<Hop>) {
    forall i :: 0 <= i < |hops| ==> HopIs(w, k + i, jar, hops[i])
  }

  lemma {:induction false} HopsGrow(w: World, k: nat, jar: bool, hops: seq<Hop>)
    requires w.send(k).result.Got? && w.send(k).result.flow.error == NoError && HopsOf(w, k + 1, jar, hops)
    ensures HopsOf(w, k, jar, [HopAfter(w, k, jar)] + hops)
  {
    var more := [HopAfter(w, k, jar)] + hops;
    forall i | 0 <= i < |more|
      ensures HopIs(w, k + i, jar, more[i])
    {
      if i > 0 {
        assert HopIs(w, k + 1 + (i - 1), jar, hops[i - 1]);
      }
    }
  }

  /** The main requests of the send loop form one chain of redirect hops, no longer than allowed, each
      following the sender's answer. */
  lemma {:induction false} SendIsChain(p: Pipeline, x: Input, w: World, policy: Policy, jar: bool, req: Request,
                                       hop: nat, r: Run)
    returns (rs: seq<Request>, hops: seq<Hop>)
    requires hop <= MaxRedirects(x)
    ensures IsChain(w.resolveRef, rs, hops) && rs[0] == req && |hops| <= MaxRedirects(x) - hop
    ensures hops != [] ==> x.settings.follow
    ensures HopsOf(w, r.sends, jar, hops)
    ensures MainRequests(Send(p, x, w, policy, jar, req, hop, r).run.trace) == MainRequests(r.trace) + rs
    decreases MaxRedirects(x) - hop
  {
    PassRequests(p, x, w, policy, jar, req, hop, r);
    PassFollows(p, x, w, policy, jar, req, hop, r);
    match SendPass(p, x, w, policy, jar, req, hop, r) {
      case Stop(_, _) =>
        rs, hops := [req], [];
      case Continue(c, n) =>
        rs, hops := SendIsChain(p, x, w, policy, jar, n, hop + 1, c);
        var h := HopAfter(w, r.sends, jar);
        HopsGrow(w, r.sends, jar, hops);
        ChainGrows(w.resolveRef, req, h, rs, hops);
        assert MainRequests(r.trace) + [req] + rs == MainRequests(r.trace) + ([req] + rs);
        rs, hops := [req] + rs, [h] + hops;
    }
  }

  /** The request sets a Cookie header of its own, so none is asked of the jar. */
  predicate SetsCookie(w: World) {
    w.resolve.Resolved? && HasCookie(w.resolve.built.headers)
  }

  /** The main requests are one chain whose hops follow the sender's answers from call k on. */
  ghost predicate IsHopChain(x: Input, w: World, jar: bool, rs: seq<Request>, k: nat, hops: seq<Hop>) {
    && |rs| <= (if x.settings.maxRedirects <= 0 then 10 else x.settings.maxRedirects) + 1
    && (!x.settings.follow ==> |rs| <= 1)
    && (rs != [] ==> IsChain(w.resolveRef, rs, hops) && HopsOf(w, k, jar, hops))
  }

  /**
   In every run the main requests form one chain of redirect hops from the first request, at most
   MaxRedirects of them (none unless redirects are followed). Each hop follows the sender's answer to the
   request before it, and carries the jar's cookies exactly if the request set none, so everything proved of
   chains holds of runs.
   */
  lemma {:induction false} StepSendsAChain(p: Pipeline, x: Input, w: World) returns (k: nat, hops: seq<Hop>)
    ensures IsHopChain(x, w, !SetsCookie(w), MainRequests(Step(p, x, w).trace), k, hops)
  {
    if Dispatches(p, x, w) {
      PreRunFacts(p, x, w);
      DispatchedRun(p, x, w);
      k, hops := DispatchIsChain(p, x, w, w.resolve.built, PreRun(p, x, w));
    } else {
      k, hops := 0, [];
      UndispatchedRun(p, x, w);
      NoMainRequests(Step(p, x, w).trace);
    }
  }

  lemma {:induction false} DispatchIsChain(p: Pipeline, x: Input, w: World, b: Built, r: Run)
    returns (k: nat, hops: seq<Hop>)
    requires MainRequests(r.trace) == []
    ensures IsHopChain(x, w, !HasCookie(b.headers), MainRequests(Dispatch(p, x, w, b, r).run.trace), k, hops)
  {
    hops := [];
    var sends, u, jar, req := DispatchShape(p, x, w, b, r);
    var c := AfterCheck(p, u, req.url, ScopePolicy(x), x.pin);
    k := c.sends;
    CheckRequests(p, u, req.url, ScopePolicy(x), x.pin);
    if sends && !CheckDest(p, req.url, ScopePolicy(x), x.pin).Refused? {
      var rs;
      rs, hops := SendIsChain(p, x, w, ScopePolicy(x), jar, req, 0, c);
      assert [] + rs == rs;
    }
  }

  /** In every run, after the first redirect to another host no main request carries credentials. */
  lemma {:induction false} StepKeepsCredentialsHome(p: Pipeline, x: Input, w: World, i: nat, n: nat)
    requires var rs := MainRequests(Step(p, x, w).trace); i < n < |rs| && CrossHost(rs[i].url, rs[i + 1].url)
    ensures var r := MainRequests(Step(p, x, w).trace)[n]; !Carries(r, Authorization) && !Carries(r, ProxyAuthorization)
  {
    var k, hops := StepSendsAChain(p, x, w);
    NoCredentialsAfterCrossHost(w.resolveRef, MainRequests(Step(p, x, w).trace), hops, i, n);
  }

  /** In every run whose request sets its own cookies, they do not follow a redirect to another host. */
  lemma {:induction false} StepKeepsOwnCookiesHome(p: Pipeline, x: Input, w: World, i: nat, n: nat)
    requires SetsCookie(w)
    requires var rs := MainRequests(Step(p, x, w).trace); i < n < |rs| && CrossHost(rs[i].url, rs[i + 1].url)
    ensures !Carries(MainRequests(Step(p, x, w).trace)[n], CookieName)
  {
    var k, hops := StepSendsAChain(p, x, w);
    OwnCookiesStayBehind(w.resolveRef, MainRequests(Step(p, x, w).trace), hops, i, n);
  }

  /** In every other run each main request after the first carries exactly what the jar says just then. */
  lemma {:induction false} StepAsksTheJarForEachHop(p: Pipeline, x: Input, w: World) returns (k: nat)
    requires !SetsCookie(w)
    ensures var rs := MainRequests(Step(p, x, w).trace);
            forall n :: 0 < n < |rs| ==> CookieIs(rs[n], w.cookie(k + n))
  {
    var hops;
    k, hops := StepSendsAChain(p, x, w);
    var rs := MainRequests(Step(p, x, w).trace);
    forall n | 0 < n < |rs| ensures CookieIs(rs[n], w.cookie(k + n)) {
      JarCookieOnly(w.resolveRef, rs, hops, n - 1);
      assert HopIs(w, k + (n - 1), true, hops[n - 1]);
    }
  }

  // ---- outcomes ----

  /** The answer of the run's last call of the sender. */
  function LastAnswer(w: World, r: Run): SendResult {
    if r.sends == 0 then SendFailed else w.send(r.sends - 1).result
  }

  lemma {:induction false} SendEndsWithLastAnswer(p: Pipeline, x: Input, w: World, policy: Policy, jar: bool,
                                                  req: Request, hop: nat, r: Run)
    requires hop <= MaxRedirects(x)
    ensures var d := Send(p, x, w, policy, jar, req, hop, r);
            && d.run.sends > r.sends
            && d.flow == (if LastAnswer(w, d.run).Got? then Some(LastAnswer(w, d.run).flow) else None)
            && d.run.outcome == r.outcome && d.run.reason == r.reason
    decreases MaxRedirects(x) - hop
  {
    PassAnswers(p, x, w, policy, jar, req, hop, r);
    match SendPass(p, x, w, policy, jar, req, hop, r)
    case Stop(_, _) =>
    case Continue(c, n) => SendEndsWithLastAnswer(p, x, w, policy, jar, n, hop + 1, c);
  }

  /** A pass keeps outcome and reason, and when it stops its flow is the answer to its request. */
  lemma {:induction false} PassAnswers(p: Pipeline, x: Input, w: World, policy: Policy, jar: bool, req: Request,
                                       hop: nat, r: Run)
    ensures var pass, a := SendPass(p, x, w, policy, jar, req, hop, r), w.send(r.sends).result;
            && pass.run.sends == r.sends + 1 && pass.run.outcome == r.outcome && pass.run.reason == r.reason
            && (pass.Stop? ==> pass.flow == if a.Got? then Some(a.flow) else None)
  {
    ReportsKeepTrace(p, x, w.send(r.sends).reported, r.(trace := r.trace + [SentMain(req)], sends := r.sends + 1));
  }

  predicate SendsMain(tr: seq<Event>) {
    MainRequests(tr) != []
  }

  /** A delivery ends either before any main request, without a flow, or with the last answer. */
  ghost predicate Delivered(w: World, d: Delivery) {
    if SendsMain(d.run.trace) then
      && d.flow == (if LastAnswer(w, d.run).Got? then Some(LastAnswer(w, d.run).flow) else None)
      && d.run.outcome == OutcomeError && d.run.reason == NoReason
    else
      && d.flow.None?
      && (d.run.outcome == OutcomeBlocked || d.run.outcome == OutcomeError)
      && (d.run.outcome == OutcomeBlocked <==> d.run.reason != NoReason)
      && d.run.reason in {NoReason, OwnListener, TargetPin, OutOfScope}
  }

  lemma {:induction false} CheckAndSendOutcome(p: Pipeline, x: Input, w: World, jar: bool, req: Request, u: Run)
    requires MainRequests(u.trace) == [] && u.reason == NoReason && u.outcome == OutcomeError
    ensures Delivered(w, CheckAndSend(p, x, w, ScopePolicy(x), jar, req, u))
  {
    var c := AfterCheck(p, u, req.url, ScopePolicy(x), x.pin);
    CheckRequests(p, u, req.url, ScopePolicy(x), x.pin);
    if !CheckDest(p, req.url, ScopePolicy(x), x.pin).Refused? {
      LoopDelivers(p, x, w, jar, req, c);
    }
  }

  lemma {:induction false} LoopDelivers(p: Pipeline, x: Input, w: World, jar: bool, req: Request, c: Run)
    requires MainRequests(c.trace) == [] && c.reason == NoReason && c.outcome == OutcomeError
    ensures SendsMain(Send(p, x, w, ScopePolicy(x), jar, req, 0, c).run.trace)
    ensures Delivered(w, Send(p, x, w, ScopePolicy(x), jar, req, 0, c))
  {
    var rs, hops := SendIsChain(p, x, w, ScopePolicy(x), jar, req, 0, c);
    SendEndsWithLastAnswer(p, x, w, ScopePolicy(x), jar, req, 0, c);
    assert [] + rs == rs;
  }

  lemma {:induction false} DispatchOutcome(p: Pipeline, x: Input, w: World, b: Built, r: Run)
    requires MainRequests(r.trace) == [] && r.reason == NoReason && r.outcome == OutcomeError
    ensures Delivered(w, Dispatch(p, x, w, b, r))
  {
    var sends, u, jar, req := DispatchShape(p, x, w, b, r);
    if sends { CheckAndSendOutcome(p, x, w, jar, req, u); }
  }

  ghost predicate OutcomeTells(w: World, r: Run) {
    && (r.outcome == OutcomeSent <==>
        SendsMain(r.trace) && LastAnswer(w, r).Got? && LastAnswer(w, r).flow.error == NoError)
    && (r.outcome == OutcomeSkipped || r.reason == Quarantined || r.reason == Unresolved ==> r.sends == 0)
    && (r.reason in {OwnListener, TargetPin, OutOfScope} ==> !SendsMain(r.trace))
    && (r.outcome == OutcomeBlocked <==> r.reason != NoReason)
  }

  lemma {:induction false} FinishedOutcome(w: World, d: Delivery, r: Run)
    requires Delivered(w, d) && Finished(d, r)
    ensures OutcomeTells(w, r)
  {
    assert SendsMain(r.trace) == SendsMain(d.run.trace) && LastAnswer(w, r) == LastAnswer(w, d.run);
  }

  lemma {:induction false} DispatchedOutcome(p: Pipeline, x: Input, w: World)
    requires Dispatches(p, x, w)
    ensures OutcomeTells(w, Step(p, x, w))
  {
    PreRunFacts(p, x, w);
    DispatchedRun(p, x, w);
    DispatchOutcome(p, x, w, w.resolve.built, PreRun(p, x, w));
    FinishedOutcome(w, Dispatched(p, x, w), Step(p, x, w));
  }

  /**
   The outcome of every run. It is "sent" exactly when a main request went out and the last answer is a
   flow without an error. A skipped, quarantined or unresolved step has sent nothing at all, and a
   step blocked by a check has sent no main request.
   */
  lemma {:induction false} StepOutcome(p: Pipeline, x: Input, w: World)
    ensures OutcomeTells(w, Step(p, x, w))
  {
    if Dispatches(p, x, w) {
      DispatchedOutcome(p, x, w);
    } else {
      UndispatchedRun(p, x, w);
      NoMainRequests(Step(p, x, w).trace);
    }
  }

  /** A test script runs only in a step whose outcome is "sent". */
  lemma {:induction false} TestsOnlyAfterResponse(p: Pipeline, x: Input, w: World, i: nat)
    requires i < |Step(p, x, w).trace| && Step(p, x, w).trace[i].Ran? && Step(p, x, w).trace[i].listen == TestPhase
    ensures Step(p, x, w).outcome == OutcomeSent
  {
    if Dispatches(p, x, w) {
      PreRunFacts(p, x, w);
      DispatchedRun(p, x, w);
      var r, d := PreRun(p, x, w), Dispatched(p, x, w).run;
      DispatchOnlySends(p, x, w, w.resolve.built, r);
      forall j | 0 <= j < |d.trace| ensures PhaseOf(d.trace[j]) <= 1 {
        if j < |r.trace| { assert d.trace[j] == r.trace[j]; }
      }
    } else {
      UndispatchedRun(p, x, w);
    }
  }

  // ---- flow rows ----

  /** Each row's parent is the row before it, the first one's the step's own parent. */
  ghost predicate Linked(p: Pipeline, x: Input, r: Run) {
    && (forall i :: 0 <= i < |r.flowIDs| ==> r.flowIDs[i] != 0)
    && (!p.hasFlows ==> r.rows == [])
    && (p.hasFlows ==> |r.rows| == |r.flowIDs|)
    && (forall i :: 0 <= i < |r.rows| ==> r.rows[i] == Row(r.flowIDs[i], ParentAt(x, r.flowIDs, i)))
  }

  /** The flow before flow i of a step, the step's own parent before the first. */
  function ParentAt(x: Input, ids: seq<int>, i: nat): int
    requires i < |ids|
  {
    if i == 0 then x.parent else ids[i - 1]
  }

  lemma {:induction false} ReportLinks(p: Pipeline, x: Input, f: Flow, r: Run)
    requires Linked(p, x, r)
    ensures Linked(p, x, ReportFlow(p, x, f, r))
  {
    var t := ReportFlow(p, x, f, r);
    forall i | 0 <= i < |t.rows| ensures t.rows[i] == Row(t.flowIDs[i], ParentAt(x, t.flowIDs, i)) {
      if i < |r.rows| { assert r.rows[i] == Row(r.flowIDs[i], ParentAt(x, r.flowIDs, i)); }
    }
  }

  lemma {:induction false} ReportsLink(p: Pipeline, x: Input, fs: seq<Flow>, r: Run)
    requires Linked(p, x, r)
    ensures Linked(p, x, ReportFlows(p, x, fs, r))
    decreases |fs|
  {
    if fs != [] {
      ReportsLink(p, x, fs[..|fs| - 1], r);
      ReportLinks(p, x, fs[|fs| - 1], ReportFlows(p, x, fs[..|fs| - 1], r));
    }
  }

  /** The loop ends with this pass or goes on from where it leaves the run; the rows stay linked. */
  lemma {:induction false} LinksByPass(p: Pipeline, x: Input, w: World, policy: Policy, jar: bool, req: Request,
                                       hop: nat, r: Run) returns (stops: bool, t: Run, n: Request)
    requires hop <= MaxRedirects(x) && Linked(p, x, r)
    ensures Linked(p, x, t)
    ensures var d := Send(p, x, w, policy, jar, req, hop, r).run;
            if stops then d == t else hop < MaxRedirects(x) && d == Send(p, x, w, policy, jar, n, hop + 1, t).run
  {
    PassLinks(p, x, w, policy, jar, req, hop, r);
    var pass := SendPass(p, x, w, policy, jar, req, hop, r);
    stops, t, n := pass.Stop?, pass.run, if pass.Stop? then req else pass.next;
  }

  lemma {:induction false} SendLinks(p: Pipeline, x: Input, w: World, policy: Policy, jar: bool, req: Request,
                                     hop: nat, r: Run)
    requires hop <= MaxRedirects(x) && Linked(p, x, r)
    ensures Linked(p, x, Send(p, x, w, policy, jar, req, hop, r).run)
    decreases MaxRedirects(x) - hop
  {
    var stops, t, n := LinksByPass(p, x, w, policy, jar, req, hop, r);
    if !stops {
      SendLinks(p, x, w, policy, jar, n, hop + 1, t);
    }
  }

  lemma {:induction false} PassLinks(p: Pipeline, x: Input, w: World, policy: Policy, jar: bool, req: Request,
                                     hop: nat, r: Run)
    requires Linked(p, x, r)
    ensures Linked(p, x, SendPass(p, x, w, policy, jar, req, hop, r).run)
  {
    ReportsLink(p, x, w.send(r.sends).reported, r.(trace := r.trace + [SentMain(req)], sends := r.sends + 1));
  }

  /** When the sender reports each flow once, as it returns it, the last flow reported is the one returned. */
  ghost predicate ReportsWhatItReturns(w: World) {
    forall k: nat :: w.send(k).result.Got? ==>
        w.send(k).reported == [w.send(k).result.flow] && w.send(k).result.flow.id != 0
  }

  lemma {:induction false} SendReportsLast(p: Pipeline, x: Input, w: World, policy: Policy, jar: bool, req: Request,
                                           hop: nat, r: Run)
    requires hop <= MaxRedirects(x) && ReportsWhatItReturns(w)
    ensures var d := Send(p, x, w, policy, jar, req, hop, r); d.flow.Some? ==> FlowID(d.run) == d.flow.value.id
    decreases MaxRedirects(x) - hop
  {
    var f := w.send(r.sends).result;
    if f.Got? {
      assert w.send(r.sends).reported == [f.flow];
      assert [f.flow][..0] == [];
    }
    match SendPass(p, x, w, policy, jar, req, hop, r)
    case Stop(_, _) =>
    case Continue(c, n) => SendReportsLast(p, x, w, policy, jar, n, hop + 1, c);
  }

  /** What a delivery leaves of flows and rows. */
  ghost predicate FlowsDelivered(p: Pipeline, x: Input, w: World, d: Delivery) {
    && (Linked(p, x, d.run) || d.run.rows == [])
    && (!p.hasFlows ==> d.run.rows == [])
    && (d.flow.Some? ==> LastAnswer(w, d.run) == Got(d.flow.value))
    && (ReportsWhatItReturns(w) && d.flow.Some? ==> FlowID(d.run) == d.flow.value.id)
  }

  lemma {:induction false} CheckAndSendFlows(p: Pipeline, x: Input, w: World, jar: bool, req: Request, u: Run)
    requires u.flowIDs == [] && u.rows == []
    ensures FlowsDelivered(p, x, w, CheckAndSend(p, x, w, ScopePolicy(x), jar, req, u))
  {
    var c := AfterCheck(p, u, req.url, ScopePolicy(x), x.pin);
    if !CheckDest(p, req.url, ScopePolicy(x), x.pin).Refused? {
      SendLinks(p, x, w, ScopePolicy(x), jar, req, 0, c);
      SendEndsWithLastAnswer(p, x, w, ScopePolicy(x), jar, req, 0, c);
      if ReportsWhatItReturns(w) { SendReportsLast(p, x, w, ScopePolicy(x), jar, req, 0, c); }
    }
  }

  lemma {:induction false} DispatchFlows(p: Pipeline, x: Input, w: World, b: Built, r: Run)
    requires r.flowIDs == [] && r.rows == []
    ensures FlowsDelivered(p, x, w, Dispatch(p, x, w, b, r))
  {
    var sends, u, jar, req := DispatchShape(p, x, w, b, r);
    if sends { CheckAndSendFlows(p, x, w, jar, req, u); }
  }

  /** The rows are one chain by their parents, from the step's own parent to the flow the run reports. */
  ghost predicate OneChain(p: Pipeline, x: Input, r: Run) {
    && |r.rows| <= |r.flowIDs|
    && (forall i :: 0 <= i < |r.rows| ==> r.rows[i] == Row(r.flowIDs[i], ParentAt(x, r.flowIDs, i)))
    && (r.rows != [] ==> FlowID(r) == r.rows[|r.rows| - 1].flow)
    && (!p.hasFlows ==> r.rows == [])
  }

  lemma {:induction false} FinishedFlows(p: Pipeline, x: Input, w: World, d: Delivery, r: Run)
    requires FlowsDelivered(p, x, w, d) && Finished(d, r)
    ensures OneChain(p, x, r)
  {}

  /**
   The rows recorded for the main flows form one chain by their parents, from the step's own parent to
   the flow the run reports; without a row writer there are none.
   */
  lemma {:induction false} StepFlows(p: Pipeline, x: Input, w: World)
    ensures OneChain(p, x, Step(p, x, w))
  {
    if Dispatches(p, x, w) {
      PreRunFacts(p, x, w);
      DispatchedRun(p, x, w);
      DispatchFlows(p, x, w, w.resolve.built, PreRun(p, x, w));
      FinishedFlows(p, x, w, Dispatched(p, x, w), Step(p, x, w));
    } else {
      UndispatchedRun(p, x, w);
    }
  }

  lemma {:induction false} FinishedFlow(p: Pipeline, x: Input, w: World, d: Delivery, r: Run)
    requires ReportsWhatItReturns(w) && Delivered(w, d) && FlowsDelivered(p, x, w, d) && Finished(d, r) &&
               r.outcome == OutcomeSent
    ensures LastAnswer(w, r).Got? && FlowID(r) == LastAnswer(w, r).flow.id
  {
    assert d.flow.Some?;
  }

  /** If the sender reports the flows it returns, a sent step reports the final flow. */
  lemma {:induction false} StepReportsFinalFlow(p: Pipeline, x: Input, w: World)
    requires ReportsWhatItReturns(w) && Step(p, x, w).outcome == OutcomeSent
    ensures LastAnswer(w, Step(p, x, w)).Got?
    ensures FlowID(Step(p, x, w)) == LastAnswer(w, Step(p, x, w)).flow.id
  {
    if Dispatches(p, x, w) {
      PreRunFacts(p, x, w);
      DispatchedRun(p, x, w);
      DispatchOutcome(p, x, w, w.resolve.built, PreRun(p, x, w));
      DispatchFlows(p, x, w, w.resolve.built, PreRun(p, x, w));
      FinishedFlow(p, x, w, Dispatched(p, x, w), Step(p, x, w));
    } else {
      UndispatchedRun(p, x, w);
    }
  }
}
