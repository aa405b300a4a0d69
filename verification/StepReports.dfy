/**
 What a step reports, exactly: the flows of its main requests and their rows, and the warnings other than those of
 sending anyway.
 */
module StepReports {
  import opened Text
  import opened Redirect
  import opened CollectionStep
  import opened StepSafety
  import opened StepScripts
  import opened StepOutcomes
  import opened StepRequests

  // ---- flows and rows ----

  /** The numbers of the flows that have one. */
  function Ids(fs: seq<Flow>): seq<int> {
    if fs == [] then []
    else Ids(fs[..|fs| - 1]) + if fs[|fs| - 1].id == 0 then [] else [fs[|fs| - 1].id]
  }

  /** What n calls of the sender report from call k on. */
  function IdsFrom(w: World, k: nat, n: nat): seq<int>
    decreases n
  {
    if n == 0 then [] else Ids(w.send(k).reported) + IdsFrom(w, k + 1, n - 1)
  }

  /** One row for each flow, with the one before it as its parent, and the step's own parent for the first. */
  function Rows(x: Input, ids: seq<int>): (r: seq<Row>)
    ensures |r| == |ids|
    ensures forall i :: 0 <= i < |ids| ==> r[i] == Row(ids[i], if i == 0 then x.parent else ids[i - 1])
  {
    seq(|ids|, i requires 0 <= i < |ids| => Row(ids[i], if i == 0 then x.parent else ids[i - 1]))
  }

  /** The run has these flows, and their rows if there is a row writer. */
  ghost predicate HasFlows(p: Pipeline, x: Input, r: Run, ids: seq<int>) {
    r.flowIDs == ids && r.rows == if p.hasFlows then Rows(x, ids) else []
  }

  lemma {:induction false} RowsSnoc(x: Input, ids: seq<int>, id: int)
    ensures Rows(x, ids + [id])
            == Rows(x, ids) + [Row(id, if ids == [] then x.parent else ids[|ids| - 1])]
  {}

  lemma {:induction false} OneReport(p: Pipeline, x: Input, f: Flow, r: Run, ids: seq<int>)
    requires HasFlows(p, x, r, ids)
    ensures HasFlows(p, x, ReportFlow(p, x, f, r), ids + if f.id == 0 then [] else [f.id])
  {
    RowsSnoc(x, ids, f.id);
    assert ids + [] == ids;
  }

  lemma {:induction false} IdsSnoc(ids: seq<int>, fs: seq<Flow>)
    requires fs != []
    ensures var n := |fs| - 1;
            ids + Ids(fs) == ids + Ids(fs[..n]) + if fs[n].id == 0 then [] else [fs[n].id]
  {}

  lemma {:induction false} ReportHasFlows(p: Pipeline, x: Input, fs: seq<Flow>, r: Run, ids: seq<int>)
    requires HasFlows(p, x, r, ids)
    ensures HasFlows(p, x, ReportFlows(p, x, fs, r), ids + Ids(fs))
    decreases |fs|
  {
    if fs == [] {
      assert ids + [] == ids;
    } else {
      var n := |fs| - 1;
      var before := ids + Ids(fs[..n]);
      ReportHasFlows(p, x, fs[..n], r, ids);
      OneReport(p, x, fs[n], ReportFlows(p, x, fs[..n], r), before);
      IdsSnoc(ids, fs);
    }
  }

  /** From r to d so many main requests are sent, and what they report is added to the flows ids. */
  ghost predicate FlowsAdded(p: Pipeline, x: Input, w: World, r: Run, d: Run, ids: seq<int>) {
    var m := |MainRequests(d.trace)| - |MainRequests(r.trace)|;
    m > 0 && d.sends == r.sends + m && HasFlows(p, x, d, ids + IdsFrom(w, r.sends, m))
  }

  lemma {:induction false} PassHasFlows(p: Pipeline, x: Input, w: World, policy: Policy, jar: bool, req: Request,
                                        hop: nat, r: Run, ids: seq<int>)
    requires HasFlows(p, x, r, ids)
    ensures var t := SendPass(p, x, w, policy, jar, req, hop, r).run;
            HasFlows(p, x, t, ids + Ids(w.send(r.sends).reported))
  {
    ReportHasFlows(p, x, w.send(r.sends).reported, r.(trace := r.trace + [SentMain(req)], sends := r.sends + 1), ids);
  }

  lemma {:induction false} PassAddsFlows(p: Pipeline, x: Input, w: World, policy: Policy, jar: bool, req: Request,
                                         hop: nat, r: Run, ids: seq<int>)
    requires HasFlows(p, x, r, ids)
    ensures FlowsAdded(p, x, w, r, SendPass(p, x, w, policy, jar, req, hop, r).run, ids)
  {
    PassHasFlows(p, x, w, policy, jar, req, hop, r, ids);
    PassRequests(p, x, w, policy, jar, req, hop, r);
    var here := Ids(w.send(r.sends).reported);
    assert IdsFrom(w, r.sends, 1) == here + IdsFrom(w, r.sends + 1, 0) == here;
  }

  lemma {:induction false} FlowsThen(p: Pipeline, x: Input, w: World, r: Run, c: Run, d: Run, ids: seq<int>)
    requires |MainRequests(c.trace)| == |MainRequests(r.trace)| + 1 && c.sends == r.sends + 1
    requires FlowsAdded(p, x, w, c, d, ids + Ids(w.send(r.sends).reported))
    ensures FlowsAdded(p, x, w, r, d, ids)
  {
    var here, m := Ids(w.send(r.sends).reported), |MainRequests(d.trace)| - |MainRequests(c.trace)|;
    assert ids + here + IdsFrom(w, r.sends + 1, m) == ids + (here + IdsFrom(w, r.sends + 1, m));
  }

  /** The loop ends with this pass, with what it adds, or goes on from where the pass leaves it. */
  lemma {:induction false} FlowsByPass(p: Pipeline, x: Input, w: World, policy: Policy, jar: bool, req: Request,
                                       hop: nat, r: Run, ids: seq<int>) returns (stops: bool, t: Run, n: Request)
    requires hop <= MaxRedirects(x) && HasFlows(p, x, r, ids)
    ensures var d := Send(p, x, w, policy, jar, req, hop, r).run;
            if stops then d == t && FlowsAdded(p, x, w, r, t, ids)
            else
              && hop < MaxRedirects(x) && d == Send(p, x, w, policy, jar, n, hop + 1, t).run
              && |MainRequests(t.trace)| == |MainRequests(r.trace)| + 1 && t.sends == r.sends + 1
              && HasFlows(p, x, t, ids + Ids(w.send(r.sends).reported))
  {
    PassAddsFlows(p, x, w, policy, jar, req, hop, r, ids);
    PassHasFlows(p, x, w, policy, jar, req, hop, r, ids);
    PassRequests(p, x, w, policy, jar, req, hop, r);
    var pass := SendPass(p, x, w, policy, jar, req, hop, r);
    stops, t, n := pass.Stop?, pass.run, if pass.Stop? then req else pass.next;
  }

  lemma {:induction false} SendHasFlows(p: Pipeline, x: Input, w: World, policy: Policy, jar: bool, req: Request,
                                        hop: nat, r: Run, ids: seq<int>)
    requires hop <= MaxRedirects(x) && HasFlows(p, x, r, ids)
    ensures FlowsAdded(p, x, w, r, Send(p, x, w, policy, jar, req, hop, r).run, ids)
    decreases MaxRedirects(x) - hop
  {
    var stops, t, n := FlowsByPass(p, x, w, policy, jar, req, hop, r, ids);
    if !stops {
      SendHasFlows(p, x, w, policy, jar, n, hop + 1, t, ids + Ids(w.send(r.sends).reported));
      FlowsThen(p, x, w, r, t, Send(p, x, w, policy, jar, n, hop + 1, t).run, ids);
    }
  }

  /** Of so many main requests the last of all calls: the flows they reported, or the one returned if they did not. */
  ghost predicate Told(p: Pipeline, x: Input, w: World, m: nat, sends: nat, flowIDs: seq<int>, rows: seq<Row>) {
    && m <= sends
    && var ids := IdsFrom(w, sends - m, m);
       && rows == (if p.hasFlows then Rows(x, ids) else [])
       && flowIDs == if ids == [] && m > 0 && w.send(sends - 1).result.Got? && w.send(sends - 1).result.flow.id != 0
                     then [w.send(sends - 1).result.flow.id] else ids
  }

  ghost predicate FlowsTold(p: Pipeline, x: Input, w: World, r: Run) {
    Told(p, x, w, |MainRequests(r.trace)|, r.sends, r.flowIDs, r.rows)
  }

  lemma {:induction false} NoneTold(p: Pipeline, x: Input, w: World, c: Run)
    requires MainRequests(c.trace) == [] && c.flowIDs == [] && c.rows == []
    ensures FlowsTold(p, x, w, c)
  {
    assert IdsFrom(w, c.sends, 0) == [];
  }

  lemma {:induction false} CheckAndSendTells(p: Pipeline, x: Input, w: World, jar: bool, req: Request, u: Run)
    requires MainRequests(u.trace) == [] && u.flowIDs == [] && u.rows == []
    ensures FlowsTold(p, x, w, CheckAndSend(p, x, w, ScopePolicy(x), jar, req, u).run)
  {
    var c := AfterCheck(p, u, req.url, ScopePolicy(x), x.pin);
    CheckRequests(p, u, req.url, ScopePolicy(x), x.pin);
    if CheckDest(p, req.url, ScopePolicy(x), x.pin).Refused? {
      NoneTold(p, x, w, c);
    } else {
      LoopTells(p, x, w, jar, req, c);
    }
  }

  lemma {:induction false} RecordedTells(p: Pipeline, x: Input, w: World, r: Run, flow: Option<Flow>)
    requires var m := |MainRequests(r.trace)|; 0 < m <= r.sends && HasFlows(p, x, r, IdsFrom(w, r.sends - m, m))
    requires flow == if LastAnswer(w, r).Got? then Some(LastAnswer(w, r).flow) else None
    ensures FlowsTold(p, x, w, if flow.Some? then Recorded(r, flow.value) else r)
  {}

  lemma {:induction false} LoopTells(p: Pipeline, x: Input, w: World, jar: bool, req: Request, c: Run)
    requires MainRequests(c.trace) == [] && c.flowIDs == [] && c.rows == []
    ensures var d := Send(p, x, w, ScopePolicy(x), jar, req, 0, c);
            FlowsTold(p, x, w, if d.flow.Some? then Recorded(d.run, d.flow.value) else d.run)
  {
    assert HasFlows(p, x, c, []);
    SendHasFlows(p, x, w, ScopePolicy(x), jar, req, 0, c, []);
    SendEndsWithLastAnswer(p, x, w, ScopePolicy(x), jar, req, 0, c);
    var d := Send(p, x, w, ScopePolicy(x), jar, req, 0, c);
    var ids := IdsFrom(w, c.sends, |MainRequests(d.run.trace)|);
    assert [] + ids == ids;
    RecordedTells(p, x, w, d.run, d.flow);
  }

  lemma {:induction false} DispatchTells(p: Pipeline, x: Input, w: World, b: Built, r: Run)
    requires MainRequests(r.trace) == [] && r.flowIDs == [] && r.rows == []
    ensures FlowsTold(p, x, w, Dispatch(p, x, w, b, r).run)
  {
    var sends, u, jar, req := DispatchShape(p, x, w, b, r);
    if sends {
      CheckAndSendTells(p, x, w, jar, req, u);
    }
  }

  lemma {:induction false} DispatchedSame(p: Pipeline, x: Input, w: World)
    requires Dispatches(p, x, w)
    ensures var d, r := Dispatched(p, x, w).run, Step(p, x, w);
            |MainRequests(r.trace)| == |MainRequests(d.trace)| && r.sends == d.sends && r.flowIDs == d.flowIDs
            && r.rows == d.rows
  {
    DispatchedRun(p, x, w);
  }

  lemma {:induction false} DispatchedTells(p: Pipeline, x: Input, w: World)
    requires Dispatches(p, x, w)
    ensures FlowsTold(p, x, w, Step(p, x, w))
  {
    PreRunFacts(p, x, w);
    DispatchTells(p, x, w, w.resolve.built, PreRun(p, x, w));
    DispatchedSame(p, x, w);
  }

  /**
   The flows of every run are those the sender reported for its main requests, in order, or else the one it returned
   last; and there is a row for each reported one, with the one before it as its parent, exactly if there is a row
   writer.
   */
  lemma {:induction false} StepFlowsExactly(p: Pipeline, x: Input, w: World)
    ensures FlowsTold(p, x, w, Step(p, x, w))
  {
    if Dispatches(p, x, w) {
      DispatchedTells(p, x, w);
    } else {
      UndispatchedRun(p, x, w);
      NoMainRequests(Step(p, x, w).trace);
    }
  }

  // ---- how a step ends ----

  ghost predicate EndsAs(r: Run, outcome: Outcome, reason: Reason) {
    r.outcome == outcome && r.reason == reason
  }

  /** Pre-request script j is the first that does not let the step go on. */
  ghost predicate StopsAt(p: Pipeline, x: Input, w: World, j: nat) {
    j < |x.pre| && AllPass(p, x, w, PreRequest, x.pre, 0, j) && !LetsPass(p, x, w, PreRequest, x.pre, j)
  }

  lemma {:induction false} PhaseStops(p: Pipeline, x: Input, w: World, k: nat, r: Run, j: nat)
    requires k <= j < |x.pre| && AllPass(p, x, w, PreRequest, x.pre, k, j)
    requires !LetsPass(p, x, w, PreRequest, x.pre, j)
    ensures var s, well := RunScripts(p, x, w, PreRequest, x.pre, k, r), w.script(PreRequest, j).error == NoScriptError;
            s.ok == well && (s.ok ==> s.skip) && s.run.outcome == (if well then r.outcome else OutcomeError)
    decreases j - k
  {
    if k < j {
      var t := OneScript(p, x, w, PreRequest, x.pre, k, r);
      assert LetsPass(p, x, w, PreRequest, x.pre, k);
      PhaseStops(p, x, w, k + 1, t, j);
    }
  }

  /** Before there is a request: quarantine blocks, a script skips or fails, or the variables do not resolve. */
  lemma {:induction false} EndsBeforeRequest(p: Pipeline, x: Input, w: World, j: nat)
    ensures var r := Step(p, x, w);
            && (!NotQuarantined(p, x) ==> EndsAs(r, OutcomeBlocked, Quarantined))
            && (NotQuarantined(p, x) && StopsAt(p, x, w, j) ==>
                  EndsAs(r, if w.script(PreRequest, j).error == NoScriptError then OutcomeSkipped else OutcomeError,
                         NoReason))
            && (NotQuarantined(p, x) && AllPass(p, x, w, PreRequest, x.pre, 0, |x.pre|) ==>
                  && (w.resolve.UnresolvedVariables? ==> EndsAs(r, OutcomeBlocked, Unresolved))
                  && (w.resolve.ResolveFailed? ==> EndsAs(r, OutcomeError, NoReason)))
  {
    NotQuarantinedExactly(p, x);
    ScriptsKeep(p, x, w, PreRequest, x.pre, 0, START);
    PhasePasses(p, x, w, PreRequest, x.pre, 0, START);
    if StopsAt(p, x, w, j) {
      PhaseStops(p, x, w, 0, START, j);
    }
  }

  /** Why the checks do not let the URL pass. */
  function RefusalOf(p: Pipeline, x: Input, u: Url): Reason {
    if IsOwn(p, u) then OwnListener else if !PinMatches(x.pin, u) then TargetPin else OutOfScope
  }

  lemma {:induction false} RefusalExactly(p: Pipeline, x: Input, u: Url)
    ensures !Allowed(p, x, u) ==> CheckDest(p, u, ScopePolicy(x), x.pin) == Refused(RefusalOf(p, x, u))
  {
    AllowedExactly(p, x, u);
  }

  lemma {:induction false} DispatchEndsAs(p: Pipeline, x: Input, w: World, b: Built, r: Run)
    requires EndsAs(r, OutcomeError, NoReason)
    ensures var d, u := Dispatch(p, x, w, b, r), FirstUrl(p, w, b);
            && (!Prepared(p, w, b) ==> d.flow.None? && EndsAs(d.run, OutcomeError, NoReason))
            && (Prepared(p, w, b) && !Allowed(p, x, u) ==>
                  d.flow.None? && EndsAs(d.run, OutcomeBlocked, RefusalOf(p, x, u)))
  {
    var first := FirstRequest(p, x, w, b);
    var t := DispatchIs(p, x, w, b, r);
    RefusalExactly(p, x, first.url);
    AuthIsPrelude(p, w, ScopePolicy(x), w.authCalls, r);
  }

  /** With a request: it cannot be prepared, or it is refused with its reason. */
  lemma {:induction false} EndsBeforeSending(p: Pipeline, x: Input, w: World)
    ensures GetsToRequest(p, x, w) ==>
              var r, b := Step(p, x, w), w.resolve.built;
              && (!Prepared(p, w, b) ==> EndsAs(r, OutcomeError, NoReason))
              && (Prepared(p, w, b) && !Allowed(p, x, FirstUrl(p, w, b)) ==>
                    EndsAs(r, OutcomeBlocked, RefusalOf(p, x, FirstUrl(p, w, b))))
  {
    DispatchesExactly(p, x, w);
    if Dispatches(p, x, w) {
      PreRunFacts(p, x, w);
      DispatchEndsAs(p, x, w, w.resolve.built, PreRun(p, x, w));
    }
  }

  /** With requests sent: as the last answer says. */
  lemma {:induction false} EndsAfterSending(p: Pipeline, x: Input, w: World)
    ensures MainRequests(Step(p, x, w).trace) != [] ==>
              var r := Step(p, x, w);
              match LastAnswer(w, r)
              case SendFailed => EndsAs(r, OutcomeError, NoReason)
              case NoFlow => EndsAs(r, OutcomeError, NoReason)
              case Got(f) =>
                match f.error
                case NoError => EndsAs(r, OutcomeSent, NoReason)
                case GuardBlocked => EndsAs(r, OutcomeBlocked, IpGuard)
                case OtherError => EndsAs(r, OutcomeError, NoReason)
  {
    if Dispatches(p, x, w) {
      PreRunFacts(p, x, w);
      DispatchOutcome(p, x, w, w.resolve.built, PreRun(p, x, w));
      DispatchedRun(p, x, w);
      if MainRequests(Step(p, x, w).trace) != [] {
        FinishedEnds(w, Dispatched(p, x, w), Step(p, x, w));
      }
    } else {
      UndispatchedRun(p, x, w);
      NoMainRequests(Step(p, x, w).trace);
    }
  }

  lemma {:induction false} FinishedEnds(w: World, d: Delivery, r: Run)
    requires Delivered(w, d) && Finished(d, r) && MainRequests(r.trace) != []
    ensures match LastAnswer(w, r)
            case SendFailed => EndsAs(r, OutcomeError, NoReason)
            case NoFlow => EndsAs(r, OutcomeError, NoReason)
            case Got(f) =>
              match f.error
              case NoError => EndsAs(r, OutcomeSent, NoReason)
              case GuardBlocked => EndsAs(r, OutcomeBlocked, IpGuard)
              case OtherError => EndsAs(r, OutcomeError, NoReason)
  {
    assert SendsMain(d.run.trace) && LastAnswer(w, r) == LastAnswer(w, d.run);
  }

  // ---- warnings other than those of sending anyway ----

  function Others(ws: seq<Warning>): seq<Warning> {
    if ws == [] then []
    else Others(ws[..|ws| - 1]) + if ws[|ws| - 1].SentAnyway? then [] else [ws[|ws| - 1]]
  }

  lemma {:induction false} OthersSnoc(ws: seq<Warning>, w: Warning)
    ensures Others(ws + [w]) == Others(ws) + if w.SentAnyway? then [] else [w]
  {
    assert (ws + [w])[..|ws|] == ws;
  }

  lemma {:induction false} CheckKeepsOthers(p: Pipeline, r: Run, u: Url, policy: Policy, pin: Pin)
    ensures Others(AfterCheck(p, r, u, policy, pin).warnings) == Others(r.warnings)
  {
    var v := CheckDest(p, u, policy, pin);
    if v.PassWarned? {
      OthersSnoc(r.warnings, SentAnyway(v.reason, u.hostname));
    } else {
      assert r.warnings + [] == r.warnings;
    }
  }

  /** What a redirect that could be followed but for the checks is warned of. */
  function EndWarning(p: Pipeline, x: Input, w: World, last: Request, a: SendResult, hops: int): seq<Warning> {
    if a.Got? && a.flow.error == NoError && x.settings.follow
       && hops < (if x.settings.maxRedirects <= 0 then 10 else x.settings.maxRedirects)
       && a.flow.location != "" && w.resolveRef(last.url, a.flow.location).Some?
    then
      var t := w.resolveRef(last.url, a.flow.location).value;
      if RedirectsTo(w, last.url, a.flow, t) && !Allowed(p, x, t) then [NotFollowed(RefusalOf(p, x, t), t.hostname)]
      else []
    else []
  }

  lemma {:induction false} PassWarns(p: Pipeline, x: Input, w: World, jar: bool, req: Request, hop: nat, r: Run)
    ensures var pass := SendPass(p, x, w, ScopePolicy(x), jar, req, hop, r);
            Others(pass.run.warnings) == Others(r.warnings)
                + if pass.Stop? then EndWarning(p, x, w, req, w.send(r.sends).result, hop) else []
  {
    ReportsKeepTrace(p, x, w.send(r.sends).reported, r.(trace := r.trace + [SentMain(req)], sends := r.sends + 1));
    var a, t := w.send(r.sends).result, SendOnce(p, x, w, req, r);
    if a.Got? && NextHop(w.resolveRef, req, a.flow).Some? {
      var u := NextHop(w.resolveRef, req, a.flow).value.url;
      var c := AfterCheck(p, t, u, ScopePolicy(x), x.pin);
      CheckKeepsOthers(p, t, u, ScopePolicy(x), x.pin);
      RefusalExactly(p, x, u);
      AllowedExactly(p, x, u);
      OthersSnoc(c.warnings, NotFollowed(RefusalOf(p, x, u), u.hostname));
    }
  }

  /** From r to d, sent to after so many hops, only the warning of the end is added. */
  ghost predicate EndAdded(p: Pipeline, x: Input, w: World, hop: int, r: Run, d: Run) {
    var rs, n := MainRequests(d.trace), |MainRequests(r.trace)|;
    && |rs| > n
    && Others(d.warnings) == Others(r.warnings)
           + EndWarning(p, x, w, rs[|rs| - 1], LastAnswer(w, d), hop + |rs| - n - 1)
  }

  lemma {:induction false} EndThen(p: Pipeline, x: Input, w: World, hop: int, r: Run, c: Run, d: Run)
    requires |MainRequests(c.trace)| == |MainRequests(r.trace)| + 1 && Others(c.warnings) == Others(r.warnings)
    requires EndAdded(p, x, w, hop + 1, c, d)
    ensures EndAdded(p, x, w, hop, r, d)
  {}

  /** The loop ends with this pass, and its warning, or goes on from where the pass leaves it, without one. */
  lemma {:induction false} WarnsByPass(p: Pipeline, x: Input, w: World, jar: bool, req: Request, hop: nat, r: Run)
    returns (stops: bool, t: Run, n: Request)
    requires hop <= MaxRedirects(x)
    ensures var d := Send(p, x, w, ScopePolicy(x), jar, req, hop, r).run;
            if stops then d == t && EndAdded(p, x, w, hop, r, t)
            else
              && hop < MaxRedirects(x) && d == Send(p, x, w, ScopePolicy(x), jar, n, hop + 1, t).run
              && |MainRequests(t.trace)| == |MainRequests(r.trace)| + 1 && Others(t.warnings) == Others(r.warnings)
  {
    PassRequests(p, x, w, ScopePolicy(x), jar, req, hop, r);
    PassAnswers(p, x, w, ScopePolicy(x), jar, req, hop, r);
    PassWarns(p, x, w, jar, req, hop, r);
    assert Others(r.warnings) + [] == Others(r.warnings);
    var pass := SendPass(p, x, w, ScopePolicy(x), jar, req, hop, r);
    stops, t, n := pass.Stop?, pass.run, if pass.Stop? then req else pass.next;
  }

  lemma {:induction false} SendWarns(p: Pipeline, x: Input, w: World, jar: bool, req: Request, hop: nat, r: Run)
    requires hop <= MaxRedirects(x)
    ensures EndAdded(p, x, w, hop, r, Send(p, x, w, ScopePolicy(x), jar, req, hop, r).run)
    decreases MaxRedirects(x) - hop
  {
    var stops, t, n := WarnsByPass(p, x, w, jar, req, hop, r);
    if !stops {
      SendWarns(p, x, w, jar, n, hop + 1, t);
      EndThen(p, x, w, hop, r, t, Send(p, x, w, ScopePolicy(x), jar, n, hop + 1, t).run);
    }
  }

  lemma {:induction false} AuthKeepsOthers(p: Pipeline, w: World, policy: Policy, calls: seq<AuthCall>, r: Run)
    ensures Others(AuthRequests(p, w, policy, calls, r).warnings) == Others(r.warnings)
    decreases |calls|
  {
    if calls != [] {
      var c, n := calls[|calls| - 1], |calls| - 1;
      AuthKeepsOthers(p, w, policy, calls[..n], r);
      CheckKeepsOthers(p, AuthRequests(p, w, policy, calls[..n], r), c.dest, policy, Unpinned);
    }
  }

  /** The authenticator was asked and there is none for the scheme. */
  function AuthWarning(p: Pipeline, w: World, b: Built): seq<Warning> {
    if p.hasAuth && b.deferredAuth && w.authResult.AuthUnsupported? then [AuthNotSupported] else []
  }

  lemma {:induction false} AuthenticateWarns(p: Pipeline, x: Input, w: World, b: Built, r: Run)
    ensures Others(Authenticate(p, x, w, b, r).run.warnings) == Others(r.warnings) + AuthWarning(p, w, b)
  {
    AuthKeepsOthers(p, w, ScopePolicy(x), w.authCalls, r);
    OthersSnoc(AuthRequests(p, w, ScopePolicy(x), w.authCalls, r).warnings, AuthNotSupported);
  }

  /** The end of a run's main requests, if there are any. */
  function LastWarning(p: Pipeline, x: Input, w: World, rs: seq<Request>, a: SendResult): seq<Warning> {
    if rs == [] then [] else EndWarning(p, x, w, rs[|rs| - 1], a, |rs| - 1)
  }

  lemma {:induction false} CheckAndSendParts(p: Pipeline, x: Input, w: World, jar: bool, req: Request, r: Run)
    ensures var c := AfterCheck(p, r, req.url, ScopePolicy(x), x.pin);
            var s, d := Send(p, x, w, ScopePolicy(x), jar, req, 0, c).run,
                        CheckAndSend(p, x, w, ScopePolicy(x), jar, req, r).run;
            || (d.trace == c.trace && d.warnings == c.warnings)
            || (d.trace == s.trace && d.warnings == s.warnings && LastAnswer(w, d) == LastAnswer(w, s))
  {}

  lemma {:induction false} CheckAndSendWarns(p: Pipeline, x: Input, w: World, jar: bool, req: Request, r: Run)
    requires MainRequests(r.trace) == []
    ensures var d := CheckAndSend(p, x, w, ScopePolicy(x), jar, req, r).run;
            Others(d.warnings) == Others(r.warnings) + LastWarning(p, x, w, MainRequests(d.trace), LastAnswer(w, d))
  {
    var c := AfterCheck(p, r, req.url, ScopePolicy(x), x.pin);
    CheckRequests(p, r, req.url, ScopePolicy(x), x.pin);
    CheckKeepsOthers(p, r, req.url, ScopePolicy(x), x.pin);
    assert Others(r.warnings) + [] == Others(r.warnings);
    LoopWarns(p, x, w, jar, req, c);
    CheckAndSendParts(p, x, w, jar, req, r);
  }

  lemma {:induction false} LoopWarns(p: Pipeline, x: Input, w: World, jar: bool, req: Request, c: Run)
    requires MainRequests(c.trace) == []
    ensures var d := Send(p, x, w, ScopePolicy(x), jar, req, 0, c).run;
            Others(d.warnings) == Others(c.warnings) + LastWarning(p, x, w, MainRequests(d.trace), LastAnswer(w, d))
  {
    SendWarns(p, x, w, jar, req, 0, c);
  }

  lemma {:induction false} DispatchWarns(p: Pipeline, x: Input, w: World, b: Built, r: Run)
    requires MainRequests(r.trace) == []
    ensures var d := Dispatch(p, x, w, b, r).run;
            Others(d.warnings) == Others(r.warnings)
                + (if p.hasEncoder && w.encode.EncodeFailed? then [] else AuthWarning(p, w, b))
                + LastWarning(p, x, w, MainRequests(d.trace), LastAnswer(w, d))
  {
    AuthenticateWarns(p, x, w, b, r);
    AuthenticateIs(p, x, w, b, r);
    if !(p.hasEncoder && w.encode.EncodeFailed?) {
      match Authenticate(p, x, w, b, r)
      case NotReady(_) =>
      case Ready(t, hs, url) =>
        var body := if p.hasEncoder && w.encode.Encoded? then w.encode.body else b.body;
        CheckAndSendWarns(p, x, w, !HasCookie(b.headers), RequestFor(b.verb, url, hs, body, x.settings.rawHeaders), t);
    }
  }

  lemma {:induction false} TestsKeepWarnings(p: Pipeline, x: Input, w: World, f: Flow, d: Run)
    ensures AfterResponse(p, x, w, f, d).warnings == d.warnings
  {
    ScriptsKeep(p, x, w, TestPhase, x.tests, 0, d.(outcome := OutcomeSent));
  }

  lemma {:induction false} DispatchedWarns(p: Pipeline, x: Input, w: World)
    requires Dispatches(p, x, w)
    ensures PreRun(p, x, w).warnings == [] && Step(p, x, w).warnings == Dispatched(p, x, w).run.warnings
  {
    ScriptsKeep(p, x, w, PreRequest, x.pre, 0, START);
    var d := Dispatched(p, x, w);
    if d.flow.Some? {
      TestsKeepWarnings(p, x, w, d.flow.value, d.run);
    }
  }

  lemma {:induction false} UndispatchedWarns(p: Pipeline, x: Input, w: World)
    requires !Dispatches(p, x, w)
    ensures Step(p, x, w).warnings == []
  {
    ScriptsKeep(p, x, w, PreRequest, x.pre, 0, START);
  }

  /**
   The other warnings of every run: that there is no authenticator for the scheme, if it was asked and there is
   none, and that the last redirect was not followed, if the checks did not let it pass.
   */
  lemma {:induction false} StepWarnsExactly(p: Pipeline, x: Input, w: World)
    ensures var r := Step(p, x, w);
            Others(r.warnings)
            == (if GetsToRequest(p, x, w) && !(p.hasEncoder && w.encode.EncodeFailed?)
                then AuthWarning(p, w, w.resolve.built) else [])
               + LastWarning(p, x, w, MainRequests(r.trace), LastAnswer(w, r))
  {
    DispatchesExactly(p, x, w);
    if Dispatches(p, x, w) {
      PreRunFacts(p, x, w);
      DispatchWarns(p, x, w, w.resolve.built, PreRun(p, x, w));
      DispatchedWarns(p, x, w);
      DispatchedKeeps(p, x, w);
    } else {
      UndispatchedWarns(p, x, w);
      UndispatchedRun(p, x, w);
      NoMainRequests(Step(p, x, w).trace);
    }
  }
}
