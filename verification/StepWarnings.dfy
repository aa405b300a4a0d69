/** A step's warnings of sending anyway are, one for one and in order, those of the checks that let pass with one. */
module StepWarnings {
  import opened Text
  import opened Redirect
  import opened CollectionStep
  import opened StepSafety

  /** The warnings of sending anyway, in order. */
  function SentAnyways(ws: seq<Warning>): seq<Warning> {
    if ws == [] then []
    else SentAnyways(ws[..|ws| - 1]) + if ws[|ws| - 1].SentAnyway? then [ws[|ws| - 1]] else []
  }

  /** The warnings that the checks of a trace call for, in order. */
  function CalledFor(tr: seq<Event>): seq<Warning> {
    if tr == [] then []
    else
      var ev := tr[|tr| - 1];
      CalledFor(tr[..|tr| - 1]) + if ev.Checked? then Warned(ev.verdict, ev.dest) else []
  }

  /** As many warnings of sending anyway as checks call for, each with its reason and host, in the
      order of the checks. */
  ghost predicate Accounted(r: Run) {
    SentAnyways(r.warnings) == CalledFor(r.trace)
  }

  /** An event that is no check, and no warning. */
  lemma {:induction false} EventAccounted(r: Run, ev: Event, t: Run)
    requires Accounted(r) && !ev.Checked? && t.trace == r.trace + [ev] && t.warnings == r.warnings
    ensures Accounted(t)
  {
    assert t.trace[..|r.trace|] == r.trace;
  }

  /** A warning of another kind. */
  lemma {:induction false} WarningAccounted(r: Run, w: Warning, t: Run)
    requires Accounted(r) && !w.SentAnyway? && t.trace == r.trace && t.warnings == r.warnings + [w]
    ensures Accounted(t)
  {
    assert t.warnings[..|r.warnings|] == r.warnings;
  }

  lemma {:induction false} CheckAccounted(p: Pipeline, r: Run, u: Url, policy: Policy, pin: Pin)
    requires Accounted(r)
    ensures Accounted(AfterCheck(p, r, u, policy, pin))
  {
    var v := CheckDest(p, u, policy, pin);
    var t := AfterCheck(p, r, u, policy, pin);
    assert t.trace[..|r.trace|] == r.trace;
    if v.PassWarned? {
      assert t.warnings[..|r.warnings|] == r.warnings;
    } else {
      assert t.warnings == r.warnings;
    }
  }

  lemma {:induction false} ScriptsAccounted(p: Pipeline, x: Input, w: World, listen: Listen, refs: seq<ScriptRef>,
                                            k: nat, r: Run)
    requires k <= |refs| && Accounted(r)
    ensures Accounted(RunScripts(p, x, w, listen, refs, k, r).run)
    decreases |refs| - k
  {
    if k < |refs| {
      var s := refs[k];
      if x.noScripts {
        ScriptsAccounted(p, x, w, listen, refs, k + 1, r.(notes := r.notes + [Note(s, Disabled)]));
      } else if !Trusted(p, x, s.hash) {
        ScriptsAccounted(p, x, w, listen, refs, k + 1, r.(notes := r.notes + [Note(s, NotTrusted)]));
      } else if !p.hasEngine {
        ScriptsAccounted(p, x, w, listen, refs, k + 1, r.(notes := r.notes + [Note(s, NoEngine)]));
      } else {
        var t := r.(trace := r.trace + [Ran(listen, k, s)]);
        EventAccounted(r, Ran(listen, k, s), t);
        var a := w.script(listen, k);
        ScriptsAccounted(p, x, w, listen, refs, k + 1, t);
        ScriptsAccounted(p, x, w, listen, refs, k + 1,
                         t.(notes := t.notes
                                    + [Note(s, if a.error == Unsupported then EndedUnsupported else EndedInError)]));
      }
    }
  }

  lemma {:induction false} AuthAccounted(p: Pipeline, w: World, policy: Policy, calls: seq<AuthCall>, r: Run)
    requires Accounted(r)
    ensures Accounted(AuthRequests(p, w, policy, calls, r))
    decreases |calls|
  {
    if calls != [] {
      var c := calls[|calls| - 1];
      var before := AuthRequests(p, w, policy, calls[..|calls| - 1], r);
      AuthAccounted(p, w, policy, calls[..|calls| - 1], r);
      CheckAccounted(p, before, c.dest, policy, Unpinned);
      var t := AfterCheck(p, before, c.dest, policy, Unpinned);
      EventAccounted(t, SentAuth(c.dest), t.(trace := t.trace + [SentAuth(c.dest)], sends := t.sends + 1));
    }
  }

  lemma {:induction false} SendOnceAccounted(p: Pipeline, x: Input, w: World, req: Request, r: Run)
    requires Accounted(r)
    ensures Accounted(SendOnce(p, x, w, req, r))
  {
    var t := r.(trace := r.trace + [SentMain(req)], sends := r.sends + 1);
    EventAccounted(r, SentMain(req), t);
    ReportsKeepTrace(p, x, w.send(r.sends).reported, t);
  }

  lemma {:induction false} PassAccounted(p: Pipeline, x: Input, w: World, policy: Policy, jar: bool, req: Request,
                                         hop: nat, r: Run)
    requires Accounted(r)
    ensures Accounted(SendPass(p, x, w, policy, jar, req, hop, r).run)
  {
    SendOnceAccounted(p, x, w, req, r);
    var t := SendOnce(p, x, w, req, r);
    var a := w.send(r.sends).result;
    if a.Got? && NextHop(w.resolveRef, req, a.flow).Some? {
      var n := NextHop(w.resolveRef, req, a.flow).value;
      var v := CheckDest(p, n.url, policy, x.pin);
      var c := AfterCheck(p, t, n.url, policy, x.pin);
      CheckAccounted(p, t, n.url, policy, x.pin);
      if v.Refused? {
        var warning := NotFollowed(v.reason, n.url.hostname);
        WarningAccounted(c, warning, c.(warnings := c.warnings + [warning]));
      }
    }
  }

  lemma {:induction false} SendAccounted(p: Pipeline, x: Input, w: World, policy: Policy, jar: bool, req: Request,
                                         hop: nat, r: Run)
    requires hop <= MaxRedirects(x) && Accounted(r)
    ensures Accounted(Send(p, x, w, policy, jar, req, hop, r).run)
    decreases MaxRedirects(x) - hop
  {
    PassAccounted(p, x, w, policy, jar, req, hop, r);
    match SendPass(p, x, w, policy, jar, req, hop, r)
    case Stop(_, _) =>
    case Continue(t, n) => SendAccounted(p, x, w, policy, jar, n, hop + 1, t);
  }

  lemma {:induction false} DispatchAccounted(p: Pipeline, x: Input, w: World, b: Built, r: Run)
    requires Accounted(r)
    ensures Accounted(Dispatch(p, x, w, b, r).run)
  {
    AuthAccounted(p, w, ScopePolicy(x), w.authCalls, r);
    var t := AuthRequests(p, w, ScopePolicy(x), w.authCalls, r);
    WarningAccounted(t, AuthNotSupported, t.(warnings := t.warnings + [AuthNotSupported]));
    var body := if p.hasEncoder && w.encode.Encoded? then w.encode.body else b.body;
    match Authenticate(p, x, w, b, r)
    case NotReady(_) =>
    case Ready(u, hs, url) =>
      CheckAndSendAccounted(p, x, w, !HasCookie(b.headers), RequestFor(b.verb, url, hs, body, x.settings.rawHeaders),
                            u);
  }

  lemma {:induction false} CheckAndSendAccounted(p: Pipeline, x: Input, w: World, jar: bool, req: Request, r: Run)
    requires Accounted(r)
    ensures Accounted(CheckAndSend(p, x, w, ScopePolicy(x), jar, req, r).run)
  {
    CheckAccounted(p, r, req.url, ScopePolicy(x), x.pin);
    SendAccounted(p, x, w, ScopePolicy(x), jar, req, 0, AfterCheck(p, r, req.url, ScopePolicy(x), x.pin));
  }

  lemma {:induction false} DispatchedAccounted(p: Pipeline, x: Input, w: World, b: Built, r: Run)
    requires Accounted(r)
    ensures var d := Dispatch(p, x, w, b, r); d.flow.Some? ==> Accounted(AfterResponse(p, x, w, d.flow.value, d.run))
  {
    DispatchAccounted(p, x, w, b, r);
    var d := Dispatch(p, x, w, b, r);
    ScriptsAccounted(p, x, w, TestPhase, x.tests, 0, d.run.(outcome := OutcomeSent));
  }

  /**
   In every run the warnings of sending anyway are those of the checks that let a destination pass with
   one: as many, in the order of the checks, each with the reason and the host.
   */
  lemma {:induction false} EveryWarningIsOfOneCheck(p: Pipeline, x: Input, w: World)
    ensures Accounted(Step(p, x, w))
  {
    assert Accounted(START);
    ScriptsAccounted(p, x, w, PreRequest, x.pre, 0, START);
    var s := RunScripts(p, x, w, PreRequest, x.pre, 0, START);
    if !QuarantineBlocks(p, x) && s.ok && !s.skip && w.resolve.Resolved? {
      DispatchAccounted(p, x, w, w.resolve.built, s.run);
      DispatchedAccounted(p, x, w, w.resolve.built, s.run);
    }
  }
}
